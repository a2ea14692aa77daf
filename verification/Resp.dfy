/** Reply trees, how they are printed on the wire, and the reader as a machine on values. */
module Resp {
  import opened Common
  import opened Decimal

  /** A reply tree. Unfilled is the null pointer of a freshly allocated element array: it occurs
      only while the reader is still filling an aggregate in place. */
  datatype Reply =
    | Str(text: string)
    | Status(text: string)
    | Error(text: string)
    | Integer(value: int)
    | Nil
    | Aggregate(push: bool, element: seq<Reply>)
    | Unfilled

  const CRLF: string := "\r\n"

  function Header(mark: char, n: int): string {
    [mark] + Text(n) + CRLF
  }

  function AggregateMark(push: bool): char { if push then '>' else '*' }

  function Print(t: Reply): string
    decreases t, 1
  {
    match t
    case Str(s) => Header('$', |s|) + s + CRLF
    case Status(s) => "+" + s + CRLF
    case Error(s) => "-" + s + CRLF
    case Integer(n) => Header(':', n)
    case Nil => Header('$', -1)
    case Aggregate(push, element) => Header(AggregateMark(push), |element|) + PrintAll(element)
    case Unfilled => ""
  }

  function PrintAll(ts: seq<Reply>): string
    decreases ts, 0
  {
    if ts == [] then "" else Print(ts[0]) + PrintAll(ts[1..])
  }

  /** The bound on element counts: the reader keeps them in a 32-bit int. */
  const MAX_ELEMENTS: nat := 0x7fff_ffff

  predicate HasNewline(s: string) {
    exists i :: 0 <= i < |s| - 1 && s[i] == '\r' && s[i + 1] == '\n'
  }

  /** The trees a server may print: values that fit, lines without line breaks, and no aggregate
      as a direct child of a push. */
  predicate WellFormed(t: Reply)
    decreases t
  {
    match t
    case Str(s) => |s| <= INT64_MAX
    case Status(s) => !HasNewline(s)
    case Error(s) => !HasNewline(s)
    case Integer(n) => IsInt64(n)
    case Nil => true
    case Aggregate(push, element) =>
      && |element| <= MAX_ELEMENTS
      && (forall i :: 0 <= i < |element| ==> WellFormed(element[i]))
      && (push ==> forall i :: 0 <= i < |element| ==> !element[i].Aggregate?)
    case Unfilled => false
  }

  function Max(a: nat, b: nat): nat { if a < b then b else a }

  /** How many aggregates are nested in each other. */
  function Height(t: Reply): nat
    decreases t, 1
  {
    if t.Aggregate? then 1 + HeightAll(t.element) else 0
  }

  function HeightAll(ts: seq<Reply>): nat
    decreases ts, 0
  {
    if ts == [] then 0 else Max(Height(ts[0]), HeightAll(ts[1..]))
  }

  // ---- the reader as a machine on values ----

  /** What a stack slot's type field says. */
  datatype Kind = KString | KArray | KInteger | KStatus | KError | KPush

  datatype ReadError =
    | BadTypeByte
    | BadInteger
    | BadBulkLength
    | BulkLengthOutOfRange
    | TooDeep
    | BadMultiBulkLength
    | MultiBulkLengthOutOfRange
    | OutOfMemory
    | AssertionFailed

  /** An aggregate being filled: the children still missing are elements - |done| > 0. */
  datatype Frame = Frame(push: bool, elements: nat, done: seq<Reply>)

  predicate Open(frames: seq<Frame>) {
    forall k :: 0 <= k < |frames| ==> |frames[k].done| < frames[k].elements
  }

  datatype Step =
    | NeedMore(kind: Option<Kind>, rest: string)
    | Fail(error: ReadError)
    | Next(frames: seq<Frame>, rest: string)
    | Emit(reply: Reply, rest: string)

  /** The position of the first line break. */
  function NewlineAt(s: string): (r: Option<nat>)
    ensures r.Some? ==> r.value + 1 < |s| && s[r.value] == '\r' && s[r.value + 1] == '\n'
    ensures r.Some? ==> !HasNewline(s[..r.value + 1])
    ensures r.None? ==> !HasNewline(s)
  {
    if |s| < 2 then None
    else if s[0] == '\r' && s[1] == '\n' then Some(0)
    else
      match NewlineAt(s[1..])
      case None => NewlineInTail(s, |s|); None
      case Some(k) => NewlineInTail(s, k + 2); Some(k + 1)
  }

  lemma NewlineInTail(s: string, n: nat)
    requires 2 <= n <= |s| && !(s[0] == '\r' && s[1] == '\n')
    requires !HasNewline(s[1..][..n - 1])
    ensures !HasNewline(s[..n])
  {
    var tail := s[1..][..n - 1];
    forall i | 0 < i < n - 1 ensures !(s[..n][i] == '\r' && s[..n][i + 1] == '\n') {
      assert tail[i - 1] == s[i] && tail[i - 1 + 1] == s[i + 1];
    }
  }

  /** A child is complete: it takes its place in its parent, which may complete the parent too. */
  function Finish(frames: seq<Frame>, t: Reply, rest: string): (r: Step)
    requires Open(frames)
    ensures r.Emit? || r.Next?
    ensures r.rest == rest
    ensures r.Next? ==> Open(r.frames) && 0 < |r.frames| <= |frames|
    decreases |frames|
  {
    if frames == [] then Emit(t, rest)
    else
      var outer, top := frames[..|frames|-1], frames[|frames|-1];
      if |top.done| + 1 == top.elements
      then Finish(outer, Aggregate(top.push, top.done + [t]), rest)
      else Next(outer + [top.(done := top.done + [t])], rest)
  }

  function KindOfByte(c: char): Option<Kind> {
    match c
    case '-' => Some(KError)
    case '+' => Some(KStatus)
    case ':' => Some(KInteger)
    case '$' => Some(KString)
    case '*' => Some(KArray)
    case '>' => Some(KPush)
    case _ => None
  }

  predicate Progress(r: Step, rest: string) {
    match r
    case NeedMore(_, left) => |left| <= |rest|
    case Fail(_) => true
    case Next(frames, left) => Open(frames) && |frames| <= 8 && |left| < |rest|
    case Emit(_, left) => |left| < |rest|
  }

  function LineItem(frames: seq<Frame>, kind: Kind, rest: string): (r: Step)
    requires Open(frames) && |frames| <= 8
    requires kind.KInteger? || kind.KStatus? || kind.KError?
    ensures Progress(r, rest)
  {
    match NewlineAt(rest)
    case None => NeedMore(Some(kind), rest)
    case Some(k) =>
      var line, left := rest[..k], rest[k + 2..];
      if kind.KInteger? then
        match Int64Of(line)
        case None => Fail(BadInteger)
        case Some(v) => Finish(frames, Integer(v), left)
      else Finish(frames, if kind.KStatus? then Status(line) else Error(line), left)
  }

  function BulkItem(frames: seq<Frame>, rest: string): (r: Step)
    requires Open(frames) && |frames| <= 8
    ensures Progress(r, rest)
  {
    match NewlineAt(rest)
    case None => NeedMore(Some(KString), rest)
    case Some(k) =>
      match Int64Of(rest[..k])
      case None => Fail(BadBulkLength)
      case Some(len) =>
        if len < -1 then Fail(BulkLengthOutOfRange)
        else if len == -1 then Finish(frames, Nil, rest[k + 2..])
        else if k + 2 + len + 2 <= |rest| then
          Finish(frames, Str(rest[k + 2..k + 2 + len]), rest[k + 2 + len + 2..])
        else NeedMore(Some(KString), rest)
  }

  predicate ParentIsPush(frames: seq<Frame>) {
    frames != [] && frames[|frames|-1].push
  }

  function MultiBulkItem(frames: seq<Frame>, push: bool, rest: string): (r: Step)
    requires Open(frames) && |frames| <= 8
    ensures Progress(r, rest)
  {
    if |frames| == 8 then Fail(TooDeep)
    else
      match NewlineAt(rest)
      case None => NeedMore(Some(if push then KPush else KArray), rest)
      case Some(k) =>
        var left := rest[k + 2..];
        match Int64Of(rest[..k])
        case None => Fail(BadMultiBulkLength)
        case Some(n) =>
          if n < -1 then Fail(MultiBulkLengthOutOfRange)
          else if n == -1 then Finish(frames, Nil, left)
          else if n > MAX_ELEMENTS then Fail(OutOfMemory)
          else if ParentIsPush(frames) then Fail(AssertionFailed)
          else if n == 0 then Finish(frames, Aggregate(push, []), left)
          else Next(frames + [Frame(push, n, [])], left)
  }

  function TypedItem(frames: seq<Frame>, kind: Kind, rest: string): (r: Step)
    requires Open(frames) && |frames| <= 8
    ensures Progress(r, rest)
  {
    match kind
    case KString => BulkItem(frames, rest)
    case KArray => MultiBulkItem(frames, false, rest)
    case KPush => MultiBulkItem(frames, true, rest)
    case _ => LineItem(frames, kind, rest)
  }

  /** One pass of processItem: read the type byte unless it is known, then the item. */
  function ProcessItem(frames: seq<Frame>, kind: Option<Kind>, rest: string): (r: Step)
    requires Open(frames) && |frames| <= 8
    ensures Progress(r, rest)
  {
    if kind.Some? then TypedItem(frames, kind.value, rest)
    else if rest == "" then NeedMore(None, rest)
    else
      match KindOfByte(rest[0])
      case None => Fail(BadTypeByte)
      case Some(k) => TypedItem(frames, k, rest[1..])
  }

  /** Between two feeds: either broken for good, or waiting with some unread bytes. */
  datatype State = Broken(error: ReadError) | Reading(frames: seq<Frame>, kind: Option<Kind>, unread: string)
  {
    predicate Valid() {
      Reading? ==> Open(frames) && |frames| <= 8
    }
  }

  const INITIAL: State := Reading([], None, "")

  /** One redisReaderGetReply: process items until a reply is complete or bytes run out. */
  function Pull(frames: seq<Frame>, kind: Option<Kind>, rest: string): (r: (Option<Reply>, State))
    requires Open(frames) && |frames| <= 8
    ensures r.1.Valid()
    ensures r.0.Some? ==> r.1.Reading? && r.1.frames == [] && r.1.kind == None && |r.1.unread| < |rest|
    decreases |rest|
  {
    match ProcessItem(frames, kind, rest)
    case NeedMore(k, left) => (None, Reading(frames, k, left))
    case Fail(e) => (None, Broken(e))
    case Next(f, left) => Pull(f, None, left)
    case Emit(t, left) => (Some(t), Reading([], None, left))
  }

  /** Pull until no reply is left: all replies, and the state in which the reader stops. */
  function Run(frames: seq<Frame>, kind: Option<Kind>, rest: string): (r: (seq<Reply>, State))
    requires Open(frames) && |frames| <= 8
    ensures r.1.Valid()
    decreases |rest|
  {
    match ProcessItem(frames, kind, rest)
    case NeedMore(k, left) => ([], Reading(frames, k, left))
    case Fail(e) => ([], Broken(e))
    case Next(f, left) => Run(f, None, left)
    case Emit(t, left) => var r := Run([], None, left); ([t] + r.0, r.1)
  }

  lemma {:induction false} RunIsRepeatedPull(frames: seq<Frame>, kind: Option<Kind>, rest: string)
    requires Open(frames) && |frames| <= 8
    ensures
      var p, r := Pull(frames, kind, rest), Run(frames, kind, rest);
      if p.0.None? then r == ([], p.1)
      else var more := Run([], None, p.1.unread); r == ([p.0.value] + more.0, more.1)
    decreases |rest|
  {
    match ProcessItem(frames, kind, rest)
    case NeedMore(_, _) =>
    case Fail(_) =>
    case Next(f, left) => RunIsRepeatedPull(f, None, left);
    case Emit(_, _) =>
  }

  /** Feed some bytes and pull all replies. A broken reader ignores what it is fed. */
  function Feed(st: State, bytes: string): (r: (seq<Reply>, State))
    requires st.Valid()
    ensures r.1.Valid()
  {
    if st.Broken? then ([], st) else Run(st.frames, st.kind, st.unread + bytes)
  }

  function FeedAll(st: State, chunks: seq<string>): (r: (seq<Reply>, State))
    requires st.Valid()
    ensures r.1.Valid()
    decreases |chunks|
  {
    if chunks == [] then ([], st)
    else
      var a := Feed(st, chunks[0]);
      var b := FeedAll(a.1, chunks[1..]);
      (a.0 + b.0, b.1)
  }

  // ---- chunk independence ----

  lemma {:induction false} NewlineInLonger(s: string, more: string)
    ensures NewlineAt(s).Some? ==> NewlineAt(s + more) == NewlineAt(s)
  {
    if |s| >= 2 && !(s[0] == '\r' && s[1] == '\n') {
      NewlineInLonger(s[1..], more);
      assert (s + more)[1..] == s[1..] + more;
    }
  }

  lemma {:induction false} FinishCarriesRest(frames: seq<Frame>, t: Reply, rest: string, more: string)
    requires Open(frames)
    ensures Finish(frames, t, rest + more) ==
      match Finish(frames, t, rest)
      case Next(f, left) => Next(f, left + more)
      case Emit(x, left) => Emit(x, left + more)
    decreases |frames|
  {
    if frames != [] {
      var outer, top := frames[..|frames|-1], frames[|frames|-1];
      if |top.done| + 1 == top.elements {
        FinishCarriesRest(outer, Aggregate(top.push, top.done + [t]), rest, more);
      }
    }
  }

  /** An item decided on a prefix is decided the same way when more bytes follow, and an item that
      ran out of bytes resumes as if it had seen all of them at once. */
  ghost predicate Resumes(frames: seq<Frame>, before: Step, after: Step, more: string)
    requires Open(frames) && |frames| <= 8
  {
    match before
    case Fail(_) => after == before
    case Next(f, left) => after == Next(f, left + more)
    case Emit(x, left) => after == Emit(x, left + more)
    case NeedMore(k, left) => after == ProcessItem(frames, k, left + more)
  }

  /** Cutting behind a line break is not affected by what follows. */
  lemma CutInLonger(rest: string, k: nat, n: nat, more: string)
    requires k <= n <= |rest|
    ensures (rest + more)[k..n] == rest[k..n] && (rest + more)[n..] == rest[n..] + more
  {}

  lemma LineItemResumes(frames: seq<Frame>, kind: Kind, rest: string, more: string)
    requires Open(frames) && |frames| <= 8
    requires kind.KInteger? || kind.KStatus? || kind.KError?
    ensures Resumes(frames, LineItem(frames, kind, rest), LineItem(frames, kind, rest + more), more)
  {
    hide Int64Of, NewlineAt, Finish;
    NewlineInLonger(rest, more);
    if NewlineAt(rest).Some? {
      var k := NewlineAt(rest).value;
      CutInLonger(rest, 0, k, more);
      CutInLonger(rest, k, k + 2, more);
      var line := rest[..k];
      var t := match kind
        case KInteger => (match Int64Of(line) case None => Nil case Some(v) => Integer(v))
        case KStatus => Status(line)
        case _ => Error(line);
      FinishCarriesRest(frames, t, rest[k + 2..], more);
    }
  }

  lemma BulkItemResumes(frames: seq<Frame>, rest: string, more: string)
    requires Open(frames) && |frames| <= 8
    ensures Resumes(frames, BulkItem(frames, rest), BulkItem(frames, rest + more), more)
  {
    hide Int64Of, NewlineAt, Finish, Open, HasNewline;
    NewlineInLonger(rest, more);
    if NewlineAt(rest).Some? {
      var k := NewlineAt(rest).value;
      CutInLonger(rest, 0, k, more);
      CutInLonger(rest, k, k + 2, more);
      FinishCarriesRest(frames, Nil, rest[k + 2..], more);
      var len := Int64Of(rest[..k]);
      if len.Some? && len.value >= 0 && k + 2 + len.value + 2 <= |rest| {
        var n := k + 2 + len.value;
        CutInLonger(rest, k + 2, n, more);
        CutInLonger(rest, n, n + 2, more);
        FinishCarriesRest(frames, Str(rest[k + 2..n]), rest[n + 2..], more);
      }
    }
  }

  lemma MultiBulkItemResumes(frames: seq<Frame>, push: bool, rest: string, more: string)
    requires Open(frames) && |frames| <= 8
    ensures Resumes(frames, MultiBulkItem(frames, push, rest), MultiBulkItem(frames, push, rest + more), more)
  {
    hide Int64Of, NewlineAt, Finish;
    NewlineInLonger(rest, more);
    if NewlineAt(rest).Some? {
      var k := NewlineAt(rest).value;
      CutInLonger(rest, 0, k, more);
      CutInLonger(rest, k, k + 2, more);
      FinishCarriesRest(frames, Nil, rest[k + 2..], more);
      FinishCarriesRest(frames, Aggregate(push, []), rest[k + 2..], more);
    }
  }

  lemma TypedItemResumes(frames: seq<Frame>, kind: Kind, rest: string, more: string)
    requires Open(frames) && |frames| <= 8
    ensures Resumes(frames, TypedItem(frames, kind, rest), TypedItem(frames, kind, rest + more), more)
  {
    match kind
    case KString => BulkItemResumes(frames, rest, more);
    case KArray => MultiBulkItemResumes(frames, false, rest, more);
    case KPush => MultiBulkItemResumes(frames, true, rest, more);
    case _ => LineItemResumes(frames, kind, rest, more);
  }

  lemma {:induction false} ProcessItemResumes(frames: seq<Frame>, kind: Option<Kind>, rest: string, more: string)
    requires Open(frames) && |frames| <= 8
    ensures Resumes(frames, ProcessItem(frames, kind, rest), ProcessItem(frames, kind, rest + more), more)
  {
    if kind.Some? {
      TypedItemResumes(frames, kind.value, rest, more);
    } else if rest != "" && KindOfByte(rest[0]).Some? {
      assert (rest + more)[1..] == rest[1..] + more;
      TypedItemResumes(frames, KindOfByte(rest[0]).value, rest[1..], more);
    }
  }

  /** What a run returns when its first item ended in r. */
  function RunFrom(frames: seq<Frame>, r: Step): (seq<Reply>, State)
    requires Open(frames) && |frames| <= 8
    requires r.Next? ==> Open(r.frames) && |r.frames| <= 8
  {
    match r
    case NeedMore(k, left) => ([], Reading(frames, k, left))
    case Fail(e) => ([], Broken(e))
    case Next(f, left) => Run(f, None, left)
    case Emit(t, left) => Prepend(t, Run([], None, left))
  }

  function Prepend(t: Reply, r: (seq<Reply>, State)): (seq<Reply>, State) { ([t] + r.0, r.1) }

  /** Feeding two pieces one after the other is feeding them at once. */
  lemma {:induction false} RunSplits(frames: seq<Frame>, kind: Option<Kind>, rest: string, more: string)
    requires Open(frames) && |frames| <= 8
    ensures
      var a := Run(frames, kind, rest);
      var b := Feed(a.1, more);
      Run(frames, kind, rest + more) == (a.0 + b.0, b.1)
    decreases |rest|
  {
    hide ProcessItem;
    ProcessItemResumes(frames, kind, rest, more);
    var r := ProcessItem(frames, kind, rest);
    var a := Run(frames, kind, rest);
    assert a == RunFrom(frames, r);
    assert Run(frames, kind, rest + more) == RunFrom(frames, ProcessItem(frames, kind, rest + more));
    match r
    case NeedMore(k, left) =>
      assert Feed(a.1, more).0 == a.0 + Feed(a.1, more).0;
      assert Run(frames, k, left + more) == RunFrom(frames, ProcessItem(frames, k, left + more));
    case Fail(e) =>
      assert Feed(a.1, more).0 == a.0 == a.0 + Feed(a.1, more).0;
    case Next(f, left) => RunSplits(f, None, left, more);
    case Emit(t, left) =>
      RunSplits([], None, left, more);
      var a' := Run([], None, left);
      assert [t] + (a'.0 + Feed(a'.1, more).0) == ([t] + a'.0) + Feed(a'.1, more).0;
  }

  /** Pulling again without new bytes yields nothing: a run stops only when it is stuck. */
  lemma RunIsExhaustive(frames: seq<Frame>, kind: Option<Kind>, rest: string)
    requires Open(frames) && |frames| <= 8
    ensures var st := Run(frames, kind, rest).1; Feed(st, "") == ([], st)
  {
    RunSplits(frames, kind, rest, "");
    assert rest + "" == rest;
  }

  /** Chunk independence: only the concatenation of the chunks matters, for the replies and for
      the state (broken or not, and how) in which the reader is left. */
  lemma {:induction false} ChunkingIsIrrelevant(st: State, chunks: seq<string>)
    requires st.Valid() && Feed(st, "") == ([], st)
    ensures FeedAll(st, chunks) == Feed(st, Flatten(chunks))
    decreases |chunks|
  {
    hide ProcessItem, Run;
    if chunks != [] && st.Reading? {
      var a, tail := Feed(st, chunks[0]), Flatten(chunks[1..]);
      RunIsExhaustive(st.frames, st.kind, st.unread + chunks[0]);
      ChunkingIsIrrelevant(a.1, chunks[1..]);
      RunSplits(st.frames, st.kind, st.unread + chunks[0], tail);
      assert st.unread + chunks[0] + tail == st.unread + Flatten(chunks);
    } else if chunks != [] {
      ChunkingIsIrrelevant(st, chunks[1..]);
      assert Feed(st, chunks[0]) == ([], st);
      assert FeedAll(st, chunks).0 == Feed(st, chunks[0]).0 + FeedAll(st, chunks[1..]).0 == [];
    }
  }

  lemma InitialIsExhausted()
    ensures Feed(INITIAL, "") == ([], INITIAL)
  {}

  lemma TwoChunkingsAgree(a: seq<string>, b: seq<string>)
    requires Flatten(a) == Flatten(b)
    ensures FeedAll(INITIAL, a) == FeedAll(INITIAL, b)
  {
    ChunkingIsIrrelevant(INITIAL, a);
    ChunkingIsIrrelevant(INITIAL, b);
  }
}
