/** Printing and reading are inverse: what the printers write, the reader gets back, and whatever
    the reader emits can be printed and read again. */
module RespRoundTrip {
  import opened Common
  import opened Decimal
  import opened Resp

  // ---- single items ----

  lemma {:induction false} NewlineBehindLine(line: string, rest: string)
    requires !HasNewline(line)
    ensures NewlineAt(line + CRLF + rest) == Some(|line|)
  {
    var s := line + CRLF + rest;
    if line != "" {
      assert s[1..] == line[1..] + CRLF + rest;
      forall i | 0 <= i < |line[1..]| - 1 ensures !(line[1..][i] == '\r' && line[1..][i + 1] == '\n') {
        assert line[i + 1] == line[1..][i] && line[i + 1 + 1] == line[1..][i + 1];
      }
      NewlineBehindLine(line[1..], rest);
      assert !(s[0] == '\r' && s[1] == '\n') by {
        if |line| > 1 { assert line[0] == s[0] && line[0 + 1] == s[1]; }
      }
    }
  }

  lemma TextHasNoNewline(n: int)
    ensures !HasNewline(Text(n))
  {
    var body := Digits(if n < 0 then -n else n);
    forall i | 0 <= i < |Text(n)| ensures Text(n)[i] != '\n' {
      if n < 0 && i > 0 { assert Text(n)[i] == body[i - 1]; }
    }
  }

  /** Cutting a line off a printed text. */
  lemma LineSplits(line: string, rest: string)
    requires !HasNewline(line)
    ensures
      var s := line + CRLF + rest;
      NewlineAt(s) == Some(|line|) && s[..|line|] == line && s[|line| + 2..] == rest
  {
    NewlineBehindLine(line, rest);
  }

  lemma HeaderSplits(n: int, rest: string)
    requires IsInt64(n)
    ensures
      var s := Text(n) + CRLF + rest; var k := |Text(n)|;
      NewlineAt(s) == Some(k) && Int64Of(s[..k]) == Some(n) && s[k + 2..] == rest
  {
    TextHasNoNewline(n);
    LineSplits(Text(n), rest);
    Int64OfIffText(Text(n), n);
  }

  /** The bytes behind the type byte of a printed scalar. */
  lemma PrintedScalar(t: Reply, rest: string)
    requires !t.Aggregate? && !t.Unfilled?
    ensures
      var s := Print(t) + rest;
      s[1..] == match t
        case Str(x) => Text(|x|) + CRLF + (x + CRLF + rest)
        case Status(x) => x + CRLF + rest
        case Error(x) => x + CRLF + rest
        case Integer(n) => Text(n) + CRLF + rest
        case _ => Text(-1) + CRLF + rest
  {}

  lemma BulkSlices(head: string, x: string, rest: string)
    ensures
      var b, k := head + CRLF + (x + CRLF + rest), |head|;
      b[k + 2..k + 2 + |x|] == x && b[k + 2 + |x| + 2..] == rest
  {
    var c := x + CRLF + rest;
    var b, k := head + CRLF + c, |head|;
    assert b[k + 2..] == c && c[..|x|] == x && c[|x| + 2..] == rest;
    assert b[k + 2..k + 2 + |x|] == c[..|x|] && b[k + 2 + |x| + 2..] == c[|x| + 2..];
  }

  lemma BulkParses(frames: seq<Frame>, x: string, rest: string)
    requires Open(frames) && |frames| <= 8 && IsInt64(|x|)
    ensures BulkItem(frames, Text(|x|) + CRLF + (x + CRLF + rest)) == Finish(frames, Str(x), rest)
  {
    hide Finish, NewlineAt, Int64Of, Text, HasNewline, Open;
    HeaderSplits(|x|, x + CRLF + rest);
    BulkSlices(Text(|x|), x, rest);
  }

  lemma NilParses(frames: seq<Frame>, rest: string)
    requires Open(frames) && |frames| <= 8
    ensures BulkItem(frames, Text(-1) + CRLF + rest) == Finish(frames, Nil, rest)
  {
    hide Finish, NewlineAt, Int64Of, Text, HasNewline;
    HeaderSplits(-1, rest);
  }

  lemma LineParses(frames: seq<Frame>, kind: Kind, line: string, rest: string)
    requires Open(frames) && |frames| <= 8 && !HasNewline(line) && (kind.KStatus? || kind.KError?)
    ensures LineItem(frames, kind, line + CRLF + rest)
      == Finish(frames, if kind.KStatus? then Status(line) else Error(line), rest)
  {
    hide Finish, NewlineAt, Int64Of, HasNewline;
    LineSplits(line, rest);
  }

  lemma IntegerParses(frames: seq<Frame>, n: int, rest: string)
    requires Open(frames) && |frames| <= 8 && IsInt64(n)
    ensures LineItem(frames, KInteger, Text(n) + CRLF + rest) == Finish(frames, Integer(n), rest)
  {
    hide Finish, NewlineAt, Int64Of, Text, HasNewline;
    HeaderSplits(n, rest);
  }

  lemma ScalarParses(frames: seq<Frame>, t: Reply, rest: string)
    requires Open(frames) && |frames| <= 8
    requires WellFormed(t) && !t.Aggregate?
    ensures ProcessItem(frames, None, Print(t) + rest) == Finish(frames, t, rest)
  {
    PrintedScalar(t, rest);
    ScalarMark(t, rest);
    hide Finish, BulkItem, LineItem, MultiBulkItem, Text, HasNewline, Print, Open;
    match t
    case Str(x) => BulkParses(frames, x, rest);
    case Status(x) => LineParses(frames, KStatus, x, rest);
    case Error(x) => LineParses(frames, KError, x, rest);
    case Integer(n) => IntegerParses(frames, n, rest);
    case Nil => NilParses(frames, rest);
  }

  lemma ScalarMark(t: Reply, rest: string)
    requires !t.Aggregate? && !t.Unfilled?
    ensures
      var s := Print(t) + rest;
      s != "" && KindOfByte(s[0]) == Some(match t
        case Str(_) => KString
        case Status(_) => KStatus
        case Error(_) => KError
        case Integer(_) => KInteger
        case _ => KString)
  {
    hide Text;
  }

  /** A nil array is another spelling of nil. */
  lemma NilArrayParses(frames: seq<Frame>, push: bool, rest: string)
    requires Open(frames) && |frames| < 8
    ensures ProcessItem(frames, None, Header(AggregateMark(push), -1) + rest) == Finish(frames, Nil, rest)
  {
    hide Finish, NewlineAt, Int64Of, Text;
    assert (Header(AggregateMark(push), -1) + rest)[1..] == Text(-1) + CRLF + rest;
    HeaderSplits(-1, rest);
  }

  lemma Assoc(a: string, b: string, c: string)
    ensures a + b + c == a + (b + c)
  {}

  lemma PrintedAggregate(push: bool, element: seq<Reply>, rest: string)
    ensures
      var s := Print(Aggregate(push, element)) + rest;
      && s != "" && s[0] == AggregateMark(push)
      && s[1..] == Text(|element|) + CRLF + (PrintAll(element) + rest)
    ensures element == [] ==> PrintAll(element) + rest == rest
  {
    hide Text;
    var mark, text, all := [AggregateMark(push)], Text(|element|), PrintAll(element);
    assert Print(Aggregate(push, element)) == mark + text + CRLF + all;
    Assoc(mark + text + CRLF, all, rest);
    Assoc(mark, text, CRLF);
    Assoc(mark, text + CRLF, all + rest);
  }

  lemma AggregateHeaderParses(frames: seq<Frame>, push: bool, element: seq<Reply>, rest: string)
    requires Open(frames) && |frames| < 8 && !ParentIsPush(frames)
    requires |element| <= MAX_ELEMENTS
    ensures ProcessItem(frames, None, Print(Aggregate(push, element)) + rest) ==
      if element == [] then Finish(frames, Aggregate(push, []), rest)
      else Next(frames + [Frame(push, |element|, [])], PrintAll(element) + rest)
  {
    hide Finish, NewlineAt, Int64Of, Print, PrintAll;
    PrintedAggregate(push, element, rest);
    HeaderSplits(|element|, PrintAll(element) + rest);
  }

  // ---- whole trees ----

  function PullFrom(frames: seq<Frame>, r: Step): (Option<Reply>, State)
    requires r.Next? ==> Open(r.frames) && |r.frames| <= 8
  {
    match r
    case NeedMore(k, left) => (None, Reading(frames, k, left))
    case Fail(e) => (None, Broken(e))
    case Next(f, left) => Pull(f, None, left)
    case Emit(t, left) => (Some(t), Reading([], None, left))
  }

  /** Reading a printed tree is the same as being handed that tree as one finished child. */
  lemma {:induction false} TreeParses(frames: seq<Frame>, t: Reply, rest: string)
    requires Open(frames) && WellFormed(t) && |frames| + Height(t) <= 8
    requires ParentIsPush(frames) ==> !t.Aggregate?
    ensures Pull(frames, None, Print(t) + rest) == PullFrom(frames, Finish(frames, t, rest))
    decreases t, 1
  {
    hide ProcessItem;
    if t.Aggregate? {
      AggregateHeaderParses(frames, t.push, t.element, rest);
      if t.element != [] {
        assert [] + t.element == t.element;
        ChildrenParse(frames, t.push, |t.element|, [], t.element, rest);
      }
    } else {
      ScalarParses(frames, t, rest);
    }
  }

  ghost predicate Children(ts: seq<Reply>, push: bool) {
    forall i :: 0 <= i < |ts| ==> WellFormed(ts[i]) && (push ==> !ts[i].Aggregate?)
  }

  lemma FirstChild(ts: seq<Reply>, push: bool, rest: string)
    requires ts != []
    ensures PrintAll(ts) + rest == Print(ts[0]) + (PrintAll(ts[1..]) + rest)
    ensures |ts| == 1 ==> PrintAll(ts[1..]) + rest == rest
    ensures HeightAll(ts) == Max(Height(ts[0]), HeightAll(ts[1..]))
    ensures |ts| == 1 ==> HeightAll(ts[1..]) == 0
    ensures !ts[0].Aggregate? ==> Height(ts[0]) == 0
    ensures Children(ts, push) ==> WellFormed(ts[0]) && (push ==> !ts[0].Aggregate?) && Children(ts[1..], push)
  {
    hide Print, WellFormed;
    Assoc(Print(ts[0]), PrintAll(ts[1..]), rest);
  }

  lemma {:induction false} ChildrenParse(frames: seq<Frame>, push: bool, n: nat, done: seq<Reply>,
                                         ts: seq<Reply>, rest: string)
    requires Open(frames) && Children(ts, push) && |frames| + 1 + HeightAll(ts) <= 8
    requires ts != [] && n == |done| + |ts|
    ensures
      Pull(frames + [Frame(push, n, done)], None, PrintAll(ts) + rest)
      == PullFrom(frames, Finish(frames, Aggregate(push, done + ts), rest))
    decreases ts, 0
  {
    hide ProcessItem, Pull, Print, PrintAll, WellFormed, Children, HeightAll, Height;
    FirstChild(ts, push, rest);
    var here, t, more := frames + [Frame(push, n, done)], ts[0], PrintAll(ts[1..]) + rest;
    assert here[..|here|-1] == frames;
    TreeParses(here, t, more);
    if |ts| == 1 {
      assert done + [t] == done + ts;
    } else {
      assert done + ts == (done + [t]) + ts[1..];
      ChildrenParse(frames, push, n, done + [t], ts[1..], rest);
    }
  }

  /** Nine nested aggregates are refused, whatever else the tree holds and whatever follows. */
  lemma {:induction false} DeepTreeFails(frames: seq<Frame>, t: Reply, rest: string)
    requires Open(frames) && |frames| <= 8 && WellFormed(t) && |frames| + Height(t) > 8
    requires !ParentIsPush(frames)
    ensures Pull(frames, None, Print(t) + rest) == (None, Broken(TooDeep))
    decreases t, 1
  {
    hide NewlineAt, Int64Of;
    if |frames| == 8 {
      assert (Print(t) + rest)[0] == AggregateMark(t.push);
    } else {
      AggregateHeaderParses(frames, t.push, t.element, rest);
      DeepChildrenFail(frames, t.push, |t.element|, [], t.element, rest);
    }
  }

  lemma {:induction false} DeepChildrenFail(frames: seq<Frame>, push: bool, n: nat, done: seq<Reply>,
                                            ts: seq<Reply>, rest: string)
    requires Open(frames) && |frames| < 8 && Children(ts, push) && |frames| + 1 + HeightAll(ts) > 8
    requires ts != [] && n == |done| + |ts|
    ensures Pull(frames + [Frame(push, n, done)], None, PrintAll(ts) + rest) == (None, Broken(TooDeep))
    decreases ts, 0
  {
    hide ProcessItem, Pull, Print, PrintAll, WellFormed, Children, HeightAll, Height;
    FirstChild(ts, push, rest);
    var here, t, more := frames + [Frame(push, n, done)], ts[0], PrintAll(ts[1..]) + rest;
    assert here[..|here|-1] == frames;
    if |here| + Height(t) > 8 {
      DeepTreeFails(here, t, more);
    } else {
      assert |ts| > 1;
      TreeParses(here, t, more);
      DeepChildrenFail(frames, push, n, done + [t], ts[1..], rest);
    }
  }

  /** The round trip: a printed tree followed by anything is read back as exactly that tree, and
      exactly those bytes are left, if and only if at most eight aggregates are nested. */
  lemma RoundTrip(t: Reply, rest: string)
    requires WellFormed(t)
    ensures Pull([], None, Print(t) + rest) ==
      if Height(t) <= 8 then (Some(t), Reading([], None, rest)) else (None, Broken(TooDeep))
  {
    if Height(t) <= 8 { TreeParses([], t, rest); } else { DeepTreeFails([], t, rest); }
  }

  predicate Printable(t: Reply) { WellFormed(t) && Height(t) <= 8 }

  lemma PrintedTreeThenMore(t: Reply, rest: string)
    requires Printable(t)
    ensures var more := Run([], None, rest); Run([], None, Print(t) + rest) == ([t] + more.0, more.1)
  {
    hide ProcessItem, Run, Pull, Print, WellFormed, Height;
    RoundTrip(t, rest);
    RunIsRepeatedPull([], None, Print(t) + rest);
  }

  lemma {:induction false} PrintedTreesParse(ts: seq<Reply>)
    requires forall i :: 0 <= i < |ts| ==> Printable(ts[i])
    ensures Run([], None, PrintAll(ts)) == (ts, INITIAL)
  {
    hide ProcessItem, Print, Printable;
    if ts != [] {
      hide Run;
      PrintedTreeThenMore(ts[0], PrintAll(ts[1..]));
      PrintedTreesParse(ts[1..]);
      assert [ts[0]] + ts[1..] == ts;
    } else {
      NothingRuns();
    }
  }

  lemma NothingRuns()
    ensures Run([], None, "") == ([], INITIAL)
  {}

  /** However the printed replies are cut into feeds, exactly those replies come out. */
  lemma PrintedStreamParses(ts: seq<Reply>, chunks: seq<string>)
    requires forall i :: 0 <= i < |ts| ==> Printable(ts[i])
    requires Flatten(chunks) == PrintAll(ts)
    ensures FeedAll(INITIAL, chunks) == (ts, INITIAL)
  {
    hide ProcessItem, Run, PrintAll, WellFormed, Height, FeedAll, Flatten;
    InitialIsExhausted();
    ChunkingIsIrrelevant(INITIAL, chunks);
    PrintedTreesParse(ts);
    assert "" + Flatten(chunks) == Flatten(chunks);
  }

  // ---- the converse: only printable trees are emitted ----

  ghost predicate FrameOk(f: Frame, level: nat, last: bool) {
    && f.elements <= MAX_ELEMENTS
    && (f.push ==> last)
    && forall j :: 0 <= j < |f.done| ==> ChildOk(f.done[j], f.push, level + 1)
  }

  ghost predicate ChildOk(t: Reply, push: bool, level: nat) {
    WellFormed(t) && Height(t) + level <= 8 && (push ==> !t.Aggregate?)
  }

  ghost predicate FramesOk(frames: seq<Frame>) {
    forall k :: 0 <= k < |frames| ==> FrameOk(frames[k], k, k == |frames| - 1)
  }

  lemma {:induction false} HeightAllBound(ts: seq<Reply>, bound: nat)
    requires forall i :: 0 <= i < |ts| ==> Height(ts[i]) <= bound
    ensures HeightAll(ts) <= bound
  {
    if ts != [] { HeightAllBound(ts[1..], bound); }
  }

  lemma FilledAggregateOk(f: Frame, level: nat, t: Reply, last: bool)
    requires FrameOk(f, level, last) && ChildOk(t, f.push, level + 1)
    requires |f.done| + 1 == f.elements && level < 8
    ensures WellFormed(Aggregate(f.push, f.done + [t]))
    ensures Height(Aggregate(f.push, f.done + [t])) + level <= 8
  {
    var all := f.done + [t];
    forall i | 0 <= i < |all| ensures ChildOk(all[i], f.push, level + 1) {
      if i < |f.done| { assert all[i] == f.done[i]; }
    }
    HeightAllBound(all, 7 - level);
  }

  lemma {:induction false} FinishOk(frames: seq<Frame>, t: Reply, rest: string)
    requires Open(frames) && |frames| <= 8 && FramesOk(frames)
    requires ChildOk(t, ParentIsPush(frames), |frames|)
    ensures
      match Finish(frames, t, rest)
      case Emit(x, _) => Printable(x)
      case Next(f, _) => FramesOk(f)
      case _ => false
    decreases |frames|
  {
    hide WellFormed, Height;
    if frames != [] {
      var outer, top := frames[..|frames|-1], frames[|frames|-1];
      assert FrameOk(top, |outer|, true);
      assert forall k :: 0 <= k < |outer| ==> FrameOk(frames[k], k, false);
      if |top.done| + 1 == top.elements {
        FilledAggregateOk(top, |outer|, t, true);
        FinishOk(outer, Aggregate(top.push, top.done + [t]), rest);
      } else {
        var f := top.(done := top.done + [t]);
        assert FrameOk(f, |outer|, true);
      }
    }
  }

  lemma ItemOk(frames: seq<Frame>, kind: Option<Kind>, rest: string)
    requires Open(frames) && |frames| <= 8 && FramesOk(frames)
    ensures
      match ProcessItem(frames, kind, rest)
      case Emit(x, _) => Printable(x)
      case Next(f, _) => FramesOk(f)
      case _ => true
  {
    hide FramesOk;
    var k := if kind.Some? || rest == "" then kind else KindOfByte(rest[0]);
    if k.Some? { TypedItemOk(frames, k.value, if kind.Some? then rest else rest[1..]); }
  }

  lemma TypedItemOk(frames: seq<Frame>, kind: Kind, rest: string)
    requires Open(frames) && |frames| <= 8 && FramesOk(frames)
    ensures
      match TypedItem(frames, kind, rest)
      case Emit(x, _) => Printable(x)
      case Next(f, _) => FramesOk(f)
      case _ => true
  {
    hide FramesOk, Finish, Canonical, SignedValue, HasNewline;
    if NewlineAt(rest).Some? {
      hide NewlineAt;
      var k := NewlineAt(rest).value;
      var line, left := rest[..k], rest[k + 2..];
      LineHasNoNewline(rest);
      FinishOk(frames, Nil, left);
      match kind
      case KInteger => if Int64Of(line).Some? { FinishOk(frames, Integer(Int64Of(line).value), left); }
      case KStatus => FinishOk(frames, Status(line), left);
      case KError => FinishOk(frames, Error(line), left);
      case KString =>
        var n := Int64Of(line);
        if n.Some? && 0 <= n.value && k + 2 + n.value + 2 <= |rest| {
          FinishOk(frames, Str(rest[k + 2..k + 2 + n.value]), rest[k + 2 + n.value + 2..]);
        }
      case _ =>
        if |frames| < 8 && !ParentIsPush(frames) {
          assert Height(Aggregate(kind.KPush?, [])) == 1 + HeightAll([]) == 1;
          FinishOk(frames, Aggregate(kind.KPush?, []), left);
          var n := Int64Of(line);
          if n.Some? && 0 < n.value <= MAX_ELEMENTS { OpenedFrameOk(frames, kind.KPush?, n.value); }
        }
    }
  }

  lemma LineHasNoNewline(s: string)
    requires NewlineAt(s).Some?
    ensures !HasNewline(s[..NewlineAt(s).value])
  {
    var k := NewlineAt(s).value;
    forall i: int | 0 <= i && i + 1 < k ensures !(s[..k][i] == '\r' && s[..k][i + 1] == '\n') {
      assert s[..k + 1][i] == s[i] && s[..k + 1][i + 1] == s[i + 1];
    }
  }

  lemma OpenedFrameOk(frames: seq<Frame>, push: bool, n: nat)
    requires FramesOk(frames) && !ParentIsPush(frames) && n <= MAX_ELEMENTS
    ensures FramesOk(frames + [Frame(push, n, [])])
  {
    var f := frames + [Frame(push, n, [])];
    forall k | 0 <= k < |f| ensures FrameOk(f[k], k, k == |f| - 1) {
      if k < |frames| { assert FrameOk(frames[k], k, k == |frames| - 1); }
    }
  }

  lemma NoFramesOk()
    ensures FramesOk([])
  {}

  lemma {:induction false} RunEmitsPrintable(frames: seq<Frame>, kind: Option<Kind>, rest: string)
    requires Open(frames) && |frames| <= 8 && FramesOk(frames)
    ensures
      var r := Run(frames, kind, rest);
      && (forall i :: 0 <= i < |r.0| ==> Printable(r.0[i]))
      && (r.1.Reading? ==> FramesOk(r.1.frames))
    decreases |rest|
  {
    hide ProcessItem, FramesOk, Printable;
    NoFramesOk();
    ItemOk(frames, kind, rest);
    match ProcessItem(frames, kind, rest)
    case NeedMore(_, _) =>
    case Fail(_) =>
    case Next(f, left) => RunEmitsPrintable(f, None, left);
    case Emit(_, left) => RunEmitsPrintable([], None, left);
  }

  /** Whatever bytes arrive, in whatever pieces, the emitted replies can be printed and read again. */
  lemma EmittedRepliesReprint(chunks: seq<string>)
    ensures
      var ts := FeedAll(INITIAL, chunks).0;
      Run([], None, PrintAll(ts)) == (ts, INITIAL)
  {
    hide ProcessItem, Run, PrintAll, WellFormed, Height, FeedAll, Flatten;
    InitialIsExhausted();
    ChunkingIsIrrelevant(INITIAL, chunks);
    NoFramesOk();
    RunEmitsPrintable([], None, "" + Flatten(chunks));
    PrintedTreesParse(FeedAll(INITIAL, chunks).0);
  }
}
