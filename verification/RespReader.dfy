/** The reader as it works: a byte buffer with a cursor, nine task slots, and a reply tree whose
    element arrays are filled in place. Every method is tied to the machine of module Resp. */
module RespReader {
  import opened Common
  import opened Decimal
  import opened Resp

  // ---- the tree under construction ----

  function Holes(n: nat): (h: seq<Reply>)
    ensures |h| == n && forall i :: 0 <= i < n ==> h[i] == Unfilled
  {
    seq(n, _ => Unfilled)
  }

  function Filled(f: Frame, x: Reply): Reply
    requires |f.done| < f.elements
  {
    Aggregate(f.push, f.done + [x] + Holes(f.elements - |f.done| - 1))
  }

  /** The partial tree: every open frame holds its finished children, then the subtree that is
      being read, then null pointers. */
  function Plug(frames: seq<Frame>, x: Reply): Reply
    requires Open(frames)
  {
    if frames == [] then x else Filled(frames[0], Plug(frames[1..], x))
  }

  predicate Reaches(t: Reply, path: seq<int>)
    decreases |path|
  {
    path != [] ==> t.Aggregate? && 0 <= path[0] < |t.element| && Reaches(t.element[path[0]], path[1..])
  }

  /** Store a node behind the element pointers that path names. */
  function Put(t: Reply, path: seq<int>, node: Reply): Reply
    requires Reaches(t, path)
    decreases |path|
  {
    if path == [] then node
    else t.(element := t.element[path[0] := Put(t.element[path[0]], path[1..], node)])
  }

  function PathOf(frames: seq<Frame>): seq<int> {
    seq(|frames|, k requires 0 <= k < |frames| => |frames[k].done|)
  }

  lemma {:induction false} PutPlug(frames: seq<Frame>, x: Reply, y: Reply)
    requires Open(frames)
    ensures Reaches(Plug(frames, x), PathOf(frames))
    ensures Put(Plug(frames, x), PathOf(frames), y) == Plug(frames, y)
  {
    if frames != [] {
      PutPlug(frames[1..], x, y);
      assert PathOf(frames)[1..] == PathOf(frames[1..]);
      var f := frames[0];
      assert Filled(f, Plug(frames[1..], x)).element[|f.done| := Plug(frames[1..], y)]
        == Filled(f, Plug(frames[1..], y)).element;
    }
  }

  lemma {:induction false} PlugLast(frames: seq<Frame>, f: Frame, x: Reply)
    requires Open(frames) && |f.done| < f.elements
    ensures Open(frames + [f]) && Plug(frames + [f], x) == Plug(frames, Filled(f, x))
  {
    if frames == [] {
      assert [f][1..] == [];
    } else {
      PlugLast(frames[1..], f, x);
      assert (frames + [f])[1..] == frames[1..] + [f];
    }
  }

  /** Completing a child and moving on leaves the tree as it is: only the cursor moves. */
  lemma PlugMovesOn(f: Frame, x: Reply)
    requires |f.done| + 1 < f.elements
    ensures Filled(f, x) == Filled(f.(done := f.done + [x]), Unfilled)
  {
    assert f.done + [x] + Holes(f.elements - |f.done| - 1)
      == f.done + [x] + [Unfilled] + Holes(f.elements - |f.done| - 2);
  }

  lemma PlugCompletes(f: Frame, x: Reply)
    requires |f.done| + 1 == f.elements
    ensures Filled(f, x) == Aggregate(f.push, f.done + [x])
  {
    assert f.done + [x] + Holes(0) == f.done + [x];
  }

  /** One round of moveToNextTask: the last open frame receives its child. */
  lemma ChildFinished(frames: seq<Frame>, u: Reply, rest: string)
    requires Open(frames) && frames != []
    ensures
      var outer, top := frames[..|frames|-1], frames[|frames|-1];
      var grown := outer + [top.(done := top.done + [u])];
      if |top.done| + 1 == top.elements then
        && Plug(frames, u) == Plug(outer, Aggregate(top.push, top.done + [u]))
        && Finish(frames, u, rest) == Finish(outer, Aggregate(top.push, top.done + [u]), rest)
      else
        && Open(grown)
        && Plug(frames, u) == Plug(grown, Unfilled)
        && Finish(frames, u, rest) == Next(grown, rest)
  {
    hide Plug, Filled;
    var outer, top := frames[..|frames|-1], frames[|frames|-1];
    assert frames == outer + [top];
    PlugLast(outer, top, u);
    if |top.done| + 1 == top.elements {
      PlugCompletes(top, u);
    } else {
      PlugMovesOn(top, u);
      PlugLast(outer, top.(done := top.done + [u]), Unfilled);
    }
  }

  lemma OpenedPlug(frames: seq<Frame>, push: bool, n: nat)
    requires 0 < n && Open(frames)
    ensures Plug(frames + [Frame(push, n, [])], Unfilled) == Plug(frames, Aggregate(push, Holes(n)))
  {
    assert Holes(n) == [] + [Unfilled] + Holes(n - 1);
    PlugLast(frames, Frame(push, n, []), Unfilled);
  }

  lemma RootFinished(frames: seq<Frame>, u: Reply, rest: string)
    requires frames == []
    ensures Plug(frames, u) == u && Finish(frames, u, rest) == Emit(u, rest)
  {}

  /** sdsrange: keep the bytes start..end, both inclusive, negative positions from the end. */
  function Sdsrange(s: string, start: int, end: int): string {
    var len := |s|;
    if len == 0 then s
    else
      var first := if start < 0 then (if len + start < 0 then 0 else len + start) else start;
      var last := if end < 0 then (if len + end < 0 then 0 else len + end) else end;
      if first > last || first >= len then ""
      else s[first..(if last >= len then len - 1 else last) + 1]
  }

  /** Trimming drops what was read and nothing else. */
  lemma TrimKeepsUnread(s: string, pos: nat)
    requires pos <= |s|
    ensures Sdsrange(s, pos, -1) == s[pos..]
  {}

  method SeekNewline(s: string) returns (r: Option<nat>)
    ensures r == NewlineAt(s)
  {
    var pos, len := 0, |s| - 1;
    while pos < len
      invariant 0 <= pos && (pos <= len || pos == 0)
      invariant forall i :: 0 <= i < pos ==> !(s[i] == '\r' && s[i + 1] == '\n')
    {
      while pos < len && s[pos] != '\r'
        invariant 0 <= pos <= len
        invariant forall i :: 0 <= i < pos ==> !(s[i] == '\r' && s[i + 1] == '\n')
      {
        pos := pos + 1;
      }
      if pos == len {
        return None;
      } else if s[pos + 1] == '\n' {
        NewlineIsFirst(s, pos);
        return Some(pos);
      } else {
        pos := pos + 1;
      }
    }
    return None;
  }

  lemma NewlineIsFirst(s: string, k: nat)
    requires k + 1 < |s| && s[k] == '\r' && s[k + 1] == '\n'
    requires forall i :: 0 <= i < k ==> !(s[i] == '\r' && s[i + 1] == '\n')
    ensures NewlineAt(s) == Some(k)
  {
    hide NewlineAt;
    PrefixHasNewline(s, k, |s|);
    var m := NewlineAt(s).value;
    PrefixHasNewline(s, k, if k < m then m + 1 else |s|);
  }

  lemma PrefixHasNewline(s: string, k: nat, n: nat)
    requires k + 1 < n <= |s| && s[k] == '\r' && s[k + 1] == '\n'
    ensures HasNewline(s[..n])
  {
    assert s[..n][k] == s[k] && s[..n][k + 1] == s[k + 1];
  }

  /** A stack slot: the type once its byte is read, and where its reply belongs. The obj and parent
      pointers of the slot are the prefix of the path through the tree. */
  datatype Task = Task(kind: Option<Kind>, elements: int, idx: int)

  class RedisReader {
    var err: Option<ReadError>
    var buf: string
    var pos: nat
    const rstack: array<Task>
    var ridx: int
    var reply: Reply
    ghost var frames: seq<Frame>

    /** The slots below ridx describe the open frames; each slot's idx is its place in its parent. */
    ghost predicate Stacked()
      reads this, rstack
    {
      && rstack.Length == 9
      && 0 <= ridx <= 8 && |frames| == ridx
      && Open(frames)
      && forall k :: 0 <= k < ridx ==>
        && rstack[k].kind == Some(if frames[k].push then KPush else KArray)
        && rstack[k].elements == frames[k].elements
        && rstack[k + 1].idx == |frames[k].done|
    }

    /** In the middle of a reply. */
    ghost predicate Mid()
      reads this, rstack
    {
      Stacked() && err.None? && pos <= |buf| && reply == Plug(frames, Unfilled)
    }

    ghost predicate Idle()
      reads this, rstack
    {
      rstack.Length == 9 && ridx == -1 && frames == [] && pos <= |buf|
    }

    ghost predicate Failed(e: ReadError)
      reads this, rstack
    {
      Idle() && err == Some(e) && buf == "" && reply == Unfilled
    }

    ghost predicate Valid()
      reads this, rstack
    {
      || (err.Some? && Failed(err.value))
      || (err.None? && Idle() && reply == Unfilled)
      || (Mid() && (ridx == 8 ==> Kind() != Some(KArray) && Kind() != Some(KPush)))
    }

    function Unread(): string
      reads this
      requires pos <= |buf|
    {
      buf[pos..]
    }

    ghost function Kind(): Option<Kind>
      reads this, rstack
      requires -1 <= ridx < rstack.Length
    {
      if ridx == -1 then None else rstack[ridx].kind
    }

    /** What the reader stands for. */
    ghost function Abs(): (st: State)
      reads this, rstack
      requires Valid()
      ensures st.Valid()
    {
      if err.Some? then Broken(err.value) else Reading(frames, Kind(), Unread())
    }

    constructor ()
      ensures Valid() && Abs() == INITIAL && fresh(rstack)
    {
      err, buf, pos, ridx, reply, frames := None, "", 0, -1, Unfilled, [];
      rstack := new Task[9](_ => Task(None, 0, 0));
    }

    /** The outcome of one item, as the machine predicts it. */
    ghost predicate After(step: Step, was: seq<Frame>, ok: bool)
      reads this, rstack
    {
      match step
      case NeedMore(k, left) => !ok && Mid() && frames == was && Kind() == k && Unread() == left
      case Fail(e) => !ok && Failed(e)
      case Next(f, left) => ok && Mid() && frames == f && Kind() == None && Unread() == left
      case Emit(x, left) => ok && Idle() && err.None? && reply == x && Unread() == left
    }

    method SetError(e: ReadError)
      requires rstack.Length == 9
      modifies this
      ensures Failed(e)
    {
      reply := Unfilled;
      buf, pos := "", 0;
      ridx := -1;
      err := Some(e);
      frames := [];
    }

    method ReadLine() returns (line: Option<string>)
      requires pos <= |buf|
      modifies this`pos
      ensures pos <= |buf|
      ensures match old(NewlineAt(Unread()))
        case None => line == None && pos == old(pos)
        case Some(k) => line == Some(old(Unread())[..k]) && Unread() == old(Unread())[k + 2..]
    {
      var s := SeekNewline(buf[pos..]);
      if s.Some? {
        line := Some(buf[pos..][..s.value]);
        pos := pos + s.value + 2;
      } else {
        line := None;
      }
    }

    /** parent->element[task->idx] = node, or the root reply. */
    method Attach(node: Reply)
      requires Stacked() && reply == Plug(frames, Unfilled)
      modifies this`reply
      ensures reply == Plug(frames, node)
    {
      var path := seq(ridx, k requires 0 <= k < ridx reads this, rstack requires rstack.Length == 9 && ridx <= 8 =>
        rstack[k + 1].idx);
      assert path == PathOf(frames);
      PutPlug(frames, Unfilled, node);
      reply := Put(reply, path, node);
    }

    /** The parent has a slot left, and it is next. */
    method NextSlot(ghost t: Reply)
      requires Stacked() && err.None? && pos <= |buf| && reply == Plug(frames, t)
      requires 0 < ridx && rstack[ridx].idx != rstack[ridx - 1].elements - 1
      modifies this`frames, rstack
      ensures After(Finish(old(frames), t, old(Unread())), old(frames), true)
    {
      hide Plug, Finish;
      ghost var top := frames[ridx - 1];
      ChildFinished(frames, t, Unread());
      frames := frames[..ridx - 1] + [top.(done := top.done + [t])];
      rstack[ridx] := Task(None, -1, rstack[ridx].idx + 1);
    }

    method MoveToNextTask(ghost t: Reply)
      requires Stacked() && err.None? && pos <= |buf| && reply == Plug(frames, t)
      modifies this`ridx, this`frames, rstack
      ensures After(Finish(old(frames), t, old(Unread())), old(frames), true)
    {
      hide Plug, Finish;
      ghost var u, goal, rest := t, Finish(frames, t, Unread()), Unread();
      while ridx >= 0
        invariant Stacked() && reply == Plug(frames, u)
        invariant Finish(frames, u, rest) == goal
        decreases ridx
      {
        if ridx == 0 {
          RootFinished(frames, u, rest);
          ridx := -1;
          return;
        }
        var cur, prv := rstack[ridx], rstack[ridx - 1];
        assert prv.kind == Some(KArray) || prv.kind == Some(KPush);
        ghost var top := frames[ridx - 1];
        ChildFinished(frames, u, rest);
        if cur.idx == prv.elements - 1 {
          u := Aggregate(top.push, top.done + [u]);
          frames := frames[..ridx - 1];
          ridx := ridx - 1;
        } else {
          NextSlot(u);
          return;
        }
      }
    }

    method ProcessLineItem() returns (ok: bool)
      requires Mid() && Kind().Some?
      requires Kind().value.KInteger? || Kind().value.KStatus? || Kind().value.KError?
      modifies this, rstack
      ensures After(LineItem(old(frames), old(Kind()).value, old(Unread())), old(frames), ok)
    {
      hide NewlineAt, Finish, Int64Of;
      var cur := rstack[ridx];
      var line := ReadLine();
      if line.None? { return false; }
      var obj;
      if cur.kind == Some(KInteger) {
        var v := String2ll(line.value);
        if v.None? {
          SetError(BadInteger);
          return false;
        }
        obj := Integer(v.value);
      } else {
        obj := if cur.kind == Some(KStatus) then Status(line.value) else Error(line.value);
      }
      Attach(obj);
      MoveToNextTask(obj);
      return true;
    }

    /** A reply without children, read from this many bytes, takes its place. */
    method PlaceLeaf(obj: Reply, bytelen: nat)
      requires Mid() && pos + bytelen <= |buf|
      modifies this, rstack
      ensures After(Finish(old(frames), obj, old(Unread())[bytelen..]), old(frames), true)
    {
      hide Finish;
      ghost var rest := Unread();
      pos := pos + bytelen;
      assert Unread() == rest[bytelen..];
      Attach(obj);
      MoveToNextTask(obj);
    }

    method ProcessBulkItem() returns (ok: bool)
      requires Mid() && Kind() == Some(KString)
      modifies this, rstack
      ensures After(BulkItem(old(frames), old(Unread())), old(frames), ok)
    {
      hide NewlineAt, Finish, Int64Of;
      ghost var rest := Unread();
      var s := SeekNewline(buf[pos..]);
      if s.None? { return false; }
      var bytelen := s.value + 2;
      var len := String2ll(buf[pos..][..s.value]);
      if len.None? {
        SetError(BadBulkLength);
        return false;
      }
      if len.value < -1 {
        SetError(BulkLengthOutOfRange);
        return false;
      }
      var obj := Nil;
      if len.value != -1 {
        bytelen := bytelen + len.value + 2;
        if pos + bytelen > |buf| { return false; }
        obj := Str(buf[pos + s.value + 2..pos + s.value + 2 + len.value]);
        assert obj.text == rest[s.value + 2..s.value + 2 + len.value];
      }
      PlaceLeaf(obj, bytelen);
      return true;
    }

    method ProcessMultiBulkItem(push: bool) returns (ok: bool)
      requires Mid() && Kind() == Some(if push then KPush else KArray)
      modifies this, rstack
      ensures After(MultiBulkItem(old(frames), push, old(Unread())), old(frames), ok)
    {
      hide NewlineAt, Finish, Int64Of;
      if ridx == 8 {
        SetError(TooDeep);
        return false;
      }
      var line := ReadLine();
      if line.None? { return false; }
      var elements := String2ll(line.value);
      if elements.None? {
        SetError(BadMultiBulkLength);
        return false;
      }
      var n := elements.value;
      if n < -1 {
        SetError(MultiBulkLengthOutOfRange);
        return false;
      }
      if n == -1 {
        Attach(Nil);
        MoveToNextTask(Nil);
        return true;
      }
      if n > MAX_ELEMENTS {
        SetError(OutOfMemory);
        return false;
      }
      if ridx > 0 && rstack[ridx - 1].kind == Some(KPush) {
        SetError(AssertionFailed);
        return false;
      }
      PlaceAggregate(push, n);
      return true;
    }

    method PlaceAggregate(push: bool, n: nat)
      requires Mid() && Kind() == Some(if push then KPush else KArray) && ridx < 8
      modifies this, rstack
      ensures
        After(if n == 0 then Finish(old(frames), Aggregate(push, []), old(Unread()))
              else Next(old(frames) + [Frame(push, n, [])], old(Unread())), old(frames), true)
    {
      hide Finish;
      var obj := Aggregate(push, Holes(n));
      Attach(obj);
      if n > 0 {
        OpenFrame(push, n);
      } else {
        assert obj == Aggregate(push, []);
        MoveToNextTask(obj);
      }
    }

    method OpenFrame(push: bool, n: nat)
      requires Stacked() && ridx < 8 && 0 < n && err.None? && pos <= |buf|
      requires Kind() == Some(if push then KPush else KArray)
      requires reply == Plug(frames, Aggregate(push, Holes(n)))
      modifies this`ridx, this`frames, rstack
      ensures Mid() && frames == old(frames) + [Frame(push, n, [])] && Kind() == None
    {
      ghost var f := Frame(push, n, []);
      OpenedPlug(frames, push, n);
      hide Plug, Holes;
      rstack[ridx] := rstack[ridx].(elements := n);
      ridx := ridx + 1;
      rstack[ridx] := Task(None, -1, 0);
      frames := frames + [f];
    }

    method ReadType() returns (r: Option<ReadError>)
      requires Mid() && Kind() == None && Unread() != ""
      modifies this`pos, rstack
      ensures pos == old(pos) + 1 <= |buf| && Unread() == old(Unread())[1..]
      ensures Mid()
      ensures match KindOfByte(old(Unread())[0])
        case None => r == Some(BadTypeByte)
        case Some(k) => r == None && Kind() == Some(k)
    {
      var c := buf[pos];
      pos := pos + 1;
      var k := match c
        case '-' => Some(KError)
        case '+' => Some(KStatus)
        case ':' => Some(KInteger)
        case '$' => Some(KString)
        case '*' => Some(KArray)
        case '>' => Some(KPush)
        case _ => None;
      if k.None? { return Some(BadTypeByte); }
      rstack[ridx] := rstack[ridx].(kind := k);
      return None;
    }

    method ProcessItem() returns (ok: bool)
      requires Mid()
      modifies this, rstack
      ensures After(Resp.ProcessItem(old(frames), old(Kind()), old(Unread())), old(frames), ok)
    {
      hide LineItem, BulkItem, MultiBulkItem;
      if rstack[ridx].kind.None? {
        if pos >= |buf| { return false; }
        var bad := ReadType();
        if bad.Some? {
          SetError(bad.value);
          return false;
        }
      }
      match rstack[ridx].kind.value
      case KString => ok := ProcessBulkItem();
      case KArray => ok := ProcessMultiBulkItem(false);
      case KPush => ok := ProcessMultiBulkItem(true);
      case _ => ok := ProcessLineItem();
    }

    method Feed(bytes: string)
      requires Valid()
      modifies this
      ensures Valid()
      ensures Abs() == match old(Abs())
        case Broken(e) => Broken(e)
        case Reading(f, k, unread) => Reading(f, k, unread + bytes)
    {
      if err.Some? { return; }
      if |bytes| >= 1 {
        buf := buf + bytes;
      }
      assert Unread() == old(Unread()) + bytes;
    }

    /** The outcome of processing items until a reply is complete or no more bytes help. */
    ghost predicate Pulled(p: (Option<Reply>, State))
      reads this, rstack
    {
      match p.1
      case Broken(e) => p.0 == None && Failed(e)
      case Reading(f, k, left) =>
        && err.None? && pos <= |buf| && Unread() == left
        && match p.0
           case Some(t) => Idle() && reply == t
           case None =>
             && Mid() && frames == f && Kind() == k
             && (ridx == 8 ==> k != Some(KArray) && k != Some(KPush))
    }

    method PullItems()
      requires Mid()
      modifies this, rstack
      ensures Pulled(Pull(old(frames), old(Kind()), old(Unread())))
    {
      hide Resp.ProcessItem, Plug;
      ghost var goal := Pull(frames, Kind(), Unread());
      while ridx >= 0
        invariant if ridx >= 0 then Mid() && Pull(frames, Kind(), Unread()) == goal else Pulled(goal)
        decreases if ridx >= 0 then 1 else 0, if pos <= |buf| then |Unread()| else 0
      {
        StuckAtDepth8(frames, Kind(), Unread());
        var more := ProcessItem();
        if !more { break; }
      }
    }

    /** Between two replies: the first slot is for the root. */
    method StartReply()
      requires err.None? && (Mid() || (Idle() && reply == Unfilled))
      modifies this`ridx, rstack
      ensures Mid() && frames == old(frames) && Kind() == old(Kind()) && Unread() == old(Unread())
    {
      if ridx == -1 {
        rstack[0] := Task(None, -1, -1);
        ridx := 0;
      }
    }

    /** Drop what is read once that is at least 1024 bytes. */
    method TrimBuffer()
      requires pos <= |buf|
      modifies this`buf, this`pos
      ensures pos <= |buf| && Unread() == old(Unread())
    {
      if pos >= 1024 {
        TrimKeepsUnread(buf, pos);
        buf := Sdsrange(buf, pos, -1);
        pos := 0;
      }
    }

    method GetReply() returns (ok: bool, out: Option<Reply>)
      requires Valid()
      modifies this, rstack
      ensures Valid() && ok == Abs().Reading?
      ensures match old(Abs())
        case Broken(e) => out == None && Abs() == Broken(e)
        case Reading(f, k, unread) => (out, Abs()) == Pull(f, k, unread)
    {
      hide Resp.ProcessItem, Plug;
      if err.Some? { return false, None; }
      if |buf| == 0 {
        NothingToPull(frames, Kind());
        return true, None;
      }
      StartReply();
      PullItems();
      hide Pull;
      if err.Some? { return false, None; }
      TrimBuffer();
      if ridx == -1 {
        out := Some(reply);
        reply := Unfilled;
      } else {
        out := None;
      }
      ok := true;
    }
  }

  lemma NothingToPull(frames: seq<Frame>, kind: Option<Kind>)
    requires Open(frames) && |frames| <= 8
    requires |frames| == 8 ==> kind != Some(KArray) && kind != Some(KPush)
    ensures Pull(frames, kind, "") == (None, Reading(frames, kind, ""))
  {}

  /** Below eight open frames the reader never waits for an aggregate header. */
  lemma StuckAtDepth8(frames: seq<Frame>, kind: Option<Kind>, rest: string)
    requires Open(frames) && |frames| <= 8
    ensures
      var r := Resp.ProcessItem(frames, kind, rest);
      r.NeedMore? && |frames| == 8 ==> r.kind != Some(KArray) && r.kind != Some(KPush)
  {
    hide Finish, NewlineAt, Int64Of, Open, Resp.LineItem, Resp.BulkItem;
    if kind.None? && rest != "" && KindOfByte(rest[0]).Some? {
      TypedStuckAtDepth8(frames, KindOfByte(rest[0]).value, rest[1..]);
    } else if kind.Some? {
      TypedStuckAtDepth8(frames, kind.value, rest);
    }
  }

  lemma TypedStuckAtDepth8(frames: seq<Frame>, kind: Kind, rest: string)
    requires Open(frames) && |frames| <= 8
    ensures
      var r := TypedItem(frames, kind, rest);
      r.NeedMore? && |frames| == 8 ==> r.kind != Some(KArray) && r.kind != Some(KPush)
  {
    hide Finish, NewlineAt, Int64Of, Open;
  }

  /** What QClient::feed does with one piece of bytes: feed it, then pull until nothing is left. */
  method FeedAndPull(r: RedisReader, bytes: string) returns (ok: bool, replies: seq<Reply>)
    requires r.Valid()
    modifies r, r.rstack
    ensures r.Valid() && (replies, r.Abs()) == Resp.Feed(old(r.Abs()), bytes)
    ensures ok == r.Abs().Reading?
  {
    hide Resp.ProcessItem;
    ghost var start := r.Abs();
    r.Feed(bytes);
    replies := [];
    ghost var goal := Resp.Feed(start, bytes);
    assert [] + goal.0 == goal.0;
    while true
      invariant r.Valid()
      invariant match r.Abs()
        case Broken(_) => (replies, r.Abs()) == goal
        case Reading(f, k, unread) => var more := Run(f, k, unread); (replies + more.0, more.1) == goal
      decreases match r.Abs() case Broken(_) => 0 case Reading(_, _, unread) => |unread|
    {
      ghost var st := r.Abs();
      if st.Reading? { RunIsRepeatedPull(st.frames, st.kind, st.unread); }
      var good, reply := r.GetReply();
      if !good {
        assert replies + [] == replies;
        return false, replies;
      }
      assert reply.None? ==> replies + [] == replies;
      if reply.None? { return true, replies; }
      ghost var more := Run([], None, r.Abs().unread).0;
      assert replies + [reply.value] + more == replies + ([reply.value] + more);
      replies := replies + [reply.value];
    }
  }
}
