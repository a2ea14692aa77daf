/** The sending end of a communicator channel: requests wait for their replies in a vault, are sent
    again at intervals, and are given up at a deadline. */
module Retries {
  import opened Common
  import opened Framing

  type RequestID = Bytes

  datatype Item = Item(start: int, lastRetry: int, channel: Bytes, contents: Bytes)

  datatype Config = Config(channel: Bytes, retryInterval: nat, hardDeadline: int)

  // ---- the vault as a value ----

  ghost predicate Distinct(order: seq<RequestID>) {
    forall i, j :: 0 <= i < j < |order| ==> order[i] != order[j]
  }

  datatype Pending = Pending(items: map<RequestID, Item>, order: seq<RequestID>) {
    /** The retry list is a permutation of the keys. */
    ghost predicate Matched() {
      && Distinct(order)
      && (forall id :: id in order <==> id in items)
    }

    function LastRetry(id: RequestID): int {
      if id in items then items[id].lastRetry else 0
    }

    ghost predicate Sorted() {
      forall i, j :: 0 <= i < j < |order| ==> LastRetry(order[i]) <= LastRetry(order[j])
    }
  }

  const EMPTY: Pending := Pending(map[], [])

  function Insert(v: Pending, id: RequestID, channel: Bytes, contents: Bytes, time: int): Pending {
    Pending(v.items[id := Item(time, time, channel, contents)], v.order + [id])
  }

  function Position(order: seq<RequestID>, id: RequestID): (i: nat)
    requires id in order
    ensures i < |order| && order[i] == id && id !in order[..i]
  {
    if order[0] == id then 0 else 1 + Position(order[1..], id)
  }

  function Removed(v: Pending, id: RequestID): Pending
    requires id in v.order
  {
    var i := Position(v.order, id);
    Pending(v.items - {id}, v.order[..i] + v.order[i + 1..])
  }

  function Satisfy(v: Pending, id: RequestID): Pending
  {
    if id in v.items && id in v.order then Removed(v, id) else v
  }

  function DropFront(v: Pending): Pending
    requires v.order != []
  {
    Pending(v.items - {v.order[0]}, v.order[1..])
  }

  predicate FrontIsOld(v: Pending, deadline: int) {
    v.order != [] && v.order[0] in v.items && v.items[v.order[0]].start <= deadline
  }

  /** What is left, and what was given up. */
  function Expire(v: Pending, deadline: int): (Pending, seq<RequestID>)
    decreases |v.order|
  {
    if FrontIsOld(v, deadline) then
      var r := Expire(DropFront(v), deadline);
      (r.0, [v.order[0]] + r.1)
    else (v, [])
  }

  function RetryFront(v: Pending, now: int): Pending
    requires v.order != [] && v.order[0] in v.items
  {
    var id := v.order[0];
    Pending(v.items[id := v.items[id].(lastRetry := now)], v.order[1..] + [id])
  }

  /** What is left, what was given up, and what to send again. */
  function RunNext(v: Pending, cfg: Config, now: int): (Pending, seq<RequestID>, Option<RequestID>) {
    var e := Expire(v, now - cfg.hardDeadline);
    var u := e.0;
    if u.order == [] || u.order[0] !in u.items || u.items[u.order[0]].lastRetry + cfg.retryInterval > now then (u, e.1, None)
    else (RetryFront(u, now), e.1, Some(u.order[0]))
  }

  function Without(order: seq<RequestID>, i: nat): seq<RequestID>
    requires i < |order|
  {
    order[..i] + order[i + 1..]
  }

  lemma WithoutMembers(order: seq<RequestID>, i: nat)
    requires Distinct(order) && i < |order|
    ensures Distinct(Without(order, i))
    ensures forall id :: id in Without(order, i) <==> id in order && id != order[i]
  {
    var r := Without(order, i);
    forall id | id in order && id != order[i] ensures id in r {
      var j :| 0 <= j < |order| && order[j] == id;
      assert r[if j < i then j else j - 1] == id;
    }
  }

  lemma AppendMember(order: seq<RequestID>, id: RequestID)
    requires Distinct(order) && id !in order
    ensures Distinct(order + [id]) && forall k :: k in order + [id] <==> k in order || k == id
  {}

  lemma InsertKeepsMatched(v: Pending, id: RequestID, channel: Bytes, contents: Bytes, time: int)
    requires v.Matched() && id !in v.items
    ensures Insert(v, id, channel, contents, time).Matched()
  {
    hide Distinct;
    AppendMember(v.order, id);
  }

  lemma InsertKeepsSorted(v: Pending, id: RequestID, channel: Bytes, contents: Bytes, time: int)
    requires v.Sorted() && id !in v.order && forall i :: 0 <= i < |v.order| ==> v.LastRetry(v.order[i]) <= time
    ensures Insert(v, id, channel, contents, time).Sorted()
  {}

  lemma RemovedKeepsMatched(v: Pending, i: nat)
    requires v.Matched() && i < |v.order|
    ensures Pending(v.items - {v.order[i]}, Without(v.order, i)).Matched()
  {
    WithoutMembers(v.order, i);
    hide Distinct, Without;
  }

  lemma RemovedKeepsSorted(v: Pending, i: nat)
    requires v.Sorted() && Distinct(v.order) && i < |v.order|
    ensures Pending(v.items - {v.order[i]}, Without(v.order, i)).Sorted()
  {
    var u := Pending(v.items - {v.order[i]}, Without(v.order, i));
    forall k, m | 0 <= k < m < |u.order| ensures u.LastRetry(u.order[k]) <= u.LastRetry(u.order[m]) {
      var k', m' := if k < i then k else k + 1, if m < i then m else m + 1;
      assert u.order[k] == v.order[k'] != v.order[i] && u.order[m] == v.order[m'] != v.order[i];
      assert v.LastRetry(v.order[k']) <= v.LastRetry(v.order[m']);
    }
  }

  lemma RemovedKeepsOrder(v: Pending, id: RequestID)
    requires v.Matched() && id in v.order
    ensures Removed(v, id).Matched() && (v.Sorted() ==> Removed(v, id).Sorted())
  {
    hide Distinct, Pending.Sorted;
    RemovedKeepsMatched(v, Position(v.order, id));
    if v.Sorted() { RemovedKeepsSorted(v, Position(v.order, id)); }
  }

  lemma DropFrontKeepsOrder(v: Pending)
    requires v.Matched() && v.order != []
    ensures DropFront(v).Matched() && (v.Sorted() ==> DropFront(v).Sorted())
  {
    assert Without(v.order, 0) == v.order[1..];
    hide Distinct, Pending.Sorted, Without;
    RemovedKeepsMatched(v, 0);
    if v.Sorted() { RemovedKeepsSorted(v, 0); }
  }

  lemma RetryFrontKeepsMatched(v: Pending, now: int)
    requires v.Matched() && v.order != []
    ensures v.order[0] in v.items && RetryFront(v, now).Matched()
  {
    var id := v.order[0];
    assert Without(v.order, 0) == v.order[1..];
    WithoutMembers(v.order, 0);
    AppendMember(v.order[1..], id);
    hide Distinct, Without;
  }

  lemma RetryFrontKeepsSorted(v: Pending, now: int)
    requires v.Sorted() && Distinct(v.order) && v.order != [] && v.order[0] in v.items
    requires forall i :: 0 <= i < |v.order| ==> v.LastRetry(v.order[i]) <= now
    ensures RetryFront(v, now).Sorted()
  {
    var u, n := RetryFront(v, now), |v.order|;
    forall k, m | 0 <= k < m < n ensures u.LastRetry(u.order[k]) <= u.LastRetry(u.order[m]) {
      assert u.order[k] == v.order[k + 1] != v.order[0];
      if m < n - 1 { assert u.order[m] == v.order[m + 1] != v.order[0]; }
    }
  }

  lemma {:induction false} ExpireKeepsOrder(v: Pending, deadline: int)
    requires v.Matched()
    ensures Expire(v, deadline).0.Matched() && (v.Sorted() ==> Expire(v, deadline).0.Sorted())
    decreases |v.order|
  {
    hide Pending.Sorted, Pending.Matched, DropFront;
    if FrontIsOld(v, deadline) {
      DropFrontKeepsOrder(v);
      DropFrontIsShorter(v);
      ExpireKeepsOrder(DropFront(v), deadline);
    }
  }

  lemma DropFrontIsShorter(v: Pending)
    requires v.order != []
    ensures v.order == [v.order[0]] + DropFront(v).order
    ensures forall k :: k in DropFront(v).items ==> k in v.items && DropFront(v).items[k] == v.items[k]
  {}

  lemma {:induction false} ExpireSplits(v: Pending, deadline: int)
    ensures var r := Expire(v, deadline); r.1 + r.0.order == v.order && !FrontIsOld(r.0, deadline)
    decreases |v.order|
  {
    hide DropFront;
    if FrontIsOld(v, deadline) {
      var u := DropFront(v);
      DropFrontIsShorter(v);
      ExpireSplits(u, deadline);
      var r := Expire(u, deadline);
      assert v.order == [v.order[0]] + u.order == ([v.order[0]] + r.1) + r.0.order;
    } else {
      assert [] + v.order == v.order;
    }
  }

  lemma {:induction false} ExpireKeepsItems(v: Pending, deadline: int)
    ensures
      var r := Expire(v, deadline);
      && (forall k :: k in r.0.items ==> k in v.items && r.0.items[k] == v.items[k])
      && (forall k :: k in r.1 ==> k in v.items && v.items[k].start <= deadline)
    decreases |v.order|
  {
    hide DropFront;
    if FrontIsOld(v, deadline) {
      DropFrontIsShorter(v);
      ExpireKeepsItems(DropFront(v), deadline);
    }
  }

  /** Expiry gives up the longest prefix of the retry order that is too old, and nothing else. */
  lemma ExpireIsPrefix(v: Pending, deadline: int)
    requires v.Matched()
    ensures
      var r := Expire(v, deadline);
      && r.0.Matched() && (v.Sorted() ==> r.0.Sorted())
      && r.1 + r.0.order == v.order
      && (forall k :: k in r.0.items ==> k in v.items && r.0.items[k] == v.items[k])
      && (forall k :: k in r.1 ==> k in v.items && v.items[k].start <= deadline)
      && (r.0.order != [] ==> r.0.order[0] in r.0.items && r.0.items[r.0.order[0]].start > deadline)
  {
    hide Expire, Distinct, Pending.Sorted;
    ExpireKeepsOrder(v, deadline);
    ExpireSplits(v, deadline);
    ExpireKeepsItems(v, deadline);
  }

  predicate IsOld(v: Pending, id: RequestID, deadline: int) {
    id in v.items && v.items[id].start <= deadline
  }

  lemma InFrontPart(a: seq<RequestID>, b: seq<RequestID>, id: RequestID)
    requires Distinct(a + b) && id in a + b
    ensures id in a <==> Position(a + b, id) < |a|
  {
    var i := Position(a + b, id);
    if id in a {
      var k :| 0 <= k < |a| && a[k] == id;
      assert (a + b)[k] == id;
    }
  }

  lemma ExpiryBoundary(v: Pending, deadline: int)
    requires v.Matched()
    ensures
      var out, left := Expire(v, deadline).1, Expire(v, deadline).0.order;
      && v.order == out + left && Distinct(out + left)
      && (forall j :: 0 <= j < |out| ==> IsOld(v, out[j], deadline)) && (left != [] ==> !IsOld(v, left[0], deadline))
  {
    hide Expire, Pending.Sorted;
    ExpireIsPrefix(v, deadline);
  }

  /** A request is given up if and only if it and everything in front of it are past the deadline. */
  lemma GivenUpIff(v: Pending, deadline: int, id: RequestID)
    requires v.Matched() && id in v.order
    ensures
      id in Expire(v, deadline).1
      <==> forall j :: 0 <= j <= Position(v.order, id) ==> IsOld(v, v.order[j], deadline)
  {
    ExpiryBoundary(v, deadline);
    hide Expire, Distinct, Position, IsOld, Pending.Matched;
    var out, left := Expire(v, deadline).1, Expire(v, deadline).0.order;
    InFrontPart(out, left, id);
    assert forall j :: 0 <= j < |out| ==> v.order[j] == out[j];
    assert left != [] ==> v.order[|out|] == left[0];
  }

  lemma PositionOf(order: seq<RequestID>, i: nat)
    requires Distinct(order) && i < |order|
    ensures order[i] in order && Position(order, order[i]) == i
  {
    var j := Position(order, order[i]);
    assert order[j] == order[i];
  }

  /** It is not past the deadline, and everything in front of it is. */
  predicate FirstInTime(v: Pending, deadline: int, id: RequestID) {
    && id in v.order && !IsOld(v, id, deadline)
    && forall j :: 0 <= j < Position(v.order, id) ==> IsOld(v, v.order[j], deadline)
  }

  lemma FirstKept(v: Pending, deadline: int, out: seq<RequestID>, left: seq<RequestID>, id: RequestID)
    requires Distinct(v.order) && v.order == out + left
    requires (forall j :: 0 <= j < |out| ==> IsOld(v, out[j], deadline)) && (left != [] ==> !IsOld(v, left[0], deadline))
    ensures
      left != [] && left[0] == id <==> FirstInTime(v, deadline, id)
  {
    hide Distinct, Position, IsOld;
    assert forall j :: 0 <= j < |out| ==> v.order[j] == out[j];
    if left != [] {
      assert v.order[|out|] == left[0];
      PositionOf(v.order, |out|);
    }
  }

  lemma KeptItem(v: Pending, deadline: int)
    requires v.Matched()
    ensures
      var u := Expire(v, deadline).0;
      u.order != [] ==>
        var id := u.order[0];
        id in u.items && id in v.items && u.items[id] == v.items[id]
  {
    ExpireIsPrefix(v, deadline);
    hide Expire, Pending.Matched, Pending.Sorted;
  }

  /** It was last sent at least the interval ago. */
  predicate Due(v: Pending, cfg: Config, id: RequestID, now: int) {
    id in v.items && v.items[id].lastRetry + cfg.retryInterval <= now
  }

  lemma SendsFirstKept(v: Pending, cfg: Config, now: int, id: RequestID)
    requires v.Matched()
    ensures
      var left := Expire(v, now - cfg.hardDeadline).0.order;
      RunNext(v, cfg, now).2 == Some(id)
      <==> left != [] && left[0] == id && Due(v, cfg, id, now)
  {
    KeptItem(v, now - cfg.hardDeadline);
    hide Expire, Pending.Matched, RetryFront;
  }

  /** A pass sends a request if and only if everything in front of it is past its deadline, it is not itself,
      and the last time it was sent is at least the interval ago; no matter how often that was. */
  lemma PassSendsIff(v: Pending, cfg: Config, now: int, id: RequestID)
    requires v.Matched()
    ensures
      RunNext(v, cfg, now).2 == Some(id)
      <==>
        && FirstInTime(v, now - cfg.hardDeadline, id)
        && Due(v, cfg, id, now)
  {
    hide *;
    var deadline := now - cfg.hardDeadline;
    ExpiryBoundary(v, deadline);
    SendsFirstKept(v, cfg, now, id);
    FirstKept(v, deadline, Expire(v, deadline).1, Expire(v, deadline).0.order, id);
  }

  /** Every request up to this place is due. */
  predicate AllDue(v: Pending, cfg: Config, n: nat, now: int) {
    n <= |v.order| && forall j :: 0 <= j < n ==> Due(v, cfg, v.order[j], now)
  }

  /** This pass sends the request, or gives it up. */
  predicate Handles(v: Pending, cfg: Config, now: int, id: RequestID) {
    RunNext(v, cfg, now).2 == Some(id) || id in RunNext(v, cfg, now).1
  }

  function Passes(v: Pending, cfg: Config, times: seq<int>): Pending
    decreases |times|
  {
    if times == [] then v else Passes(RunNext(v, cfg, times[0]).0, cfg, times[1..])
  }

  lemma MovedNearer(order: seq<RequestID>, out: seq<RequestID>, left: seq<RequestID>, id: RequestID)
    requires Distinct(order) && order == out + left && left != [] && id in order && id !in out && id != left[0]
    ensures
      var u := left[1..] + [left[0]];
      && id in u && Position(order, id) == |out| + 1 + Position(u, id)
      && forall j :: 0 <= j <= Position(u, id) ==> u[j] == order[|out| + 1 + j] && u[j] != left[0]
  {
    var u, p := left[1..] + [left[0]], Position(order, id);
    assert forall j :: 0 <= j < |out| ==> order[j] == out[j];
    assert |out| < p && order[|out|] == left[0];
    hide Position;
    assert forall j :: 0 <= j < |left| - 1 ==> u[j] == order[|out| + 1 + j];
    Rotated(order, out, left);
    assert u[p - |out| - 1] == id;
    PositionOf(u, p - |out| - 1);
  }

  lemma Rotated(order: seq<RequestID>, out: seq<RequestID>, left: seq<RequestID>)
    requires Distinct(order) && order == out + left && left != []
    ensures Distinct(left[1..] + [left[0]])
  {
    var u := left[1..] + [left[0]];
    assert forall j :: 0 <= j < |left| ==> left[j] == order[|out| + j];
  }

  lemma BehindBoundary(order: seq<RequestID>, out: seq<RequestID>, left: seq<RequestID>, id: RequestID)
    requires order == out + left && id in order && id !in out
    ensures left != [] && |out| <= Position(order, id) && order[|out|] == left[0]
  {
    var p := Position(order, id);
    assert forall j :: 0 <= j < |out| ==> order[j] == out[j];
  }

  lemma FrontIsDue(v: Pending, cfg: Config, now: int)
    requires v.Matched()
    ensures
      var e := Expire(v, now - cfg.hardDeadline);
      && RunNext(v, cfg, now).1 == e.1
      && (e.0.order != [] && e.0.order[0] in v.items && v.items[e.0.order[0]].lastRetry + cfg.retryInterval <= now ==>
          RunNext(v, cfg, now).2 == Some(e.0.order[0]) && RunNext(v, cfg, now).0 == RetryFront(e.0, now))
  {
    KeptItem(v, now - cfg.hardDeadline);
    hide Expire, Pending.Matched, RetryFront;
  }

  lemma NotReached(v: Pending, cfg: Config, now: int, id: RequestID)
    requires v.Matched() && id in v.order && AllDue(v, cfg, Position(v.order, id) + 1, now)
    requires !Handles(v, cfg, now, id)
    ensures
      var e := Expire(v, now - cfg.hardDeadline);
      && v.order == e.1 + e.0.order
      && id !in e.1 && e.0.order != [] && id != e.0.order[0] && e.0.order[0] in e.0.items
      && RunNext(v, cfg, now).0 == RetryFront(e.0, now)
  {
    hide Expire, RunNext, RetryFront, Distinct, Position, Pending.Matched;
    var e := Expire(v, now - cfg.hardDeadline);
    ExpireSplits(v, now - cfg.hardDeadline);
    FrontIsDue(v, cfg, now);
    KeptItem(v, now - cfg.hardDeadline);
    BehindBoundary(v.order, e.1, e.0.order, id);
    assert v.order[|e.1|] in v.items;
  }

  lemma StaysDue(v: Pending, e: Pending, cfg: Config, x: RequestID, now: int, later: int)
    requires e.Matched() && x in e.order && x != e.order[0] && now <= later
    requires (forall y :: y in e.items ==> y in v.items && e.items[y] == v.items[y]) && Due(v, cfg, x, now)
    ensures e.order[0] in e.items && Due(RetryFront(e, now), cfg, x, later)
  {
    hide Distinct;
  }

  /** What is sent is behind everything else, and nothing else about the others changes. */
  lemma OthersStayDue(v: Pending, cfg: Config, e: Pending, out: seq<RequestID>, id: RequestID, now: int, later: int)
    requires Distinct(v.order) && v.order == out + e.order && id in v.order && id !in out
    requires e.order != [] && id != e.order[0]
    requires e.Matched() && AllDue(v, cfg, Position(v.order, id) + 1, now) && now <= later
    requires forall x :: x in e.items ==> x in v.items && e.items[x] == v.items[x]
    ensures
      var u := RetryFront(e, now);
      && u.Matched() && id in u.order && Position(u.order, id) < Position(v.order, id)
      && AllDue(u, cfg, Position(u.order, id) + 1, later)
  {
    hide Distinct, Position, Pending.Matched, Due;
    MovedNearer(v.order, out, e.order, id);
    RetryFrontKeepsMatched(e, now);
    var u := RetryFront(e, now);
    forall j | 0 <= j <= Position(u.order, id) ensures Due(u, cfg, u.order[j], later) {
      assert u.order[j] == v.order[|out| + 1 + j] == e.order[1 + j];
      StaysDue(v, e, cfg, u.order[j], now, later);
    }
  }

  /** A pass that does not reach a request brings it nearer to the front. */
  lemma PassBringsNearer(v: Pending, cfg: Config, now: int, id: RequestID, later: int)
    requires v.Matched() && id in v.order && AllDue(v, cfg, Position(v.order, id) + 1, now) && now <= later
    requires !Handles(v, cfg, now, id)
    ensures
      var u := RunNext(v, cfg, now).0;
      && u.Matched() && id in u.order && Position(u.order, id) < Position(v.order, id)
      && AllDue(u, cfg, Position(u.order, id) + 1, later)
  {
    hide *;
    NotReached(v, cfg, now, id);
    MatchedIsDistinct(v);
    ExpireIsPrefix(v, now - cfg.hardDeadline);
    var e := Expire(v, now - cfg.hardDeadline);
    OthersStayDue(v, cfg, e.0, e.1, id, now, later);
  }

  lemma MatchedIsDistinct(v: Pending)
    requires v.Matched()
    ensures Distinct(v.order)
  {}

  /** Nobody starves: while passes are made at times when everything up to a request is due, the request is sent
      again or given up within as many passes as its place in the retry order. */
  lemma {:induction false} NobodyStarves(v: Pending, cfg: Config, times: seq<int>, id: RequestID)
    requires v.Matched() && id in v.order && Position(v.order, id) < |times|
    requires AllDue(v, cfg, Position(v.order, id) + 1, times[0])
    requires forall k :: 0 < k < |times| ==> times[k - 1] <= times[k]
    ensures exists k :: 0 <= k <= Position(v.order, id) && Handles(Passes(v, cfg, times[..k]), cfg, times[k], id)
    decreases |times|
  {
    hide RunNext, AllDue, Position, Pending.Matched;
    if Handles(v, cfg, times[0], id) {
      assert Passes(v, cfg, times[..0]) == v;
    } else {
      var u := RunNext(v, cfg, times[0]).0;
      PassBringsNearer(v, cfg, times[0], id, if |times| > 1 then times[1] else times[0]);
      NobodyStarves(u, cfg, times[1..], id);
      var k :| 0 <= k <= Position(u.order, id) && Handles(Passes(u, cfg, times[1..][..k]), cfg, times[1..][k], id);
      assert times[..k + 1][1..] == times[1..][..k];
      assert Handles(Passes(v, cfg, times[..k + 1]), cfg, times[k + 1], id);
    }
  }

  // ---- whole runs ----

  datatype Transmission = Transmission(id: RequestID, time: int, channel: Bytes, contents: Bytes, first: bool)

  datatype Issued = Issued(time: int, contents: Bytes)

  datatype Event =
    | Issue(id: RequestID, contents: Bytes, time: int)
    | Retry(time: int)
    | Receive(id: RequestID, reply: CommunicatorReply)

  datatype World = World(
    v: Pending, now: int,
    issued: map<RequestID, Issued>,
    sent: seq<Transmission>,
    satisfied: seq<(RequestID, CommunicatorReply)>,
    expired: seq<RequestID>)

  function Start(now: int): World {
    World(EMPTY, now, map[], [], [], [])
  }

  /** Identifiers are never generated twice, and the clock does not go back. */
  predicate Enabled(w: World, e: Event) {
    match e
    case Issue(id, _, time) => id !in w.issued && w.now <= time
    case Retry(time) => w.now <= time
    case Receive(_, _) => true
  }

  function Resend(u: Pending, id: RequestID, time: int): (t: Transmission)
    ensures t.id == id && t.time == time && !t.first
  {
    var item := if id in u.items then u.items[id] else Item(0, 0, [], []);
    Transmission(id, time, item.channel, item.contents, false)
  }

  function Apply(w: World, cfg: Config, e: Event): World {
    match e
    case Issue(id, contents, time) =>
      w.(v := Insert(w.v, id, cfg.channel, contents, time), now := time,
         issued := w.issued[id := Issued(time, contents)],
         sent := w.sent + [Transmission(id, time, cfg.channel, contents, true)])
    case Retry(time) =>
      var r := RunNext(w.v, cfg, time);
      w.(v := r.0, now := time, expired := w.expired + r.1,
         sent := w.sent + if r.2.None? then [] else [Resend(r.0, r.2.value, time)])
    case Receive(id, reply) =>
      if id in w.v.items then w.(v := Satisfy(w.v, id), satisfied := w.satisfied + [(id, reply)]) else w
  }

  function After(w: World, cfg: Config, events: seq<Event>): Option<World>
    decreases |events|
  {
    if events == [] then Some(w)
    else if !Enabled(w, events[0]) then None
    else After(Apply(w, cfg, events[0]), cfg, events[1..])
  }

  ghost predicate Reachable(cfg: Config, w: World) {
    exists now, events :: After(Start(now), cfg, events) == Some(w)
  }

  // ---- invariants ----

  function Ids(satisfied: seq<(RequestID, CommunicatorReply)>): (ids: seq<RequestID>)
    ensures |ids| == |satisfied| && forall i :: 0 <= i < |ids| ==> ids[i] == satisfied[i].0
  {
    seq(|satisfied|, i requires 0 <= i < |satisfied| => satisfied[i].0)
  }

  predicate ItemOk(w: World, cfg: Config, id: RequestID)
    requires id in w.v.items
  {
    var item := w.v.items[id];
    && id in w.issued && item.start == w.issued[id].time && item.contents == w.issued[id].contents
    && item.channel == cfg.channel && item.lastRetry <= w.now
  }

  /** The message is always the one that was issued; after the first time, it is sent before its deadline. */
  predicate SentOk(w: World, cfg: Config, t: Transmission) {
    && t.id in w.issued && t.contents == w.issued[t.id].contents && t.channel == cfg.channel
    && (if t.first then t.time == w.issued[t.id].time else t.time < w.issued[t.id].time + cfg.hardDeadline)
    && (t.id in w.v.items ==> t.time <= w.v.items[t.id].lastRetry)
  }

  ghost predicate Spaced(sent: seq<Transmission>, interval: nat) {
    forall i, j :: 0 <= i < j < |sent| && sent[i].id == sent[j].id ==> sent[i].time + interval <= sent[j].time
  }

  ghost predicate Ordered(w: World) { w.v.Matched() && w.v.Sorted() }

  ghost predicate ItemsOk(w: World, cfg: Config) { forall id :: id in w.v.items ==> ItemOk(w, cfg, id) }

  ghost predicate AllSentOk(w: World, cfg: Config) { forall i :: 0 <= i < |w.sent| ==> SentOk(w, cfg, w.sent[i]) }

  /** Every identifier ever issued is pending, satisfied, or given up, once. */
  ghost predicate OneFate(w: World) {
    multiset(w.v.order) + multiset(Ids(w.satisfied)) + multiset(w.expired) == multiset(w.issued.Keys)
  }

  ghost predicate ExpiredOk(w: World, cfg: Config) {
    forall id :: id in w.expired ==> id in w.issued && w.issued[id].time + cfg.hardDeadline <= w.now
  }

  ghost predicate Inv(w: World, cfg: Config) {
    && Ordered(w) && ItemsOk(w, cfg) && AllSentOk(w, cfg) && Spaced(w.sent, cfg.retryInterval)
    && OneFate(w) && ExpiredOk(w, cfg)
  }

  lemma IssueFate(w: World, cfg: Config, id: RequestID, contents: Bytes, time: int)
    requires OneFate(w) && id !in w.issued
    ensures OneFate(Apply(w, cfg, Issue(id, contents, time)))
  {
    var u := Apply(w, cfg, Issue(id, contents, time));
    assert u.issued.Keys == w.issued.Keys + {id};
    assert multiset(u.issued.Keys) == multiset(w.issued.Keys) + multiset{id};
    assert multiset(u.v.order) == multiset(w.v.order) + multiset{id};
  }

  lemma IssueKeepsSent(w: World, cfg: Config, id: RequestID, contents: Bytes, time: int)
    requires AllSentOk(w, cfg) && Spaced(w.sent, cfg.retryInterval) && ItemsOk(w, cfg) && id !in w.issued
    ensures var u := Apply(w, cfg, Issue(id, contents, time)); AllSentOk(u, cfg) && Spaced(u.sent, cfg.retryInterval)
  {
    var u := Apply(w, cfg, Issue(id, contents, time));
    forall i | 0 <= i < |u.sent| ensures SentOk(u, cfg, u.sent[i]) && (i < |w.sent| ==> u.sent[i].id != id) {
      if i < |w.sent| { assert SentOk(w, cfg, w.sent[i]); }
    }
  }

  lemma IssueKeepsInv(w: World, cfg: Config, id: RequestID, contents: Bytes, time: int)
    requires Inv(w, cfg) && Enabled(w, Issue(id, contents, time))
    ensures Inv(Apply(w, cfg, Issue(id, contents, time)), cfg)
  {
    assert id !in w.v.items && id !in w.v.order;
    InsertKeepsMatched(w.v, id, cfg.channel, contents, time);
    InsertKeepsSorted(w.v, id, cfg.channel, contents, time);
    IssueFate(w, cfg, id, contents, time);
    IssueKeepsSent(w, cfg, id, contents, time);
    hide Pending.Matched, Pending.Sorted, OneFate, AllSentOk, Spaced;
  }

  lemma CutAt(order: seq<RequestID>, id: RequestID)
    requires id in order
    ensures var i := Position(order, id); order == order[..i] + [id] + order[i + 1..]
  {
    hide Position;
  }

  lemma SatisfiedOne(v: Pending, id: RequestID)
    requires v.Matched() && id in v.items
    ensures multiset(v.order) == multiset(Satisfy(v, id).order) + multiset{id}
  {
    assert id in v.order;
    hide Pending.Matched, Position;
    CutAt(v.order, id);
    var i := Position(v.order, id);
    SplitMultiset(v.order, v.order[..i], id, v.order[i + 1..]);
  }

  lemma SplitMultiset(whole: seq<RequestID>, a: seq<RequestID>, id: RequestID, b: seq<RequestID>)
    requires whole == a + [id] + b
    ensures multiset(whole) == multiset(a + b) + multiset{id}
  {
    assert multiset(whole) == multiset(a) + multiset([id]) + multiset(b);
    assert multiset(a + b) == multiset(a) + multiset(b);
  }

  lemma ReceiveKeepsInv(w: World, cfg: Config, id: RequestID, reply: CommunicatorReply)
    requires Inv(w, cfg) && id in w.v.items
    ensures Inv(Apply(w, cfg, Receive(id, reply)), cfg)
  {
    var u := Apply(w, cfg, Receive(id, reply));
    SatisfiedOne(w.v, id);
    RemovedKeepsOrder(w.v, id);
    assert Ids(u.satisfied) == Ids(w.satisfied) + [id];
    hide Distinct, Pending.Sorted, Removed;
    assert u.v.items == w.v.items - {id};
  }

  lemma ReceiveUnknown(w: World, cfg: Config, id: RequestID, reply: CommunicatorReply)
    requires id !in w.v.items
    ensures Apply(w, cfg, Receive(id, reply)) == w
  {}

  /** The state after expiry alone. */
  function AfterExpiry(w: World, cfg: Config, time: int): World {
    var r := Expire(w.v, time - cfg.hardDeadline);
    w.(v := r.0, now := time, expired := w.expired + r.1)
  }

  lemma ExpiryKeepsSent(w: World, cfg: Config, time: int)
    requires AllSentOk(w, cfg)
    ensures AllSentOk(AfterExpiry(w, cfg, time), cfg)
  {
    hide Expire;
    ExpireKeepsItems(w.v, time - cfg.hardDeadline);
    var u := AfterExpiry(w, cfg, time);
    forall i | 0 <= i < |u.sent| ensures SentOk(u, cfg, u.sent[i]) {
      assert SentOk(w, cfg, w.sent[i]);
    }
  }

  lemma ExpiryFate(w: World, cfg: Config, time: int)
    requires OneFate(w)
    ensures OneFate(AfterExpiry(w, cfg, time))
  {
    hide Expire, Ids;
    ExpireSplits(w.v, time - cfg.hardDeadline);
    var r := Expire(w.v, time - cfg.hardDeadline);
    assert multiset(w.v.order) == multiset(r.1) + multiset(r.0.order);
  }

  lemma ExpiryKeepsItems(w: World, cfg: Config, time: int)
    requires ItemsOk(w, cfg) && w.now <= time
    ensures ItemsOk(AfterExpiry(w, cfg, time), cfg)
  {
    hide Expire;
    ExpireKeepsItems(w.v, time - cfg.hardDeadline);
    var u := AfterExpiry(w, cfg, time);
    forall id | id in u.v.items ensures ItemOk(u, cfg, id) {
      assert ItemOk(w, cfg, id);
    }
  }

  lemma ExpiryIsLate(w: World, cfg: Config, time: int)
    requires ItemsOk(w, cfg) && ExpiredOk(w, cfg) && w.now <= time
    ensures ExpiredOk(AfterExpiry(w, cfg, time), cfg)
  {
    hide Expire;
    ExpireKeepsItems(w.v, time - cfg.hardDeadline);
    var u := AfterExpiry(w, cfg, time);
    forall id | id in u.expired ensures id in w.issued && w.issued[id].time + cfg.hardDeadline <= time {
      if id !in w.expired { assert ItemOk(w, cfg, id); }
    }
  }

  lemma ExpiryKeepsInv(w: World, cfg: Config, time: int)
    requires Inv(w, cfg) && w.now <= time
    ensures Inv(AfterExpiry(w, cfg, time), cfg)
    ensures
      var u := AfterExpiry(w, cfg, time).v;
      u.order != [] ==> u.order[0] in u.items && time < u.items[u.order[0]].start + cfg.hardDeadline
  {
    hide Expire, Pending.Matched, Pending.Sorted, OneFate, AllSentOk, Spaced, ItemsOk, ExpiredOk;
    ExpiryKeepsSent(w, cfg, time);
    ExpiryFate(w, cfg, time);
    ExpiryKeepsItems(w, cfg, time);
    ExpiryIsLate(w, cfg, time);
    ExpireIsPrefix(w.v, time - cfg.hardDeadline);
  }

  /** The front item of a vault is sent again. */
  function Resent(w: World): World
    requires w.v.order != [] && w.v.order[0] in w.v.items
  {
    var v := RetryFront(w.v, w.now);
    w.(v := v, sent := w.sent + [Resend(v, w.v.order[0], w.now)])
  }

  ghost predicate DueForRetry(w: World, cfg: Config) {
    && w.v.order != [] && w.v.order[0] in w.v.items
    && w.v.items[w.v.order[0]].lastRetry + cfg.retryInterval <= w.now
    && w.now < w.v.items[w.v.order[0]].start + cfg.hardDeadline
  }

  lemma ResentKeepsSent(w: World, cfg: Config)
    requires ItemsOk(w, cfg) && AllSentOk(w, cfg) && Spaced(w.sent, cfg.retryInterval) && DueForRetry(w, cfg)
    ensures AllSentOk(Resent(w), cfg) && Spaced(Resent(w).sent, cfg.retryInterval)
  {
    var id, u := w.v.order[0], Resent(w);
    assert ItemOk(w, cfg, id);
    forall i | 0 <= i < |u.sent|
      ensures SentOk(u, cfg, u.sent[i])
      ensures i < |w.sent| && u.sent[i].id == id ==> u.sent[i].time + cfg.retryInterval <= w.now
    {
      if i < |w.sent| { assert SentOk(w, cfg, w.sent[i]); }
    }
  }

  lemma ResentFate(w: World)
    requires OneFate(w) && w.v.order != [] && w.v.order[0] in w.v.items
    ensures OneFate(Resent(w))
  {
    assert w.v.order == [w.v.order[0]] + w.v.order[1..];
    assert multiset(w.v.order) == multiset(Resent(w).v.order);
  }

  lemma ResentKeepsInv(w: World, cfg: Config)
    requires Inv(w, cfg) && DueForRetry(w, cfg)
    ensures Inv(Resent(w), cfg)
  {
    forall i | 0 <= i < |w.v.order| ensures w.v.LastRetry(w.v.order[i]) <= w.now {
      assert w.v.order[i] in w.v.items && ItemOk(w, cfg, w.v.order[i]);
    }
    RetryFrontKeepsMatched(w.v, w.now);
    RetryFrontKeepsSorted(w.v, w.now);
    ResentKeepsSent(w, cfg);
    ResentFate(w);
    hide Pending.Matched, Pending.Sorted, OneFate, AllSentOk, Spaced;
    var u := Resent(w);
    forall id | id in u.v.items ensures ItemOk(u, cfg, id) {
      assert ItemOk(w, cfg, id);
    }
  }

  /** One pass is expiry, and then perhaps one retransmission. */
  lemma RetryIsTwoSteps(w: World, cfg: Config, time: int)
    ensures
      var u := AfterExpiry(w, cfg, time);
      var v := Apply(w, cfg, Retry(time));
      v == u || (u.v.order != [] && u.v.order[0] in u.v.items && v == Resent(u)
                 && u.v.items[u.v.order[0]].lastRetry + cfg.retryInterval <= time)
  {
    hide Expire;
  }

  lemma StepKeepsInv(w: World, cfg: Config, e: Event)
    requires Inv(w, cfg) && Enabled(w, e)
    ensures Inv(Apply(w, cfg, e), cfg)
  {
    hide Inv, Apply, AfterExpiry, Resent;
    match e
    case Issue(id, contents, time) => IssueKeepsInv(w, cfg, id, contents, time);
    case Receive(id, reply) =>
      if id in w.v.items { ReceiveKeepsInv(w, cfg, id, reply); } else { ReceiveUnknown(w, cfg, id, reply); }
    case Retry(time) =>
      RetryIsTwoSteps(w, cfg, time);
      ExpiryKeepsInv(w, cfg, time);
      var u := AfterExpiry(w, cfg, time);
      AfterExpiryClock(w, cfg, time);
      if Apply(w, cfg, e) != u { ResentKeepsInv(u, cfg); }
  }

  lemma AfterExpiryClock(w: World, cfg: Config, time: int)
    ensures AfterExpiry(w, cfg, time).now == time
  {}

  lemma {:induction false} RunKeepsInv(w: World, cfg: Config, events: seq<Event>)
    requires Inv(w, cfg)
    ensures After(w, cfg, events).Some? ==> Inv(After(w, cfg, events).value, cfg)
    decreases |events|
  {
    hide Inv, Apply, Enabled;
    if events != [] && Enabled(w, events[0]) {
      StepKeepsInv(w, cfg, events[0]);
      RunKeepsInv(Apply(w, cfg, events[0]), cfg, events[1..]);
    }
  }

  lemma ReachableIsOk(cfg: Config, w: World)
    requires Reachable(cfg, w)
    ensures Inv(w, cfg)
  {
    var now, events :| After(Start(now), cfg, events) == Some(w);
    assert multiset(Start(now).issued.Keys) == multiset{};
    RunKeepsInv(Start(now), cfg, events);
  }

  // ---- main results ----

  /** The retry list is a permutation of the vault's keys, in the order of their last retries. */
  lemma RetryOrder(cfg: Config, w: World)
    requires Reachable(cfg, w)
    ensures multiset(w.v.order) == multiset(w.v.items.Keys)
    ensures
      forall i, j :: 0 <= i < j < |w.v.order| ==>
        && w.v.order[i] in w.v.items && w.v.order[j] in w.v.items
        && w.v.items[w.v.order[i]].lastRetry <= w.v.items[w.v.order[j]].lastRetry
  {
    ReachableIsOk(cfg, w);
    OrderIsMatched(w, cfg);
    hide Inv;
    assert w.v.Sorted();
    KeysOnce(w.v);
    forall i, j | 0 <= i < j < |w.v.order| ensures
      && w.v.order[i] in w.v.items && w.v.order[j] in w.v.items
      && w.v.items[w.v.order[i]].lastRetry <= w.v.items[w.v.order[j]].lastRetry
    {
      assert w.v.order[i] in w.v.order && w.v.order[j] in w.v.order;
      assert w.v.LastRetry(w.v.order[i]) <= w.v.LastRetry(w.v.order[j]);
    }
  }

  lemma OrderIsMatched(w: World, cfg: Config)
    requires Inv(w, cfg)
    ensures w.v.Matched() && w.v.Sorted() && Distinct(w.v.order)
  {
    hide ItemsOk, AllSentOk, Spaced, OneFate, ExpiredOk, Pending.Sorted, Distinct;
  }

  lemma KeysOnce(v: Pending)
    requires v.Matched()
    ensures multiset(v.order) == multiset(v.items.Keys)
  {
    forall id: RequestID ensures multiset(v.order)[id] == multiset(v.items.Keys)[id] {
      if id in v.order { DistinctIsOnce(v.order, id); }
    }
  }

  lemma DistinctIsOnce(order: seq<RequestID>, id: RequestID)
    requires Distinct(order) && id in order
    ensures multiset(order)[id] == 1
  {
    var i := Position(order, id);
    assert order == order[..i] + [id] + order[i + 1..];
    assert id !in order[i + 1..];
  }

  /** One request is sent again at intervals, before its deadline, and as it was issued. */
  lemma Retransmissions(cfg: Config, w: World, i: nat, j: nat)
    requires Reachable(cfg, w) && i < j < |w.sent| && w.sent[i].id == w.sent[j].id
    ensures w.sent[i].time + cfg.retryInterval <= w.sent[j].time
    ensures w.sent[j].id in w.issued && w.sent[j].contents == w.sent[i].contents == w.issued[w.sent[j].id].contents
    ensures !w.sent[j].first ==> w.sent[j].time < w.issued[w.sent[j].id].time + cfg.hardDeadline
  {
    ReachableIsOk(cfg, w);
    assert SentOk(w, cfg, w.sent[i]) && SentOk(w, cfg, w.sent[j]);
  }

  /** Each request is pending, satisfied or given up, exactly one of them and once; given up only
      after its deadline. */
  lemma NeverSatisfiedAndExpired(cfg: Config, w: World, id: RequestID)
    requires Reachable(cfg, w)
    ensures multiset(w.v.order)[id] + multiset(Ids(w.satisfied))[id] + multiset(w.expired)[id]
      == if id in w.issued then 1 else 0
    ensures id in w.expired ==> id in w.issued && w.issued[id].time + cfg.hardDeadline <= w.now
  {
    ReachableIsOk(cfg, w);
    assert (multiset(w.v.order) + multiset(Ids(w.satisfied)) + multiset(w.expired))[id] == multiset(w.issued.Keys)[id];
  }

  /** Not every request past its deadline is given up: one that was retried hides behind a younger one. */
  lemma OldRequestsMayStay(a: RequestID, b: RequestID)
    requires a != b
    ensures
      var cfg := Config([], 10, 12);
      var run := [Issue(a, [], 0), Issue(b, [], 5), Retry(10), Retry(15)];
      match After(Start(0), cfg, run)
      case None => false
      case Some(w) => a in w.v.items && w.v.items[a].start + cfg.hardDeadline <= w.now && w.expired == []
  {
    var cfg := Config([], 10, 12);
    var w1 := Apply(Start(0), cfg, Issue(a, [], 0));
    var w2 := Apply(w1, cfg, Issue(b, [], 5));
    assert w2.v.order == [a, b];
    var w3 := Apply(w2, cfg, Retry(10));
    assert w3.v.order == [b, a] && w3.expired == [];
    var w4 := Apply(w3, cfg, Retry(15));
    assert w4.v.order == [a, b] && w4.expired == [];
    assert Enabled(Start(0), Issue(a, [], 0)) && Enabled(w1, Issue(b, [], 5)) && Enabled(w2, Retry(10)) && Enabled(w3, Retry(15));
    FourEvents(Start(0), cfg, Issue(a, [], 0), Issue(b, [], 5), Retry(10), Retry(15));
  }

  lemma FourEvents(w: World, cfg: Config, a: Event, b: Event, c: Event, d: Event)
    ensures
      var w1 := Apply(w, cfg, a);
      var w2 := Apply(w1, cfg, b);
      var w3 := Apply(w2, cfg, c);
      Enabled(w, a) && Enabled(w1, b) && Enabled(w2, c) && Enabled(w3, d) ==>
        After(w, cfg, [a, b, c, d]) == Some(Apply(w3, cfg, d))
  {
    hide Apply, Enabled;
    assert [a, b, c, d][1..] == [b, c, d] && [b, c, d][1..] == [c, d] && [c, d][1..] == [d] && [d][1..] == [];
    var w1 := Apply(w, cfg, a);
    var w2 := Apply(w1, cfg, b);
    var w3 := Apply(w2, cfg, c);
    if Enabled(w, a) && Enabled(w1, b) && Enabled(w2, c) && Enabled(w3, d) {
      assert After(w3, cfg, [d]) == After(Apply(w3, cfg, d), cfg, []);
      assert After(w2, cfg, [c, d]) == After(w3, cfg, [d]);
      assert After(w1, cfg, [b, c, d]) == After(w2, cfg, [c, d]);
    }
  }

  // ---- fairness ----

  /** Both are in the retry order, x before y. */
  ghost predicate Before(order: seq<RequestID>, x: RequestID, y: RequestID) {
    exists i, j :: 0 <= i < j < |order| && order[i] == x && order[j] == y
  }

  /** How often id was sent in this stretch. */
  function TimesSent(sent: seq<Transmission>, id: RequestID): nat {
    if sent == [] then 0
    else TimesSent(sent[..|sent| - 1], id) + (if sent[|sent| - 1].id == id then 1 else 0)
  }

  lemma EitherBefore(order: seq<RequestID>, x: RequestID, y: RequestID)
    requires Distinct(order) && x in order && y in order && x != y
    ensures Before(order, x, y) <==> !Before(order, y, x)
  {
    var i, j := Position(order, x), Position(order, y);
    assert Before(order, x, y) || Before(order, y, x) by {
      if i < j { assert order[i] == x && order[j] == y; } else { assert order[j] == y && order[i] == x; }
    }
  }

  /** Taking ids out of the order, or adding one at its end, keeps the rest in order. */
  lemma StillBefore(a: seq<RequestID>, out: seq<RequestID>, b: seq<RequestID>, more: seq<RequestID>, x: RequestID, y: RequestID)
    requires Distinct(a + out + b) && Before(a + out + b, x, y) && x !in out && y !in out
    ensures Before(a + b + more, x, y)
  {
    var s, t := a + out + b, a + b + more;
    var i, j :| 0 <= i < j < |s| && s[i] == x && s[j] == y;
    var i', j' := if i < |a| then i else i - |out|, if j < |a| then j else j - |out|;
    forall m | |a| <= m < |a| + |out| ensures s[m] in out { assert s[m] == out[m - |a|]; }
    assert t[i'] == x && t[j'] == y;
  }

  /** Since id was sent, y was sent k times: it waits for its turn before id, or had it already. */
  ghost predicate Turn(w: World, id: RequestID, y: RequestID, k: nat) {
    && id != y && id in w.v.order && y in w.v.order
    && if k == 0 then Before(w.v.order, y, id) else k == 1 && Before(w.v.order, id, y)
  }

  /** What a step sent. */
  function NewlySent(w: World, v: World): seq<Transmission> {
    if |w.sent| <= |v.sent| then v.sent[|w.sent|..] else []
  }

  lemma TurnMoves(w: World, v: World, out: seq<RequestID>, a: seq<RequestID>, b: seq<RequestID>, more: seq<RequestID>,
                  id: RequestID, y: RequestID, k: nat)
    requires Turn(w, id, y, k) && Distinct(w.v.order) && w.v.order == a + out + b && v.v.order == a + b + more
    requires id !in out && y !in out
    ensures Turn(v, id, y, k)
  {
    if k == 0 { StillBefore(a, out, b, more, y, id); } else { StillBefore(a, out, b, more, id, y); }
    assert Before(v.v.order, y, id) || Before(v.v.order, id, y);
    hide Distinct;
    assert Before(v.v.order, y, id) ==> id in v.v.order && y in v.v.order;
    assert Before(v.v.order, id, y) ==> id in v.v.order && y in v.v.order;
  }

  lemma TurnAtIssue(w: World, cfg: Config, e: Event, id: RequestID, y: RequestID, k: nat)
    requires Inv(w, cfg) && Enabled(w, e) && e.Issue? && Turn(w, id, y, k)
    ensures Turn(Apply(w, cfg, e), id, y, k)
    ensures NewlySent(w, Apply(w, cfg, e)) == [Transmission(e.id, e.time, cfg.channel, e.contents, true)]
    ensures e.id != y
  {
    assert ItemOk(w, cfg, y);
    var order := w.v.order;
    assert order == order + [] + [];
    TurnMoves(w, Apply(w, cfg, e), [], order, [], [e.id], id, y, k);
  }

  lemma RemovedInParts(v: Pending, rid: RequestID)
    requires v.Matched() && rid in v.items
    ensures
      var i, u := Position(v.order, rid), Satisfy(v, rid);
      && v.order == v.order[..i] + [rid] + v.order[i + 1..] && u.order == v.order[..i] + v.order[i + 1..] + []
      && rid !in u.order
  {
    assert rid in v.order;
    CutAt(v.order, rid);
    WithoutMembers(v.order, Position(v.order, rid));
    hide Pending.Matched, Distinct, Position;
    var i := Position(v.order, rid);
    assert Satisfy(v, rid).order == Without(v.order, i);
  }

  lemma TurnAtSatisfy(w: World, v: World, rid: RequestID, id: RequestID, y: RequestID, k: nat)
    requires w.v.Matched() && Distinct(w.v.order) && rid in w.v.items && v.v == Satisfy(w.v, rid)
    requires Turn(w, id, y, k) && id in v.v.order && y in v.v.order
    ensures Turn(v, id, y, k)
  {
    RemovedInParts(w.v, rid);
    hide Distinct, Turn, Satisfy, Pending.Matched, Position;
    var i := Position(w.v.order, rid);
    TurnMoves(w, v, [rid], w.v.order[..i], w.v.order[i + 1..], [], id, y, k);
  }

  lemma ReceiveEffect(w: World, cfg: Config, e: Event)
    requires e.Receive?
    ensures
      var v := Apply(w, cfg, e);
      v.v == (if e.id in w.v.items then Satisfy(w.v, e.id) else w.v) && NewlySent(w, v) == []
  {
    hide Satisfy, RunNext;
  }

  lemma SameOrderSameTurn(w: World, v: World, id: RequestID, y: RequestID, k: nat)
    requires Turn(w, id, y, k) && v.v == w.v
    ensures Turn(v, id, y, k)
  {}

  lemma TurnAtReceive(w: World, cfg: Config, e: Event, id: RequestID, y: RequestID, k: nat)
    requires Inv(w, cfg) && e.Receive? && Turn(w, id, y, k)
    requires id in Apply(w, cfg, e).v.order && y in Apply(w, cfg, e).v.order
    ensures Turn(Apply(w, cfg, e), id, y, k) && NewlySent(w, Apply(w, cfg, e)) == []
  {
    hide Inv, Turn, Apply, NewlySent, Satisfy, Distinct, Pending.Matched;
    OrderIsMatched(w, cfg);
    ReceiveEffect(w, cfg, e);
    if e.id in w.v.items {
      TurnAtSatisfy(w, Apply(w, cfg, e), e.id, id, y, k);
    } else {
      SameOrderSameTurn(w, Apply(w, cfg, e), id, y, k);
    }
  }

  /** A prefix of the retry order that is given up changes nothing for the others. */
  lemma TurnAfterPrefix(w: World, u: World, out: seq<RequestID>, id: RequestID, y: RequestID, k: nat)
    requires Distinct(w.v.order) && w.v.order == out + u.v.order && Turn(w, id, y, k)
    requires id in u.v.order && y in u.v.order
    ensures Turn(u, id, y, k)
  {
    var left := u.v.order;
    DisjointParts(out, left, id);
    DisjointParts(out, left, y);
    hide Turn, Distinct;
    assert w.v.order == [] + out + left && left == [] + left + [];
    TurnMoves(w, u, out, [], left, [], id, y, k);
  }

  lemma TurnAtExpiry(w: World, cfg: Config, time: int, id: RequestID, y: RequestID, k: nat)
    requires Inv(w, cfg) && w.now <= time && Turn(w, id, y, k)
    requires id in AfterExpiry(w, cfg, time).v.order && y in AfterExpiry(w, cfg, time).v.order
    ensures Turn(AfterExpiry(w, cfg, time), id, y, k)
  {
    hide Expire, Inv, Turn, Distinct, Pending.Matched;
    OrderIsMatched(w, cfg);
    ExpireSplits(w.v, time - cfg.hardDeadline);
    TurnAfterPrefix(w, AfterExpiry(w, cfg, time), Expire(w.v, time - cfg.hardDeadline).1, id, y, k);
  }

  lemma DisjointParts(a: seq<RequestID>, b: seq<RequestID>, id: RequestID)
    requires Distinct(a + b) && id in b
    ensures id !in a
  {
    var j := Position(b, id);
    forall i | 0 <= i < |a| ensures a[i] != id {
      assert (a + b)[i] == a[i] && (a + b)[|a| + j] == id;
    }
  }

  lemma ResentInParts(w: World)
    requires w.v.order != [] && w.v.order[0] in w.v.items
    ensures
      var front, rest, u := w.v.order[0], w.v.order[1..], Resent(w);
      && w.v.order == [] + [front] + rest && u.v.order == [] + rest + [front]
      && NewlySent(w, u) == [Resend(u.v, front, w.now)]
  {}

  lemma TurnComes(w: World, id: RequestID, y: RequestID, k: nat)
    requires Distinct(w.v.order) && w.v.order != [] && w.v.order[0] in w.v.items && w.v.order[0] == y && Turn(w, id, y, k)
    ensures Turn(Resent(w), id, y, k + 1)
  {
    ResentInParts(w);
    FrontMovesBack(w.v.order, id);
    FrontIsFirst(w.v.order, id);
    hide Resent, Before, Distinct;
    assert Resent(w).v.order == w.v.order[1..] + [w.v.order[0]];
  }

  lemma TurnAtResend(w: World, cfg: Config, id: RequestID, y: RequestID, k: nat)
    requires Inv(w, cfg) && w.v.order != [] && w.v.order[0] in w.v.items && w.v.order[0] != id && Turn(w, id, y, k)
    ensures Turn(Resent(w), id, y, k + if w.v.order[0] == y then 1 else 0)
    ensures NewlySent(w, Resent(w)) == [Resend(Resent(w).v, w.v.order[0], w.now)]
  {
    hide Inv, Turn, Resent, NewlySent, Distinct, Pending.Matched;
    OrderIsMatched(w, cfg);
    ResentInParts(w);
    var front, rest := w.v.order[0], w.v.order[1..];
    if front != y {
      TurnMoves(w, Resent(w), [front], [], rest, [front], id, y, k);
    } else {
      TurnComes(w, id, y, k);
    }
  }

  lemma FrontMovesBack(order: seq<RequestID>, id: RequestID)
    requires order != [] && id in order && id != order[0]
    ensures var u := order[1..] + [order[0]]; Before(u, id, order[0]) && id in u && order[0] in u
  {
    var i, u := Position(order, id), order[1..] + [order[0]];
    assert u[i - 1] == id && u[|order| - 1] == order[0];
  }

  lemma FrontIsFirst(order: seq<RequestID>, id: RequestID)
    requires Distinct(order) && order != []
    ensures !Before(order, id, order[0])
  {}

  lemma TurnAtRetry(w: World, cfg: Config, time: int, id: RequestID, y: RequestID, k: nat)
    requires Inv(w, cfg) && w.now <= time && Turn(w, id, y, k)
    requires var v := Apply(w, cfg, Retry(time)); id in v.v.order && y in v.v.order && TimesSent(NewlySent(w, v), id) == 0
    ensures var v := Apply(w, cfg, Retry(time)); Turn(v, id, y, k + TimesSent(NewlySent(w, v), y))
  {
    hide Inv, Turn, Before, Expire;
    var u, v := AfterExpiry(w, cfg, time), Apply(w, cfg, Retry(time));
    RetryIsTwoSteps(w, cfg, time);
    ExpiryKeepsInv(w, cfg, time);
    assert u.sent == w.sent && u.now == time;
    if v == u {
      TurnAtExpiry(w, cfg, time, id, y, k);
    } else {
      assert v.v.order == u.v.order[1..] + [u.v.order[0]];
      assert forall x :: x in v.v.order ==> x in u.v.order;
      TurnAtExpiry(w, cfg, time, id, y, k);
      SentOnce(Resend(v.v, u.v.order[0], time), id);
      SentOnce(Resend(v.v, u.v.order[0], time), y);
      assert NewlySent(w, v) == [Resend(v.v, u.v.order[0], time)];
      TurnAtResend(u, cfg, id, y, k);
    }
  }

  lemma SentOnce(t: Transmission, id: RequestID)
    ensures TimesSent([t], id) == if t.id == id then 1 else 0
  {
    assert [t][..0] == [];
  }

  lemma TurnAtStep(w: World, cfg: Config, e: Event, id: RequestID, y: RequestID, k: nat)
    requires Inv(w, cfg) && Enabled(w, e) && Turn(w, id, y, k)
    requires var v := Apply(w, cfg, e); id in v.v.order && y in v.v.order && TimesSent(NewlySent(w, v), id) == 0
    ensures var v := Apply(w, cfg, e); Turn(v, id, y, k + TimesSent(NewlySent(w, v), y))
  {
    hide Inv, Turn, Apply, NewlySent;
    match e
    case Issue(n, contents, time) =>
      TurnAtIssue(w, cfg, e, id, y, k);
      SentOnce(Transmission(n, time, cfg.channel, contents, true), y);
    case Receive(_, _) => TurnAtReceive(w, cfg, e, id, y, k);
    case Retry(time) => TurnAtRetry(w, cfg, time, id, y, k);
  }

  /** Once answered or given up, a request never waits again. */
  lemma {:induction false} GoneForever(w: World, cfg: Config, events: seq<Event>, id: RequestID)
    requires Inv(w, cfg) && id in w.issued && id !in w.v.order
    ensures After(w, cfg, events).Some? ==> id !in After(w, cfg, events).value.v.order
    decreases |events|
  {
    hide Inv, Apply, Enabled;
    if events != [] && Enabled(w, events[0]) {
      GoneAfterStep(w, cfg, events[0], id);
      StepKeepsInv(w, cfg, events[0]);
      GoneForever(Apply(w, cfg, events[0]), cfg, events[1..], id);
    }
  }

  lemma GoneAfterStep(w: World, cfg: Config, e: Event, id: RequestID)
    requires Inv(w, cfg) && Enabled(w, e) && id in w.issued && id !in w.v.order
    ensures var v := Apply(w, cfg, e); id in v.issued && id !in v.v.order
  {
    hide Expire, Distinct, Pending.Sorted;
    if e.Retry? {
      ExpireSplits(w.v, e.time - cfg.hardDeadline);
      RetryIsTwoSteps(w, cfg, e.time);
    }
  }

  lemma IsIssued(w: World, cfg: Config, id: RequestID)
    requires Inv(w, cfg) && id in w.v.order
    ensures id in w.issued
  {
    assert ItemOk(w, cfg, id);
  }

  lemma StepOnlySends(w: World, cfg: Config, e: Event)
    ensures w.sent <= Apply(w, cfg, e).sent
    ensures forall id :: id in w.issued ==> id in Apply(w, cfg, e).issued
  {
    hide Expire;
  }

  lemma {:induction false} TimesSentAppend(a: seq<Transmission>, b: seq<Transmission>, id: RequestID)
    ensures TimesSent(a + b, id) == TimesSent(a, id) + TimesSent(b, id)
    decreases |b|
  {
    if b == [] {
      assert a + b == a;
    } else {
      TimesSentAppend(a, b[..|b| - 1], id);
      assert (a + b)[..|a + b| - 1] == a + b[..|b| - 1];
    }
  }

  lemma {:induction false} RunOnlySends(w: World, cfg: Config, events: seq<Event>)
    ensures After(w, cfg, events).Some? ==> w.sent <= After(w, cfg, events).value.sent
    decreases |events|
  {
    hide Apply, Enabled;
    if events != [] && Enabled(w, events[0]) {
      StepOnlySends(w, cfg, events[0]);
      RunOnlySends(Apply(w, cfg, events[0]), cfg, events[1..]);
    }
  }

  lemma SentInParts(w: World, u: World, v: World, id: RequestID)
    requires w.sent <= u.sent <= v.sent
    ensures TimesSent(NewlySent(w, v), id) == TimesSent(NewlySent(w, u), id) + TimesSent(NewlySent(u, v), id)
  {
    assert NewlySent(w, v) == NewlySent(w, u) + NewlySent(u, v);
    TimesSentAppend(NewlySent(w, u), NewlySent(u, v), id);
  }

  lemma {:induction false} TurnsInRun(w: World, cfg: Config, events: seq<Event>, id: RequestID, y: RequestID, k: nat)
    requires Inv(w, cfg) && Turn(w, id, y, k) && After(w, cfg, events).Some?
    requires
      var v := After(w, cfg, events).value;
      id in v.v.order && y in v.v.order && TimesSent(NewlySent(w, v), id) == 0
    ensures var v := After(w, cfg, events).value; Turn(v, id, y, k + TimesSent(NewlySent(w, v), y))
    decreases |events|
  {
    hide Inv, Turn, Apply, Enabled, NewlySent, TimesSent;
    var v := After(w, cfg, events).value;
    if events == [] {
      NothingSent(w, y);
    } else {
      var u := Apply(w, cfg, events[0]);
      StepKeepsInv(w, cfg, events[0]);
      StepOnlySends(w, cfg, events[0]);
      RunOnlySends(u, cfg, events[1..]);
      SentInParts(w, u, v, id);
      SentInParts(w, u, v, y);
      TurnIsPending(w, id, y, k);
      IsIssued(w, cfg, id);
      IsIssued(w, cfg, y);
      if id !in u.v.order { GoneForever(u, cfg, events[1..], id); }
      if y !in u.v.order { GoneForever(u, cfg, events[1..], y); }
      TurnAtStep(w, cfg, events[0], id, y, k);
      TurnsInRun(u, cfg, events[1..], id, y, k + TimesSent(NewlySent(w, u), y));
    }
  }

  lemma TurnIsPending(w: World, id: RequestID, y: RequestID, k: nat)
    requires Turn(w, id, y, k)
    ensures id in w.v.order && y in w.v.order
  {}

  lemma NothingSent(w: World, id: RequestID)
    ensures TimesSent(NewlySent(w, w), id) == 0
  {}

  /** Between two consecutive transmissions of id, every other request that is pending all the time is
      sent exactly once: w is the state in which id has just been sent, and the last pass of the run
      sends it again. */
  lemma EveryOtherOnce(cfg: Config, w: World, events: seq<Event>, time: int, id: RequestID, y: RequestID)
    requires Reachable(cfg, w) && w.v.order != [] && w.v.order[|w.v.order| - 1] == id
    requires y != id && y in w.v.order
    requires After(w, cfg, events).Some? && Enabled(After(w, cfg, events).value, Retry(time))
    requires
      var u := After(w, cfg, events).value;
      && TimesSent(NewlySent(w, u), id) == 0
      && RunNext(u.v, cfg, time).2 == Some(id) && y in RunNext(u.v, cfg, time).0.order
    ensures TimesSent(NewlySent(w, After(w, cfg, events).value), y) == 1
  {
    hide Expire, Apply, After, NewlySent, TimesSent;
    var u := After(w, cfg, events).value;
    ReachableIsOk(cfg, w);
    RunKeepsInv(w, cfg, events);
    LastIsLast(w.v.order, y);
    assert Turn(w, id, y, 0);
    ExpireSplits(u.v, time - cfg.hardDeadline);
    var late := Expire(u.v, time - cfg.hardDeadline);
    assert late.0.order[0] == id;
    assert y in late.0.order;
    assert id in u.v.order && y in u.v.order;
    TurnsInRun(w, cfg, events, id, y, 0);
    FrontAfterPrefix(late.1, late.0.order, y);
    EitherBefore(u.v.order, id, y);
  }

  lemma LastIsLast(order: seq<RequestID>, y: RequestID)
    requires order != [] && y in order && y != order[|order| - 1]
    ensures Before(order, y, order[|order| - 1])
  {
    assert order[Position(order, y)] == y;
  }

  lemma FrontAfterPrefix(out: seq<RequestID>, left: seq<RequestID>, y: RequestID)
    requires left != [] && y in left && y != left[0]
    ensures Before(out + left, left[0], y)
  {
    assert (out + left)[|out|] == left[0] && (out + left)[|out| + Position(left, y)] == y;
  }
}
