/** The receiving end of a communicator channel: requests may be lost, duplicated and delayed, and
    the last 1000 deliveries and replies are remembered. */
module Listener {
  import opened Common
  import opened Framing
  import opened LastN

  const REMEMBERED: nat := 1000

  /** Everything handed to the application so far, every reply it gave, and every payload published. */
  datatype Heard = Heard(delivered: seq<(Bytes, Bytes)>, replies: seq<(Bytes, CommunicatorReply)>, published: seq<Bytes>)

  datatype Event =
    | Message(payload: Bytes)
    | OtherNotice(payload: Bytes)
    | SendReply(status: int, uuid: Bytes, contents: Bytes)

  function Incoming(h: Heard, payload: Bytes): Heard {
    match ParseRequest(payload)
    case None => h
    case Some((uuid, contents)) =>
      match Newest(LastOf(h.replies, REMEMBERED), uuid)
      case Some(reply) => h.(published := h.published + [ReplyBytes(uuid, reply)])
      case None =>
        if uuid in LastOf(Keys(h.delivered), REMEMBERED) then h
        else h.(delivered := h.delivered + [(uuid, contents)])
  }

  function Step(h: Heard, e: Event): Heard {
    match e
    case Message(payload) => Incoming(h, payload)
    case OtherNotice(_) => h
    case SendReply(status, uuid, contents) =>
      var reply := CommunicatorReply(status, contents);
      h.(published := h.published + [ReplyBytes(uuid, reply)], replies := h.replies + [(uuid, reply)])
  }

  function Run(events: seq<Event>): Heard {
    if events == [] then Heard([], [], [])
    else Step(Run(events[..|events| - 1]), events[|events| - 1])
  }

  /** A step delivers nothing, or one request whose uuid is not among the last 1000 delivered. */
  lemma StepDelivers(h: Heard, e: Event)
    ensures
      var now := Step(h, e).delivered;
      now == h.delivered || (|now| == |h.delivered| + 1 && h.delivered <= now
                             && now[|h.delivered|].0 !in LastOf(Keys(h.delivered), REMEMBERED))
  {
    hide ParseRequest, Newest, LastOf, ReplyBytes;
  }

  /** One uuid is delivered twice only with at least 1000 other deliveries in between. */
  lemma {:induction false} RepeatsAreFarApart(events: seq<Event>, i: nat, j: nat)
    requires i < j < |Run(events).delivered| && Run(events).delivered[i].0 == Run(events).delivered[j].0
    ensures j - i > REMEMBERED
    decreases |events|
  {
    hide Step, LastOf;
    var before := Run(events[..|events| - 1]);
    StepDelivers(before, events[|events| - 1]);
    if j < |before.delivered| {
      RepeatsAreFarApart(events[..|events| - 1], i, j);
    } else if j - i <= REMEMBERED {
      InWindow(Keys(before.delivered), REMEMBERED, i);
    }
  }

  lemma InWindow<T>(history: seq<T>, n: nat, i: nat)
    requires i < |history| && |history| - i <= n
    ensures history[i] in LastOf(history, n)
  {
    if n <= |history| { assert LastOf(history, n)[i - (|history| - n)] == history[i]; }
  }

  /** The uuids a run has delivered. */
  ghost predicate Delivered(h: Heard, uuid: Bytes) {
    exists i :: 0 <= i < |h.delivered| && h.delivered[i].0 == uuid
  }

  /** The application replies only to what was delivered to it. */
  ghost predicate RepliesToDelivered(events: seq<Event>) {
    forall k :: 0 <= k < |events| && events[k].SendReply? ==> Delivered(Run(events[..k]), events[k].uuid)
  }

  lemma {:induction false} DeliveriesStay(events: seq<Event>, k: nat)
    requires k <= |events|
    ensures Run(events[..k]).delivered <= Run(events).delivered
    decreases |events|
  {
    if k < |events| {
      DeliveriesStay(events[..|events| - 1], k);
      assert events[..|events| - 1][..k] == events[..k];
    } else {
      assert events[..k] == events;
    }
  }

  lemma DeliveredStays(h: Heard, g: Heard, uuid: Bytes)
    requires Delivered(h, uuid) && h.delivered <= g.delivered
    ensures Delivered(g, uuid)
  {
    var i :| 0 <= i < |h.delivered| && h.delivered[i].0 == uuid;
    assert g.delivered[i].0 == uuid;
  }

  lemma ShorterRun(events: seq<Event>, n: nat)
    requires RepliesToDelivered(events) && n <= |events|
    ensures RepliesToDelivered(events[..n])
  {
    forall k | 0 <= k < n && events[..n][k].SendReply? ensures Delivered(Run(events[..n][..k]), events[..n][k].uuid) {
      assert events[..n][..k] == events[..k] && events[..n][k] == events[k];
    }
  }

  ghost predicate RepliesAreToDelivered(h: Heard) {
    forall i :: 0 <= i < |h.replies| ==> Delivered(h, h.replies[i].0)
  }

  lemma StepReplies(h: Heard, e: Event)
    ensures
      Step(h, e).replies
        == h.replies + if e.SendReply? then [(e.uuid, CommunicatorReply(e.status, e.contents))] else []
  {
    hide ParseRequest, Newest, LastOf, ReplyBytes;
  }

  lemma {:induction false} RepliesComeFromAnswers(events: seq<Event>)
    requires RepliesToDelivered(events)
    ensures RepliesAreToDelivered(Run(events))
    decreases |events|
  {
    if events != [] {
      var n, h := |events| - 1, Run(events);
      var before := Run(events[..n]);
      ShorterRun(events, n);
      RepliesComeFromAnswers(events[..n]);
      assert events[n].SendReply? ==> Delivered(before, events[n].uuid);
      StepDelivers(before, events[n]);
      StepReplies(before, events[n]);
      hide Delivered, RepliesToDelivered, Step;
      forall i | 0 <= i < |h.replies| ensures Delivered(h, h.replies[i].0) {
        DeliveredStays(before, h, h.replies[i].0);
      }
    }
  }

  lemma MessageDelivers(h: Heard, payload: Bytes)
    requires RepliesAreToDelivered(h) && ParseRequest(payload).Some?
    ensures Delivered(Incoming(h, payload), ParseRequest(payload).value.0)
  {
    hide ParseRequest, ReplyBytes;
    var uuid, g := ParseRequest(payload).value.0, Incoming(h, payload);
    if Newest(LastOf(h.replies, REMEMBERED), uuid).Some? {
      NewestIsNewest(LastOf(h.replies, REMEMBERED), uuid);
      assert Delivered(h, uuid);
      DeliveredStays(h, g, uuid);
    } else if uuid in LastOf(Keys(h.delivered), REMEMBERED) {
      var i :| 0 <= i < |Keys(h.delivered)| && Keys(h.delivered)[i] == uuid;
      assert h.delivered[i].0 == uuid;
    } else {
      assert g.delivered[|h.delivered|].0 == uuid;
    }
  }

  lemma RunOneMore(events: seq<Event>, k: nat)
    requires k < |events|
    ensures Run(events[..k + 1]) == Step(Run(events[..k]), events[k])
  {
    hide Step;
    assert events[..k + 1][..k] == events[..k];
  }

  /** No well-formed request is lost here: once received it has been delivered, at least once. */
  lemma ReceivedIsDelivered(events: seq<Event>, k: nat)
    requires RepliesToDelivered(events) && k < |events| && events[k].Message?
    requires ParseRequest(events[k].payload).Some?
    ensures Delivered(Run(events), ParseRequest(events[k].payload).value.0)
  {
    hide Delivered, RepliesToDelivered, ParseRequest, Incoming, Run;
    var uuid := ParseRequest(events[k].payload).value.0;
    RunOneMore(events, k);
    ShorterRun(events, k);
    RepliesComeFromAnswers(events[..k]);
    MessageDelivers(Run(events[..k]), events[k].payload);
    DeliveriesStay(events, k + 1);
    DeliveredStays(Run(events[..k + 1]), Run(events), uuid);
  }

  /** What is published is only ever a reply that the application gave, to the same uuid. */
  lemma {:induction false} OnlyGivenRepliesArePublished(events: seq<Event>, p: nat)
    requires p < |Run(events).published|
    ensures
      var h := Run(events);
      exists i :: 0 <= i < |h.replies| && h.published[p] == ReplyBytes(h.replies[i].0, h.replies[i].1)
    decreases |events|
  {
    hide ReplyBytes, ParseRequest;
    var n, h := |events| - 1, Run(events);
    var before := Run(events[..n]);
    if p < |before.published| {
      OnlyGivenRepliesArePublished(events[..n], p);
      var i :| 0 <= i < |before.replies| && before.published[p] == ReplyBytes(before.replies[i].0, before.replies[i].1);
      assert h.published[p] == ReplyBytes(h.replies[i].0, h.replies[i].1);
    } else if events[n].SendReply? {
      var i := |before.replies|;
      assert h.published[p] == ReplyBytes(h.replies[i].0, h.replies[i].1);
    } else {
      var uuid := ParseRequest(events[n].payload).value.0;
      var window := LastOf(before.replies, REMEMBERED);
      NewestIsNewest(window, uuid);
      var j :| 0 <= j < |window| && window[j] == (uuid, Newest(window, uuid).value);
      var i := |before.replies| - |window| + j;
      assert h.replies[i] == window[j];
      assert h.published[p] == ReplyBytes(h.replies[i].0, h.replies[i].1);
    }
  }

  // ---- what is published, and when ----

  /** How many replies the application gives. */
  function Replies(events: seq<Event>): nat
    decreases |events|
  {
    if events == [] then 0
    else Replies(events[..|events| - 1]) + if events[|events| - 1].SendReply? then 1 else 0
  }

  predicate RepliesTo(e: Event, uuid: Bytes) { e.SendReply? && e.uuid == uuid }

  /** Event i is the last reply to this request. */
  predicate LastReplyTo(events: seq<Event>, i: nat, uuid: Bytes) {
    i < |events| && RepliesTo(events[i], uuid) && forall j :: i < j < |events| ==> !RepliesTo(events[j], uuid)
  }

  /** It is among the last n replies given. */
  predicate AmongLast(events: seq<Event>, i: nat, n: nat)
    requires i < |events|
  {
    Replies(events[i + 1..]) < n
  }

  function ReplyOf(e: Event): CommunicatorReply
    requires e.SendReply?
  {
    CommunicatorReply(e.status, e.contents)
  }

  /** The cached reply to a request is the last one given, if it is among the last n. */
  ghost predicate Cached(events: seq<Event>, n: nat, uuid: Bytes, cached: Option<CommunicatorReply>) {
    match cached
    case None => forall i :: 0 <= i < |events| && RepliesTo(events[i], uuid) ==> !AmongLast(events, i, n)
    case Some(reply) =>
      exists i :: 0 <= i < |events|
        && LastReplyTo(events, i, uuid) && AmongLast(events, i, n) && reply == ReplyOf(events[i])
  }

  lemma RepliesAfter(events: seq<Event>, i: nat)
    requires i + 1 < |events|
    ensures
      var last := |events| - 1;
      Replies(events[i + 1..]) == Replies(events[..last][i + 1..]) + if events[last].SendReply? then 1 else 0
  {
    var last := |events| - 1;
    assert events[i + 1..][..last - (i + 1)] == events[..last][i + 1..];
  }

  lemma CachedStays(events: seq<Event>, n: nat, m: nat, uuid: Bytes, cached: Option<CommunicatorReply>)
    requires events != [] && !RepliesTo(events[|events| - 1], uuid)
    requires n == m + if events[|events| - 1].SendReply? then 1 else 0
    requires Cached(events[..|events| - 1], m, uuid, cached)
    ensures Cached(events, n, uuid, cached)
  {
    hide Replies;
    var before := events[..|events| - 1];
    forall i | 0 <= i < |before| ensures AmongLast(events, i, n) == AmongLast(before, i, m) && events[i] == before[i] {
      RepliesAfter(events, i);
    }
    if cached.Some? {
      var i :| 0 <= i < |before|
        && LastReplyTo(before, i, uuid) && AmongLast(before, i, m) && cached.value == ReplyOf(before[i]);
      assert LastReplyTo(events, i, uuid) && AmongLast(events, i, n);
    }
  }

  lemma NewestOfMore(replies: seq<(Bytes, CommunicatorReply)>, x: (Bytes, CommunicatorReply), n: nat, uuid: Bytes)
    requires 0 < n
    ensures
      Newest(LastOf(replies + [x], n), uuid) == if x.0 == uuid then Some(x.1) else Newest(LastOf(replies, n - 1), uuid)
  {
    var w := LastOf(replies + [x], n);
    assert w == LastOf(replies, n - 1) + [x];
    assert w[..|w| - 1] == LastOf(replies, n - 1);
  }

  lemma {:induction false} CacheIsLastReplies(events: seq<Event>, n: nat, uuid: Bytes)
    ensures Cached(events, n, uuid, Newest(LastOf(Run(events).replies, n), uuid))
    decreases |events|
  {
    hide Newest, LastOf, Cached, Step;
    if events == [] {
      NothingCached(events, n, uuid);
    } else {
      var before, e := events[..|events| - 1], events[|events| - 1];
      StepReplies(Run(before), e);
      if n == 0 {
        NothingCached(events, n, uuid);
      } else if e.SendReply? {
        NewestOfMore(Run(before).replies, (e.uuid, CommunicatorReply(e.status, e.contents)), n, uuid);
        if e.uuid == uuid {
          JustCached(events, n, uuid);
        } else {
          CacheIsLastReplies(before, n - 1, uuid);
          CachedStays(events, n, n - 1, uuid, Newest(LastOf(Run(before).replies, n - 1), uuid));
        }
      } else {
        assert Run(events).replies == Run(before).replies;
        CacheIsLastReplies(before, n, uuid);
        CachedStays(events, n, n, uuid, Newest(LastOf(Run(before).replies, n), uuid));
      }
    }
  }

  lemma NothingCached(events: seq<Event>, n: nat, uuid: Bytes)
    requires events == [] || n == 0
    ensures Newest(LastOf(Run(events).replies, n), uuid) == None && Cached(events, n, uuid, None)
  {}

  lemma JustCached(events: seq<Event>, n: nat, uuid: Bytes)
    requires events != [] && 0 < n && RepliesTo(events[|events| - 1], uuid)
    ensures Cached(events, n, uuid, Some(ReplyOf(events[|events| - 1])))
  {
    var i := |events| - 1;
    assert events[i + 1..] == [];
    assert LastReplyTo(events, i, uuid) && AmongLast(events, i, n);
  }
  /** The request is among the last 1000 delivered. */
  predicate JustDelivered(h: Heard, uuid: Bytes) {
    exists j :: 0 <= j < |h.delivered| && |h.delivered| - j <= 1000 && h.delivered[j].0 == uuid
  }

  lemma JustDeliveredIsInWindow(h: Heard, uuid: Bytes)
    ensures JustDelivered(h, uuid) <==> uuid in LastOf(Keys(h.delivered), REMEMBERED)
  {
    var keys := Keys(h.delivered);
    var w := LastOf(keys, REMEMBERED);
    if uuid in w {
      var i :| 0 <= i < |w| && w[i] == uuid;
      var j := |keys| - |w| + i;
      assert keys[j] == w[i] && h.delivered[j].0 == uuid;
    }
    if JustDelivered(h, uuid) {
      var j :| 0 <= j < |h.delivered| && |h.delivered| - j <= 1000 && h.delivered[j].0 == uuid;
      InWindow(keys, REMEMBERED, j);
    }
  }

  /** A request that comes again is answered at once with the last reply the application gave to it, if fewer
      than 1000 replies were given after that one. Otherwise nothing is published, and the request is
      delivered unless it is among the last 1000 delivered. */
  lemma RepeatIsAnswered(events: seq<Event>, k: nat, uuid: Bytes, contents: Bytes)
    requires k < |events| && events[k] == Message(RequestBytes(uuid, contents))
    requires |uuid| < TWO_64 && |contents| < TWO_64
    ensures
      var past, before, after := events[..k], Run(events[..k]), Run(events[..k + 1]);
      && (forall i :: 0 <= i < k && LastReplyTo(past, i, uuid) && Replies(past[i + 1..]) < 1000 ==>
            after == before.(published :=
              before.published + [ReplyBytes(uuid, CommunicatorReply(past[i].status, past[i].contents))]))
      && ((forall i :: 0 <= i < k && RepliesTo(past[i], uuid) ==> Replies(past[i + 1..]) >= 1000) ==>
            after == if JustDelivered(before, uuid) then before
                     else before.(delivered := before.delivered + [(uuid, contents)]))
  {
    hide ParseRequest, RequestBytes, ReplyBytes, Newest, LastOf, JustDelivered, Run, Replies;
    var past, before := events[..k], Run(events[..k]);
    RunOneMore(events, k);
    RequestFraming(events[k].payload, uuid, contents);
    CacheIsLastReplies(past, REMEMBERED, uuid);
    JustDeliveredIsInWindow(before, uuid);
    var cached := Newest(LastOf(before.replies, REMEMBERED), uuid);
    forall i | 0 <= i < k && LastReplyTo(past, i, uuid) && Replies(past[i + 1..]) < 1000
      ensures cached == Some(ReplyOf(past[i]))
    {
      LastIsCached(past, i, uuid, cached);
    }
    if cached.Some? {
      var i :| 0 <= i < k && LastReplyTo(past, i, uuid) && AmongLast(past, i, REMEMBERED);
      assert Replies(past[i + 1..]) < 1000;
    }
  }

  lemma LastIsCached(past: seq<Event>, i: nat, uuid: Bytes, cached: Option<CommunicatorReply>)
    requires i < |past| && LastReplyTo(past, i, uuid) && AmongLast(past, i, REMEMBERED)
    requires Cached(past, REMEMBERED, uuid, cached)
    ensures cached == Some(ReplyOf(past[i]))
  {
    hide Replies;
    var j :| 0 <= j < |past| && LastReplyTo(past, j, uuid) && cached.Some? && cached.value == ReplyOf(past[j]);
    assert i == j by { assert !(i < j) && !(j < i); }
  }

  /** What is no request changes nothing, and a reply given is published once. */
  lemma OtherEvents(events: seq<Event>, k: nat)
    requires k < |events|
    ensures
      var before, after := Run(events[..k]), Run(events[..k + 1]);
      match events[k]
      case OtherNotice(_) => after == before
      case SendReply(status, uuid, contents) =>
        && after.published == before.published + [ReplyBytes(uuid, CommunicatorReply(status, contents))]
        && after.delivered == before.delivered
      case Message(payload) =>
        (forall uuid, contents :: |uuid| < TWO_64 && |contents| < TWO_64 ==> payload != RequestBytes(uuid, contents))
        ==> after == before
  {
    hide RequestBytes, ReplyBytes, Newest, LastOf, ParseRequest, Run;
    RunOneMore(events, k);
    if events[k].Message? && ParseRequest(events[k].payload).Some? {
      var r := ParseRequest(events[k].payload).value;
      RequestFraming(events[k].payload, r.0, r.1);
    }
  }

  class CommunicatorListener {
    const mAlreadyReceived: LastNSet<Bytes>
    const mCachedReplies: LastNMap<Bytes, CommunicatorReply>
    /** The queue that the application consumes, as everything ever appended to it. */
    var queue: seq<(Bytes, Bytes)>
    /** Payloads given to PUBLISH. */
    var published: seq<Bytes>

    ghost function Footprint(): set<object> {
      {this, mAlreadyReceived, mAlreadyReceived.mRingBuffer, mAlreadyReceived.mRingBuffer.ring,
       mCachedReplies, mCachedReplies.mRingBuffer, mCachedReplies.mRingBuffer.ring}
    }

    ghost predicate Valid()
      reads Footprint()
    {
      && mAlreadyReceived.mRingBuffer != mCachedReplies.mRingBuffer
      && mAlreadyReceived.mRingBuffer.ring != mCachedReplies.mRingBuffer.ring
      && mAlreadyReceived.Valid() && mCachedReplies.Valid()
      && mAlreadyReceived.mRingBuffer.ring.Length == mCachedReplies.mRingBuffer.ring.Length == REMEMBERED
      && mAlreadyReceived.History() == Keys(queue)
    }

    ghost function Model(): Heard
      reads Footprint()
    {
      Heard(queue, mCachedReplies.history, published)
    }

    constructor ()
      ensures Valid() && fresh(Footprint()) && Model() == Run([])
    {
      mAlreadyReceived := new LastNSet<Bytes>(1000);
      mCachedReplies := new LastNMap<Bytes, CommunicatorReply>(1000);
      queue, published := [], [];
    }

    method ProcessIncoming(isMessage: bool, payload: Bytes)
      requires Valid()
      modifies Footprint()
      ensures Valid() && Model() == Step(old(Model()), if isMessage then Message(payload) else OtherNotice(payload))
    {
      hide LastNSet.Valid, LastNMap.Valid, ParseRequest, ReplyBytes, LastOf, Newest;
      if !isMessage { return; }
      var request := ParseCommunicatorRequest(payload);
      if request.None? { return; }
      var uuid, contents := request.value.0, request.value.1;
      var cachedReply := mCachedReplies.Query(uuid);
      var alreadyReceived := mAlreadyReceived.Query(uuid);
      if cachedReply.Some? {
        var reply := SerializeCommunicatorReply(uuid, cachedReply.value);
        published := published + [reply[..]];
      } else if alreadyReceived {
        // no response yet: ignore
      } else {
        assert Keys(queue + [(uuid, contents)]) == Keys(queue) + [uuid];
        queue := queue + [(uuid, contents)];
        mAlreadyReceived.Emplace(uuid);
      }
    }

    method Reply(status: int, uuid: Bytes, contents: Bytes)
      requires Valid()
      modifies Footprint()
      ensures Valid() && Model() == Step(old(Model()), SendReply(status, uuid, contents))
    {
      hide LastNSet.Valid, LastNMap.Valid, ReplyBytes, LastOf, Newest;
      var reply := CommunicatorReply(status, contents);
      var payload := SerializeCommunicatorReply(uuid, reply);
      published := published + [payload[..]];
      mCachedReplies.Insert(uuid, reply);
    }
  }
}
