/** What holds in every state that the request pipeline can reach. */
module PipelineTheorems {
  import opened Common
  import opened Resp
  import opened Handshakes
  import opened ConnectionModel
  import opened Pipeline
  import Printers

  function Start(cfg: Config, handshake: Option<Handshake>, random: string): World {
    World(Initial(cfg, handshake, random), None, "", 0, 0, 0, 0, [], [], true, [], [])
  }

  /** The state after these events, if each of them was enabled in its turn. */
  function After(w: World, cfg: Config, events: seq<Event>): Option<World>
    decreases |events|
  {
    if events == [] then Some(w)
    else if !Enabled(w, cfg, events[0]) then None
    else After(Apply(w, cfg, events[0]), cfg, events[1..])
  }

  ghost predicate Reachable(cfg: Config, w: World) {
    exists handshake, random, events :: After(Start(cfg, handshake, random), cfg, events) == Some(w)
  }

  // ---- the executor and the backpressure, on top of Pipeline.Inv ----

  /** How many of the first n requests were staged for a future: request n gets that promise number. */
  function FutureCount(staged: seq<Request>, n: nat): nat
    requires n <= |staged|
  {
    if n == 0 then 0 else FutureCount(staged, n - 1) + (if staged[n - 1].callback == Future then 1 else 0)
  }

  function UserResponses(executed: seq<Response>): seq<Response> {
    if executed == [] then []
    else
      var last := executed[|executed| - 1];
      UserResponses(executed[..|executed| - 1]) + (if last.callback.User? then [last] else [])
  }

  predicate Served(c: Core)
    requires c.serviced <= |c.executed| <= |c.staged|
  {
    && c.promises == FutureCount(c.staged, |c.staged|)
    && |c.futureValues| == FutureCount(c.staged, c.serviced)
    && c.called == UserResponses(c.executed[..c.serviced])
    && forall i :: 0 <= i < c.serviced && c.executed[i].callback == Future ==> FutureServed(c, i)
  }

  /** The promise that request i got when it was staged has received the reply to request i. */
  predicate FutureServed(c: Core, i: nat)
    requires i < |c.executed| <= |c.staged|
  {
    && FutureCount(c.staged, i) < |c.futureValues|
    && c.futureValues[FutureCount(c.staged, i)] == c.executed[i].reply
  }

  /** Slots are conserved: each callback request takes one, each acknowledgement returns one. */
  predicate SlotsConserved(w: World, cfg: Config) {
    cfg.limited ==>
      w.core.slots + (|w.core.staged| - |w.core.executed|) == cfg.requestLimit + w.core.promises && 0 <= w.core.slots
  }

  ghost predicate Good(w: World, cfg: Config) {
    Inv(w) && Served(w.core) && SlotsConserved(w, cfg) && AllCounted(w.core.staged)
  }

  lemma InitialIsEmpty(cfg: Config, handshake: Option<Handshake>, random: string)
    ensures
      var c := Initial(cfg, handshake, random);
      && c.staged == [] && c.executed == [] && c.base == 0 && c.ack == c.write == 1 && c.ignored == 0
      && c.handshakeWrite == 0 && (if c.inHandshake then |c.handshakeRequests| == 1 else c.handshakeRequests == [])
      && c.serviced == 0 && c.called == [] && c.promises == 0 && c.futureValues == []
      && c.slots == cfg.requestLimit
  {
    hide Printers.Encoded, Provide, Restart;
  }

  lemma StartIsGood(cfg: Config, handshake: Option<Handshake>, random: string)
    ensures Good(Start(cfg, handshake, random), cfg)
  {
    InitialIsEmpty(cfg, handshake, random);
    hide Inv, Initial;
    var w := Start(cfg, handshake, random);
    FreshConnectionIsOk(w, w.core, cfg);
    assert w.core.executed[..0] == [];
  }

  lemma {:induction false} FutureCountOfLonger(a: seq<Request>, b: seq<Request>, n: nat)
    requires n <= |a| && a <= b
    ensures FutureCount(a, n) == FutureCount(b, n)
  {
    if n > 0 { FutureCountOfLonger(a, b, n - 1); }
  }

  lemma {:induction false} FutureCountMonotone(staged: seq<Request>, i: nat, j: nat)
    requires i <= j <= |staged|
    ensures FutureCount(staged, i) <= FutureCount(staged, j)
  {
    if i < j { FutureCountMonotone(staged, i, j - 1); }
  }

  lemma ServiceKeepsServed(c: Core)
    requires c.serviced < |c.executed| <= |c.staged| && Served(c)
    requires c.executed[c.serviced].callback == c.staged[c.serviced].callback
    ensures Served(ServiceNext(c))
  {
    var d, n := ServiceNext(c), c.serviced;
    UserResponsesNext(c.executed, n);
    assert FutureCount(c.staged, n + 1) == FutureCount(c.staged, n) + (if c.staged[n].callback == Future then 1 else 0);
    hide FutureCount, UserResponses;
    forall i | 0 <= i < d.serviced && d.executed[i].callback == Future ensures FutureServed(d, i) {
      assert i < n ==> FutureServed(c, i);
    }
  }

  lemma UserResponsesNext(executed: seq<Response>, n: nat)
    requires n < |executed|
    ensures UserResponses(executed[..n + 1])
      == UserResponses(executed[..n]) + (if executed[n].callback.User? then [executed[n]] else [])
  {
    assert executed[..n + 1][..n] == executed[..n];
  }

  lemma StageKeepsServed(c: Core, d: Core)
    requires c.serviced <= |c.executed| <= |c.staged| && Served(c)
    requires |d.staged| == |c.staged| + 1 && c.staged <= d.staged
    requires d.promises == c.promises + (if d.staged[|c.staged|].callback == Future then 1 else 0)
    requires d.executed == c.executed && d.serviced == c.serviced && d.called == c.called
    requires d.futureValues == c.futureValues
    ensures Served(d)
  {
    FutureCountOfLonger(c.staged, d.staged, |c.staged|);
    FutureCountOfLonger(c.staged, d.staged, c.serviced);
    assert FutureCount(d.staged, |d.staged|) == d.promises;
    hide FutureCount, UserResponses;
    forall i | 0 <= i < d.serviced && d.executed[i].callback == Future ensures FutureServed(d, i) {
      assert FutureServed(c, i);
      FutureCountOfLonger(c.staged, d.staged, i);
    }
  }

  /** Acknowledging, with or without replies, does not touch what is already serviced. */
  lemma OthersKeepServed(c: Core, d: Core)
    requires c.serviced <= |c.executed| <= |c.staged| && Served(c)
    requires d.staged == c.staged && c.executed <= d.executed && |d.executed| <= |d.staged|
    requires d.serviced == c.serviced && d.called == c.called
    requires d.promises == c.promises && d.futureValues == c.futureValues
    ensures Served(d)
  {
    hide FutureCount, UserResponses;
    assert d.executed[..d.serviced] == c.executed[..c.serviced];
    forall i | 0 <= i < d.serviced && d.executed[i].callback == Future ensures FutureServed(d, i) {
      assert FutureServed(c, i);
    }
  }

  lemma StageKeepsCounts(w: World, cfg: Config, e: Event)
    requires AllCounted(w.core.staged) && Enabled(w, cfg, e) && (e.StageCallback? || e.StageForFuture?)
    ensures AllCounted(Apply(w, cfg, e).core.staged)
  {
    hide RequestsIn, Run;
  }

  lemma StageIsGood(w: World, cfg: Config, e: Event)
    requires Good(w, cfg) && Enabled(w, cfg, e) && (e.StageCallback? || e.StageForFuture?)
    ensures Good(Apply(w, cfg, e), cfg)
  {
    StageKeepsInv(w, cfg, e);
    StageKeepsCounts(w, cfg, e);
    hide OwnReplies, HeldOk, InStep, WireOk, OnTheWire, Served, Flatten, AllCounted, WellCounted;
    StageKeepsServed(w.core, Apply(w, cfg, e).core);
  }

  lemma ServiceIsGood(w: World, cfg: Config)
    requires Good(w, cfg) && Enabled(w, cfg, Service)
    ensures Good(Apply(w, cfg, Service), cfg)
  {
    ServiceKeepsInv(w, cfg);
    ServiceFrame(w, cfg);
    hide OwnReplies, HeldOk, InStep, WireOk, OnTheWire, Served, Flatten, Apply;
    ServiceKeepsServed(w.core);
    hide InOrder, Positions;
  }

  lemma StepIsGood(w: World, cfg: Config, e: Event)
    requires Good(w, cfg) && Enabled(w, cfg, e) && Normal(cfg)
    ensures Good(Apply(w, cfg, e), cfg)
  {
    hide Good, Enabled, Apply;
    match e
    case StageCallback(_, _, _) => StageIsGood(w, cfg, e);
    case StageForFuture(_, _) => StageIsGood(w, cfg, e);
    case Service => ServiceIsGood(w, cfg);
    case _ => OtherStepIsGood(w, cfg, e);
  }

  lemma OtherStepKeepsInv(w: World, cfg: Config, e: Event)
    requires Inv(w) && Enabled(w, cfg, e) && Normal(cfg) && AllCounted(w.core.staged)
    requires !e.StageCallback? && !e.StageForFuture? && !e.Service?
    ensures Inv(Apply(w, cfg, e))
  {
    hide Inv;
    match e
    case Take => TakeKeepsInv(w, cfg);
    case Send(count) => SendKeepsInv(w, cfg, count);
    case Record => RecordKeepsInv(w, cfg);
    case Deliver(parsed, random) => DeliverKeepsInv(w, cfg, parsed, random);
    case Reconnect(random) => ReconnectKeepsInv(w, cfg, random);
    case Clear(random) => ClearKeepsInv(w, cfg, random);
    case _ => AnswerKeepsInv(w, cfg, e);
  }

  /** What a step other than staging and servicing leaves alone, and how slots follow acknowledgements. */
  predicate Framed(c: Core, d: Core, cfg: Config) {
    && d.staged == c.staged && c.executed <= d.executed
    && d.serviced == c.serviced && d.called == c.called
    && d.promises == c.promises && d.futureValues == c.futureValues
    && (cfg.limited ==> d.slots == c.slots + (|d.executed| - |c.executed|))
  }

  lemma OtherStepFrame(w: World, cfg: Config, e: Event)
    requires w.core.Ok() && Enabled(w, cfg, e) && Normal(cfg)
    requires !e.StageCallback? && !e.StageForFuture? && !e.Service?
    ensures Framed(w.core, Apply(w, cfg, e).core, cfg)
  {
    hide Validate, Provide, Restart, ConsumeResponse, ClearAllPending;
    if e.Clear? {
      ClearFrame(w.core, cfg, e.random);
    } else if e.Deliver? {
      ConsumeFrame(w.core, cfg, w.wire[0].reply, e.parsed, e.random);
    }
  }

  lemma ClearFrame(c: Core, cfg: Config, random: string)
    requires c.Ok()
    ensures Framed(c, ClearAllPending(c, cfg, random), cfg)
    ensures ClearAllPending(c, cfg, random).base == |c.staged|
  {
    hide Provide, Restart, AcknowledgeAll;
    AcknowledgeAllGrows(c.(inHandshake := false), cfg);
  }

  lemma ConsumeFrame(c: Core, cfg: Config, reply: Reply, parsed: bool, random: string)
    requires c.Ok()
    ensures Framed(c, ConsumeResponse(c, cfg, reply, parsed, random).0, cfg)
  {
    hide Validate, Provide, ConsumeReply, Core.Ok, IsUnavailable, IsPush;
    ConsumeReplyFrame(c, cfg, reply);
  }

  lemma ConsumeReplyFrame(c: Core, cfg: Config, reply: Reply)
    requires c.Ok()
    ensures Framed(c, ConsumeReply(c, cfg, reply).0, cfg)
  {
    hide IsOK, IsQueued;
  }

  lemma OtherStepIsGood(w: World, cfg: Config, e: Event)
    requires Good(w, cfg) && Enabled(w, cfg, e) && Normal(cfg)
    requires !e.StageCallback? && !e.StageForFuture? && !e.Service?
    ensures Good(Apply(w, cfg, e), cfg)
  {
    OtherStepKeepsInv(w, cfg, e);
    OtherStepFrame(w, cfg, e);
    hide OwnReplies, HeldOk, InStep, WireOk, OnTheWire, Apply, Served, AllCounted;
    OthersKeepServed(w.core, Apply(w, cfg, e).core);
  }

  lemma {:induction false} RunIsGood(w: World, cfg: Config, events: seq<Event>)
    requires Good(w, cfg) && Normal(cfg)
    ensures After(w, cfg, events).Some? ==> Good(After(w, cfg, events).value, cfg)
    decreases |events|
  {
    hide Good, Apply, Enabled;
    if events != [] && Enabled(w, cfg, events[0]) {
      StepIsGood(w, cfg, events[0]);
      RunIsGood(Apply(w, cfg, events[0]), cfg, events[1..]);
    }
  }

  lemma ReachableIsGood(cfg: Config, w: World)
    requires Reachable(cfg, w) && Normal(cfg)
    ensures Good(w, cfg)
  {
    hide Good;
    var handshake, random, events :| After(Start(cfg, handshake, random), cfg, events) == Some(w);
    StartIsGood(cfg, handshake, random);
    RunIsGood(Start(cfg, handshake, random), cfg, events);
  }

  lemma GoodIsInv(w: World, cfg: Config)
    requires Good(w, cfg)
    ensures Inv(w) && w.core.Ok()
  {
    hide OwnReplies, HeldOk, InStep, WireOk, OnTheWire, Served, SlotsConserved, AllCounted;
  }

  // ---- main results ----

  /** Requests reach their callbacks at most once and in staging order. A reply handed to request i
      is the server's last reply part for that very request, and all parts of its MULTI block were
      consumed on one connection; there is no reply only where the request was purged. */
  lemma RepliesReachTheirRequests(cfg: Config, w: World, i: nat)
    requires Reachable(cfg, w) && Normal(cfg) && i < |w.core.executed|
    ensures |w.core.executed| <= |w.core.staged| && |w.outcomes| == |w.core.executed|
    ensures w.core.executed[i].callback == w.core.staged[i].callback
    ensures
      match w.core.executed[i].reply
      case None => w.outcomes[i] == Dropped
      case Some(reply) =>
        var last := w.core.staged[i].multiSize;
        w.outcomes[i] == Answered(Wired(reply, UserTag(i, last)), Parts(i, 0, last))
    ensures w.core.serviced <= |w.core.executed|
    ensures w.core.called == UserResponses(w.core.executed[..w.core.serviced])
  {
    hide Good, Reachable;
    ReachableIsGood(cfg, w);
    GoodReplies(cfg, w, i);
  }

  lemma GoodReplies(cfg: Config, w: World, i: nat)
    requires Good(w, cfg) && i < |w.core.executed|
    ensures |w.core.executed| <= |w.core.staged| && |w.outcomes| == |w.core.executed|
    ensures w.core.executed[i].callback == w.core.staged[i].callback
    ensures
      match w.core.executed[i].reply
      case None => w.outcomes[i] == Dropped
      case Some(reply) =>
        var last := w.core.staged[i].multiSize;
        w.outcomes[i] == Answered(Wired(reply, UserTag(i, last)), Parts(i, 0, last))
    ensures w.core.serviced <= |w.core.executed|
    ensures w.core.called == UserResponses(w.core.executed[..w.core.serviced])
  {
    hide Positions, HeldOk, InStep, WireOk, OnTheWire, AllCounted, UserResponses, Parts;
    assert OutcomeOk(w.core, i, w.outcomes[i]);
  }

  /** Only a purge ends requests without a reply, and it ends exactly the pending ones. */
  lemma OnlyClearDrops(w: World, cfg: Config, e: Event)
    requires Good(w, cfg) && Enabled(w, cfg, e) && Normal(cfg)
    ensures
      var v := Apply(w, cfg, e);
      if e.Clear? then
        && |v.outcomes| == |v.core.executed| == |v.core.staged| == |w.core.staged|
        && forall k :: |w.outcomes| <= k < |v.outcomes| ==> v.outcomes[k] == Dropped
      else |v.outcomes| <= |w.outcomes| + 1 && forall k :: |w.outcomes| <= k < |v.outcomes| ==> v.outcomes[k].Answered?
    ensures w.outcomes <= Apply(w, cfg, e).outcomes
  {
    if e.Clear? {
      ClearDrops(w, cfg, e.random);
    } else {
      OthersAnswer(w, cfg, e);
    }
  }

  lemma ClearDrops(w: World, cfg: Config, random: string)
    requires Inv(w)
    ensures
      var v := Apply(w, cfg, Clear(random));
      && |v.outcomes| == |v.core.executed| == |v.core.staged| == |w.core.staged| && w.outcomes <= v.outcomes
      && forall k :: |w.outcomes| <= k < |v.outcomes| ==> v.outcomes[k] == Dropped
  {
    ClearedIsInOrder(w, cfg, random);
    hide Positions, HeldOk, InStep, WireOk, OnTheWire, ClearAllPending;
  }

  lemma OthersAnswer(w: World, cfg: Config, e: Event)
    requires Enabled(w, cfg, e) && !e.Clear?
    ensures
      var v := Apply(w, cfg, e);
      && |v.outcomes| <= |w.outcomes| + 1 && w.outcomes <= v.outcomes
      && forall k :: |w.outcomes| <= k < |v.outcomes| ==> v.outcomes[k].Answered?
  {
    hide ConsumeResponse, GetNextToWrite, Reconnection, NextOwed, Core.Ok;
  }

  lemma {:induction false} NoPurgeNoNullReply(w: World, cfg: Config, events: seq<Event>)
    requires Good(w, cfg) && Normal(cfg)
    requires forall k :: 0 <= k < |events| ==> !events[k].Clear?
    requires forall k :: 0 <= k < |w.outcomes| ==> w.outcomes[k].Answered?
    ensures
      match After(w, cfg, events)
      case None => true
      case Some(v) => forall k :: 0 <= k < |v.core.executed| ==> v.core.executed[k].reply.Some?
    decreases |events|
  {
    hide Good, Apply, Enabled;
    if events == [] {
      AnsweredMeansReplied(w, cfg);
    } else if Enabled(w, cfg, events[0]) {
      var v := Apply(w, cfg, events[0]);
      OnlyClearDrops(w, cfg, events[0]);
      StepIsGood(w, cfg, events[0]);
      forall k | 0 <= k < |v.outcomes| ensures v.outcomes[k].Answered? {
        assert k < |w.outcomes| ==> v.outcomes[k] == w.outcomes[k];
      }
      NoPurgeNoNullReply(v, cfg, events[1..]);
      assert After(w, cfg, events) == After(v, cfg, events[1..]);
    }
  }

  lemma AnsweredMeansReplied(w: World, cfg: Config)
    requires Good(w, cfg) && forall k :: 0 <= k < |w.outcomes| ==> w.outcomes[k].Answered?
    ensures forall k :: 0 <= k < |w.core.executed| ==> w.core.executed[k].reply.Some?
  {
    forall k | 0 <= k < |w.core.executed| ensures w.core.executed[k].reply.Some? {
      assert OutcomeOk(w.core, k, w.outcomes[k]);
    }
  }

  /** A push never acknowledges, counts as part of a block, or completes a handshake: it leaves the core
      alone, or ends the connection when it comes during a handshake. */
  lemma PushNeverAcknowledges(w: World, cfg: Config, parsed: bool, random: string)
    requires Enabled(w, cfg, Deliver(parsed, random)) && IsPush(w.wire[0].reply) && Inv(w)
    ensures
      var v := Apply(w, cfg, Deliver(parsed, random));
      && v.core == w.core.(handshake := v.core.handshake) && v.outcomes == w.outcomes && v.swallowed == w.swallowed
      && (if w.core.inHandshake then !v.alive else v.core == w.core)
  {
    HandshakeIsThere(w);
    hide Inv;
    if w.core.inHandshake {
      PushIsRefused(w.core.handshake.value, w.wire[0].reply);
      hide Validate, Provide, Lenient;
    }
  }

  /** During a handshake the guarantees survive a push if and only if the leaf being run does not take
      any reply for its own. */
  lemma HandshakePushIsSafeIffNotLenient(w: World, cfg: Config, parsed: bool, random: string)
    requires Inv(w) && CanReceive(w) && w.core.inHandshake && IsPush(w.wire[0].reply)
    ensures w.core.handshake.Some?
    ensures Inv(Delivered(w, cfg, parsed, random)) <==> !Lenient(w.core.handshake.value)
  {
    HandshakeIsThere(w);
    if Lenient(w.core.handshake.value) {
      LenientPushBreaksInv(w, cfg, parsed, random);
    } else {
      assert Enabled(w, cfg, Deliver(parsed, random));
      hide Inv, ConsumeResponse;
      HandshakeReplyKeepsInv(w, cfg, parsed, random);
    }
  }

  lemma LenientPushBreaksInv(w: World, cfg: Config, parsed: bool, random: string)
    requires Inv(w) && CanReceive(w) && w.core.inHandshake && w.core.handshake.Some?
    requires IsPush(w.wire[0].reply) && w.wire[0].tag == PushTag && Lenient(w.core.handshake.value)
    ensures !Inv(Delivered(w, cfg, parsed, random))
  {
    PushIsRefused(w.core.handshake.value, w.wire[0].reply);
    LenientEffect(w, cfg, parsed, random);
    hide Lenient, Validate, Provide, Delivered, ConsumeResponse, OwnReplies, OnTheWire, Pending, Core.Ok;
    var v := Delivered(w, cfg, parsed, random);
    assert Stream(v) == Stream(w);
    NothingDue(v);
  }

  lemma LenientEffect(w: World, cfg: Config, parsed: bool, random: string)
    requires CanReceive(w) && w.core.inHandshake && w.core.handshake.Some? && w.wire[0].tag == PushTag
    requires IsPush(w.wire[0].reply) && Validate(w.core.handshake.value, w.wire[0].reply).1 != INVALID
    ensures
      var c, v := w.core, Delivered(w, cfg, parsed, random);
      && v == w.(core := v.core, wire := w.wire[1..])
      && v.core == c.(handshake := v.core.handshake, handshakeRequests := v.core.handshakeRequests, inHandshake := v.core.inHandshake)
      && (if v.core.inHandshake then |v.core.handshakeRequests| == |c.handshakeRequests| + 1
          else v.core.handshakeRequests == c.handshakeRequests)
  {
    hide Validate, Provide, Printers.Encoded;
  }

  predicate StartsOver(w: World, v: World) {
    && AckId(v.core) == WriteId(v.core) == v.first == AckId(w.core) == |w.core.executed|
    && v.core.ignored == 0 && v.swallowed == [] && v.out == "" && Stream(v) == [] && v.held == None
    && v.core.staged == w.core.staged && v.core.executed == w.core.executed
  }

  /** A reconnection starts over at the first unacknowledged request: nothing is sent yet, no part of
      its block counts as seen, and no reply of the old connection can arrive any more. */
  lemma ReconnectRestartsBlock(w: World, cfg: Config, random: string)
    requires Inv(w) && Enabled(w, cfg, Reconnect(random))
    ensures StartsOver(w, Apply(w, cfg, Reconnect(random)))
  {
    hide Provide, Restart, OwnReplies, HeldOk, InStep, WireOk, OnTheWire;
  }

  /** The bytes of one connection: handshake requests, then the requests that were unacknowledged
      when it began, in order and from their first byte; user bytes only once the handshake is over. */
  lemma WireContents(cfg: Config, w: World)
    requires Reachable(cfg, w) && Normal(cfg)
    ensures w.first <= |w.core.staged|
    ensures w.out <= Flatten(w.core.handshakeRequests) + Flatten(BytesOf(w.core.staged[w.first..]))
    ensures w.core.inHandshake ==> w.out <= Flatten(w.core.handshakeRequests)
  {
    ReachableIsGood(cfg, w);
    InvMeansWireContents(w);
  }

  lemma InvMeansWireContents(w: World)
    requires Inv(w)
    ensures w.first <= |w.core.staged|
    ensures w.out <= Flatten(w.core.handshakeRequests) + Flatten(BytesOf(w.core.staged[w.first..]))
    ensures w.core.inHandshake ==> w.out <= Flatten(w.core.handshakeRequests)
  {
    hide Flatten, Inv;
    HandedIsOnTheWire(w);
    var c := w.core;
    var requests, done := BytesOf(c.staged[w.first..]), WriteId(c) - w.first;
    PrefixFlattens(c.handshakeRequests, c.handshakeWrite);
    PrefixFlattens(requests, done);
    FlattenNothing(requests);
    var unsent := if w.held.Some? then w.held.value.Unsent() else "";
    PrefixOfBoth(w.out, unsent, Flatten(c.handshakeRequests[..c.handshakeWrite]), Flatten(requests[..done]),
                 Flatten(c.handshakeRequests), Flatten(requests));
  }

  lemma HandedIsOnTheWire(w: World)
    requires Inv(w)
    ensures
      var c := w.core;
      var requests, done := BytesOf(c.staged[w.first..]), WriteId(c) - w.first;
      && w.first <= WriteId(c) <= |c.staged| && c.handshakeWrite <= |c.handshakeRequests|
      && (w.held.Some? ==> w.held.value.Fits())
      && w.out + (if w.held.Some? then w.held.value.Unsent() else "")
        == Flatten(c.handshakeRequests[..c.handshakeWrite]) + Flatten(requests[..done])
      && (if c.inHandshake then done == 0 else c.handshakeRequests[..c.handshakeWrite] == c.handshakeRequests)
  {
    hide OwnReplies, InStep, WireOk, Flatten;
    var c := w.core;
    assert BytesOf(c.staged[w.first..WriteId(c)]) == BytesOf(c.staged[w.first..])[..WriteId(c) - w.first];
  }

  lemma FlattenNothing(pieces: seq<string>)
    ensures Flatten(pieces[..0]) == ""
  {}

  lemma PrefixOfBoth(out: string, unsent: string, a: string, b: string, wholeA: string, wholeB: string)
    requires out + unsent == a + b && a <= wholeA && b <= wholeB && (b == "" || a == wholeA)
    ensures out <= wholeA + wholeB
    ensures b == "" ==> out <= wholeA
  {
    assert out <= a + b;
    assert b == "" ==> a + b == a;
  }

  lemma {:induction false} PrefixFlattens(pieces: seq<string>, n: nat)
    requires n <= |pieces|
    ensures Flatten(pieces[..n]) <= Flatten(pieces)
  {
    assert pieces == pieces[..n] + pieces[n..];
    FlattenAppend(pieces[..n], pieces[n..]);
  }

  /** The acknowledge position is one behind the hidden item, in front of the write position, and
      whatever the writer still holds is at or behind the hidden item, so it is not destroyed. */
  predicate WriterIsSafe(w: World) {
    var c := w.core;
    && c.base <= |c.staged| && c.ack == c.front + 1 && c.ack <= c.write <= c.Next()
    && match w.held
       case Some(Held(bytes, Some(id), _, _)) =>
         var s := id - c.base + 1;
         s == c.write - 1 && 1 <= s && c.front <= s && bytes == c.Item(s).bytes
       case _ => true
  }

  lemma SlotSafety(cfg: Config, w: World)
    requires Reachable(cfg, w) && Normal(cfg)
    ensures WriterIsSafe(w)
  {
    hide WriterIsSafe;
    ReachableIsGood(cfg, w);
    InvMeansSlotSafety(w);
  }

  lemma InvMeansSlotSafety(w: World)
    requires Inv(w)
    ensures WriterIsSafe(w)
  {
    hide OwnReplies, InStep, WireOk, OnTheWire;
  }

  /** For one reply, whatever the server is: the writer's place stays behind the hidden item if and only
      if the reply does not acknowledge a request that was never handed to the writer. */
  lemma SafeIffHanded(c: Core, cfg: Config, reply: Reply, parsed: bool, random: string)
    requires c.Ok()
    ensures ConsumeResponse(c, cfg, reply, parsed, random).0.Ok() <==> (Acknowledges(c, cfg, reply) ==> c.ack < c.write)
  {
    ReplyIsSafeIffHanded(c, cfg, reply);
    hide ConsumeReply, ConsumeHandshake, IsUnavailable, IsPush, Core.Ok;
  }

  lemma ReplyIsSafeIffHanded(c: Core, cfg: Config, reply: Reply)
    requires c.Ok()
    ensures
      ConsumeReply(c, cfg, reply).0.Ok()
      <==> (c.ItemHasArrived() && (c.Item(c.ack).multiSize == 0 || c.ignored >= c.Item(c.ack).multiSize) ==> c.ack < c.write)
  {
    hide IsOK, IsQueued;
  }

  /** The writer is busy with a user request, the last one it was handed. */
  predicate InHand(w: World, id: nat) {
    w.held.Some? && w.held.value.user == Some(id) && w.core.base <= id == WriteId(w.core) - 1
  }

  /** The writer is busy with a request whose item in the queue is gone. */
  predicate HeldIsDestroyed(w: World) {
    w.held.Some? && w.held.value.user.Some? && w.held.value.user.value - w.core.base + 1 < w.core.front
  }

  /** With a request in hand, whatever the server is: a reply destroys that request's item if and only if
      it acknowledges a request that was never handed to the writer. */
  lemma HeldIsDestroyedIff(w: World, cfg: Config, parsed: bool, random: string, id: nat)
    requires CanReceive(w) && InHand(w, id)
    ensures
      HeldIsDestroyed(Delivered(w, cfg, parsed, random))
      <==> Acknowledges(w.core, cfg, w.wire[0].reply) && w.core.ack == w.core.write
  {
    FrontFollowsAcknowledgement(w.core, cfg, w.wire[0].reply, parsed, random);
    hide ConsumeResponse, Acknowledges, IsUnavailable, IsPush;
  }

  lemma FrontFollowsAcknowledgement(c: Core, cfg: Config, reply: Reply, parsed: bool, random: string)
    requires c.Sane()
    ensures
      var d := ConsumeResponse(c, cfg, reply, parsed, random).0;
      d.front == (if Acknowledges(c, cfg, reply) then c.front + 1 else c.front) && d.base == c.base
  {
    hide Validate, Provide, IsOK, IsQueued, IsUnavailable, IsPush;
  }

  /** In every run the replies that arrive acknowledge only requests that the writer was handed. */
  lemma DeliveriesAreHanded(w: World, cfg: Config, parsed: bool, random: string)
    requires w.core.Ok() && Enabled(w, cfg, Deliver(parsed, random)) && Normal(cfg) && Inv(w)
    ensures Acknowledges(w.core, cfg, w.wire[0].reply) ==> w.core.ack < w.core.write
  {
    hide IsUnavailable, IsPush;
    if Acknowledges(w.core, cfg, w.wire[0].reply) {
      assert UserReply(w, cfg, parsed, random);
      hide Inv;
      NextReplyIsForOldest(w, cfg, parsed, random);
      ReceivedIsHanded(w);
    }
  }

  lemma ReceivedIsHanded(w: World)
    requires Inv(w)
    ensures w.received <= WriteId(w.core)
  {
    hide OwnReplies, InStep, OnTheWire, WireOk, HeldOk;
  }

  /** Each future receives the reply of its own request. */
  lemma FuturesReceiveTheirReplies(cfg: Config, w: World, i: nat)
    requires Reachable(cfg, w) && Normal(cfg)
    requires i < w.core.serviced && i < |w.core.staged| && w.core.staged[i].callback == Future
    ensures |w.core.executed| <= |w.core.staged| && i < |w.core.executed|
    ensures
      var promise := FutureCount(w.core.staged, i);
      promise < |w.core.futureValues| && w.core.futureValues[promise] == w.core.executed[i].reply
  {
    ReachableIsGood(cfg, w);
    assert FutureServed(w.core, i);
  }

  /** The promises of the futures among the requests from..upto, in order. */
  function PromisesOf(staged: seq<Request>, from: nat, upto: nat): seq<nat>
    requires from <= upto <= |staged|
    decreases upto
  {
    if from == upto then []
    else
      PromisesOf(staged, from, upto - 1)
      + (if staged[upto - 1].callback == Future then [FutureCount(staged, upto - 1)] else [])
  }

  function Numbers(from: nat, upto: nat): (n: seq<nat>)
    requires from <= upto
    ensures |n| == upto - from && forall k :: 0 <= k < |n| ==> n[k] == from + k
  {
    seq(upto - from, k requires 0 <= k < upto - from => from + k)
  }

  lemma {:induction false} PromisesAreNumbered(staged: seq<Request>, from: nat, upto: nat)
    requires from <= upto <= |staged|
    ensures FutureCount(staged, from) <= FutureCount(staged, upto)
    ensures PromisesOf(staged, from, upto) == Numbers(FutureCount(staged, from), FutureCount(staged, upto))
    decreases upto
  {
    if from < upto { PromisesAreNumbered(staged, from, upto - 1); }
  }

  /** The promise queue: what is in it, from the oldest unfulfilled promise to the newest, are in order
      the promises of the futures waiting in the executor and then of those not acknowledged yet. */
  lemma PromiseQueue(cfg: Config, w: World)
    requires Reachable(cfg, w) && Normal(cfg)
    ensures w.core.serviced <= |w.core.executed| <= |w.core.staged| && |w.core.futureValues| <= w.core.promises
    ensures
      var c := w.core;
      Numbers(|c.futureValues|, c.promises)
        == PromisesOf(c.staged, c.serviced, |c.executed|) + PromisesOf(c.staged, |c.executed|, |c.staged|)
  {
    hide Good, FutureCount, PromisesOf;
    ReachableIsGood(cfg, w);
    GoodCounts(w, cfg);
    QueueFollowsService(w.core);
  }

  lemma GoodCounts(w: World, cfg: Config)
    requires Good(w, cfg)
    ensures
      var c := w.core;
      && c.serviced <= |c.executed| <= |c.staged|
      && c.promises == FutureCount(c.staged, |c.staged|) && |c.futureValues| == FutureCount(c.staged, c.serviced)
  {
    hide OwnReplies, HeldOk, InStep, WireOk, OnTheWire, AllCounted, FutureCount, UserResponses, FutureServed;
  }

  lemma QueueFollowsService(c: Core)
    requires c.serviced <= |c.executed| <= |c.staged|
    requires c.promises == FutureCount(c.staged, |c.staged|) && |c.futureValues| == FutureCount(c.staged, c.serviced)
    ensures |c.futureValues| <= c.promises
    ensures
      Numbers(|c.futureValues|, c.promises)
        == PromisesOf(c.staged, c.serviced, |c.executed|) + PromisesOf(c.staged, |c.executed|, |c.staged|)
  {
    hide FutureCount, PromisesOf;
    PromisesAreNumbered(c.staged, c.serviced, |c.executed|);
    PromisesAreNumbered(c.staged, |c.executed|, |c.staged|);
  }

  /** The limit on pending requests is kept if and only if no more futures were ever staged than
      there are free slots; and it can be exceeded by at most the futures staged. */
  lemma PendingIsLimited(cfg: Config, w: World)
    requires Reachable(cfg, w) && Normal(cfg) && cfg.limited
    ensures
      var pending, futures := |w.core.staged| - |w.core.executed|, FutureCount(w.core.staged, |w.core.staged|);
      && (pending <= cfg.requestLimit <==> futures <= w.core.slots)
      && pending <= cfg.requestLimit + futures
      && ((forall i :: 0 <= i < |w.core.staged| ==> w.core.staged[i].callback != Future) ==> pending <= cfg.requestLimit)
  {
    ReachableIsGood(cfg, w);
    if forall i :: 0 <= i < |w.core.staged| ==> w.core.staged[i].callback != Future {
      NoFutures(w.core.staged, |w.core.staged|);
    }
  }

  lemma {:induction false} NoFutures(staged: seq<Request>, n: nat)
    requires n <= |staged| && forall i :: 0 <= i < n ==> staged[i].callback != Future
    ensures FutureCount(staged, n) == 0
  {
    if n > 0 { NoFutures(staged, n - 1); }
  }

  // ---- runs in which a push may also meet a lenient handshake ----

  /** Everything that can happen, whether or not the guarantees rest on it. */
  function AnyStep(w: World, cfg: Config, e: Event): Option<World> {
    if Enabled(w, cfg, e) then Some(Apply(w, cfg, e))
    else if e.Deliver? && CanReceive(w) then Some(Delivered(w, cfg, e.parsed, e.random))
    else None
  }

  function AnyRun(w: World, cfg: Config, events: seq<Event>): Option<World>
    decreases |events|
  {
    if events == [] then Some(w)
    else
      match AnyStep(w, cfg, events[0])
      case None => None
      case Some(v) => AnyRun(v, cfg, events[1..])
  }

  lemma FirstStep(w: World, cfg: Config, e: Event, rest: seq<Event>)
    requires Enabled(w, cfg, e)
    ensures After(w, cfg, [e] + rest) == After(Apply(w, cfg, e), cfg, rest)
    ensures AnyRun(w, cfg, [e] + rest) == AnyRun(Apply(w, cfg, e), cfg, rest)
  {
    hide Enabled, Apply, Delivered;
    assert ([e] + rest)[1..] == rest;
  }

  lemma NoSteps(w: World, cfg: Config)
    ensures After(w, cfg, []) == Some(w) && AnyRun(w, cfg, []) == Some(w)
  {}

  lemma {:induction false} RunGoesOn(w: World, cfg: Config, a: seq<Event>, v: World, b: seq<Event>)
    requires After(w, cfg, a) == Some(v)
    ensures After(w, cfg, a + b) == After(v, cfg, b) && AnyRun(w, cfg, a + b) == AnyRun(v, cfg, b)
    decreases |a|
  {
    hide Enabled, Apply, Delivered, CanReceive;
    if a == [] {
      assert a + b == b;
    } else {
      assert (a + b)[1..] == a[1..] + b;
      RunGoesOn(Apply(w, cfg, a[0]), cfg, a[1..], v, b);
    }
  }
}
