/** Two runs of the pipeline that show where its guarantees end. */
module PipelineRuns {
  import opened Common
  import opened Resp
  import opened Handshakes
  import opened ConnectionModel
  import opened Pipeline
  import opened PipelineTheorems
  import Printers

  lemma ReachedByRun(cfg: Config, handshake: Option<Handshake>, random: string, events: seq<Event>)
    requires After(Start(cfg, handshake, random), cfg, events).Some?
    ensures Reachable(cfg, After(Start(cfg, handshake, random), cfg, events).value)
  {
    hide Start, After;
  }

  // ---- one request, from staging to its reply ----

  /** One simple request has just been staged and no other is pending; nothing is in hand, and nothing
      on the wire. What the server owes from before does not matter. */
  ghost predicate JustStaged(w: World) {
    && w.core.Ok() && w.alive && w.held.None? && w.wire == [] && !w.core.inHandshake
    && w.core.ack == w.core.write && w.core.write + 1 == w.core.Next() && w.core.ignored == 0
    && w.core.Item(w.core.ack).multiSize == 0 && RequestsIn(w.core.Item(w.core.ack).bytes) == 1
  }

  function Serving(bytes: string, reply: Reply): seq<Event> {
    [Take] + ([Send(|bytes|)] + ([Record] + ([Answer(reply)] + ([Deliver(true, "")] + []))))
  }

  lemma TakeJustStaged(w: World, cfg: Config)
    requires JustStaged(w) && Normal(cfg)
    ensures Enabled(w, cfg, Take)
    ensures
      var c := w.core;
      Apply(w, cfg, Take) == w.(core := c.(write := c.write + 1), held := Some(Held(c.Item(c.ack).bytes, Some(WriteId(c)), 0, None)))
  {
    hide RequestsIn;
  }

  lemma SendWhole(w: World, cfg: Config)
    requires w.held.Some? && w.held.value.written == 0 && w.held.value.accepted.None?
    ensures
      var h := w.held.value;
      var g := h.(accepted := Some(|h.bytes|));
      && Enabled(w, cfg, Send(|h.bytes|)) && h.Fits() && g.Fits()
      && var v := Apply(w, cfg, Send(|h.bytes|));
      && v.core == w.core && v.alive == w.alive && v.wire == w.wire && v.owed == w.owed + NextOwed(h, g)
      && v.outcomes == w.outcomes && v.swallowed == w.swallowed && v.held == Some(g)
  {
    hide NextOwed;
  }

  lemma OneIsOwed(h: Held, id: nat)
    requires h.written == 0 && h.accepted.None? && h.user == Some(id) && RequestsIn(h.bytes) == 1
    ensures
      var g := h.(accepted := Some(|h.bytes|));
      h.Fits() && g.Fits() && NextOwed(h, g) == [UserTag(id, 0)]
  {
    NoRequests();
    hide RequestsIn;
    assert h.bytes[..|h.bytes|] == h.bytes && h.bytes[..0] == "";
  }

  lemma RecordWhole(w: World, cfg: Config)
    requires w.held.Some? && w.held.value.written == 0 && w.held.value.accepted == Some(|w.held.value.bytes|)
    ensures Enabled(w, cfg, Record) && Apply(w, cfg, Record) == w.(held := None)
  {}

  lemma AnswerNext(w: World, cfg: Config, reply: Reply)
    requires w.owed != [] && !IsPush(reply) && w.wire == []
    ensures Enabled(w, cfg, Answer(reply))
    ensures
      Apply(w, cfg, Answer(reply)) == w.(wire := [Wired(reply, w.owed[0])], owed := w.owed[1..])
  {}

  lemma DeliverAnswer(w: World, cfg: Config)
    requires w.core.Ok() && w.alive && |w.wire| == 1 && !IsPush(w.wire[0].reply) && w.wire[0].tag != PushTag
    requires !w.core.inHandshake && w.core.ack < w.core.Next() && w.core.Item(w.core.ack).multiSize == 0
    requires Normal(cfg) && !cfg.transparentUnavailable
    ensures Enabled(w, cfg, Deliver(true, ""))
    ensures
      var x := w.wire[0];
      Apply(w, cfg, Deliver(true, ""))
        == w.(core := AcknowledgePending(w.core, cfg, Some(x.reply)), wire := [],
              outcomes := w.outcomes + [Answered(x, w.swallowed + [x.tag])], swallowed := [])
  {
    hide IsPush;
    assert w.wire[1..] == [];
  }

  lemma WritingJustStaged(w: World, cfg: Config, rest: seq<Event>) returns (v: World)
    requires JustStaged(w) && Normal(cfg)
    ensures
      var c := w.core;
      var events := [Take] + ([Send(|c.Item(c.ack).bytes|)] + ([Record] + rest));
      && After(w, cfg, events) == After(v, cfg, rest) && AnyRun(w, cfg, events) == AnyRun(v, cfg, rest)
      && v.core == c.(write := c.write + 1) && v.owed == w.owed + [UserTag(WriteId(c), 0)]
      && v.alive && v.wire == [] && v.outcomes == w.outcomes && v.swallowed == w.swallowed
  {
    var c := w.core;
    var bytes := c.Item(c.ack).bytes;
    assert RequestsIn(bytes) == 1;
    TakeJustStaged(w, cfg);
    var w1 := Apply(w, cfg, Take);
    OneIsOwed(w1.held.value, WriteId(c));
    hide RequestsIn, NextOwed, FirstParts, Apply, Enabled, After, AnyRun;
    SendWhole(w1, cfg);
    var w2 := Apply(w1, cfg, Send(|bytes|));
    RecordWhole(w2, cfg);
    v := Apply(w2, cfg, Record);
    FirstStep(w, cfg, Take, [Send(|bytes|)] + ([Record] + rest));
    FirstStep(w1, cfg, Send(|bytes|), [Record] + rest);
    FirstStep(w2, cfg, Record, rest);
  }

  lemma AnsweringOldest(w: World, cfg: Config, reply: Reply)
    requires w.owed != [] && w.owed[0] != PushTag && w.wire == [] && !IsPush(reply) && w.core.Ok() && w.alive
    requires !w.core.inHandshake && w.core.ack < w.core.Next() && w.core.Item(w.core.ack).multiSize == 0
    requires Normal(cfg) && !cfg.transparentUnavailable
    ensures
      var events := [Answer(reply)] + ([Deliver(true, "")] + []);
      match After(w, cfg, events)
      case None => false
      case Some(v) =>
        && AnyRun(w, cfg, events) == Some(v) && v.core == AcknowledgePending(w.core, cfg, Some(reply))
        && v.outcomes == w.outcomes + [Answered(Wired(reply, w.owed[0]), w.swallowed + [w.owed[0]])]
  {
    hide Apply, Enabled, After, AnyRun, IsPush;
    AnswerNext(w, cfg, reply);
    var w1 := Apply(w, cfg, Answer(reply));
    DeliverAnswer(w1, cfg);
    FirstStep(w, cfg, Answer(reply), [Deliver(true, "")] + []);
    FirstStep(w1, cfg, Deliver(true, ""), []);
    NoSteps(Apply(w1, cfg, Deliver(true, "")), cfg);
  }

  /** The reply that the server owes first is handed to the request just staged. */
  lemma ServingHandsOverFirstOwed(w: World, cfg: Config, reply: Reply)
    requires JustStaged(w) && Normal(cfg) && !cfg.transparentUnavailable && !IsPush(reply)
    requires forall i :: 0 <= i < |w.owed| ==> w.owed[i] != PushTag
    ensures
      var c := w.core;
      var events := Serving(c.Item(c.ack).bytes, reply);
      var tag := if w.owed == [] then UserTag(WriteId(c), 0) else w.owed[0];
      match After(w, cfg, events)
      case None => false
      case Some(v) =>
        && AnyRun(w, cfg, events) == Some(v)
        && v.core == AcknowledgePending(c.(write := c.write + 1), cfg, Some(reply))
        && v.outcomes == w.outcomes + [Answered(Wired(reply, tag), w.swallowed + [tag])]
  {
    hide RequestsIn, After, AnyRun, IsPush;
    var v := WritingJustStaged(w, cfg, [Answer(reply)] + ([Deliver(true, "")] + []));
    AnsweringOldest(v, cfg, reply);
  }

  lemma StagedAlone(w: World, v: World, bytes: string)
    requires w.core.Ok() && w.alive && w.held.None? && w.wire == [] && !w.core.inHandshake
    requires w.core.ack == w.core.write == w.core.Next() && w.core.ignored == 0 && WellCounted(bytes, 0)
    requires v == w.(core := v.core) && |v.core.staged| == |w.core.staged| + 1
    requires v.core == w.core.(staged := v.core.staged, slots := v.core.slots, promises := v.core.promises)
    requires v.core.staged[|w.core.staged|].bytes == bytes && v.core.staged[|w.core.staged|].multiSize == 0
    ensures JustStaged(v) && v.core.Item(v.core.ack).bytes == bytes
  {
    hide RequestsIn, Run;
  }

  // ---- more pending requests than the limit ----

  function Staging(bytes: string, count: nat): seq<Event> {
    if count == 0 then [] else [StageCallback(count, bytes, 0)] + Staging(bytes, count - 1)
  }

  lemma {:induction false} CallbacksTakeSlots(w: World, cfg: Config, bytes: string, count: nat)
    requires w.core.Ok() && count <= w.core.slots && WellCounted(bytes, 0) && cfg.limited
    ensures
      match After(w, cfg, Staging(bytes, count))
      case None => false
      case Some(v) => |v.core.staged| == |w.core.staged| + count && v.core.executed == w.core.executed
    decreases count
  {
    hide WellCounted, After;
    if count == 0 {
      NoSteps(w, cfg);
    } else {
      var e := StageCallback(count, bytes, 0);
      FirstStep(w, cfg, e, Staging(bytes, count - 1));
      CallbacksTakeSlots(Apply(w, cfg, e), cfg, bytes, count - 1);
    }
  }

  /** Nothing was ever staged. */
  predicate Idle(w: World) {
    && w.core.Ok() && w.alive && w.held.None? && w.wire == [] && w.owed == [] && !w.core.inHandshake
    && w.core.staged == [] && w.core.base == 0 && w.core.ack == w.core.write == 1 && w.core.ignored == 0
    && w.core.executed == []
  }

  lemma NothingToShake(cfg: Config, random: string)
    ensures !Initial(cfg, None, random).inHandshake
  {}

  lemma StartIsIdle(cfg: Config, random: string)
    ensures Idle(Start(cfg, None, random)) && Start(cfg, None, random).core.slots == cfg.requestLimit
  {
    NothingToShake(cfg, random);
    hide Initial;
    InitialIsEmpty(cfg, None, random);
  }

  lemma FutureAlone(w: World, cfg: Config, bytes: string)
    requires Idle(w) && WellCounted(bytes, 0)
    ensures Enabled(w, cfg, StageForFuture(bytes, 0))
    ensures
      var v := Apply(w, cfg, StageForFuture(bytes, 0));
      && JustStaged(v) && v.core.Item(v.core.ack).bytes == bytes && v.core.slots == w.core.slots
      && |v.core.staged| == 1 && v.core.executed == [] && v.owed == []
  {
    hide WellCounted, JustStaged;
    StagedAlone(w, Apply(w, cfg, StageForFuture(bytes, 0)), bytes);
  }

  /** The executor has the reply, and the slot that the request may never have taken is free. */
  lemma AnsweredCore(w: World, cfg: Config, reply: Reply)
    requires JustStaged(w)
    ensures
      var c, v := w.core, AcknowledgePending(w.core.(write := w.core.write + 1), cfg, Some(reply));
      && v.Ok() && v.staged == c.staged && |v.executed| == |c.executed| + 1
      && v.executed == c.executed + [Response(c.Item(c.ack).callback, Some(reply))]
      && (cfg.limited ==> v.slots == c.slots + 1)
  {
    hide RequestsIn;
  }

  lemma FutureGivesSlot(w: World, cfg: Config, bytes: string, reply: Reply)
    requires Normal(cfg) && !cfg.transparentUnavailable && cfg.limited && !IsPush(reply)
    requires JustStaged(w) && w.core.Item(w.core.ack).bytes == bytes && w.owed == []
    requires |w.core.staged| == 1 && w.core.executed == []
    ensures
      match After(w, cfg, Serving(bytes, reply))
      case None => false
      case Some(v) => v.core.Ok() && v.core.slots == w.core.slots + 1 && |v.core.staged| == |v.core.executed|
  {
    hide JustStaged, After, AnyRun, Serving, AcknowledgePending, IsPush, Core.Ok;
    AnsweredCore(w, cfg, reply);
    ServingHandsOverFirstOwed(w, cfg, reply);
  }

  /** Whatever the limit is, one request more can wait for its reply: a future took no slot, but its
      reply gave one back. */
  lemma FutureLetsOneMoreWait(cfg: Config, random: string, bytes: string, reply: Reply)
    requires Normal(cfg) && !cfg.transparentUnavailable && cfg.limited && WellCounted(bytes, 0) && !IsPush(reply)
    ensures
      var more := Staging(bytes, cfg.requestLimit + 1);
      match After(Start(cfg, None, random), cfg, [StageForFuture(bytes, 0)] + (Serving(bytes, reply) + more))
      case None => false
      case Some(w) => |w.core.staged| - |w.core.executed| == cfg.requestLimit + 1 && Reachable(cfg, w)
  {
    hide *;
    StartIsIdle(cfg, random);
    var start, more := Start(cfg, None, random), Staging(bytes, cfg.requestLimit + 1);
    FutureAlone(start, cfg, bytes);
    var staged := Apply(start, cfg, StageForFuture(bytes, 0));
    FutureGivesSlot(staged, cfg, bytes, reply);
    var served := After(staged, cfg, Serving(bytes, reply)).value;
    CallbacksTakeSlots(served, cfg, bytes, cfg.requestLimit + 1);
    RunGoesOn(staged, cfg, Serving(bytes, reply), served, more);
    FirstStep(start, cfg, StageForFuture(bytes, 0), Serving(bytes, reply) + more);
    ReachedByRun(cfg, None, random, [StageForFuture(bytes, 0)] + (Serving(bytes, reply) + more));
  }

  // ---- a push during a lenient handshake ----

  lemma HandshakeIsSent(cfg: Config, h: Handshake, rest: seq<Event>)
    ensures
      var bytes := EncodedHandshake(Provide(Restart(h), "", cfg.sign).1);
      var w := Start(cfg, Some(h), "");
      AnyRun(w, cfg, [Take] + ([Send(|bytes|)] + ([Record] + rest)))
        == AnyRun(w.(core := w.core.(handshakeWrite := 1), out := bytes, handshakeReceived := 1, owed := [HandshakeTag]), cfg, rest)
  {
    hide Printers.Encoded, Provide, Restart;
    var w, bytes := Start(cfg, Some(h), ""), EncodedHandshake(Provide(Restart(h), "", cfg.sign).1);
    var w1 := w.(core := w.core.(handshakeWrite := 1), held := Some(Held(bytes, None, 0, None)));
    assert Apply(w, cfg, Take) == w1;
    var w2 := Apply(w1, cfg, Send(|bytes|));
    assert bytes[0..|bytes|] == bytes && "" + bytes == bytes;
    assert w2 == w1.(held := Some(Held(bytes, None, 0, Some(|bytes|))), out := bytes, handshakeReceived := 1, owed := [HandshakeTag]);
    var w3 := w2.(held := None);
    assert Apply(w2, cfg, Record) == w3;
    hide Apply, AnyRun, After;
    FirstStep(w, cfg, Take, [Send(|bytes|)] + ([Record] + rest));
    FirstStep(w1, cfg, Send(|bytes|), [Record] + rest);
    FirstStep(w2, cfg, Record, rest);
  }

  lemma FirstAnyStep(w: World, cfg: Config, e: Event, v: World, rest: seq<Event>)
    requires AnyStep(w, cfg, e) == Some(v)
    ensures AnyRun(w, cfg, [e] + rest) == AnyRun(v, cfg, rest)
  {
    hide AnyStep;
    assert ([e] + rest)[1..] == rest;
  }

  /** The request that sets the client name is on its way, and nothing else ever happened. */
  predicate Naming(w: World) {
    && w.core.Ok() && w.alive && w.held.None? && w.wire == [] && w.owed == [HandshakeTag] && w.core.inHandshake
    && w.core.handshake.Some? && w.core.handshake.value.SetClientName? && w.core.handshake.value.ignoreFailures
    && w.core.staged == [] && w.core.base == 0 && w.core.ack == w.core.write == 1 && w.core.ignored == 0
    && w.core.executed == [] && w.outcomes == [] && w.swallowed == []
  }

  lemma NameIsSent(cfg: Config, name: string, out: string)
    ensures
      var w := Start(cfg, Some(SetClientName(name, true)), "");
      Naming(w.(core := w.core.(handshakeWrite := 1), out := out, handshakeReceived := 1, owed := [HandshakeTag]))
  {
    hide Printers.Encoded;
  }

  /** The push is taken for the reply, which is still to come. */
  lemma PushCompletesHandshake(w: World, cfg: Config, push: Reply, rest: seq<Event>)
    requires Naming(w) && IsPush(push)
    ensures
      var v := w.(core := w.core.(inHandshake := false));
      AnyRun(w, cfg, [Event.Push(push)] + ([Deliver(true, "")] + rest)) == AnyRun(v, cfg, rest)
  {
    var w1 := w.(wire := [Wired(push, PushTag)]);
    assert w.wire + [Wired(push, PushTag)] == w1.wire;
    assert AnyStep(w, cfg, Event.Push(push)) == Some(w1);
    var v := w.(core := w.core.(inHandshake := false));
    assert w1.wire[1..] == [];
    assert Validate(w.core.handshake.value, push) == (w.core.handshake.value, VALID_COMPLETE);
    assert PushMeetsLenient(w1) && Delivered(w1, cfg, true, "") == v;
    assert AnyStep(w1, cfg, Deliver(true, "")) == Some(v);
    hide AnyStep, AnyRun, Naming;
    FirstAnyStep(w, cfg, Event.Push(push), w1, [Deliver(true, "")] + rest);
    FirstAnyStep(w1, cfg, Deliver(true, ""), v, rest);
  }

  lemma StageOne(w: World, cfg: Config, bytes: string, rest: seq<Event>)
    requires Naming(w.(core := w.core.(inHandshake := true))) && !w.core.inHandshake
    requires WellCounted(bytes, 0) && !cfg.limited
    ensures
      var v := w.(core := Stage(w.core, cfg, Request(User(7), bytes, 0)));
      && JustStaged(v) && v.core.Item(v.core.ack).bytes == bytes && v.core.Item(v.core.ack).callback == User(7)
      && AnyRun(w, cfg, [StageCallback(7, bytes, 0)] + rest) == AnyRun(v, cfg, rest)
  {
    hide WellCounted, JustStaged, AnyRun;
    var v := w.(core := Stage(w.core, cfg, Request(User(7), bytes, 0)));
    StagedAlone(w, v, bytes);
    FirstAnyStep(w, cfg, StageCallback(7, bytes, 0), v, rest);
  }

  lemma ServedByHandshakeReply(w: World, cfg: Config, reply: Reply)
    requires JustStaged(w) && Normal(cfg) && !cfg.transparentUnavailable && !IsPush(reply)
    requires w.owed == [HandshakeTag] && w.outcomes == [] && w.swallowed == [] && w.core.executed == []
    ensures
      match AnyRun(w, cfg, Serving(w.core.Item(w.core.ack).bytes, reply))
      case None => false
      case Some(v) =>
        && v.core.executed == [Response(w.core.Item(w.core.ack).callback, Some(reply))]
        && v.outcomes == [Answered(Wired(reply, HandshakeTag), [HandshakeTag])]
  {
    hide JustStaged, IsPush, AnyRun, After, Serving, AcknowledgePending;
    assert w.swallowed + [HandshakeTag] == [HandshakeTag];
    AnsweredCore(w, cfg, reply);
    ServingHandsOverFirstOwed(w, cfg, reply);
  }

  function PushFirst(push: Reply, bytes: string, reply: Reply): seq<Event> {
    [Event.Push(push)] + ([Deliver(true, "")] + ([StageCallback(7, bytes, 0)] + Serving(bytes, reply)))
  }

  lemma PushThenRequest(w: World, cfg: Config, push: Reply, bytes: string, reply: Reply)
    requires Naming(w) && Normal(cfg) && !cfg.transparentUnavailable && !cfg.limited
    requires IsPush(push) && !IsPush(reply) && WellCounted(bytes, 0)
    ensures
      match AnyRun(w, cfg, PushFirst(push, bytes, reply))
      case None => false
      case Some(v) =>
        && v.core.executed == [Response(User(7), Some(reply))]
        && v.outcomes == [Answered(Wired(reply, HandshakeTag), [HandshakeTag])]
  {
    var done := w.(core := w.core.(inHandshake := false));
    var staged := done.(core := Stage(done.core, cfg, Request(User(7), bytes, 0)));
    assert staged.owed == [HandshakeTag] && staged.outcomes == [] && staged.swallowed == [] && staged.core.executed == [];
    assert w == done.(core := done.core.(inHandshake := true));
    hide Run, RequestsIn, Stage, Naming, JustStaged, IsPush, AnyRun, After, Serving, WellCounted, AcknowledgePending;
    PushCompletesHandshake(w, cfg, push, [StageCallback(7, bytes, 0)] + Serving(bytes, reply));
    StageOne(done, cfg, bytes, Serving(bytes, reply));
    ServedByHandshakeReply(staged, cfg, reply);
  }

  /** A push during a handshake that takes anything: a request then gets the handshake's own reply. */
  lemma EarlyPushShiftsReplies(cfg: Config, name: string, push: Reply, bytes: string, reply: Reply)
    requires Normal(cfg) && !cfg.transparentUnavailable && !cfg.limited
    requires IsPush(push) && !IsPush(reply) && WellCounted(bytes, 0)
    ensures
      var start := Start(cfg, Some(SetClientName(name, true)), "");
      var hello := EncodedHandshake(["CLIENT", "SETNAME", name]);
      match AnyRun(start, cfg, [Take] + ([Send(|hello|)] + ([Record] + PushFirst(push, bytes, reply))))
      case None => false
      case Some(w) =>
        && w.core.executed == [Response(User(7), Some(reply))]
        && w.outcomes == [Answered(Wired(reply, HandshakeTag), [HandshakeTag])]
  {
    var h := SetClientName(name, true);
    assert Provide(Restart(h), "", cfg.sign).1 == ["CLIENT", "SETNAME", name];
    hide *;
    var start, hello := Start(cfg, Some(h), ""), EncodedHandshake(["CLIENT", "SETNAME", name]);
    var w := start.(core := start.core.(handshakeWrite := 1), out := hello, handshakeReceived := 1, owed := [HandshakeTag]);
    NameIsSent(cfg, name, hello);
    PushThenRequest(w, cfg, push, bytes, reply);
    HandshakeIsSent(cfg, h, PushFirst(push, bytes, reply));
  }

  // ---- a server that answers what it has not received ----

  /** Two simple requests are staged, and the writer has the first of them in hand. */
  predicate FirstOfTwoInHand(w: World) {
    && w.core.Ok() && w.alive && !w.core.inHandshake && w.core.ignored == 0
    && w.core.base == 0 && w.core.front == 0 && w.core.ack == 1 && w.core.write == 2 && |w.core.staged| == 2
    && w.core.staged[0].multiSize == 0 && w.core.staged[1].multiSize == 0 && InHand(w, 0)
  }

  lemma FirstOfTwoIsReached(cfg: Config, w: World, bytes: string)
    requires Normal(cfg) && !cfg.limited && WellCounted(bytes, 0) && Idle(w)
    ensures
      match After(w, cfg, [StageCallback(1, bytes, 0)] + ([StageCallback(2, bytes, 0)] + ([Take] + [])))
      case None => false
      case Some(v) => FirstOfTwoInHand(v)
  {
    hide WellCounted;
    var e1, e2 := StageCallback(1, bytes, 0), StageCallback(2, bytes, 0);
    var w1 := Apply(w, cfg, e1);
    var w2 := Apply(w1, cfg, e2);
    var w3 := Apply(w2, cfg, Take);
    assert FirstOfTwoInHand(w3);
    hide Apply, Enabled, After, FirstOfTwoInHand;
    FirstStep(w, cfg, e1, [e2] + ([Take] + []));
    FirstStep(w1, cfg, e2, [Take] + []);
    FirstStep(w2, cfg, Take, []);
    NoSteps(w3, cfg);
  }

  /** The first of two early replies leaves the item in hand as the hidden item; the second destroys it. */
  lemma TwoEarlyRepliesDestroyHeld(w: World, cfg: Config, x: Wired, y: Wired)
    requires FirstOfTwoInHand(w) && w.wire == [x, y] && Normal(cfg) && !cfg.transparentUnavailable
    requires !IsPush(x.reply) && !IsPush(y.reply)
    ensures
      var v := Delivered(w, cfg, true, "");
      CanReceive(v) && !HeldIsDestroyed(v) && HeldIsDestroyed(Delivered(v, cfg, true, ""))
  {
    hide IsPush;
    var v := Delivered(w, cfg, true, "");
    assert Acknowledges(w.core, cfg, x.reply) && v.wire == [y];
    assert v.alive && v.core == AcknowledgePending(w.core, cfg, Some(x.reply));
    assert v.core.Ok() && v.core.ack == v.core.write && Acknowledges(v.core, cfg, y.reply);
    hide Delivered, Acknowledges;
    HeldIsDestroyedIff(w, cfg, true, "", 0);
    HeldIsDestroyedIff(v, cfg, true, "", 0);
  }

  /** Two requests, one in hand, and two replies from a server that has received nothing. */
  lemma EarlyRepliesDestroyItem(cfg: Config, random: string, bytes: string, x: Wired, y: Wired)
    requires Normal(cfg) && !cfg.transparentUnavailable && !cfg.limited && WellCounted(bytes, 0)
    requires !IsPush(x.reply) && !IsPush(y.reply)
    ensures
      var events := [StageCallback(1, bytes, 0)] + ([StageCallback(2, bytes, 0)] + ([Take] + []));
      match After(Start(cfg, None, random), cfg, events)
      case None => false
      case Some(w) =>
        && CanReceive(w.(wire := [x, y]))
        && var v := Delivered(w.(wire := [x, y]), cfg, true, "");
        CanReceive(v) && !HeldIsDestroyed(v) && HeldIsDestroyed(Delivered(v, cfg, true, ""))
  {
    hide Start, After, WellCounted, Idle, HeldIsDestroyed, Delivered, IsPush;
    StartIsIdle(cfg, random);
    FirstOfTwoIsReached(cfg, Start(cfg, None, random), bytes);
    var events := [StageCallback(1, bytes, 0)] + ([StageCallback(2, bytes, 0)] + ([Take] + []));
    var w := After(Start(cfg, None, random), cfg, events).value;
    TwoEarlyRepliesDestroyHeld(w.(wire := [x, y]), cfg, x, y);
  }
}
