/** What the event loop does with the bytes on the wire is what the pipeline's Deliver events do. */
module ClientRuns {
  import opened Common
  import opened Resp
  import opened RespRoundTrip
  import opened Handshakes
  import opened ConnectionModel
  import opened Pipeline
  import opened PipelineTheorems
  import opened Client

  function RepliesOn(wire: seq<Wired>): (replies: seq<Reply>)
    ensures |replies| == |wire| && forall i :: 0 <= i < |wire| ==> replies[i] == wire[i].reply
  {
    seq(|wire|, i requires 0 <= i < |wire| => wire[i].reply)
  }

  /** One Deliver for each reply that the event loop consumes. */
  function Deliveries(c: Core, cfg: Config, replies: seq<Reply>, o: Oracle): seq<Event>
    requires c.Sane()
    decreases |replies|
  {
    if replies == [] || o.redirects(replies[0]) then []
    else
      var r := ConsumeResponse(c, cfg, replies[0], o.parses(replies[0]), o.random);
      [Deliver(o.parses(replies[0]), o.random)] + (if r.1 then Deliveries(r.0, cfg, replies[1..], o) else [])
  }

  lemma FirstIsEnabled(w: World, cfg: Config, e: Event, rest: seq<Event>)
    requires After(w, cfg, [e] + rest).Some?
    ensures Enabled(w, cfg, e)
  {
    hide Enabled, Apply;
  }

  lemma DeliveryIsConsumed(w: World, cfg: Config, o: Oracle)
    requires w.wire != [] && Enabled(w, cfg, Deliver(o.parses(w.wire[0].reply), o.random))
    ensures
      var t := w.wire[0].reply;
      var r, v := ConsumeResponse(w.core, cfg, t, o.parses(t), o.random), Apply(w, cfg, Deliver(o.parses(t), o.random));
      && v.core == r.0 && v.alive == r.1 && v.wire == w.wire[1..] && RepliesOn(v.wire) == RepliesOn(w.wire)[1..]
  {
    hide ConsumeResponse, IsUnavailable;
  }

  /** The replies have been consumed as these events deliver them. */
  predicate Consumed(w: World, cfg: Config, o: Oracle, v: World)
    requires w.core.Sane()
  {
    var r := ConsumeAll(w.core, cfg, RepliesOn(w.wire), o);
    v.core == r.0 && (r.1 ==> v.alive && v.wire == [])
  }

  /** In a good state, replies that can be delivered are handed, and delivering them is consuming them. */
  lemma {:induction false} ConsumingIsDelivering(w: World, cfg: Config, o: Oracle)
    requires Good(w, cfg) && Normal(cfg) && w.alive && w.core.Ok()
    requires After(w, cfg, Deliveries(w.core, cfg, RepliesOn(w.wire), o)).Some?
    ensures AllHanded(w.core, cfg, RepliesOn(w.wire), o)
    ensures Consumed(w, cfg, o, After(w, cfg, Deliveries(w.core, cfg, RepliesOn(w.wire), o)).value)
    decreases |w.wire|
  {
    hide Good, Inv, Enabled, Apply, After, Delivered, ConsumeResponse, Acknowledges, IsWhole;
    var replies := RepliesOn(w.wire);
    if replies == [] || o.redirects(replies[0]) {
      NoSteps(w, cfg);
    } else {
      var t := replies[0];
      var r, e := ConsumeResponse(w.core, cfg, t, o.parses(t), o.random), Deliver(o.parses(t), o.random);
      var rest := if r.1 then Deliveries(r.0, cfg, replies[1..], o) else [];
      FirstIsEnabled(w, cfg, e, rest);
      FirstStep(w, cfg, e, rest);
      var v := Apply(w, cfg, e);
      DeliveryIsConsumed(w, cfg, o);
      GoodIsInv(w, cfg);
      DeliveriesAreHanded(w, cfg, o.parses(t), o.random);
      StepIsGood(w, cfg, e);
      GoodIsInv(v, cfg);
      if r.1 {
        ConsumingIsDelivering(v, cfg, o);
      } else {
        NoSteps(v, cfg);
      }
    }
  }

  /** No push can be taken for the reply to a handshake that takes anything: the handshake is over, or
      has no such leaf, or there is no push. */
  predicate Harmless(w: World) {
    || !w.core.inHandshake
    || (w.core.handshake.Some? && !HasLenient(w.core.handshake.value))
    || forall i :: 0 <= i < |w.wire| ==> w.wire[i].tag != PushTag
  }

  lemma HarmlessIsEnabled(w: World, cfg: Config, e: Event)
    requires w.core.Ok() && w.alive && w.wire != [] && Harmless(w) && e.Deliver?
    ensures Enabled(w, cfg, e)
  {
    if w.core.handshake.Some? { LeavesStayLenient(w.core.handshake.value, Nil, "", cfg.sign); }
    hide Lenient, HasLenient;
  }

  lemma StaysHarmless(w: World, cfg: Config, parsed: bool, random: string)
    requires Harmless(w) && Enabled(w, cfg, Deliver(parsed, random))
    ensures Harmless(Apply(w, cfg, Deliver(parsed, random)))
  {
    var v := Apply(w, cfg, Deliver(parsed, random));
    ConsumedHandshake(w.core, cfg, w.wire[0].reply, parsed, random);
    assert v.wire == w.wire[1..] by { hide ConsumeResponse; }
    assert v.core == ConsumeResponse(w.core, cfg, w.wire[0].reply, parsed, random).0 by { hide ConsumeResponse; }
    hide Apply, Enabled, HasLenient, ConsumeResponse;
  }

  lemma ConsumedHandshake(c: Core, cfg: Config, reply: Reply, parsed: bool, random: string)
    requires c.Sane()
    ensures
      var d := ConsumeResponse(c, cfg, reply, parsed, random).0;
      && (d.inHandshake ==> c.inHandshake) && d.handshake.Some? == c.handshake.Some?
      && (c.handshake.Some? ==> HasLenient(d.handshake.value) == HasLenient(c.handshake.value))
  {
    if c.handshake.Some? {
      LeavesStayLenient(c.handshake.value, reply, random, cfg.sign);
      var v := Validate(c.handshake.value, reply).0;
      LeavesStayLenient(v, reply, random, cfg.sign);
    }
    hide Lenient, HasLenient, Validate, Provide, IsOK, IsQueued, IsUnavailable, IsPush;
  }

  lemma {:induction false} DeliveriesAreEnabled(w: World, cfg: Config, o: Oracle)
    requires Good(w, cfg) && Normal(cfg) && w.alive && w.core.Ok() && Harmless(w)
    ensures After(w, cfg, Deliveries(w.core, cfg, RepliesOn(w.wire), o)).Some?
    decreases |w.wire|
  {
    hide Good, Inv, Enabled, Apply, After, Delivered, ConsumeResponse, Harmless;
    var replies := RepliesOn(w.wire);
    if replies == [] || o.redirects(replies[0]) {
      NoSteps(w, cfg);
    } else {
      var t := replies[0];
      var r, e := ConsumeResponse(w.core, cfg, t, o.parses(t), o.random), Deliver(o.parses(t), o.random);
      HarmlessIsEnabled(w, cfg, e);
      FirstStep(w, cfg, e, if r.1 then Deliveries(r.0, cfg, replies[1..], o) else []);
      var v := Apply(w, cfg, e);
      DeliveryIsConsumed(w, cfg, o);
      StepIsGood(w, cfg, e);
      GoodIsInv(v, cfg);
      if r.1 {
        StaysHarmless(w, cfg, o.parses(t), o.random);
        DeliveriesAreEnabled(v, cfg, o);
      } else {
        NoSteps(v, cfg);
      }
    }
  }

  /** The bytes of the replies on the wire, however they are cut into reads, bring the connection core
      to where the Deliver events of the pipeline bring it. */
  lemma ReadingIsDelivering(w: World, cfg: Config, chunks: seq<string>, o: Oracle)
    requires Good(w, cfg) && Normal(cfg) && w.alive && w.core.Ok() && Harmless(w)
    requires forall i :: 0 <= i < |w.wire| ==> Printable(w.wire[i].reply)
    requires Flatten(chunks) == PrintAll(RepliesOn(w.wire))
    ensures AllHanded(w.core, cfg, RepliesOn(w.wire), o)
    ensures
      match After(w, cfg, Deliveries(w.core, cfg, RepliesOn(w.wire), o))
      case None => false
      case Some(v) =>
        var r := FeedChunks(w.core, cfg, INITIAL, chunks, o);
        v.core == r.0 && (r.1 ==> v.alive && v.wire == [])
  {
    DeliveriesAreEnabled(w, cfg, o);
    ConsumingIsDelivering(w, cfg, o);
    hide Good, Harmless, After, ConsumeAll, FeedChunks, Deliveries, AllHanded, Core.Ok, PrintAll, Flatten, Printable;
    PrintedStreamParses(RepliesOn(w.wire), chunks);
    ChunksAreTheirStream(w.core, cfg, INITIAL, chunks, o);
  }
}
