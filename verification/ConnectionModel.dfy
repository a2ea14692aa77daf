/** The connection core as a value: which requests are queued, written and acknowledged, and what
    each operation does to them. The class in module ConnectionCore is proved against it. */
module ConnectionModel {
  import opened Common
  import opened Resp
  import opened Handshakes
  import Printers

  /** Whom to tell about the reply: a user's callback object, or the future handler. */
  datatype Callback = NoCallback | User(id: nat) | Future

  datatype Request = Request(callback: Callback, bytes: string, multiSize: nat)

  /** What the callback executor is handed. No reply is the null reply. */
  datatype Response = Response(callback: Callback, reply: Option<Reply>)

  datatype Config = Config(transparentUnavailable: bool, hasListener: bool, exclusivePubsub: bool,
                           limited: bool, requestLimit: nat, sign: Signer)
  {
    predicate Exclusive() { hasListener && exclusivePubsub }
  }

  /** Requests are numbered in the order in which they were staged. The queue was last reset when
      there were base of them; it assigns sequence number s >= 1 to request base + s - 1, and 0 to
      the dummy. Items below front are destroyed; front is the hidden item. */
  datatype Core = Core(
    staged: seq<Request>, base: nat, front: nat, write: nat, ack: nat, ignored: nat,
    inHandshake: bool, handshake: Option<Handshake>, handshakeRequests: seq<string>, handshakeWrite: nat,
    executed: seq<Response>, serviced: nat, called: seq<Response>,
    promises: nat, futureValues: seq<Option<Reply>>, slots: int)
  {
    function Next(): int { |staged| - base + 1 }

    function Item(s: nat): Request
      requires base <= |staged| && 1 <= s < Next()
    {
      staged[base + s - 1]
    }

    /** Everything but the place of the writer. */
    predicate Sane() {
      && base <= |staged| && ack == front + 1 <= Next()
      && handshakeWrite <= |handshakeRequests|
      && (inHandshake ==> handshake.Some?) && (handshake.None? ==> handshakeRequests == [])
      && serviced <= |executed|
    }

    predicate Ok() { Sane() && front < write <= Next() }

    predicate ItemHasArrived() { ack < Next() }
  }

  function EncodedHandshake(chunks: seq<string>): string { Printers.Encoded(chunks) }

  function Reconnection(c: Core, cfg: Config, random: string): (r: Core)
    requires c.Sane()
    ensures r.Ok()
  {
    var d := c.(ignored := 0, write := c.front + 1, ack := c.front + 1);
    match c.handshake
    case None => d.(inHandshake := false)
    case Some(h) =>
      var p := Provide(Restart(h), random, cfg.sign);
      d.(inHandshake := true, handshake := Some(p.0), handshakeRequests := [EncodedHandshake(p.1)], handshakeWrite := 0)
  }

  /** Nothing of the lost connection shows after it: how far the writer, a block and the handshake had
      come is forgotten, and all stand right behind the hidden item. */
  lemma ReconnectionForgets(c: Core, d: Core, cfg: Config, random: string)
    requires c.Sane() && d.Sane() && c.handshake.Some? == d.handshake.Some?
    requires c.handshake.Some? ==> Restart(c.handshake.value) == Restart(d.handshake.value)
    requires d == c.(ignored := d.ignored, write := d.write, inHandshake := d.inHandshake, handshake := d.handshake,
                     handshakeRequests := d.handshakeRequests, handshakeWrite := d.handshakeWrite)
    ensures Reconnection(c, cfg, random) == Reconnection(d, cfg, random)
    ensures
      var r := Reconnection(c, cfg, random);
      && r.front == c.front && r.write == r.ack == c.front + 1 && r.ignored == 0
      && r.staged == c.staged && r.executed == c.executed
      && (r.inHandshake <==> c.handshake.Some?) && |r.handshakeRequests| == (if r.inHandshake then 1 else 0)
      && r.handshakeWrite == 0
  {
    hide Provide, Restart, Printers.Encoded;
  }

  /** Without a limit nothing ever looks at the slots. */
  function Blank(cfg: Config, handshake: Option<Handshake>): (r: Core)
    ensures r.Ok()
  {
    Core([], 0, 0, 1, 1, 0, false, handshake, [], 0, [], 0, [], 0, [], cfg.requestLimit)
  }

  lemma NothingYet(c: Core, cfg: Config)
    requires c.staged == [] && c.base == c.front == 0 && c.write == c.ack == 1 && c.ignored == 0 && !c.inHandshake
    requires c.handshakeRequests == [] && c.handshakeWrite == 0 && c.executed == [] && c.serviced == 0 && c.called == []
    requires c.promises == 0 && c.futureValues == [] && c.slots == cfg.requestLimit
    ensures c == Blank(cfg, c.handshake)
  {}

  function Initial(cfg: Config, handshake: Option<Handshake>, random: string): (r: Core)
    ensures r.Ok()
  {
    Reconnection(Blank(cfg, handshake), cfg, random)
  }

  function Stage(c: Core, cfg: Config, req: Request): (r: Core)
    requires c.Sane()
    ensures r.Sane() && (c.Ok() ==> r.Ok())
  {
    c.(staged := c.staged + [req], slots := if cfg.limited then c.slots - 1 else c.slots)
  }

  /** Staging for a future takes no backpressure slot. */
  function StageFuture(c: Core, bytes: string, multiSize: nat): (r: Core)
    requires c.Sane()
    ensures r.Sane() && (c.Ok() ==> r.Ok())
  {
    c.(staged := c.staged + [Request(Future, bytes, multiSize)], promises := c.promises + 1)
  }

  function DiscardPending(c: Core, cfg: Config): Core {
    c.(ack := c.ack + 1, front := c.front + 1,
       slots := if cfg.limited then c.slots + 1 else c.slots)
  }

  function AcknowledgePending(c: Core, cfg: Config, reply: Option<Reply>): Core
    requires c.base <= |c.staged| && 1 <= c.ack < c.Next()
  {
    DiscardPending(c.(executed := c.executed + [Response(c.Item(c.ack).callback, reply)]), cfg)
  }

  /** Every request still pending gets the null reply. */
  function AcknowledgeAll(c: Core, cfg: Config): (r: Core)
    requires c.base <= |c.staged| && c.ack == c.front + 1 <= c.Next()
    ensures r == c.(front := r.front, ack := r.ack, executed := r.executed, slots := r.slots)
    ensures r.ack == r.front + 1 == r.Next() && |c.executed| <= |r.executed|
    decreases c.Next() - c.ack
  {
    if c.ItemHasArrived() then AcknowledgeAll(AcknowledgePending(c, cfg, None), cfg) else c
  }

  function ClearAllPending(c: Core, cfg: Config, random: string): (r: Core)
    requires c.Sane()
    ensures r.Ok()
  {
    var d := AcknowledgeAll(c.(inHandshake := false), cfg);
    Reconnection(d.(base := |d.staged|, front := 0, ack := 1), cfg, random)
  }

  function NullReplies(requests: seq<Request>): (r: seq<Response>)
    ensures |r| == |requests|
  {
    seq(|requests|, k requires 0 <= k < |requests| => Response(requests[k].callback, None))
  }

  lemma {:induction false} AcknowledgeAllFreesSlots(c: Core, cfg: Config)
    requires c.base <= |c.staged| && 1 <= c.ack == c.front + 1 <= c.Next()
    ensures AcknowledgeAll(c, cfg).slots == (if cfg.limited then c.slots + (c.Next() - c.ack) else c.slots)
    decreases c.Next() - c.ack
  {
    if c.ItemHasArrived() { AcknowledgeAllFreesSlots(AcknowledgePending(c, cfg, None), cfg); }
  }

  lemma {:induction false} AcknowledgeAllGrows(c: Core, cfg: Config)
    requires c.base <= |c.staged| && 1 <= c.ack == c.front + 1 <= c.Next()
    ensures
      var r := AcknowledgeAll(c, cfg);
      && r.executed == c.executed + NullReplies(c.staged[c.base + c.ack - 1..])
      && r.slots == (if cfg.limited then c.slots + (c.Next() - c.ack) else c.slots)
    decreases c.Next() - c.ack
  {
    hide NullReplies;
    AcknowledgeAllFreesSlots(c, cfg);
    var pending := c.staged[c.base + c.ack - 1..];
    if c.ItemHasArrived() {
      var next := AcknowledgePending(c, cfg, None);
      assert pending[1..] == c.staged[c.base + c.ack..];
      AcknowledgeAllGrows(next, cfg);
      NullRepliesBegin(pending);
      var first := Response(pending[0].callback, None);
      assert (c.executed + [first]) + NullReplies(pending[1..]) == c.executed + ([first] + NullReplies(pending[1..]));
    } else {
      assert pending == [];
      NullRepliesBegin(pending);
    }
  }

  lemma NullRepliesBegin(requests: seq<Request>)
    ensures
      NullReplies(requests)
        == if requests == [] then [] else [Response(requests[0].callback, None)] + NullReplies(requests[1..])
  {}

  function Lower(c: char): char {
    if 'A' <= c <= 'Z' then (c as int - 'A' as int + 'a' as int) as char else c
  }

  predicate SameIgnoringCase(a: string, b: string) {
    |a| == |b| && forall i :: 0 <= i < |a| ==> Lower(a[i]) == Lower(b[i])
  }

  predicate IsOK(reply: Reply) { reply.Status? && SameIgnoringCase(reply.text, "OK") }

  predicate IsQueued(reply: Reply) { reply.Status? && SameIgnoringCase(reply.text, "QUEUED") }

  predicate IsUnavailable(reply: Reply) {
    reply.Error? && ("ERR unavailable" <= reply.text || "UNAVAILABLE" <= reply.text)
  }

  predicate IsPush(reply: Reply) { reply.Aggregate? && reply.push }

  function ConsumeHandshake(c: Core, cfg: Config, reply: Reply, random: string): (r: (Core, bool))
    requires c.Sane() && c.handshake.Some?
    ensures r.0.Sane() && (c.Ok() ==> r.0.Ok())
  {
    var v := Validate(c.handshake.value, reply);
    var d := c.(handshake := Some(v.0));
    match v.1
    case INVALID => (d, false)
    case VALID_COMPLETE => (d.(inHandshake := false), true)
    case VALID_INCOMPLETE =>
      var p := Provide(v.0, random, cfg.sign);
      (d.(handshake := Some(p.0), handshakeRequests := d.handshakeRequests + [EncodedHandshake(p.1)]), true)
  }

  /** A reply to the request at the acknowledge position. Within a MULTI block all but the last one
      are checked and swallowed. */
  function ConsumeReply(c: Core, cfg: Config, reply: Reply): (r: (Core, bool))
    requires c.Sane()
    ensures r.0.Sane()
  {
    if !c.ItemHasArrived() then (c, false)
    else
      var size := c.Item(c.ack).multiSize;
      if size == 0 then (AcknowledgePending(c, cfg, Some(reply)), true)
      else
        var d := c.(ignored := c.ignored + 1);
        if d.ignored == 1 then (d, IsOK(reply))
        else if d.ignored <= size then (d, IsQueued(reply))
        else (AcknowledgePending(d.(ignored := 0), cfg, Some(reply)), true)
  }

  /** Whether the listener can parse a message out of the reply is a parameter. */
  function ConsumeResponse(c: Core, cfg: Config, reply: Reply, parsed: bool, random: string): (r: (Core, bool))
    requires c.Sane()
    ensures r.0.Sane()
  {
    if cfg.transparentUnavailable && IsUnavailable(reply) then (c, false)
    else if c.inHandshake then ConsumeHandshake(c, cfg, reply, random)
    else if IsPush(reply) then (c, cfg.hasListener ==> parsed)
    else if cfg.Exclusive() then (c, parsed)
    else ConsumeReply(c, cfg, reply)
  }

  /** Does this reply acknowledge the request at the acknowledge position? */
  predicate Acknowledges(c: Core, cfg: Config, reply: Reply)
    requires c.Sane()
  {
    && !(cfg.transparentUnavailable && IsUnavailable(reply))
    && !c.inHandshake && !IsPush(reply) && !cfg.Exclusive() && c.ItemHasArrived()
    && (c.Item(c.ack).multiSize == 0 || c.ignored >= c.Item(c.ack).multiSize)
  }

  function DiscardWritten(c: Core, cfg: Config): (r: Core)
    decreases if c.ack < c.write then c.write - c.ack else 0
  {
    if c.ack < c.write then DiscardWritten(DiscardPending(c, cfg), cfg) else c
  }

  lemma {:induction false} DiscardWrittenCatchesUp(c: Core, cfg: Config)
    requires c.Ok() && c.ack <= c.write
    ensures
      var r := DiscardWritten(c, cfg);
      r.Ok() && r.ack == r.write && r == c.(ack := r.ack, front := r.front, slots := r.slots)
    decreases c.write - c.ack
  {
    if c.ack < c.write { DiscardWrittenCatchesUp(DiscardPending(c, cfg), cfg); }
  }

  /** What the writer should send next, if there is something. In exclusive pub-sub mode everything
      already written is dropped without a reply. */
  function GetNextToWrite(c: Core, cfg: Config): (Core, Option<string>)
    requires c.Ok()
  {
    if c.inHandshake then
      if c.handshakeWrite < |c.handshakeRequests|
      then (c.(handshakeWrite := c.handshakeWrite + 1), Some(c.handshakeRequests[c.handshakeWrite]))
      else (c, None)
    else
      var d := if cfg.Exclusive() then DiscardWritten(c, cfg) else c;
      if c.write < c.Next() then (d.(write := c.write + 1), Some(c.Item(c.write).bytes)) else (d, None)
  }

  /** In exclusive mode, asking for the next request drops those written before, without a reply and with their
      slots given back; otherwise it drops nothing. */
  lemma ExclusiveDropsWritten(c: Core, cfg: Config)
    requires c.Ok() && !c.inHandshake
    ensures
      var r := GetNextToWrite(c, cfg);
      && r.0.executed == c.executed && r.0.staged == c.staged
      && (r.1 == if c.base + c.write - 1 < |c.staged| then Some(c.staged[c.base + c.write - 1].bytes) else None)
      && r.0.write == (if r.1.Some? then c.write + 1 else c.write)
      && if cfg.hasListener && cfg.exclusivePubsub then
           && r.0.ack == c.write && r.0.front == c.write - 1
           && r.0.slots == c.slots + if cfg.limited then c.write - c.ack else 0
         else r.0.ack == c.ack && r.0.front == c.front && r.0.slots == c.slots
  {
    DiscardWrittenFreesSlots(c, cfg);
    DiscardWrittenCatchesUp(c, cfg);
    hide DiscardWritten;
  }

  lemma {:induction false} DiscardWrittenFreesSlots(c: Core, cfg: Config)
    requires c.ack <= c.write
    ensures DiscardWritten(c, cfg).slots == c.slots + if cfg.limited then c.write - c.ack else 0
    decreases c.write - c.ack
  {
    if c.ack < c.write { DiscardWrittenFreesSlots(DiscardPending(c, cfg), cfg); }
  }

  lemma NextToWriteIsOk(c: Core, cfg: Config)
    requires c.Ok()
    ensures GetNextToWrite(c, cfg).0.Ok()
  {
    DiscardWrittenCatchesUp(c, cfg);
  }

  /** The executor thread hands one reply to its callback. The future handler gives it to the oldest
      promise. */
  function ServiceNext(c: Core): (r: Core)
    requires c.serviced < |c.executed|
  {
    var d := c.(serviced := c.serviced + 1);
    var e := c.executed[c.serviced];
    match e.callback
    case NoCallback => d
    case User(_) => d.(called := c.called + [e])
    case Future => d.(futureValues := c.futureValues + [e.reply])
  }
}
