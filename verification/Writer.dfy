/** The writer thread's loop and the shutdown of the callback executor, as they work on the
    connection core; and why the writer's loop is a run of the request pipeline. */
module Writer {
  import opened Common
  import opened Handshakes
  import opened ConnectionModel
  import opened ConnectionObjects
  import opened Queues
  import opened Pipeline
  import opened PipelineTheorems

  /** What the network does with one send(): it may accept fewer bytes than offered, but not none. */
  datatype SendResult = Accept(count: nat) | WouldBlock | Broken

  function Accepted(count: nat, offered: nat): (k: nat)
    ensures k <= offered && (k == 0 ==> offered == 0)
  {
    if offered == 0 then 0 else if count == 0 then 1 else if count <= offered then count else offered
  }

  class NetworkStream {
    /** The bytes accepted so far. */
    var sent: string
    var ok: bool

    constructor ()
      ensures sent == "" && ok
    {
      sent, ok := "", true;
    }

    /** A negative count stands for the error returns of send(). */
    method Send(buffer: string, network: SendResult) returns (bytes: int)
      modifies this
      ensures ok == old(ok)
      ensures network.Accept? ==> bytes == Accepted(network.count, |buffer|) && sent == old(sent) + buffer[..bytes]
      ensures !network.Accept? ==> bytes == -1 && sent == old(sent)
    {
      if network.Accept? {
        bytes := Accepted(network.count, |buffer|);
        sent := sent + buffer[..bytes];
      } else {
        bytes := -1;
      }
    }

    method Shutdown()
      modifies this`ok
      ensures !ok
    {
      ok := false;
    }
  }

  /** What the writer thread has in hand: a request, and how much of it is written. */
  datatype Progress = Progress(core: Core, held: Option<Held>, sent: string, ok: bool) {
    predicate Valid() {
      core.Ok() && (held.Some? ==> held.value.written <= |held.value.bytes|)
    }
  }

  function SendEvents(h: Held, network: SendResult): seq<Event>
    requires h.written <= |h.bytes|
  {
    if !network.Accept? then [] else [Send(Accepted(network.count, |h.bytes| - h.written)), Record]
  }

  /** The events of one round of the loop. */
  function RoundEvents(p: Progress, cfg: Config, network: SendResult): seq<Event>
    requires p.Valid()
  {
    var q := if p.held.Some? then p else TakeNext(p, cfg);
    (if p.held.Some? then [] else [Take]) + if q.held.None? then [] else SendEvents(q.held.value, network)
  }

  function TakeNext(p: Progress, cfg: Config): (q: Progress)
    requires p.Valid()
    ensures q.Valid() && q.sent == p.sent && q.ok == p.ok
    ensures q.held.Some? ==> q.held.value.written == 0 && q.held.value.accepted.None?
  {
    NextToWriteIsOk(p.core, cfg);
    var r := GetNextToWrite(p.core, cfg);
    var user := if p.core.inHandshake then None else Some(WriteId(p.core));
    p.(core := r.0, held := if r.1.None? then None else Some(Held(r.1.value, user, 0, None)))
  }

  /** Offering what is left of h: what stays in hand, the bytes sent, and whether the stream lives on. */
  function Offered(h: Held, network: SendResult): (r: (Option<Held>, string, bool))
    requires h.written <= |h.bytes|
    ensures r.0.Some? ==> r.0.value.written <= |r.0.value.bytes|
  {
    match network
    case WouldBlock => (Some(h), "", true)
    case Broken => (Some(h), "", false)
    case Accept(count) =>
      var k := Accepted(count, |h.bytes| - h.written);
      (if h.written + k == |h.bytes| then None else Some(h.(written := h.written + k)),
       h.bytes[h.written..h.written + k], true)
  }

  /** One round of the loop: take a request unless one is in hand, and try to send what is left of it. */
  function RoundResult(p: Progress, cfg: Config, network: SendResult): (r: Progress)
    requires p.Valid()
    ensures r.Valid()
  {
    var q := if p.held.Some? then p else TakeNext(p, cfg);
    if q.held.None? then q
    else
      var r := Offered(q.held.value, network);
      q.(held := r.0, sent := q.sent + r.1, ok := r.2)
  }

  /** What a round does to the state of the pipeline. */
  ghost predicate Agrees(w: World, p: Progress) {
    && w.core == p.core && w.held == p.held && w.out == p.sent
    && p.Valid() && (p.held.Some? ==> p.held.value.accepted.None?)
  }

  /** Writing stages nothing, starts no connection and leaves no handshake. */
  predicate Follows(w: World, v: World) {
    && v.first == w.first && v.core.staged == w.core.staged
    && v.core.handshakeRequests == w.core.handshakeRequests && v.core.inHandshake == w.core.inHandshake
  }

  lemma TakeIsTaken(w: World, cfg: Config, p: Progress)
    requires Agrees(w, p) && p.held.None? && Enabled(w, cfg, Take)
    ensures Agrees(Apply(w, cfg, Take), TakeNext(p, cfg)) && Follows(w, Apply(w, cfg, Take))
  {
    DiscardWrittenCatchesUp(w.core, cfg);
    hide DiscardWritten;
  }

  lemma SendIsOffered(w: World, cfg: Config, p: Progress, network: SendResult)
    requires Agrees(w, p) && p.held.Some?
    ensures
      var h := p.held.value;
      var r := Offered(h, network);
      var q := p.(held := r.0, sent := p.sent + r.1, ok := r.2);
      if !network.Accept? then Agrees(w, q)
      else
        var k := Accepted(network.count, |h.bytes| - h.written);
        && Enabled(w, cfg, Send(k)) && Enabled(Apply(w, cfg, Send(k)), cfg, Record)
        && Agrees(Apply(Apply(w, cfg, Send(k)), cfg, Record), q)
        && Follows(w, Apply(Apply(w, cfg, Send(k)), cfg, Record))
  {
    hide Core.Ok, NextOwed;
  }

  /** A round is a run of the pipeline: what it did to the core, the request in hand and the bytes
      sent is what those events do. */
  lemma RoundIsRun(w: World, cfg: Config, p: Progress, network: SendResult)
    requires Agrees(w, p)
    ensures
      var v := After(w, cfg, RoundEvents(p, cfg, network));
      v.Some? && Agrees(v.value, RoundResult(p, cfg, network)) && Follows(w, v.value)
  {
    hide Apply, After, TakeNext, Offered, Accepted;
    var u, q, start := w, p, [];
    if p.held.None? {
      assert Enabled(w, cfg, Take);
      TakeIsTaken(w, cfg, p);
      u, q, start := Apply(w, cfg, Take), TakeNext(p, cfg), [Take];
    }
    var rest := if q.held.None? then [] else SendEvents(q.held.value, network);
    if q.held.Some? {
      SendIsOffered(u, cfg, q, network);
      SendRun(u, cfg, q.held.value, network);
    } else {
      NoEvents(u, cfg);
    }
    if p.held.None? { OneStep(w, cfg, Take, rest); } else { assert [] + rest == rest; }
  }

  lemma NoEvents(w: World, cfg: Config)
    ensures After(w, cfg, []) == Some(w)
  {}

  lemma SendRun(w: World, cfg: Config, h: Held, network: SendResult)
    requires w.held == Some(h) && h.written <= |h.bytes|
    requires
      var k := Accepted(if network.Accept? then network.count else 0, |h.bytes| - h.written);
      network.Accept? ==> Enabled(w, cfg, Send(k)) && Enabled(Apply(w, cfg, Send(k)), cfg, Record)
    ensures
      After(w, cfg, SendEvents(h, network))
        == if !network.Accept? then Some(w)
           else Some(Apply(Apply(w, cfg, Send(Accepted(network.count, |h.bytes| - h.written))), cfg, Record))
  {
    hide Apply, Accepted, Enabled;
    if network.Accept? {
      var k := Accepted(network.count, |h.bytes| - h.written);
      assert [Send(k)] + [Record] == [Send(k), Record];
      OneStep(w, cfg, Send(k), [Record]);
      assert [Record] + [] == [Record];
      OneStep(Apply(w, cfg, Send(k)), cfg, Record, []);
    }
  }

  lemma OneStep(w: World, cfg: Config, e: Event, rest: seq<Event>)
    requires Enabled(w, cfg, e)
    ensures After(w, cfg, [e] + rest) == After(Apply(w, cfg, e), cfg, rest)
  {
    assert ([e] + rest)[1..] == rest;
  }

  class WriterThread {
    var beingProcessed: Option<string>
    var bytesWritten: nat
    var canWrite: bool
    /** Which user request is in hand, if it is one. */
    ghost var user: Option<nat>

    constructor ()
      ensures beingProcessed == None && canWrite
    {
      beingProcessed, bytesWritten, canWrite, user := None, 0, true, None;
    }

    ghost function InHand(): Option<Held>
      reads this
    {
      if beingProcessed.None? then None else Some(Held(beingProcessed.value, user, bytesWritten, None))
    }

    /** getNextToWrite, unless a request is in hand already. */
    method Fetch(core: ConnectionCore)
      requires core.Valid() && this !in core.Repr
      modifies this`beingProcessed, this`bytesWritten, this`user, core.Repr
      ensures core.Valid() && core.Repr == old(core.Repr)
      ensures old(beingProcessed).None? ==> bytesWritten == 0
      ensures old(beingProcessed).Some? ==> core.Model() == old(core.Model()) && InHand() == old(InHand())
      ensures old(beingProcessed).None? ==>
        forall sent, ok :: Progress(core.Model(), InHand(), sent, ok)
          == TakeNext(Progress(old(core.Model()), None, sent, ok), core.cfg)
    {
      hide ConnectionCore.Sound, GetNextToWrite, RequestQueue.Points, RequestQueue.FrontSeq, RequestQueue.Valid;
      if beingProcessed.None? {
        bytesWritten := 0;
        user := if core.inHandshake then None else Some(WriteId(core.Model()));
        beingProcessed := core.GetNextToWrite();
      }
    }

    /** Offer what is left of the request in hand to the network. */
    method Offer(stream: NetworkStream, network: SendResult)
      requires beingProcessed.Some? && bytesWritten <= |beingProcessed.value| && stream.ok
      modifies this, stream
      ensures beingProcessed.Some? ==> bytesWritten <= |beingProcessed.value|
      ensures
        var r := Offered(old(InHand()).value, network);
        InHand() == r.0 && stream.sent == old(stream.sent) + r.1 && stream.ok == r.2
      ensures network.WouldBlock? ==> stream.ok && InHand() == old(InHand()) && stream.sent == old(stream.sent)
      ensures network.Accept? ==> stream.ok && (InHand().None? || |old(stream.sent)| < |stream.sent|)
      ensures stream.sent + InHandStill(InHand()) == old(stream.sent + InHandStill(InHand()))
    {
      var bytes := stream.Send(beingProcessed.value[bytesWritten..], network);
      if bytes < 0 && network == WouldBlock {
        canWrite := false;
        return;
      }
      if bytes < 0 {
        stream.Shutdown();
        return;
      }
      assert beingProcessed.value[bytesWritten..][..bytes] == beingProcessed.value[bytesWritten..bytesWritten + bytes];
      bytesWritten := bytesWritten + bytes;
      if bytesWritten == |beingProcessed.value| {
        beingProcessed := None;
      } else {
        canWrite := false;
      }
    }

    /** One round of eventLoop. */
    method Round(core: ConnectionCore, stream: NetworkStream, network: SendResult)
      requires core.Valid() && this !in core.Repr && stream !in core.Repr && stream.ok
      requires beingProcessed.Some? ==> bytesWritten <= |beingProcessed.value|
      modifies this, core.Repr, stream
      ensures core.Valid() && core.Repr == old(core.Repr)
      ensures beingProcessed.Some? ==> bytesWritten <= |beingProcessed.value|
      ensures Progress(core.Model(), InHand(), stream.sent, stream.ok)
        == RoundResult(old(Progress(core.Model(), InHand(), stream.sent, stream.ok)), core.cfg, network)
      ensures stream.ok || network.Broken?
    {
      hide ConnectionCore.Sound, RequestQueue.Points, RequestQueue.FrontSeq, RequestQueue.Valid, TakeNext, Offered;
      ghost var p := Progress(core.Model(), InHand(), stream.sent, stream.ok);
      if !canWrite {
        // poll(): try writing again, whatever it says
        canWrite := true;
      }
      Fetch(core);
      ghost var q := Progress(core.Model(), InHand(), stream.sent, stream.ok);
      assert q == if p.held.Some? then p else TakeNext(p, core.cfg);
      if beingProcessed.Some? {
        Offer(stream, network);
        assert core.Model() == q.core;
      }
    }

    /** eventLoop: round after round, until termination is requested or the stream breaks. */
    method EventLoop(core: ConnectionCore, stream: NetworkStream, network: seq<SendResult>) returns (rounds: nat)
      requires core.Valid() && this !in core.Repr && stream !in core.Repr && stream.ok
      requires beingProcessed == None
      modifies this, core.Repr, stream
      ensures core.Valid() && rounds <= |network| && (stream.ok ==> rounds == |network|)
      ensures Progress(core.Model(), InHand(), stream.sent, stream.ok)
        == Rounds(old(Progress(core.Model(), None, stream.sent, stream.ok)), core.cfg, network[..rounds])
      ensures !stream.ok ==> 0 < rounds && network[rounds - 1].Broken?
      ensures NoneBroken(network) ==> stream.ok && rounds == |network|
      ensures
        var p := old(Progress(core.Model(), None, stream.sent, stream.ok));
        NoneBroken(network) ==>
          && stream.sent <= old(stream.sent) + Unsent(p)
          && (Accepts(network) >= Work(p) ==> stream.sent == old(stream.sent) + Unsent(p))
    {
      hide ConnectionCore.Sound, RequestQueue.Points, RequestQueue.FrontSeq, RequestQueue.Valid, RoundResult;
      hide Work, Unsent, Accepts;
      rounds := 0;
      ghost var start := Progress(core.Model(), None, stream.sent, stream.ok);
      while rounds < |network| && stream.ok
        invariant rounds <= |network|
        invariant core.Valid() && core.Repr == old(core.Repr)
        invariant beingProcessed.Some? ==> bytesWritten <= |beingProcessed.value|
        invariant Progress(core.Model(), InHand(), stream.sent, stream.ok) == Rounds(start, core.cfg, network[..rounds])
        invariant !stream.ok ==> 0 < rounds && network[rounds - 1].Broken?
      {
        RoundEndsIff(Progress(core.Model(), InHand(), stream.sent, stream.ok), core.cfg, network[rounds]);
        Round(core, stream, network[rounds]);
        assert network[..rounds + 1][..rounds] == network[..rounds];
        rounds := rounds + 1;
      }
      if NoneBroken(network) {
        assert network[..rounds] == network;
        AllIsSent(start, core.cfg, network);
      }
    }
  }

  function Rounds(p: Progress, cfg: Config, network: seq<SendResult>): (r: Progress)
    requires p.Valid()
    ensures r.Valid()
    decreases |network|
  {
    if network == [] then p else RoundResult(Rounds(p, cfg, network[..|network| - 1]), cfg, network[|network| - 1])
  }

  function LoopEvents(p: Progress, cfg: Config, network: seq<SendResult>): seq<Event>
    requires p.Valid()
    decreases |network|
  {
    if network == [] then []
    else
      var last := |network| - 1;
      LoopEvents(p, cfg, network[..last]) + RoundEvents(Rounds(p, cfg, network[..last]), cfg, network[last])
  }

  /** The whole event loop, for every pattern of partial writes and would-block results, is a run of
      the pipeline; so what holds in every reachable state holds of what the loop leaves behind. */
  lemma {:induction false} LoopIsRun(w: World, cfg: Config, p: Progress, network: seq<SendResult>)
    requires Agrees(w, p)
    ensures
      var v := After(w, cfg, LoopEvents(p, cfg, network));
      v.Some? && Agrees(v.value, Rounds(p, cfg, network)) && Follows(w, v.value)
    decreases |network|
  {
    assert p.Valid();
    hide Agrees, RoundResult, RoundEvents;
    if network == [] {
      NoEvents(w, cfg);
    } else {
      var last := |network| - 1;
      LoopIsRun(w, cfg, p, network[..last]);
      var u, q := After(w, cfg, LoopEvents(p, cfg, network[..last])).value, Rounds(p, cfg, network[..last]);
      RoundIsRun(u, cfg, q, network[last]);
      RunGoesOn(w, cfg, LoopEvents(p, cfg, network[..last]), u, RoundEvents(q, cfg, network[last]));
    }
  }

  lemma ReconnectedAgrees(w: World, cfg: Config, random: string)
    requires Inv(w) && w.core.Ok()
    ensures Enabled(w, cfg, Reconnect(random))
    ensures
      var u, core := Apply(w, cfg, Reconnect(random)), Reconnection(w.core, cfg, random);
      && u.core == core && u.core.staged == w.core.staged && u.first == |w.core.executed|
      && Agrees(u, Progress(core, None, "", true))
  {
    ReconnectRestartsBlock(w, cfg, random);
    hide Reconnection, Inv;
  }

  lemma AgreesOnSent(w: World, p: Progress)
    requires Agrees(w, p)
    ensures w.core == p.core && w.out == p.sent
  {}

  /** What a freshly connected writer has sent is, whatever the network does, a prefix of the handshake
      requests followed by the unacknowledged requests from the first one. */
  lemma LoopSendsInOrder(w: World, cfg: Config, random: string, network: seq<SendResult>)
    requires Good(w, cfg) && Normal(cfg)
    ensures
      var core := Reconnection(w.core, cfg, random);
      var r := Rounds(Progress(core, None, "", true), cfg, network);
      var first := |w.core.executed|;
      && first <= |w.core.staged|
      && r.sent <= Flatten(core.handshakeRequests) + Flatten(BytesOf(w.core.staged[first..]))
      && (core.inHandshake ==> r.sent <= Flatten(core.handshakeRequests))
  {
    GoodIsInv(w, cfg);
    ReconnectedAgrees(w, cfg, random);
    hide Agrees, Apply, Enabled, Rounds, LoopEvents, Reconnection, After, Good, Inv, Flatten, BytesOf, Core.Ok;
    var u := Apply(w, cfg, Reconnect(random));
    StepIsGood(w, cfg, Reconnect(random));
    var p := Progress(u.core, None, "", true);
    LoopIsRun(u, cfg, p, network);
    var v := After(u, cfg, LoopEvents(p, cfg, network)).value;
    AgreesOnSent(v, Rounds(p, cfg, network));
    RunIsGood(u, cfg, LoopEvents(p, cfg, network));
    GoodIsInv(v, cfg);
    InvMeansWireContents(v);
  }

  // ---- progress ----

  /** The requests that the writer has yet to take: the handshake's, or else the users'. */
  function Untaken(c: Core): seq<string>
    requires c.Ok()
  {
    if c.inHandshake then c.handshakeRequests[c.handshakeWrite..] else BytesOf(c.staged[WriteId(c)..])
  }

  /** What is left of the request in hand. */
  function InHandStill(held: Option<Held>): string
    requires held.Some? ==> held.value.written <= |held.value.bytes|
  {
    if held.Some? then held.value.bytes[held.value.written..] else ""
  }

  function Unsent(p: Progress): string
    requires p.Valid()
  {
    InHandStill(p.held) + Flatten(Untaken(p.core))
  }

  /** All bytes left, and one for each request: every send() that is accepted does away with one of these. */
  function Work(p: Progress): nat
    requires p.Valid()
  {
    |Unsent(p)| + |Untaken(p.core)| + if p.held.Some? then 1 else 0
  }

  predicate NoneBroken(network: seq<SendResult>) { forall i :: 0 <= i < |network| ==> !network[i].Broken? }

  function Accepts(network: seq<SendResult>): nat
    decreases |network|
  {
    if network == [] then 0
    else Accepts(network[..|network| - 1]) + if network[|network| - 1].Accept? then 1 else 0
  }

  lemma TakeMovesOne(c: Core, cfg: Config)
    requires c.Ok()
    ensures
      var r, left := GetNextToWrite(c, cfg), Untaken(c);
      && r.0.Ok() && r.1 == (if left == [] then None else Some(left[0]))
      && Untaken(r.0) == (if left == [] then [] else left[1..])
  {
    NextToWriteIsOk(c, cfg);
    DiscardWrittenCatchesUp(c, cfg);
    hide DiscardWritten;
  }

  /** Taking a request moves it into the hand; with nothing to take the hand stays empty. */
  lemma TakingKeepsUnsent(p: Progress, cfg: Config)
    requires p.Valid() && p.held.None?
    ensures
      var q := TakeNext(p, cfg);
      && Unsent(q) == Unsent(p) && Work(q) == Work(p)
      && (q.held.None? <==> Work(p) == 0)
  {
    TakeMovesOne(p.core, cfg);
    NothingToFlatten();
    hide GetNextToWrite, Untaken, Flatten, Core.Ok;
    var left, q := Untaken(p.core), TakeNext(p, cfg);
    if left != [] {
      FlattenFirst(left);
      assert q.held.value.bytes[0..] == left[0];
      assert "" + Flatten(left) == Flatten(left);
    }
  }

  lemma NothingToFlatten()
    ensures Flatten<char>([]) == []
  {}

  lemma FlattenFirst(pieces: seq<string>)
    requires pieces != []
    ensures Flatten(pieces) == pieces[0] + Flatten(pieces[1..])
  {}

  lemma OfferedMoves(h: Held, network: SendResult)
    requires h.written <= |h.bytes| && !network.Broken?
    ensures
      var r := Offered(h, network);
      && r.2 && InHandStill(Some(h)) == r.1 + InHandStill(r.0)
      && (network.Accept? ==> r.0.None? || r.1 != "")
  {}

  lemma OfferingKeepsUnsent(p: Progress, network: SendResult)
    requires p.Valid() && p.held.Some? && !network.Broken?
    ensures
      var o := Offered(p.held.value, network);
      var r := p.(held := o.0, sent := p.sent + o.1, ok := o.2);
      && r.Valid() && r.ok && r.sent + Unsent(r) == p.sent + Unsent(p)
      && Work(r) <= Work(p) && (network.Accept? ==> Work(r) < Work(p))
  {
    OfferedMoves(p.held.value, network);
    hide Untaken, Flatten, Core.Ok, Offered, InHandStill, Accepted;
    var o, more := Offered(p.held.value, network), Flatten(Untaken(p.core));
    assert p.sent + o.1 + (InHandStill(o.0) + more) == p.sent + (o.1 + InHandStill(o.0) + more);
  }

  /** A round without a broken connection keeps the stream, and loses and repeats no byte; and if send()
      accepts something, less is left to do. */
  lemma RoundMoves(p: Progress, cfg: Config, network: SendResult)
    requires p.Valid() && p.ok && !network.Broken?
    ensures
      var r := RoundResult(p, cfg, network);
      && r.ok && r.sent + Unsent(r) == p.sent + Unsent(p)
      && Work(r) <= Work(p) && (network.Accept? && Work(p) > 0 ==> Work(r) < Work(p))
  {
    if p.held.None? { TakingKeepsUnsent(p, cfg); }
    var q := if p.held.Some? then p else TakeNext(p, cfg);
    hide TakeNext, Unsent, Work, Core.Ok, Offered;
    if q.held.Some? { OfferingKeepsUnsent(q, network); }
  }

  lemma {:induction false} RoundsMove(p: Progress, cfg: Config, network: seq<SendResult>)
    requires p.Valid() && p.ok && NoneBroken(network)
    ensures
      var r := Rounds(p, cfg, network);
      && r.ok && r.sent + Unsent(r) == p.sent + Unsent(p)
      && Work(r) <= (if Accepts(network) < Work(p) then Work(p) - Accepts(network) else 0)
    decreases |network|
  {
    hide RoundResult, Unsent, Work;
    if network != [] {
      var last := |network| - 1;
      RoundsMove(p, cfg, network[..last]);
      RoundMoves(Rounds(p, cfg, network[..last]), cfg, network[last]);
    }
  }

  lemma NoWorkLeft(p: Progress)
    requires p.Valid() && Work(p) == 0
    ensures Unsent(p) == "" && p.held.None?
  {
    hide Unsent, Untaken;
  }

  /** However often the socket's buffer is full, and however little it takes at a time: while the connection
      does not break, the stream stays up; and when send() has accepted something often enough, every byte
      of what there was to send has been sent, in order and once. */
  lemma AllIsSent(p: Progress, cfg: Config, network: seq<SendResult>)
    requires p.Valid() && p.ok && NoneBroken(network)
    ensures
      var r := Rounds(p, cfg, network);
      && r.ok && r.sent <= p.sent + Unsent(p)
      && (Accepts(network) >= Work(p) ==> r.sent == p.sent + Unsent(p) && r.held.None?)
  {
    hide Unsent, Work, Rounds, Accepts;
    RoundsMove(p, cfg, network);
    var r := Rounds(p, cfg, network);
    if Accepts(network) >= Work(p) {
      NoWorkLeft(r);
      assert r.sent + "" == r.sent;
    }
  }

  /** The stream is given up exactly when the connection breaks under a request in hand. */
  lemma RoundEndsIff(p: Progress, cfg: Config, network: SendResult)
    requires p.Valid() && p.ok
    ensures RoundResult(p, cfg, network).ok <==> !network.Broken? || Work(p) == 0
  {
    if p.held.None? { TakingKeepsUnsent(p, cfg); }
    hide TakeNext, Unsent, Untaken;
  }

  /** On a new connection, what is sent in the end is all of the handshake's request, or without a handshake
      all of the unacknowledged requests, from the first one. */
  lemma NewConnectionSendsAll(c: Core, cfg: Config, random: string, network: seq<SendResult>)
    requires c.Sane() && NoneBroken(network)
    ensures
      var d := Reconnection(c, cfg, random);
      var p := Progress(d, None, "", true);
      var due := if c.handshake.Some? then d.handshakeRequests else BytesOf(c.staged[c.base + c.ack - 1..]);
      && Work(p) == |Flatten(due)| + |due|
      && (Accepts(network) >= |Flatten(due)| + |due| ==> Rounds(p, cfg, network).sent == Flatten(due))
  {
    var d := Reconnection(c, cfg, random);
    var p := Progress(d, None, "", true);
    assert c.handshake.Some? ==> d.inHandshake && d.handshakeRequests[0..] == d.handshakeRequests;
    AllIsSent(p, cfg, network);
    hide Rounds, Accepts, Flatten, BytesOf, Provide, Restart;
    assert "" + Flatten(Untaken(d)) == Flatten(Untaken(d));
    assert "" + Unsent(p) == Unsent(p);
  }

  lemma FlattenInTwo(pieces: seq<string>, k: nat)
    requires k <= |pieces|
    ensures Flatten(pieces[..k]) + Flatten(pieces[k..]) == Flatten(pieces)
  {
    hide *;
    FlattenAppend(pieces[..k], pieces[k..]);
    assert pieces[..k] + pieces[k..] == pieces;
  }

  lemma DueInHandshake(c: Core, first: nat)
    requires c.Ok() && c.inHandshake && first == WriteId(c) <= |c.staged|
    ensures Flatten(c.handshakeRequests[..c.handshakeWrite]) + Flatten(Untaken(c)) == Flatten(c.handshakeRequests)
    ensures Flatten(BytesOf(c.staged[first..WriteId(c)])) == ""
  {
    FlattenInTwo(c.handshakeRequests, c.handshakeWrite);
    NothingToFlatten();
    hide Flatten;
    assert BytesOf(c.staged[first..WriteId(c)]) == [];
  }

  lemma DueAfterHandshake(c: Core, first: nat)
    requires c.Ok() && !c.inHandshake && first <= WriteId(c) <= |c.staged|
    ensures
      Flatten(BytesOf(c.staged[first..WriteId(c)])) + Flatten(Untaken(c)) == Flatten(BytesOf(c.staged[first..]))
  {
    var requests, k := BytesOf(c.staged[first..]), WriteId(c) - first;
    FlattenInTwo(requests, k);
    hide Flatten;
    assert requests[..k] == BytesOf(c.staged[first..WriteId(c)]);
    assert requests[k..] == BytesOf(c.staged[WriteId(c)..]);
  }

  /** What has been handed to the writer and what it has yet to take is everything that is due. */
  lemma HandedAndUntaken(w: World)
    requires Inv(w)
    ensures
      var users := if w.core.inHandshake then "" else Flatten(BytesOf(w.core.staged[w.first..]));
      Handed(w) + Flatten(Untaken(w.core)) == Flatten(w.core.handshakeRequests) + users
  {
    var c := w.core;
    assert c.Ok() && Positions(w);
    hide Flatten, Untaken, BytesOf, InOrder, OwnReplies, HeldOk, InStep, WireOk, OnTheWire;
    var handshake, users, left := Flatten(c.handshakeRequests[..c.handshakeWrite]),
      Flatten(BytesOf(c.staged[w.first..WriteId(c)])), Flatten(Untaken(c));
    if c.inHandshake {
      DueInHandshake(c, w.first);
      assert handshake + users == handshake;
    } else {
      DueAfterHandshake(c, w.first);
      assert c.handshakeRequests[..c.handshakeWrite] == c.handshakeRequests;
      assert handshake + users + left == handshake + (users + left);
    }
  }

  lemma SentAndUnsent(w: World, p: Progress)
    requires Inv(w) && Agrees(w, p)
    ensures p.sent + Unsent(p) == Handed(w) + Flatten(Untaken(w.core))
  {
    hide InOrder, OwnReplies, InStep, WireOk, Flatten, Untaken, Handed;
    var more := Flatten(Untaken(w.core));
    assert p.sent + (InHandStill(p.held) + more) == p.sent + InHandStill(p.held) + more;
  }

  /** At any point of a connection: when send() accepts something often enough, everything that is due has been
      sent in the end, which is all of the handshake's requests, and after it all requests from the first
      unacknowledged one. */
  lemma LoopSendsAll(w: World, cfg: Config, p: Progress, network: seq<SendResult>)
    requires Good(w, cfg) && Agrees(w, p) && p.ok && NoneBroken(network) && Accepts(network) >= Work(p)
    ensures
      var r := Rounds(p, cfg, network);
      && r.ok && w.first <= |w.core.staged|
      && r.sent == Flatten(w.core.handshakeRequests)
                   + if w.core.inHandshake then "" else Flatten(BytesOf(w.core.staged[w.first..]))
  {
    GoodIsInv(w, cfg);
    HandedAndUntaken(w);
    SentAndUnsent(w, p);
    hide Good, Rounds, Work, Accepts, Unsent, Untaken, Flatten, Handed, InStep, HeldOk, OnTheWire, OwnReplies;
    AllIsSent(p, cfg, network);
  }

  // ---- the callback executor ----

  /** Staged replies are those to the requests, in order, and the serviced ones reached their targets. */
  predicate InService(c: Core) {
    && c.serviced <= |c.executed| <= |c.staged| && Served(c)
    && forall i :: 0 <= i < |c.executed| ==> c.executed[i].callback == c.staged[i].callback
  }

  lemma ReachableIsInService(cfg: Config, w: World)
    requires Reachable(cfg, w) && Normal(cfg)
    ensures InService(w.core)
  {
    ReachableIsGood(cfg, w);
    hide Served;
  }

  lemma PromiseIsWaiting(c: Core)
    requires InService(c) && c.serviced < |c.executed| && c.executed[c.serviced].callback == Future
    ensures |c.futureValues| < c.promises
  {
    assert FutureCount(c.staged, c.serviced + 1) == FutureCount(c.staged, c.serviced) + 1;
    FutureCountMonotone(c.staged, c.serviced + 1, |c.staged|);
  }

  lemma ServiceStaysInService(c: Core)
    requires InService(c) && c.serviced < |c.executed|
    ensures InService(ServiceNext(c))
  {
    ServiceKeepsServed(c);
    hide Served;
  }

  /** The executor thread after termination is requested: it returns only once nothing is left, and
      then every callback was called in staging order and every promise due has its own reply. */
  method ServiceAll(core: ConnectionCore)
    requires core.Valid() && InService(core.Model())
    modifies core.Repr
    ensures core.Valid() && core.Repr == old(core.Repr) && InService(core.Model())
    ensures
      var c := old(core.Model());
      core.Model() == c.(serviced := |c.executed|, called := UserResponses(c.executed), futureValues := core.Model().futureValues)
  {
    hide ConnectionCore.Sound, ConnectionCore.Parts, Served, UserResponses, FutureCount;
    ghost var c := core.Model();
    while core.HasStagedReply()
      invariant core.Valid() && core.Repr == old(core.Repr) && InService(core.Model())
      invariant
        var d := core.Model();
        d == c.(serviced := d.serviced, called := d.called, futureValues := d.futureValues)
      decreases |core.Model().executed| - core.Model().serviced
    {
      ghost var d := core.Model();
      if d.executed[d.serviced].callback == Future { PromiseIsWaiting(d); }
      ServiceStaysInService(d);
      core.ServiceOne();
    }
    AllCalled(core.Model());
  }

  lemma AllCalled(c: Core)
    requires InService(c) && c.serviced == |c.executed|
    ensures c.called == UserResponses(c.executed)
  {
    assert c.executed[..|c.executed|] == c.executed;
  }

  /** The executor of a core in any reachable state, when it returns: every callback was called, in
      staging order, and every future of an acknowledged request has the reply to that request. */
  method ServiceReachable(core: ConnectionCore, ghost cfg: Config, ghost w: World)
    requires core.Valid() && core.Model() == w.core && Reachable(cfg, w) && Normal(cfg)
    modifies core.Repr
    ensures core.Valid() && core.Repr == old(core.Repr)
    ensures |w.core.executed| <= |w.core.staged|
    ensures core.Model().called == UserResponses(w.core.executed) && core.Model().serviced == |w.core.executed|
    ensures
      forall i :: 0 <= i < |w.core.executed| && w.core.staged[i].callback == Future ==>
        && FutureCount(w.core.staged, i) < |core.Model().futureValues|
        && core.Model().futureValues[FutureCount(w.core.staged, i)] == w.core.executed[i].reply
  {
    hide ConnectionCore.Sound, Reachable, InService;
    ReachableIsInService(cfg, w);
    ServiceAll(core);
    FuturesAreServed(core.Model());
  }

  lemma FuturesAreServed(c: Core)
    requires InService(c) && c.serviced == |c.executed|
    ensures |c.executed| <= |c.staged|
    ensures
      forall i :: 0 <= i < |c.executed| && c.staged[i].callback == Future ==>
        && FutureCount(c.staged, i) < |c.futureValues| && c.futureValues[FutureCount(c.staged, i)] == c.executed[i].reply
  {
    hide FutureCount, UserResponses;
    forall i | 0 <= i < |c.executed| && c.staged[i].callback == Future ensures FutureServed(c, i) {}
  }
}
