/** The connection core as it works: queues with iterators, the future handler and the callback
    executor, updated in place. Each method does to the fields what module ConnectionModel says. */
module ConnectionObjects {
  import opened Common
  import opened Resp
  import opened Handshakes
  import opened BlockQueue
  import opened Queues
  import opened ConnectionModel
  import Printers

  /** Promises in the order in which their futures were handed out. A promise is known by its number. */
  class FutureHandler {
    const promises: ThreadSafeQueue<()>
    /** The values of the fulfilled promises, by number. */
    ghost var values: seq<Option<Reply>>
    ghost var Repr: set<object>

    ghost predicate Valid()
      reads this, Repr
      ensures Valid() ==> this in Repr
    {
      && this in Repr && promises in Repr && promises.Repr <= Repr && this !in promises.Repr
      && promises.Valid()
      && |values| == promises.frontSequenceNumber
    }

    ghost function Count(): (n: nat)
      reads this, Repr
      requires Valid()
      ensures |values| <= n
    {
      |promises.items|
    }

    constructor ()
      ensures Valid() && fresh(Repr) && Count() == 0 && values == []
    {
      promises := new ThreadSafeQueue<()>(5000);
      values := [];
      new;
      Repr := {this} + promises.Repr;
    }

    method Stage() returns (future: nat)
      requires Valid()
      modifies Repr
      ensures Valid() && fresh(Repr - old(Repr))
      ensures future == old(Count()) && Count() == future + 1 && values == old(values)
    {
      future := promises.EmplaceBack(());
      Repr := Repr + promises.Repr;
    }

    /** The reply goes to the oldest promise. */
    method HandleResponse(reply: Option<Reply>)
      requires Valid() && |values| < Count()
      modifies Repr
      ensures Valid() && Repr == old(Repr)
      ensures Count() == old(Count()) && values == old(values) + [reply]
    {
      values := values + [reply];
      var _ := promises.PopFront();
    }
  }

  /** Replies on their way to callbacks, in order. */
  class CallbackExecutor {
    const pendingCallbacks: WaitableQueue<Response>
    var frontier: Iterator<Response>
    /** The calls made to user callbacks. */
    ghost var called: seq<Response>
    ghost var Repr: set<object>

    ghost predicate Valid()
      reads this, Repr
      ensures Valid() ==> this in Repr
    {
      && this in Repr && pendingCallbacks in Repr && pendingCallbacks.Repr <= Repr && this !in pendingCallbacks.Repr
      && pendingCallbacks.Valid()
      && pendingCallbacks.Points(frontier) && frontier.seqNo == pendingCallbacks.FrontSeq()
    }

    ghost function Staged(): seq<Response>
      reads this, Repr
      requires Valid()
    {
      pendingCallbacks.Items()
    }

    ghost function Serviced(): (n: nat)
      reads this, Repr
      requires Valid()
      ensures n <= |Staged()|
    {
      frontier.seqNo
    }

    constructor ()
      ensures Valid() && fresh(Repr) && Staged() == [] && Serviced() == 0 && called == []
    {
      pendingCallbacks := new WaitableQueue<Response>(5000);
      called := [];
      new;
      frontier := pendingCallbacks.Begin();
      Repr := {this} + pendingCallbacks.Repr;
    }

    method Stage(callback: Callback, reply: Option<Reply>)
      requires Valid()
      modifies Repr
      ensures Valid() && fresh(Repr - old(Repr))
      ensures Staged() == old(Staged()) + [Response(callback, reply)]
      ensures Serviced() == old(Serviced()) && called == old(called)
    {
      pendingCallbacks.EmplaceBack(Response(callback, reply));
      Repr := Repr + pendingCallbacks.Repr;
    }

    predicate HasStaged()
      reads this, Repr
      requires Valid()
      ensures HasStaged() <==> Serviced() < |Staged()|
    {
      pendingCallbacks.ItemHasArrived(frontier)
    }

    /** One round of the executor thread's loop. */
    method ServiceOne(futures: FutureHandler)
      requires Valid() && futures.Valid() && Repr !! futures.Repr
      requires Serviced() < |Staged()|
      requires Staged()[Serviced()].callback == Future ==> |futures.values| < futures.Count()
      modifies Repr, futures.Repr
      ensures Valid() && Repr == old(Repr) && futures.Valid() && futures.Repr == old(futures.Repr)
      ensures Staged() == old(Staged()) && Serviced() == old(Serviced()) + 1
      ensures futures.Count() == old(futures.Count())
      ensures
        var e := old(Staged()[Serviced()]);
        && called == (if e.callback.User? then old(called) + [e] else old(called))
        && futures.values == (if e.callback.Future? then old(futures.values) + [e.reply] else old(futures.values))
    {
      var cb := pendingCallbacks.Item(frontier);
      match cb.callback {
        case NoCallback =>
        case User(_) => called := called + [cb];
        case Future => futures.HandleResponse(cb.reply);
      }
      frontier := pendingCallbacks.Next(frontier);
      pendingCallbacks.PopFront();
    }
  }

  function BytesIn(requests: seq<Request>): (bytes: seq<string>)
    ensures |bytes| == |requests|
  {
    seq(|requests|, i requires 0 <= i < |requests| => requests[i].bytes)
  }

  ghost function ReprOf(handshake: HandshakeObject?): set<object> {
    if handshake == null then {} else handshake.Repr
  }

  class ConnectionCore {
    const cfg: Config
    const handshake: HandshakeObject?
    const requestQueue: RequestQueue
    const handshakeRequests: WaitableQueue<Request>
    const futureHandler: FutureHandler
    const cbExecutor: CallbackExecutor
    var slots: int
    var ignoredResponses: nat
    var inHandshake: bool
    var handshakeIterator: Iterator<Request>
    var nextToWriteIterator: Iterator<Request>
    var nextToAcknowledgeIterator: Iterator<Request>
    /** Every request ever staged, and how many of them a purge has dropped from the queue. */
    ghost var staged: seq<Request>
    ghost var base: nat

    ghost var Repr: set<object>

    ghost predicate Parts()
      reads this, Repr
    {
      && {this, requestQueue, handshakeRequests, futureHandler, cbExecutor} <= Repr
      && requestQueue.Repr <= Repr && handshakeRequests.Repr <= Repr
      && futureHandler.Repr <= Repr && cbExecutor.Repr <= Repr
      && (handshake != null ==> handshake in Repr && handshake.Repr <= Repr)
      && this !in requestQueue.Repr && this !in handshakeRequests.Repr
      && this !in futureHandler.Repr && this !in cbExecutor.Repr
      && requestQueue.Repr !! handshakeRequests.Repr && requestQueue.Repr !! futureHandler.Repr
      && requestQueue.Repr !! cbExecutor.Repr && handshakeRequests.Repr !! futureHandler.Repr
      && handshakeRequests.Repr !! cbExecutor.Repr && futureHandler.Repr !! cbExecutor.Repr
      && (handshake != null ==>
        && this !in handshake.Repr && handshake.Repr !! requestQueue.Repr && handshake.Repr !! handshakeRequests.Repr
        && handshake.Repr !! futureHandler.Repr && handshake.Repr !! cbExecutor.Repr)
    }

    /** Everything in Valid but the place of the writer. */
    ghost predicate Sound()
      reads this, Repr
      ensures Sound() ==> this in Repr
    {
      && Parts()
      && requestQueue.Valid() && handshakeRequests.Valid() && futureHandler.Valid() && cbExecutor.Valid()
      && (if handshake == null then handshakeRequests.Items() == [] && !inHandshake
          else handshake.Valid() && handshakeRequests.Points(handshakeIterator))
      && base <= |staged| && requestQueue.Items() == [Dummy()] + staged[base..]
      && requestQueue.Points(nextToAcknowledgeIterator)
      && nextToAcknowledgeIterator.seqNo == requestQueue.FrontSeq() + 1
    }

    ghost predicate Valid()
      reads this, Repr
    {
      Sound() && requestQueue.Points(nextToWriteIterator) && requestQueue.FrontSeq() < nextToWriteIterator.seqNo
    }

    ghost function Model(): (c: Core)
      reads this, Repr
      requires Sound()
      ensures c.Sane() && (Valid() ==> c.Ok())
      ensures c.handshake.None? <==> handshake == null
    {
      Core(staged, base, requestQueue.FrontSeq(), nextToWriteIterator.seqNo, nextToAcknowledgeIterator.seqNo,
           ignoredResponses, inHandshake, if handshake == null then None else Some(handshake.Model()),
           BytesIn(handshakeRequests.Items()), if handshake == null then 0 else handshakeIterator.seqNo,
           cbExecutor.Staged(), cbExecutor.Serviced(), cbExecutor.called,
           futureHandler.Count(), futureHandler.values, slots)
    }

    /** The members as they are constructed; the source's constructor then calls reconnection(). */
    constructor FromMembers(cfg: Config, handshake: HandshakeObject?, queue: RequestQueue, hsQueue: WaitableQueue<Request>,
                            futures: FutureHandler, executor: CallbackExecutor)
      requires queue.Valid() && hsQueue.Valid() && futures.Valid() && executor.Valid()
      requires handshake != null ==> handshake.Valid()
      requires queue.Repr !! hsQueue.Repr && queue.Repr !! futures.Repr && queue.Repr !! executor.Repr
      requires hsQueue.Repr !! futures.Repr && hsQueue.Repr !! executor.Repr && futures.Repr !! executor.Repr
      requires handshake != null ==>
        && handshake.Repr !! queue.Repr && handshake.Repr !! hsQueue.Repr
        && handshake.Repr !! futures.Repr && handshake.Repr !! executor.Repr
      requires queue.Items() == [Dummy()] && queue.FrontSeq() == 0
      requires hsQueue.Items() == [] && hsQueue.FrontSeq() == 0
      requires futures.Count() == 0 && futures.values == []
      requires executor.Staged() == [] && executor.Serviced() == 0 && executor.called == []
      ensures Sound() && this.cfg == cfg && this.handshake == handshake
      ensures Repr == {this} + queue.Repr + hsQueue.Repr + futures.Repr + executor.Repr + ReprOf(handshake)
      ensures Model() == Blank(cfg, Model().handshake)
      ensures handshake != null ==> Model().handshake == Some(handshake.Model())
    {
      hide RequestQueue.Valid, RequestQueue.Items, RequestQueue.FrontSeq, RequestQueue.Points;
      hide WaitableQueue.Valid, WaitableQueue.Items, WaitableQueue.FrontSeq, WaitableQueue.Points;
      hide FutureHandler.Valid, FutureHandler.Count, CallbackExecutor.Valid, CallbackExecutor.Staged, CallbackExecutor.Serviced;
      hide HandshakeObject.Valid, HandshakeObject.Model, Dummy, Blank;
      this.cfg, this.handshake := cfg, handshake;
      requestQueue, handshakeRequests, futureHandler, cbExecutor := queue, hsQueue, futures, executor;
      slots, ignoredResponses, inHandshake := cfg.requestLimit, 0, false;
      staged, base := [], 0;
      handshakeIterator := hsQueue.Begin();
      nextToWriteIterator := queue.Begin();
      nextToAcknowledgeIterator := queue.Begin();
      Repr := {this} + queue.Repr + hsQueue.Repr + futures.Repr + executor.Repr + ReprOf(handshake);
      new;
      assert [Dummy()] + staged[base..] == [Dummy()];
      assert BytesIn(handshakeRequests.Items()) == [];
      NothingYet(Model(), cfg);
    }

    method ProvideHandshake(random: string) returns (chunks: seq<string>)
      requires Sound() && handshake != null
      modifies Repr
      ensures Sound() && Repr == old(Repr)
      ensures old(Valid()) ==> Valid()
      ensures
        var c := old(Model()); var p := Provide(c.handshake.value, random, cfg.sign);
        chunks == p.1 && Model() == c.(handshake := Some(p.0))
    {
      hide RequestQueue.Valid, RequestQueue.Items, RequestQueue.FrontSeq, RequestQueue.Points;
      hide WaitableQueue.Valid, WaitableQueue.Items, WaitableQueue.FrontSeq, WaitableQueue.Points;
      hide FutureHandler.Valid, FutureHandler.Count, CallbackExecutor.Valid, CallbackExecutor.Staged, CallbackExecutor.Serviced;
      hide HandshakeObject.Valid, HandshakeObject.Model, Dummy;
      chunks := handshake.ProvideHandshake(random, cfg.sign);
    }

    method EnqueueHandshake(chunks: seq<string>)
      requires Sound() && handshake != null
      modifies Repr
      ensures Sound() && fresh(Repr - old(Repr))
      ensures old(Valid()) ==> Valid()
      ensures Model() == old(Model()).(handshakeRequests := old(Model()).handshakeRequests + [EncodedHandshake(chunks)])
    {
      hide RequestQueue.Valid, RequestQueue.Items, RequestQueue.FrontSeq, RequestQueue.Points;
      hide WaitableQueue.Valid, WaitableQueue.Items, WaitableQueue.FrontSeq, WaitableQueue.Points;
      hide FutureHandler.Valid, FutureHandler.Count, CallbackExecutor.Valid, CallbackExecutor.Staged, CallbackExecutor.Serviced;
      hide HandshakeObject.Valid, HandshakeObject.Model, Dummy;
      var buff := Printers.InitFromChunks(chunks);
      handshakeRequests.EmplaceBack(Request(NoCallback, buff[..], 0));
      Repr := Repr + handshakeRequests.Repr;
      assert BytesIn(handshakeRequests.Items()) == BytesIn(old(handshakeRequests.Items())) + [EncodedHandshake(chunks)];
    }

    /** handshakeRequests.emplace_back(nullptr, handshake->provideHandshake()). */
    method QueueHandshake(random: string)
      requires Sound() && handshake != null
      modifies Repr
      ensures Sound() && fresh(Repr - old(Repr))
      ensures old(Valid()) ==> Valid()
      ensures
        var c := old(Model()); var p := Provide(c.handshake.value, random, cfg.sign);
        Model() == c.(handshake := Some(p.0), handshakeRequests := c.handshakeRequests + [EncodedHandshake(p.1)])
    {
      hide Sound, Parts, Valid, Provide;
      var chunks := ProvideHandshake(random);
      EnqueueHandshake(chunks);
    }

    method LeaveHandshake()
      requires Sound()
      modifies Repr
      ensures Sound() && Repr == old(Repr) && Model() == old(Model()).(inHandshake := false)
      ensures old(Valid()) ==> Valid()
    {
      hide RequestQueue.Valid, RequestQueue.Items, RequestQueue.FrontSeq, RequestQueue.Points;
      hide WaitableQueue.Valid, WaitableQueue.Items, WaitableQueue.FrontSeq, WaitableQueue.Points;
      hide FutureHandler.Valid, FutureHandler.Count, CallbackExecutor.Valid, CallbackExecutor.Staged, CallbackExecutor.Serviced;
      hide HandshakeObject.Valid, HandshakeObject.Model, Dummy;
      inHandshake := false;
    }

    /** The writer, if it waits for handshake requests, goes on with those of users. */
    method StopBlocking()
      requires Sound()
      modifies Repr
      ensures Sound() && Repr == old(Repr) && Model() == old(Model()) && !handshakeRequests.blockingMode
      ensures old(Valid()) ==> Valid()
    {
      hide RequestQueue.Valid, RequestQueue.Items, RequestQueue.FrontSeq, RequestQueue.Points;
      hide WaitableQueue.Valid, WaitableQueue.Items, WaitableQueue.FrontSeq, WaitableQueue.Points;
      hide FutureHandler.Valid, FutureHandler.Count, CallbackExecutor.Valid, CallbackExecutor.Staged, CallbackExecutor.Serviced;
      hide HandshakeObject.Valid, HandshakeObject.Model, Dummy;
      handshakeRequests.SetBlockingMode(false);
    }

    method RestartHandshakeObject()
      requires Sound() && handshake != null
      modifies Repr
      ensures Sound() && Repr == old(Repr)
      ensures Model() == old(Model()).(inHandshake := true, handshake := Some(Restart(old(Model()).handshake.value)))
    {
      hide RequestQueue.Valid, RequestQueue.Items, RequestQueue.FrontSeq, RequestQueue.Points;
      hide WaitableQueue.Valid, WaitableQueue.Items, WaitableQueue.FrontSeq, WaitableQueue.Points;
      hide FutureHandler.Valid, FutureHandler.Count, CallbackExecutor.Valid, CallbackExecutor.Staged, CallbackExecutor.Serviced;
      hide HandshakeObject.Valid, HandshakeObject.Model, Dummy;
      inHandshake := true;
      handshake.RestartInPlace();
    }

    method ResetHandshakeRequests()
      requires Sound() && handshake != null
      modifies Repr
      ensures Sound() && fresh(Repr - old(Repr))
      ensures Model() == old(Model()).(handshakeRequests := [], handshakeWrite := 0)
    {
      hide RequestQueue.Valid, RequestQueue.Items, RequestQueue.FrontSeq, RequestQueue.Points;
      hide WaitableQueue.Valid, WaitableQueue.Items, WaitableQueue.FrontSeq, WaitableQueue.Points;
      hide FutureHandler.Valid, FutureHandler.Count, CallbackExecutor.Valid, CallbackExecutor.Staged, CallbackExecutor.Serviced;
      hide HandshakeObject.Valid, HandshakeObject.Model, Dummy;
      handshakeRequests.Reset();
      Repr := Repr + handshakeRequests.Repr;
      handshakeIterator := handshakeRequests.Begin();
    }

    method RewindIterators()
      requires Sound()
      modifies Repr
      ensures Valid() && Repr == old(Repr)
      ensures Model() == old(Model()).(ignored := 0, write := old(Model()).front + 1, ack := old(Model()).front + 1)
    {
      hide RequestQueue.Valid, RequestQueue.Items, RequestQueue.FrontSeq, RequestQueue.Points;
      hide WaitableQueue.Valid, WaitableQueue.Items, WaitableQueue.FrontSeq, WaitableQueue.Points;
      hide FutureHandler.Valid, FutureHandler.Count, CallbackExecutor.Valid, CallbackExecutor.Staged, CallbackExecutor.Serviced;
      hide HandshakeObject.Valid, HandshakeObject.Model, Dummy;
      ignoredResponses := 0;
      nextToWriteIterator := requestQueue.Begin();
      nextToAcknowledgeIterator := requestQueue.Begin();
    }

    method Reconnect(random: string)
      requires Sound()
      modifies Repr
      ensures Valid() && fresh(Repr - old(Repr))
      ensures Model() == Reconnection(old(Model()), cfg, random)
    {
      hide Sound, Parts, Provide, Restart;
      if handshake != null {
        RestartHandshakeObject();
        ResetHandshakeRequests();
        QueueHandshake(random);
      } else {
        LeaveHandshake();
      }
      RewindIterators();
    }

    static method OfMembers(cfg: Config, handshake: HandshakeObject?) returns (core: ConnectionCore)
      requires handshake != null ==> handshake.Valid()
      ensures core.Sound() && fresh(core.Repr - ReprOf(handshake)) && core.cfg == cfg && core.handshake == handshake
      ensures core.Model() == Blank(cfg, if handshake == null then None else Some(handshake.Model()))
    {
      hide RequestQueue.Valid, RequestQueue.Items, RequestQueue.FrontSeq, RequestQueue.Points;
      hide WaitableQueue.Valid, WaitableQueue.Items, WaitableQueue.FrontSeq, WaitableQueue.Points;
      hide FutureHandler.Valid, FutureHandler.Count, CallbackExecutor.Valid, CallbackExecutor.Staged, CallbackExecutor.Serviced;
      hide HandshakeObject.Valid, HandshakeObject.Model, Dummy, Blank;
      hide ConnectionCore.Sound, ConnectionCore.Valid, ConnectionCore.Parts;
      var queue := new RequestQueue();
      var hsQueue := new WaitableQueue<Request>(5000);
      var futures := new FutureHandler();
      var executor := new CallbackExecutor();
      core := new ConnectionCore.FromMembers(cfg, handshake, queue, hsQueue, futures, executor);
    }

    /** The constructor: its own members, and then a first reconnection(). */
    static method Create(cfg: Config, handshake: HandshakeObject?, random: string) returns (core: ConnectionCore)
      requires handshake != null ==> handshake.Valid()
      modifies ReprOf(handshake)
      ensures core.Valid() && fresh(core.Repr - ReprOf(handshake)) && core.cfg == cfg && core.handshake == handshake
      ensures core.Model() == Initial(cfg, if handshake == null then None else Some(old(handshake.Model())), random)
    {
      hide HandshakeObject.Valid, HandshakeObject.Model, Reconnection, Blank;
      hide ConnectionCore.Sound, ConnectionCore.Valid, ConnectionCore.Parts;
      core := OfMembers(cfg, handshake);
      core.Reconnect(random);
    }

    method DiscardPending()
      requires Sound() && nextToAcknowledgeIterator.seqNo < |requestQueue.Items()|
      modifies Repr
      ensures Sound() && Repr == old(Repr)
      ensures Model() == ConnectionModel.DiscardPending(old(Model()), cfg)
      ensures old(requestQueue.Points(nextToWriteIterator) && nextToAcknowledgeIterator.seqNo <= nextToWriteIterator.seqNo)
        ==> requestQueue.Points(nextToWriteIterator)
    {
      hide RequestQueue.Valid, RequestQueue.Items, RequestQueue.FrontSeq, RequestQueue.Points;
      hide WaitableQueue.Valid, WaitableQueue.Items, WaitableQueue.FrontSeq, WaitableQueue.Points;
      hide FutureHandler.Valid, FutureHandler.Count, CallbackExecutor.Valid, CallbackExecutor.Staged, CallbackExecutor.Serviced;
      hide HandshakeObject.Valid, HandshakeObject.Model, Dummy;
      nextToAcknowledgeIterator := requestQueue.Next(nextToAcknowledgeIterator);
      requestQueue.PopFront();
      if cfg.limited { slots := slots + 1; }
    }

    method AcknowledgePending(reply: Option<Reply>)
      requires Sound() && nextToAcknowledgeIterator.seqNo < |requestQueue.Items()|
      modifies Repr
      ensures Sound() && fresh(Repr - old(Repr))
      ensures Model() == ConnectionModel.AcknowledgePending(old(Model()), cfg, reply)
      ensures old(requestQueue.Points(nextToWriteIterator) && nextToAcknowledgeIterator.seqNo <= nextToWriteIterator.seqNo)
        ==> requestQueue.Points(nextToWriteIterator)
    {
      hide RequestQueue.Valid, RequestQueue.Items, RequestQueue.FrontSeq, RequestQueue.Points;
      hide WaitableQueue.Valid, WaitableQueue.Items, WaitableQueue.FrontSeq, WaitableQueue.Points;
      hide FutureHandler.Valid, FutureHandler.Count, CallbackExecutor.Valid, CallbackExecutor.Staged, CallbackExecutor.Serviced;
      hide HandshakeObject.Valid, HandshakeObject.Model, Dummy;
      var item := requestQueue.Item(nextToAcknowledgeIterator);
      cbExecutor.Stage(item.callback, reply);
      Repr := Repr + cbExecutor.Repr;
      DiscardPending();
    }

    method Enqueue(req: Request)
      requires Sound()
      modifies Repr
      ensures Sound() && fresh(Repr - old(Repr))
      ensures old(Valid()) ==> Valid()
      ensures Model() == old(Model()).(staged := old(Model()).staged + [req])
    {
      hide RequestQueue.Valid, RequestQueue.Items, RequestQueue.FrontSeq, RequestQueue.Points;
      hide WaitableQueue.Valid, WaitableQueue.Items, WaitableQueue.FrontSeq, WaitableQueue.Points;
      hide FutureHandler.Valid, FutureHandler.Count, CallbackExecutor.Valid, CallbackExecutor.Staged, CallbackExecutor.Serviced;
      hide HandshakeObject.Valid, HandshakeObject.Model, Dummy;
      requestQueue.EmplaceBack(req);
      Repr := Repr + requestQueue.Repr;
      assert (staged + [req])[base..] == staged[base..] + [req];
      staged := staged + [req];
    }

    method StageCallback(req: Request)
      requires Sound()
      modifies Repr
      ensures Sound() && fresh(Repr - old(Repr))
      ensures old(Valid()) ==> Valid()
      ensures Model() == ConnectionModel.Stage(old(Model()), cfg, req)
    {
      hide Sound, Parts;
      ReserveSlot();
      Enqueue(req);
    }

    method ReserveSlot()
      requires Sound()
      modifies Repr
      ensures Sound() && Repr == old(Repr)
      ensures old(Valid()) ==> Valid()
      ensures Model() == old(Model()).(slots := if cfg.limited then old(slots) - 1 else old(slots))
    {
      hide RequestQueue.Valid, RequestQueue.Items, RequestQueue.FrontSeq, RequestQueue.Points;
      hide WaitableQueue.Valid, WaitableQueue.Items, WaitableQueue.FrontSeq, WaitableQueue.Points;
      hide FutureHandler.Valid, FutureHandler.Count, CallbackExecutor.Valid, CallbackExecutor.Staged, CallbackExecutor.Serviced;
      hide HandshakeObject.Valid, HandshakeObject.Model, Dummy;
      if cfg.limited { slots := slots - 1; }
    }

    method StageFuture(bytes: string, multiSize: nat) returns (future: nat)
      requires Sound()
      modifies Repr
      ensures Sound() && fresh(Repr - old(Repr))
      ensures old(Valid()) ==> Valid()
      ensures Model() == ConnectionModel.StageFuture(old(Model()), bytes, multiSize)
      ensures future == old(Model()).promises
    {
      hide Sound, Parts;
      future := NewPromise();
      Enqueue(Request(Future, bytes, multiSize));
    }

    method NewPromise() returns (future: nat)
      requires Sound()
      modifies Repr
      ensures Sound() && fresh(Repr - old(Repr))
      ensures old(Valid()) ==> Valid()
      ensures future == old(Model()).promises && Model() == old(Model()).(promises := future + 1)
    {
      hide RequestQueue.Valid, RequestQueue.Items, RequestQueue.FrontSeq, RequestQueue.Points;
      hide WaitableQueue.Valid, WaitableQueue.Items, WaitableQueue.FrontSeq, WaitableQueue.Points;
      hide FutureHandler.Valid, FutureHandler.Count, CallbackExecutor.Valid, CallbackExecutor.Staged, CallbackExecutor.Serviced;
      hide HandshakeObject.Valid, HandshakeObject.Model, Dummy;
      future := futureHandler.Stage();
      Repr := Repr + futureHandler.Repr;
    }

    method AcknowledgePendingWithNull()
      requires Sound()
      modifies Repr
      ensures Sound() && fresh(Repr - old(Repr))
      ensures Model() == AcknowledgeAll(old(Model()), cfg)
    {
      hide RequestQueue.Valid, RequestQueue.Items, RequestQueue.FrontSeq, RequestQueue.Points;
      hide WaitableQueue.Valid, WaitableQueue.Items, WaitableQueue.FrontSeq, WaitableQueue.Points;
      hide FutureHandler.Valid, FutureHandler.Count, CallbackExecutor.Valid, CallbackExecutor.Staged, CallbackExecutor.Serviced;
      hide HandshakeObject.Valid, HandshakeObject.Model, Dummy;
      ghost var goal := AcknowledgeAll(Model(), cfg);
      while requestQueue.ItemHasArrived(nextToAcknowledgeIterator)
        invariant Sound() && fresh(Repr - old(Repr))
        invariant AcknowledgeAll(Model(), cfg) == goal
        decreases |requestQueue.Items()| - nextToAcknowledgeIterator.seqNo
      {
        AcknowledgePending(None);
      }
    }

    /** The queue starts over; the writer's place is void until the iterators are rewound. */
    method ResetQueue()
      requires Sound()
      modifies Repr
      ensures Sound() && fresh(Repr - old(Repr))
      ensures Model() == old(Model()).(base := |staged|, front := 0, ack := 1)
    {
      hide RequestQueue.Valid, RequestQueue.Items, RequestQueue.FrontSeq, RequestQueue.Points;
      hide WaitableQueue.Valid, WaitableQueue.Items, WaitableQueue.FrontSeq, WaitableQueue.Points;
      hide FutureHandler.Valid, FutureHandler.Count, CallbackExecutor.Valid, CallbackExecutor.Staged, CallbackExecutor.Serviced;
      hide HandshakeObject.Valid, HandshakeObject.Model, Dummy;
      assert [Dummy()] + staged[|staged|..] == [Dummy()];
      base := |staged|;
      requestQueue.Reset();
      Repr, nextToAcknowledgeIterator := Repr + requestQueue.Repr, requestQueue.Begin();
      assert Parts();
    }

    method ClearAllPending(random: string) returns (size: nat)
      requires Sound()
      modifies Repr
      ensures Valid() && fresh(Repr - old(Repr))
      ensures Model() == ConnectionModel.ClearAllPending(old(Model()), cfg, random)
      ensures size == 0
    {
      hide Sound, Parts, Reconnection, AcknowledgeAll;
      LeaveHandshake();
      AcknowledgePendingWithNull();
      size := PendingSize();
      ResetQueue();
      Reconnect(random);
    }

    function PendingSize(): (size: nat)
      reads this, Repr
      requires Sound()
      ensures size == Model().Next() - Model().ack
    {
      requestQueue.Size()
    }

    /** Is there a reply that the executor has not handed on yet? */
    predicate HasStagedReply()
      reads this, Repr
      requires Sound()
      ensures HasStagedReply() <==> Model().serviced < |Model().executed|
    {
      cbExecutor.HasStaged()
    }

    /** The executor thread hands the oldest reply to its callback. */
    method ServiceOne()
      requires Sound() && Model().serviced < |Model().executed|
      requires Model().executed[Model().serviced].callback == Future ==> |Model().futureValues| < Model().promises
      modifies Repr
      ensures Sound() && Repr == old(Repr)
      ensures old(Valid()) ==> Valid()
      ensures Model() == ServiceNext(old(Model()))
    {
      hide RequestQueue.Valid, RequestQueue.Items, RequestQueue.FrontSeq, RequestQueue.Points;
      hide WaitableQueue.Valid, WaitableQueue.Items, WaitableQueue.FrontSeq, WaitableQueue.Points;
      hide FutureHandler.Valid, FutureHandler.Count, CallbackExecutor.Valid, CallbackExecutor.Staged, CallbackExecutor.Serviced;
      hide HandshakeObject.Valid, HandshakeObject.Model, Dummy;
      cbExecutor.ServiceOne(futureHandler);
    }

    method ValidateHandshake(reply: Reply) returns (verdict: Verdict)
      requires Sound() && handshake != null
      modifies Repr
      ensures Sound() && Repr == old(Repr)
      ensures old(Valid()) ==> Valid()
      ensures
        var c := old(Model()); var v := Validate(c.handshake.value, reply);
        verdict == v.1 && Model() == c.(handshake := Some(v.0))
    {
      hide RequestQueue.Valid, RequestQueue.Items, RequestQueue.FrontSeq, RequestQueue.Points;
      hide WaitableQueue.Valid, WaitableQueue.Items, WaitableQueue.FrontSeq, WaitableQueue.Points;
      hide FutureHandler.Valid, FutureHandler.Count, CallbackExecutor.Valid, CallbackExecutor.Staged, CallbackExecutor.Serviced;
      hide HandshakeObject.Valid, HandshakeObject.Model, Dummy;
      verdict := handshake.ValidateResponse(reply);
    }

    method FinishHandshake()
      requires Sound()
      modifies Repr
      ensures Sound() && Repr == old(Repr) && Model() == old(Model()).(inHandshake := false)
      ensures !handshakeRequests.blockingMode
      ensures old(Valid()) ==> Valid()
    {
      hide Sound, Parts, Valid;
      LeaveHandshake();
      StopBlocking();
    }

    method ConsumeHandshakeReply(reply: Reply, random: string) returns (alive: bool)
      requires Sound() && handshake != null
      modifies Repr
      ensures Sound() && fresh(Repr - old(Repr))
      ensures old(Valid()) ==> Valid()
      ensures (Model(), alive) == ConsumeHandshake(old(Model()), cfg, reply, random)
    {
      hide Sound, Parts, Provide, Validate;
      var verdict := ValidateHandshake(reply);
      match verdict {
        case INVALID => alive := false;
        case VALID_COMPLETE =>
          FinishHandshake();
          alive := true;
        case VALID_INCOMPLETE =>
          QueueHandshake(random);
          alive := true;
      }
    }

    method CountResponse() returns (n: nat)
      requires Sound()
      modifies Repr
      ensures Sound() && Repr == old(Repr)
      ensures old(Valid()) ==> Valid()
      ensures n == old(Model()).ignored + 1 && Model() == old(Model()).(ignored := n)
    {
      hide RequestQueue.Valid, RequestQueue.Items, RequestQueue.FrontSeq, RequestQueue.Points;
      hide WaitableQueue.Valid, WaitableQueue.Items, WaitableQueue.FrontSeq, WaitableQueue.Points;
      hide FutureHandler.Valid, FutureHandler.Count, CallbackExecutor.Valid, CallbackExecutor.Staged, CallbackExecutor.Serviced;
      hide HandshakeObject.Valid, HandshakeObject.Model, Dummy;
      ignoredResponses := ignoredResponses + 1;
      n := ignoredResponses;
    }

    method ForgetResponses()
      requires Sound()
      modifies Repr
      ensures Sound() && Repr == old(Repr)
      ensures old(Valid()) ==> Valid()
      ensures Model() == old(Model()).(ignored := 0)
    {
      hide RequestQueue.Valid, RequestQueue.Items, RequestQueue.FrontSeq, RequestQueue.Points;
      hide WaitableQueue.Valid, WaitableQueue.Items, WaitableQueue.FrontSeq, WaitableQueue.Points;
      hide FutureHandler.Valid, FutureHandler.Count, CallbackExecutor.Valid, CallbackExecutor.Staged, CallbackExecutor.Serviced;
      hide HandshakeObject.Valid, HandshakeObject.Model, Dummy;
      ignoredResponses := 0;
    }

    /** The request to acknowledge next, if it has arrived. */
    function NextToAcknowledge(): (r: Option<Request>)
      reads this, Repr
      requires Sound()
      ensures r.Some? <==> Model().ItemHasArrived()
      ensures r.Some? ==> r.value == Model().Item(Model().ack)
    {
      if requestQueue.ItemHasArrived(nextToAcknowledgeIterator)
      then Some(requestQueue.Item(nextToAcknowledgeIterator)) else None
    }

    method Answer(reply: Reply)
      requires Sound() && Model().ItemHasArrived()
      modifies Repr
      ensures Sound() && fresh(Repr - old(Repr))
      ensures old(Valid()) && Model().Ok() ==> Valid()
      ensures Model() == ConnectionModel.AcknowledgePending(old(Model()), cfg, Some(reply))
    {
      hide RequestQueue.Valid, RequestQueue.Items, RequestQueue.FrontSeq, RequestQueue.Points;
      hide WaitableQueue.Valid, WaitableQueue.Items, WaitableQueue.FrontSeq, WaitableQueue.Points;
      hide FutureHandler.Valid, FutureHandler.Count, CallbackExecutor.Valid, CallbackExecutor.Staged, CallbackExecutor.Serviced;
      hide HandshakeObject.Valid, HandshakeObject.Model, Dummy;
      AcknowledgePending(Some(reply));
    }

    method ConsumeUserReply(reply: Reply) returns (alive: bool)
      requires Sound()
      modifies Repr
      ensures Sound() && fresh(Repr - old(Repr))
      ensures old(Valid()) && Model().Ok() ==> Valid()
      ensures (Model(), alive) == ConsumeReply(old(Model()), cfg, reply)
    {
      hide Sound, Parts, IsOK, IsQueued;
      var request := NextToAcknowledge();
      if request.None? { return false; }
      if request.value.multiSize != 0 {
        var ignored := CountResponse();
        if ignored == 1 { return IsOK(reply); }
        if ignored <= request.value.multiSize { return IsQueued(reply); }
        ForgetResponses();
      }
      Answer(reply);
      return true;
    }

    /** A reply from the server. The writer's place stays good unless the reply answers a request that
        the writer was never handed. */
    method ConsumeResponse(reply: Reply, parsed: bool, random: string) returns (alive: bool)
      requires Sound()
      modifies Repr
      ensures Sound() && fresh(Repr - old(Repr))
      ensures old(Valid()) && Model().Ok() ==> Valid()
      ensures (Model(), alive) == ConnectionModel.ConsumeResponse(old(Model()), cfg, reply, parsed, random)
    {
      hide Sound, Parts, IsUnavailable, IsPush, ConsumeHandshake, ConsumeReply;
      if cfg.transparentUnavailable && IsUnavailable(reply) { return false; }
      if inHandshake {
        assert Model().inHandshake;
        alive := ConsumeHandshakeReply(reply, random);
        return;
      }
      if IsPush(reply) { return cfg.hasListener ==> parsed; }
      if cfg.Exclusive() { return parsed; }
      alive := ConsumeUserReply(reply);
    }

    method TakeHandshakeRequest() returns (item: Option<string>)
      requires Valid() && inHandshake
      modifies Repr
      ensures Valid() && Repr == old(Repr)
      ensures (Model(), item) == ConnectionModel.GetNextToWrite(old(Model()), cfg)
    {
      hide RequestQueue.Valid, RequestQueue.Items, RequestQueue.FrontSeq, RequestQueue.Points;
      hide WaitableQueue.Valid, WaitableQueue.Items, WaitableQueue.FrontSeq, WaitableQueue.Points;
      hide FutureHandler.Valid, FutureHandler.Count, CallbackExecutor.Valid, CallbackExecutor.Staged, CallbackExecutor.Serviced;
      hide HandshakeObject.Valid, HandshakeObject.Model, Dummy;
      if !handshakeRequests.ItemHasArrived(handshakeIterator) { return None; }
      item := Some(handshakeRequests.Item(handshakeIterator).bytes);
      handshakeIterator := handshakeRequests.Next(handshakeIterator);
    }

    /** Exclusive pub-sub: forget what is already written. */
    method TrimWritten()
      requires Valid()
      modifies Repr
      ensures Valid() && Repr == old(Repr)
      ensures Model() == DiscardWritten(old(Model()), cfg)
    {
      ghost var goal := DiscardWritten(Model(), cfg);
      while nextToWriteIterator.seqNo > nextToAcknowledgeIterator.seqNo
        invariant Valid() && Repr == old(Repr)
        invariant DiscardWritten(Model(), cfg) == goal
        decreases nextToWriteIterator.seqNo - nextToAcknowledgeIterator.seqNo
      {
        DiscardOneWritten();
      }
    }

    method DiscardOneWritten()
      requires Valid() && Model().ack < Model().write
      modifies Repr
      ensures Valid() && Repr == old(Repr)
      ensures Model() == ConnectionModel.DiscardPending(old(Model()), cfg)
    {
      hide RequestQueue.Valid, RequestQueue.Items, RequestQueue.FrontSeq, RequestQueue.Points;
      hide WaitableQueue.Valid, WaitableQueue.Items, WaitableQueue.FrontSeq, WaitableQueue.Points;
      hide FutureHandler.Valid, FutureHandler.Count, CallbackExecutor.Valid, CallbackExecutor.Staged, CallbackExecutor.Serviced;
      hide HandshakeObject.Valid, HandshakeObject.Model, Dummy;
      DiscardPending();
    }

    method AdvanceWriter()
      requires Valid() && Model().write < Model().Next()
      modifies Repr
      ensures Valid() && Repr == old(Repr)
      ensures Model() == old(Model()).(write := old(Model()).write + 1)
    {
      hide RequestQueue.Valid, RequestQueue.Items, RequestQueue.FrontSeq, RequestQueue.Points;
      hide WaitableQueue.Valid, WaitableQueue.Items, WaitableQueue.FrontSeq, WaitableQueue.Points;
      hide FutureHandler.Valid, FutureHandler.Count, CallbackExecutor.Valid, CallbackExecutor.Staged, CallbackExecutor.Serviced;
      hide HandshakeObject.Valid, HandshakeObject.Model, Dummy;
      nextToWriteIterator := requestQueue.Next(nextToWriteIterator);
    }

    function NextToWrite(): (r: Option<Request>)
      reads this, Repr
      requires Valid()
      ensures r == if Model().write < Model().Next() then Some(Model().Item(Model().write)) else None
    {
      if requestQueue.ItemHasArrived(nextToWriteIterator) then Some(requestQueue.Item(nextToWriteIterator)) else None
    }

    /** What the writer should send next. Where the source blocks, there is nothing to send yet. */
    method GetNextToWrite() returns (item: Option<string>)
      requires Valid()
      modifies Repr
      ensures Valid() && Repr == old(Repr)
      ensures (Model(), item) == ConnectionModel.GetNextToWrite(old(Model()), cfg)
    {
      hide Sound, Parts;
      if inHandshake {
        item := TakeHandshakeRequest();
        return;
      }
      var request := NextToWrite();
      if cfg.Exclusive() {
        TrimKeepsWriter(Model(), cfg);
        TrimWritten();
      }
      if request.None? { return None; }
      AdvanceWriter();
      return Some(request.value.bytes);
    }
  }

  lemma TrimKeepsWriter(c: Core, cfg: Config)
    requires c.Ok()
    ensures var d := DiscardWritten(c, cfg); d.Ok() && d.write == c.write && d.staged == c.staged && d.base == c.base
  {
    DiscardWrittenCatchesUp(c, cfg);
  }
}
