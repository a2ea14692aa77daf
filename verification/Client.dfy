/** The event loop's side of the client: bytes from the socket go through the reader into the
    connection core, and a lost connection is cleaned up. */
module Client {
  import opened Common
  import Resp
  import opened RespReader
  import opened ConnectionModel
  import opened ConnectionObjects
  import opened Pipeline
  import opened PipelineTheorems
  import Printers
  import Handshakes

  datatype RetryMode = NoRetries | RetryWithTimeout(timeout: int) | InfiniteRetries

  /** What the loop asks of code that is not part of this model: whether a reply is a redirection to a
      server that can be parsed, and whether a message can be parsed out of it. */
  datatype Oracle = Oracle(redirects: Resp.Reply -> bool, parses: Resp.Reply -> bool, random: string)

  /** The replies go to the core one by one, up to the first that ends the connection. */
  function ConsumeAll(c: Core, cfg: Config, replies: seq<Resp.Reply>, o: Oracle): (r: (Core, bool))
    requires c.Sane()
    ensures r.0.Sane()
    decreases |replies|
  {
    if replies == [] then (c, true)
    else if o.redirects(replies[0]) then (c, false)
    else
      var r := ConsumeResponse(c, cfg, replies[0], o.parses(replies[0]), o.random);
      if r.1 then ConsumeAll(r.0, cfg, replies[1..], o) else r
  }

  /** The first of these replies is consumed, and the connection goes on behind it. */
  predicate FirstIsConsumed(c: Core, cfg: Config, replies: seq<Resp.Reply>, o: Oracle)
    requires c.Sane()
  {
    && replies != [] && !o.redirects(replies[0])
    && ConsumeResponse(c, cfg, replies[0], o.parses(replies[0]), o.random).1
  }

  /** No reply that is consumed acknowledges a request that was not handed to the writer. */
  predicate AllHanded(c: Core, cfg: Config, replies: seq<Resp.Reply>, o: Oracle)
    requires c.Sane()
    decreases |replies|
  {
    if replies == [] || o.redirects(replies[0]) then true
    else
      var r := ConsumeResponse(c, cfg, replies[0], o.parses(replies[0]), o.random);
      && (Acknowledges(c, cfg, replies[0]) ==> c.ack < c.write)
      && (r.1 ==> AllHanded(r.0, cfg, replies[1..], o))
  }

  /** Every piece of a block is one request, whole and by itself. */
  ghost predicate EachIsOne(pieces: seq<string>) {
    forall i :: 0 <= i < |pieces| ==> WellCounted(pieces[i], 0)
  }

  lemma FusedIsCounted(pieces: seq<string>)
    ensures EachIsOne(pieces) ==> WellCounted(Printers.BlockBytes(pieces), |pieces| + 1)
  {
    hide WellCounted, Printers.Encoded, IsWhole;
    if EachIsOne(pieces) {
      OneEach(pieces);
      BlockIsWellCounted(pieces);
    }
  }

  /** Pulling one reply is the first step of what is left to do. */
  lemma PullThenRest(st: Resp.State)
    requires st.Valid() && st.Reading?
    ensures
      var p, all := Resp.Pull(st.frames, st.kind, st.unread), Resp.Run(st.frames, st.kind, st.unread);
      if p.0.None? then all == ([], p.1)
      else
        var more := Resp.Run([], None, p.1.unread);
        p.1 == Resp.Reading([], None, p.1.unread) && all == ([p.0.value] + more.0, more.1)
  {
    hide Resp.Run, Resp.Pull;
    Resp.RunIsRepeatedPull(st.frames, st.kind, st.unread);
  }

  lemma FirstReply(c: Core, cfg: Config, t: Resp.Reply, rest: seq<Resp.Reply>, o: Oracle)
    requires c.Sane()
    ensures
      var all := ConsumeAll(c, cfg, [t] + rest, o);
      if o.redirects(t) then all == (c, false)
      else
        var r := ConsumeResponse(c, cfg, t, o.parses(t), o.random);
        all == if r.1 then ConsumeAll(r.0, cfg, rest, o) else r
  {
    hide ConsumeResponse, Core.Sane;
    assert ([t] + rest)[1..] == rest;
  }

  /** The first of several handed replies leaves the writer's place valid, and the others handed. */
  lemma FirstHanded(c: Core, cfg: Config, t: Resp.Reply, rest: seq<Resp.Reply>, o: Oracle)
    requires c.Ok() && AllHanded(c, cfg, [t] + rest, o) && !o.redirects(t)
    ensures
      var r := ConsumeResponse(c, cfg, t, o.parses(t), o.random);
      r.0.Ok() && (r.1 ==> AllHanded(r.0, cfg, rest, o))
  {
    hide ConsumeResponse, Acknowledges, Core.Ok;
    assert ([t] + rest)[1..] == rest;
    SafeIffHanded(c, cfg, t, o.parses(t), o.random);
  }

  // ---- the life of a client, over all its connections ----

  /** The core, whether a reply was consumed on this connection, or on an earlier one, and when the servers
      were last known to be there. */
  datatype Life = Life(core: Core, answered: bool, everAnswered: bool, lastAvailable: int)

  /** Users and the other threads work on the core; the event loop receives replies, notes after a connection
      that the servers were there, and cleans up. */
  datatype Act =
    | Callback(req: Request)
    | ForFuture(bytes: string, multiSize: nat)
    | Write
    | Call
    | Receive(replies: seq<Resp.Reply>, o: Oracle)
    | NoteAvailable(now: int)
    | CleanUp(now: int, madeFullCircle: bool, random: string)

  function Live(l: Life, cfg: Config, mode: RetryMode, a: Act): (r: Life)
    requires l.core.Sane()
    ensures r.core.Sane()
  {
    match a
    case Callback(req) => l.(core := Stage(l.core, cfg, req))
    case ForFuture(bytes, multiSize) => l.(core := StageFuture(l.core, bytes, multiSize))
    case Write => if !l.core.Ok() then l else NextToWriteIsOk(l.core, cfg); l.(core := GetNextToWrite(l.core, cfg).0)
    case Call => if l.core.serviced < |l.core.executed| then l.(core := ServiceNext(l.core)) else l
    case Receive(replies, o) =>
      l.(core := ConsumeAll(l.core, cfg, replies, o).0,
         answered := l.answered || FirstIsConsumed(l.core, cfg, replies, o))
    case NoteAvailable(now) => if l.answered then l.(lastAvailable := now) else l
    case CleanUp(now, madeFullCircle, random) =>
      var ever := l.everAnswered || l.answered;
      var purge := ShouldPurge(mode, l.lastAvailable, now, ever, madeFullCircle);
      Life(CleanedUp(l.core, cfg, purge, random), false, ever, l.lastAvailable)
  }

  function CleanedUp(c: Core, cfg: Config, purge: bool, random: string): (r: Core)
    requires c.Sane()
    ensures r.Ok()
  {
    Reconnection(if purge then ClearAllPending(c, cfg, random) else c, cfg, random)
  }

  /** The retry mode forbids to drop anything now. */
  predicate MustKeep(mode: RetryMode, lastAvailable: int, now: int, everAnswered: bool, madeFullCircle: bool) {
    || mode == InfiniteRetries
    || (mode.RetryWithTimeout? && now <= lastAvailable + mode.timeout)
    || (!everAnswered && !madeFullCircle)
  }

  /** A clean-up drops all pending requests, with one null reply each, or none of them; and none is the rule
      with infinite retries, within the timeout, and while no endpoint has been given a full chance. */
  lemma CleanUpDrops(c: Core, cfg: Config, mode: RetryMode, lastAvailable: int, now: int, ever: bool, circle: bool,
                     random: string)
    requires c.Sane()
    ensures
      var d := CleanedUp(c, cfg, ShouldPurge(mode, lastAvailable, now, ever, circle), random);
      && d.staged == c.staged
      && if MustKeep(mode, lastAvailable, now, ever, circle) then d.executed == c.executed
         else d.executed == c.executed + NullReplies(c.staged[c.base + c.ack - 1..])
  {
    AcknowledgeAllGrows(c.(inHandshake := false), cfg);
    hide AcknowledgeAll, NullReplies, Handshakes.Provide, Handshakes.Restart, Printers.Encoded;
  }

  class QClient {
    const connectionCore: ConnectionCore
    const retryMode: RetryMode
    var reader: RedisReader
    var successfulResponses: bool
    var successfulResponsesEver: bool
    var lastAvailable: int

    ghost function Model(): (l: Life)
      reads this, connectionCore, connectionCore.Repr
      requires connectionCore.Sound()
      ensures l.core.Sane()
    {
      Life(connectionCore.Model(), successfulResponses, successfulResponsesEver, lastAvailable)
    }

    ghost predicate Valid()
      reads this, connectionCore, connectionCore.Repr, reader, reader.rstack
    {
      && connectionCore.Sound() && reader.Valid()
      && {this, reader, reader.rstack} !! connectionCore.Repr
    }

    constructor (core: ConnectionCore, retryMode: RetryMode, now: int)
      requires core.Sound()
      ensures Valid() && fresh(reader) && fresh(reader.rstack) && reader.Abs() == Resp.INITIAL
      ensures connectionCore == core && this.retryMode == retryMode && !successfulResponsesEver && !successfulResponses
      ensures Model() == Life(core.Model(), false, false, now)
    {
      connectionCore, this.retryMode := core, retryMode;
      reader := new RedisReader();
      successfulResponses, successfulResponsesEver, lastAvailable := false, false, now;
    }

    /** execute(): a request, or a block of them, for a callback or for a future. A block of n is staged
        with n + 1 replies to ignore: the one to MULTI and one for each request queued. */
    method Execute(callback: nat, req: array<char>)
      requires Valid()
      modifies connectionCore.Repr
      ensures Valid() && fresh(connectionCore.Repr - old(connectionCore.Repr))
      ensures old(connectionCore.Valid()) ==> connectionCore.Valid()
      ensures
        connectionCore.Model()
          == Stage(old(connectionCore.Model()), connectionCore.cfg, Request(User(callback), old(req[..]), 0))
      ensures
        Model() == Live(old(Model()), connectionCore.cfg, retryMode, Callback(Request(User(callback), old(req[..]), 0)))
    {
      hide ConnectionCore.Sound, ConnectionCore.Valid, RedisReader.Valid;
      connectionCore.StageCallback(Request(User(callback), req[..], 0));
    }

    method ExecuteForFuture(req: array<char>) returns (future: nat)
      requires Valid()
      modifies connectionCore.Repr
      ensures Valid() && fresh(connectionCore.Repr - old(connectionCore.Repr))
      ensures old(connectionCore.Valid()) ==> connectionCore.Valid()
      ensures connectionCore.Model() == StageFuture(old(connectionCore.Model()), old(req[..]), 0)
      ensures Model() == Live(old(Model()), connectionCore.cfg, retryMode, ForFuture(old(req[..]), 0))
      ensures future == old(connectionCore.Model()).promises
    {
      hide ConnectionCore.Sound, ConnectionCore.Valid, RedisReader.Valid;
      future := connectionCore.StageFuture(req[..], 0);
    }

    method ExecuteBlock(callback: nat, reqs: seq<array<char>>)
      requires Valid()
      modifies connectionCore.Repr
      ensures Valid() && fresh(connectionCore.Repr - old(connectionCore.Repr))
      ensures old(connectionCore.Valid()) ==> connectionCore.Valid()
      ensures
        var bytes, ignoredResponses := Printers.BlockBytes(old(Printers.Contents(reqs))), |reqs| + 1;
        && connectionCore.Model()
          == Stage(old(connectionCore.Model()), connectionCore.cfg, Request(User(callback), bytes, ignoredResponses))
        && (var act := Callback(Request(User(callback), bytes, ignoredResponses));
            Model() == Live(old(Model()), connectionCore.cfg, retryMode, act))
        && (EachIsOne(old(Printers.Contents(reqs))) ==> WellCounted(bytes, ignoredResponses))
    {
      hide ConnectionCore.Sound, ConnectionCore.Valid, RedisReader.Valid, WellCounted, Printers.Encoded, EachIsOne;
      FusedIsCounted(Printers.Contents(reqs));
      var ignoredResponses := |reqs| + 1;
      var fused := Printers.FuseIntoBlockAndSurround(reqs);
      connectionCore.StageCallback(Request(User(callback), fused[..], ignoredResponses));
    }

    method ExecuteBlockForFuture(reqs: seq<array<char>>) returns (future: nat)
      requires Valid()
      modifies connectionCore.Repr
      ensures Valid() && fresh(connectionCore.Repr - old(connectionCore.Repr))
      ensures old(connectionCore.Valid()) ==> connectionCore.Valid()
      ensures
        var bytes, ignoredResponses := Printers.BlockBytes(old(Printers.Contents(reqs))), |reqs| + 1;
        && connectionCore.Model() == StageFuture(old(connectionCore.Model()), bytes, ignoredResponses)
        && Model() == Live(old(Model()), connectionCore.cfg, retryMode, ForFuture(bytes, ignoredResponses))
        && (EachIsOne(old(Printers.Contents(reqs))) ==> WellCounted(bytes, ignoredResponses))
      ensures future == old(connectionCore.Model()).promises
    {
      hide ConnectionCore.Sound, ConnectionCore.Valid, RedisReader.Valid, WellCounted, Printers.Encoded, EachIsOne;
      FusedIsCounted(Printers.Contents(reqs));
      var ignoredResponses := |reqs| + 1;
      var fused := Printers.FuseIntoBlockAndSurround(reqs);
      future := connectionCore.StageFuture(fused[..], ignoredResponses);
    }

    /** One reply on its way into the core: true means that the connection goes on. */
    method Consume(reply: Resp.Reply, o: Oracle) returns (alive: bool)
      requires Valid()
      modifies connectionCore.Repr
      ensures Valid() && reader == old(reader) && reader.Abs() == old(reader.Abs())
      ensures fresh(connectionCore.Repr - old(connectionCore.Repr))
      ensures
        var c := old(connectionCore.Model());
        (connectionCore.Model(), alive) ==
          if o.redirects(reply) then (c, false)
          else ConsumeResponse(c, connectionCore.cfg, reply, o.parses(reply), o.random)
      ensures old(connectionCore.Valid()) && connectionCore.Model().Ok() ==> connectionCore.Valid()
    {
      hide ConnectionCore.Sound, ConnectionCore.Valid, RedisReader.Valid, RedisReader.Abs, ConsumeResponse;
      if o.redirects(reply) { return false; }
      alive := connectionCore.ConsumeResponse(reply, o.parses(reply), o.random);
    }

    /** The writer's place is valid, and no reply still in the reader will change that. */
    ghost predicate RestIsHanded(o: Oracle)
      reads this, connectionCore, connectionCore.Repr, reader, reader.rstack
      requires Valid()
    {
      connectionCore.Valid() && AllHanded(connectionCore.Model(), connectionCore.cfg, RepliesLeft(reader.Abs()).0, o)
    }

    /** One round of feed's loop. */
    method Round(o: Oracle) returns (goesOn: bool, alive: bool)
      requires Valid()
      modifies reader, reader.rstack, connectionCore.Repr
      ensures Valid() && fresh(connectionCore.Repr - old(connectionCore.Repr))
      ensures
        var before, left := RepliesLeft(old(reader.Abs())), RepliesLeft(reader.Abs());
        var result := ConsumeAll(old(connectionCore.Model()), connectionCore.cfg, before.0, o);
        if goesOn then
          && left.1 == before.1
          && ConsumeAll(connectionCore.Model(), connectionCore.cfg, left.0, o) == result
          && old(reader.Abs()).Reading? && reader.Abs().Reading? && |reader.Abs().unread| < |old(reader.Abs()).unread|
        else
          && connectionCore.Model() == result.0 && (alive <==> result.1 && before.1.Reading?)
          && (alive ==> reader.Abs() == before.1)
      ensures
        var replies := RepliesLeft(old(reader.Abs())).0;
        goesOn <==> FirstIsConsumed(old(connectionCore.Model()), connectionCore.cfg, replies, o)
      ensures old(RestIsHanded(o)) ==> connectionCore.Valid() && (goesOn ==> RestIsHanded(o))
    {
      hide ConnectionCore.Sound, RedisReader.Valid, RedisReader.Abs, RedisReader.Mid, RedisReader.Idle, RepliesLeft;
      hide ConsumeAll, AllHanded, ConsumeResponse, Core.Sane, Core.Ok, ConnectionCore.Valid;
      var more, reply := Pull();
      if !more || reply.None? {
        NothingLeft(connectionCore.Model(), connectionCore.cfg, o);
        return false, more;
      }
      FirstReply(connectionCore.Model(), connectionCore.cfg, reply.value, RepliesLeft(reader.Abs()).0, o);
      ghost var handed := connectionCore.Valid()
        && AllHanded(connectionCore.Model(), connectionCore.cfg, [reply.value] + RepliesLeft(reader.Abs()).0, o);
      if handed && !o.redirects(reply.value) {
        FirstHanded(connectionCore.Model(), connectionCore.cfg, reply.value, RepliesLeft(reader.Abs()).0, o);
      }
      var consumed := Consume(reply.value, o);
      return consumed, consumed;
    }

    method ConsumeStream(o: Oracle) returns (alive: bool)
      requires Valid()
      modifies reader, reader.rstack, connectionCore.Repr, this`successfulResponses
      ensures Valid() && fresh(connectionCore.Repr - old(connectionCore.Repr))
      ensures
        var before := RepliesLeft(old(reader.Abs()));
        var r := ConsumeAll(old(connectionCore.Model()), connectionCore.cfg, before.0, o);
        && connectionCore.Model() == r.0 && (alive <==> r.1 && before.1.Reading?)
        && (alive ==> reader.Abs() == before.1)
        && successfulResponses
          == (old(successfulResponses) || FirstIsConsumed(old(connectionCore.Model()), connectionCore.cfg, before.0, o))
      ensures old(RestIsHanded(o)) ==> connectionCore.Valid()
    {
      hide ConnectionCore.Sound, RedisReader.Valid, RedisReader.Abs, RedisReader.Mid, RedisReader.Idle, RepliesLeft;
      hide ConsumeAll, AllHanded, ConsumeResponse, Core.Sane, Core.Ok, ConnectionCore.Valid;
      hide FirstIsConsumed;
      ghost var goal := RepliesLeft(reader.Abs());
      ghost var result := ConsumeAll(connectionCore.Model(), connectionCore.cfg, goal.0, o);
      ghost var handed := RestIsHanded(o);
      ghost var some := FirstIsConsumed(connectionCore.Model(), connectionCore.cfg, goal.0, o);
      while true
        invariant Valid() && fresh(connectionCore.Repr - old(connectionCore.Repr))
        invariant RepliesLeft(reader.Abs()).1 == goal.1
        invariant ConsumeAll(connectionCore.Model(), connectionCore.cfg, RepliesLeft(reader.Abs()).0, o) == result
        invariant handed ==> RestIsHanded(o)
        invariant (successfulResponses && some)
          || (successfulResponses == old(successfulResponses)
              && some == FirstIsConsumed(connectionCore.Model(), connectionCore.cfg, RepliesLeft(reader.Abs()).0, o))
        decreases match reader.Abs() case Broken(_) => 0 case Reading(_, _, unread) => |unread|
      {
        var goesOn;
        goesOn, alive := Round(o);
        if !goesOn { return; }
        successfulResponses := true;
      }
    }

    /** QClient::feed: every complete reply in the stream so far reaches the core, in order. The writer's
        place stays valid if none of them acknowledges a request that was not handed to the writer. */
    method Feed(bytes: string, o: Oracle) returns (alive: bool)
      requires Valid()
      modifies reader, reader.rstack, connectionCore.Repr, this`successfulResponses
      ensures Valid() && fresh(connectionCore.Repr - old(connectionCore.Repr))
      ensures
        var f := Resp.Feed(old(reader.Abs()), bytes);
        var r := ConsumeAll(old(connectionCore.Model()), connectionCore.cfg, f.0, o);
        && connectionCore.Model() == r.0 && (alive <==> r.1 && f.1.Reading?)
        && (alive ==> reader.Abs() == f.1)
        && (old(connectionCore.Valid()) ==>
            AllHanded(old(connectionCore.Model()), connectionCore.cfg, f.0, o) ==> connectionCore.Valid())
        && Model() == Live(old(Model()), connectionCore.cfg, retryMode, Receive(f.0, o))
    {
      hide ConnectionCore.Sound, RedisReader.Valid, RedisReader.Abs, RedisReader.Mid, RedisReader.Idle;
      hide Resp.Run, ConsumeAll, AllHanded, ConsumeResponse, Core.Sane, Core.Ok, ConnectionCore.Valid;
      reader.Feed(bytes);
      alive := ConsumeStream(o);
    }

    method Pull() returns (ok: bool, reply: Option<Resp.Reply>)
      requires Valid()
      modifies reader, reader.rstack
      ensures Valid() && ok == reader.Abs().Reading?
      ensures
        var before, after := RepliesLeft(old(reader.Abs())), RepliesLeft(reader.Abs());
        if !ok || reply.None? then reply.None? && before == ([], reader.Abs())
        else
          && before == ([reply.value] + after.0, after.1)
          && old(reader.Abs()).Reading? && |reader.Abs().unread| < |old(reader.Abs()).unread|
    {
      hide ConnectionCore.Sound, RedisReader.Valid, RedisReader.Mid, RedisReader.Idle;
      hide Resp.ProcessItem, Resp.Pull, Resp.Run;
      ghost var st := reader.Abs();
      if st.Reading? { PullThenRest(st); }
      ok, reply := reader.GetReply();
    }

    /** responseBuilder.restart(), and what the lost connection has shown. */
    method RestartReader()
      requires Valid()
      modifies this`reader, this`successfulResponses, this`successfulResponsesEver
      ensures Valid() && fresh(reader) && fresh(reader.rstack) && reader.Abs() == Resp.INITIAL
      ensures !successfulResponses && successfulResponsesEver == old(successfulResponsesEver || successfulResponses)
      ensures connectionCore.Sound() && connectionCore.Model() == old(connectionCore.Model())
    {
      hide ConnectionCore.Sound, RedisReader.Valid, RedisReader.Abs;
      reader := new RedisReader();
      successfulResponsesEver := successfulResponsesEver || successfulResponses;
      successfulResponses := false;
    }

    method LeaveConnection(purge: bool, random: string)
      requires Valid()
      modifies connectionCore.Repr
      ensures Valid() && reader.Abs() == old(reader.Abs())
      ensures fresh(connectionCore.Repr - old(connectionCore.Repr))
      ensures connectionCore.Model() == CleanedUp(old(connectionCore.Model()), connectionCore.cfg, purge, random)
    {
      hide ConnectionCore.Sound, RedisReader.Valid, RedisReader.Abs, ClearAllPending, Reconnection;
      if purge {
        var _ := connectionCore.ClearAllPending(random);
      }
      connectionCore.Reconnect(random);
    }

    predicate ShouldPurgePendingRequests(now: int, madeFullCircle: bool)
      reads this
    {
      ShouldPurge(retryMode, lastAvailable, now, successfulResponsesEver, madeFullCircle)
    }

    /** Before the next connection, or at the end. All pending requests get a null reply, or none of them does. */
    method Cleanup(now: int, madeFullCircle: bool, random: string)
      requires Valid()
      modifies this, connectionCore.Repr
      ensures Valid() && fresh(reader) && fresh(reader.rstack) && reader.Abs() == Resp.INITIAL
      ensures fresh(connectionCore.Repr - old(connectionCore.Repr))
      ensures !successfulResponses && successfulResponsesEver == old(successfulResponsesEver || successfulResponses)
      ensures lastAvailable == old(lastAvailable)
      ensures Model() == Live(old(Model()), connectionCore.cfg, retryMode, CleanUp(now, madeFullCircle, random))
      ensures connectionCore.Model().staged == old(connectionCore.Model()).staged
      ensures
        var c, executed := old(connectionCore.Model()), connectionCore.Model().executed;
        if retryMode == InfiniteRetries then executed == c.executed
        else if retryMode.RetryWithTimeout? && now <= old(lastAvailable) + retryMode.timeout then executed == c.executed
        else if !madeFullCircle && !old(successfulResponsesEver || successfulResponses) then executed == c.executed
        else executed == c.executed + NullReplies(c.staged[c.base + c.ack - 1..])
    {
      hide ConnectionCore.Sound, RedisReader.Valid, RedisReader.Abs, CleanedUp, ShouldPurge, NullReplies;
      ghost var ever := successfulResponsesEver || successfulResponses;
      CleanUpDrops(connectionCore.Model(), connectionCore.cfg, retryMode, lastAvailable, now, ever, madeFullCircle,
                   random);
      RestartReader();
      LeaveConnection(ShouldPurgePendingRequests(now, madeFullCircle), random);
    }

    /** After a connection the event loop gives some more leeway, if a reply was consumed on it. */
    method UpdateLastAvailable(now: int)
      requires Valid()
      modifies this`lastAvailable
      ensures Valid() && Model() == Live(old(Model()), connectionCore.cfg, retryMode, NoteAvailable(now))
      ensures lastAvailable == if successfulResponses then now else old(lastAvailable)
    {
      hide ConnectionCore.Sound, RedisReader.Valid;
      if successfulResponses { lastAvailable := now; }
    }
  }

  /** Pending requests are dropped only if the retry mode does not promise to go on, and not while no
      endpoint has been given a full chance. */
  predicate ShouldPurge(mode: RetryMode, lastAvailable: int, now: int, everAnswered: bool, madeFullCircle: bool) {
    if mode.InfiniteRetries? then false
    else if mode.RetryWithTimeout? && lastAvailable + mode.timeout >= now then false
    else if !everAnswered && !madeFullCircle then false
    else true
  }

  /** The replies that a reader still holds, and where it stops after them. */
  function RepliesLeft(st: Resp.State): (seq<Resp.Reply>, Resp.State)
    requires st.Valid()
  {
    match st
    case Broken(_) => ([], st)
    case Reading(f, k, unread) => Resp.Run(f, k, unread)
  }

  lemma NothingLeft(c: Core, cfg: Config, o: Oracle)
    requires c.Sane()
    ensures ConsumeAll(c, cfg, [], o) == (c, true)
  {}

  // ---- the stream as a whole ----

  /** Feed after feed, up to the first that ends the connection. */
  function FeedChunks(c: Core, cfg: Config, st: Resp.State, chunks: seq<string>, o: Oracle): (Core, bool)
    requires c.Sane() && st.Valid()
    decreases |chunks|
  {
    if chunks == [] then (c, st.Reading?)
    else
      var f := Resp.Feed(st, chunks[0]);
      var r := ConsumeAll(c, cfg, f.0, o);
      if r.1 && f.1.Reading? then FeedChunks(r.0, cfg, f.1, chunks[1..], o) else (r.0, false)
  }

  lemma {:induction false} ConsumeAllAppend(c: Core, cfg: Config, a: seq<Resp.Reply>, b: seq<Resp.Reply>, o: Oracle)
    requires c.Sane()
    ensures
      var r := ConsumeAll(c, cfg, a, o);
      ConsumeAll(c, cfg, a + b, o) == if r.1 then ConsumeAll(r.0, cfg, b, o) else r
    decreases |a|
  {
    hide ConsumeResponse, Core.Sane;
    if a == [] {
      assert a + b == b;
    } else {
      assert (a + b)[1..] == a[1..] + b;
      var r := ConsumeResponse(c, cfg, a[0], o.parses(a[0]), o.random);
      if !o.redirects(a[0]) && r.1 { ConsumeAllAppend(r.0, cfg, a[1..], b, o); }
    }
  }

  lemma {:induction false} ChunksAreTheirStream(c: Core, cfg: Config, st: Resp.State, chunks: seq<string>, o: Oracle)
    requires c.Sane() && st.Valid()
    ensures
      var f := Resp.FeedAll(st, chunks);
      var r := ConsumeAll(c, cfg, f.0, o);
      FeedChunks(c, cfg, st, chunks, o) == (r.0, r.1 && f.1.Reading?)
    decreases |chunks|
  {
    hide ConsumeAll, Core.Sane, Resp.Feed;
    if chunks == [] {
      NothingLeft(c, cfg, o);
    } else {
      var f := Resp.Feed(st, chunks[0]);
      var rest := Resp.FeedAll(f.1, chunks[1..]);
      ConsumeAllAppend(c, cfg, f.0, rest.0, o);
      var r := ConsumeAll(c, cfg, f.0, o);
      if r.1 && f.1.Reading? {
        ChunksAreTheirStream(r.0, cfg, f.1, chunks[1..], o);
      } else if r.1 {
        BrokenStaysBroken(f.1, chunks[1..]);
        NothingLeft(r.0, cfg, o);
      }
    }
  }

  lemma {:induction false} BrokenStaysBroken(st: Resp.State, chunks: seq<string>)
    requires st.Broken?
    ensures Resp.FeedAll(st, chunks) == ([], st)
    decreases |chunks|
  {
    if chunks != [] {
      assert Resp.Feed(st, chunks[0]) == ([], st);
      BrokenStaysBroken(st, chunks[1..]);
      var nothing: seq<Resp.Reply> := [];
      assert nothing + nothing == nothing;
    }
  }

  /** However the bytes of a connection are cut into reads, and whatever they are, the connection core
      ends in the same state, and the connection survives or not. */
  lemma CoreIgnoresChunking(c: Core, cfg: Config, a: seq<string>, b: seq<string>, o: Oracle)
    requires c.Sane() && Flatten(a) == Flatten(b)
    ensures FeedChunks(c, cfg, Resp.INITIAL, a, o) == FeedChunks(c, cfg, Resp.INITIAL, b, o)
  {
    hide ConsumeAll, FeedChunks, Core.Sane;
    Resp.TwoChunkingsAgree(a, b);
    ChunksAreTheirStream(c, cfg, Resp.INITIAL, a, o);
    ChunksAreTheirStream(c, cfg, Resp.INITIAL, b, o);
  }
}
