/** Whole runs of the request pipeline: stagers, the writer, the wire, a server that answers fully
    written requests in order, reconnections, purges, and the callback executor, in any interleaving. */
module Pipeline {
  import opened Common
  import opened Resp
  import opened Handshakes
  import opened ConnectionModel
  import opened RespRoundTrip
  import Printers

  // ---- the world around the core ----

  /** Which request a reply on the wire answers. A MULTI block of multi-size m is answered by the
      parts 0..m, of which the last is the real reply. */
  datatype Tag = HandshakeTag | UserTag(id: nat, part: nat) | PushTag

  datatype Wired = Wired(reply: Reply, tag: Tag)

  /** What the writer thread is busy with. Bytes are first accepted by send(), then recorded. */
  datatype Held = Held(bytes: string, user: Option<nat>, written: nat, accepted: Option<nat>) {
    function Done(): nat { written + accepted.GetOr(0) }

    predicate Fits() { Done() <= |bytes| }

    /** All bytes are on their way, though the writer may still look at the request. */
    predicate Complete() { accepted.Some? && written + accepted.value == |bytes| }

    function Unsent(): string
      requires Fits()
    {
      bytes[Done()..]
    }
  }

  /** How a request ended: with a reply from the wire, or purged without one. The block lists every
      reply part that was consumed for the request on the connection that answered it. */
  datatype Outcome = Answered(wired: Wired, block: seq<Tag>) | Dropped

  datatype World = World(
    core: Core,
    held: Option<Held>,
    out: string,             // bytes accepted on this connection
    first: nat,              // the first unacknowledged request when the connection began
    handshakeReceived: nat,  // handshake requests the server has in full
    received: nat,           // the server has the user requests below this one in full
    read: nat,               // and has read so many requests out of the part of the next one that it has
    owed: seq<Tag>,          // replies the server has yet to send, in order
    wire: seq<Wired>,        // replies sent but not consumed
    alive: bool,             // no reply was refused on this connection
    swallowed: seq<Tag>,     // parts consumed on this connection for the request that is next to acknowledge
    outcomes: seq<Outcome>)

  function AckId(c: Core): int { c.base + c.ack - 1 }

  function WriteId(c: Core): int { c.base + c.write - 1 }

  /** What can happen. Everything that a thread does under one lock, or to its own state, is one step. */
  datatype Event =
    | StageCallback(id: nat, bytes: string, multiSize: nat)
    | StageForFuture(bytes: string, multiSize: nat)
    | Take
    | Send(count: nat)
    | Record
    | Answer(reply: Reply)
    | Push(reply: Reply)
    | Deliver(parsed: bool, random: string)
    | Reconnect(random: string)
    | Clear(random: string)
    | Service

  /** The replies one request is owed, from the given part on. */
  function Parts(id: nat, from: nat, last: nat): (tags: seq<Tag>)
    ensures |tags| == if from <= last then last - from + 1 else 0
    ensures forall i :: 0 <= i < |tags| ==> tags[i] == UserTag(id, from + i)
    decreases if from <= last then last - from + 1 else 0
  {
    if from > last then [] else [UserTag(id, from)] + Parts(id, from + 1, last)
  }

  function FreshConnection(w: World, core: Core): World
    requires AckId(core) >= 0
  {
    World(core, None, "", AckId(core), 0, AckId(core), 0, [], [], true, [], w.outcomes)
  }

  /** How many requests a server reads out of these bytes. */
  function RequestsIn(bytes: string): nat { |Run([], None, bytes).0| }

  /** Nothing is left over behind the last request. */
  predicate IsWhole(bytes: string) { Run([], None, bytes).1 == INITIAL }

  /** The multi-size that was staged with a request is one less than the number of replies it gets. */
  predicate WellCounted(bytes: string, multiSize: nat) {
    RequestsIn(bytes) == multiSize + 1 && IsWhole(bytes)
  }

  /** A push is about to be taken for the reply to a handshake that takes anything. */
  predicate PushMeetsLenient(w: World) {
    && w.core.inHandshake && w.wire != [] && w.wire[0].tag == PushTag
    && w.core.handshake.Some? && Lenient(w.core.handshake.value)
  }

  predicate CanReceive(w: World) { w.core.Ok() && w.alive && w.wire != [] }

  predicate Enabled(w: World, cfg: Config, e: Event)
  {
    match e
    case StageCallback(_, bytes, multiSize) =>
      w.core.Ok() && (cfg.limited ==> w.core.slots > 0) && WellCounted(bytes, multiSize)
    case StageForFuture(bytes, multiSize) => w.core.Ok() && WellCounted(bytes, multiSize)
    case Take => w.core.Ok() && w.held.None?
    case Send(count) =>
      && w.held.Some? && w.held.value.accepted.None? && w.held.value.written + count <= |w.held.value.bytes|
      && (count == 0 ==> w.held.value.written == |w.held.value.bytes|)
    case Record => w.held.Some? && w.held.value.accepted.Some?
    case Answer(reply) => w.owed != [] && !IsPush(reply)
    case Push(reply) => IsPush(reply)
    case Deliver(_, _) => CanReceive(w) && !PushMeetsLenient(w)
    case Reconnect(_) => w.core.Ok()
    case Clear(_) => w.core.Ok()
    case Service => w.core.serviced < |w.core.executed|
  }

  function Span(id: nat, from: nat, upto: nat): seq<Tag> {
    if from < upto then Parts(id, from, upto - 1) else []
  }

  function FirstParts(id: nat, n: nat): seq<Tag> { Span(id, 0, n) }

  /** How many requests a server has read out of the bytes that are on their way. */
  function ReadOf(h: Held): nat
    requires h.Fits()
  {
    RequestsIn(h.bytes[..h.Done()])
  }

  /** A server answers each request as soon as it has read it. */
  function NextOwed(h: Held, g: Held): seq<Tag>
    requires h.Fits() && g.Fits()
  {
    match g.user
    case None => if g.Complete() then [HandshakeTag] else []
    case Some(id) => Span(id, ReadOf(h), ReadOf(g))
  }

  function Sent(w: World, cfg: Config, count: nat): World
    requires Enabled(w, cfg, Send(count))
  {
    var h := w.held.value;
    var g := h.(accepted := Some(count));
    var v := w.(held := Some(g), out := w.out + h.bytes[h.written..h.written + count], owed := w.owed + NextOwed(h, g));
    match g.user
    case None => if g.Complete() then v.(handshakeReceived := w.handshakeReceived + 1) else v
    case Some(id) => if g.Complete() then v.(received := id + 1, read := 0) else v.(read := ReadOf(g))
  }

  function Delivered(w: World, cfg: Config, parsed: bool, random: string): World
    requires CanReceive(w)
  {
    var x := w.wire[0];
    var r := ConsumeResponse(w.core, cfg, x.reply, parsed, random);
    var block := if w.core.inHandshake || x.tag == PushTag then w.swallowed else w.swallowed + [x.tag];
    var v := w.(core := r.0, wire := w.wire[1..], alive := r.1);
    if |r.0.executed| > |w.core.executed|
    then v.(outcomes := w.outcomes + [Answered(x, block)], swallowed := [])
    else v.(swallowed := block)
  }

  function Apply(w: World, cfg: Config, e: Event): World
    requires Enabled(w, cfg, e)
  {
    match e
    case StageCallback(id, bytes, multiSize) =>
      w.(core := Stage(w.core, cfg, Request(User(id), bytes, multiSize)))
    case StageForFuture(bytes, multiSize) => w.(core := StageFuture(w.core, bytes, multiSize))
    case Take =>
      var r := GetNextToWrite(w.core, cfg);
      w.(core := r.0,
         held := if r.1.None? then None
                 else Some(Held(r.1.value, if w.core.inHandshake then None else Some(WriteId(w.core)), 0, None)))
    case Send(count) => Sent(w, cfg, count)
    case Record =>
      var h := w.held.value;
      var written := h.written + h.accepted.value;
      w.(held := if written == |h.bytes| then None else Some(h.(written := written, accepted := None)))
    case Answer(reply) => w.(wire := w.wire + [Wired(reply, w.owed[0])], owed := w.owed[1..])
    case Push(reply) => w.(wire := w.wire + [Wired(reply, PushTag)])
    case Deliver(parsed, random) => Delivered(w, cfg, parsed, random)
    case Reconnect(random) => FreshConnection(w, Reconnection(w.core, cfg, random))
    case Clear(random) =>
      var dropped := w.core.Next() - w.core.ack;
      FreshConnection(w, ClearAllPending(w.core, cfg, random)).(outcomes := w.outcomes + seq(dropped, _ => Dropped))
    case Service => w.(core := ServiceNext(w.core))
  }

  // ---- invariants ----

  /** Requests are handed to the executor once each, in staging order, with their own callback. */
  predicate InOrder(w: World) {
    var c := w.core;
    && c.Ok() && AckId(c) == |c.executed|
    && forall i :: 0 <= i < |c.executed| ==> c.executed[i].callback == c.staged[i].callback
  }

  /** Each of them got the last reply part of that very request, or was purged. */
  predicate OutcomeOk(c: Core, i: nat, o: Outcome)
    requires i < |c.executed| && i < |c.staged|
  {
    match o
    case Dropped => c.executed[i].reply == None
    case Answered(x, block) =>
      && c.executed[i].reply == Some(x.reply) && x.tag == UserTag(i, c.staged[i].multiSize)
      && block == Parts(i, 0, c.staged[i].multiSize)
  }

  predicate OwnReplies(w: World)
    requires InOrder(w)
  {
    && |w.outcomes| == |w.core.executed|
    && forall i :: 0 <= i < |w.outcomes| ==> OutcomeOk(w.core, i, w.outcomes[i])
  }

  predicate HeldOk(w: World) {
    var c := w.core;
    match w.held
    case None => w.handshakeReceived == c.handshakeWrite && w.received == WriteId(c) && w.read == 0
    case Some(h) =>
      && h.Fits()
      && match h.user
         case None =>
           && 0 < c.handshakeWrite <= |c.handshakeRequests| && h.bytes == c.handshakeRequests[c.handshakeWrite - 1]
           && w.handshakeReceived == (if h.Complete() then c.handshakeWrite else c.handshakeWrite - 1)
           && w.received == WriteId(c) && w.read == 0
           && (w.alive && !c.inHandshake ==> h.Complete())
         case Some(id) =>
           && !c.inHandshake && w.handshakeReceived == c.handshakeWrite
           && id == WriteId(c) - 1 && w.first <= id < |c.staged| && h.bytes == c.staged[id].bytes
           && w.received == (if h.Complete() then WriteId(c) else id)
           && w.read == (if h.Complete() then 0 else ReadOf(h))
  }

  /** Acknowledged, received by the server, handed to the writer, staged: in this order. */
  predicate Positions(w: World) {
    var c := w.core;
    && c.base <= w.first <= AckId(c) <= w.received <= WriteId(c) <= |c.staged|
    && (!c.inHandshake ==> c.handshakeWrite == |c.handshakeRequests|)
    && (c.inHandshake ==> w.first == AckId(c) == WriteId(c) && c.ignored == 0 && w.read == 0 && 0 < |c.handshakeRequests|)
  }

  function NonPush(wire: seq<Wired>): seq<Tag> {
    if wire == [] then []
    else if wire[0].tag == PushTag then NonPush(wire[1..])
    else [wire[0].tag] + NonPush(wire[1..])
  }

  /** All replies that are still to come on this connection, pushes aside. */
  function Stream(w: World): seq<Tag> { NonPush(w.wire) + w.owed }

  /** The replies owed to the requests from id (of which some parts are already consumed) up to upto. */
  function Pending(staged: seq<Request>, id: nat, part: nat, upto: nat): seq<Tag>
    requires upto <= |staged|
    decreases if id <= upto then upto - id else 0
  {
    if id >= upto then [] else Parts(id, part, staged[id].multiSize) + Pending(staged, id + 1, 0, upto)
  }

  /** The replies that are still due: to what the server has in full, and to what it has read of the next
      request. Some parts of the oldest one are already consumed. */
  function Due(staged: seq<Request>, id: nat, part: nat, upto: nat, read: nat): seq<Tag>
    requires upto <= |staged|
  {
    Pending(staged, id, part, upto) + Span(upto, if id < upto then 0 else part, read)
  }

  predicate PartOk(w: World) {
    var c := w.core;
    && (0 <= AckId(c) < w.received <= |c.staged| ==> c.ignored <= c.staged[AckId(c)].multiSize)
    && (AckId(c) == w.received ==> c.ignored <= w.read)
    && (0 < w.read ==> w.received < |c.staged| && w.read <= c.staged[w.received].multiSize)
  }

  predicate InStep(w: World)
    requires w.received <= |w.core.staged| && 0 <= AckId(w.core)
  {
    var c := w.core;
    w.alive ==>
      if c.inHandshake then
        && 0 <= w.handshakeReceived - (|c.handshakeRequests| - 1)
        && Stream(w) == seq(w.handshakeReceived - (|c.handshakeRequests| - 1), _ => HandshakeTag)
        && w.swallowed == []
      else
        && PartOk(w) && Stream(w) == Due(c.staged, AckId(c), c.ignored, w.received, w.read)
        && w.swallowed == FirstParts(AckId(c), c.ignored)
  }

  predicate WireOk(w: World) {
    && (forall i :: 0 <= i < |w.wire| ==> (w.wire[i].tag == PushTag <==> IsPush(w.wire[i].reply)))
    && forall i :: 0 <= i < |w.owed| ==> w.owed[i] != PushTag
  }

  function BytesOf(requests: seq<Request>): seq<string> {
    seq(|requests|, i requires 0 <= i < |requests| => requests[i].bytes)
  }

  /** What the writer has been handed on this connection, in order. */
  function Handed(w: World): string
    requires w.core.handshakeWrite <= |w.core.handshakeRequests|
    requires w.first <= WriteId(w.core) <= |w.core.staged|
  {
    Flatten(w.core.handshakeRequests[..w.core.handshakeWrite])
    + Flatten(BytesOf(w.core.staged[w.first..WriteId(w.core)]))
  }

  predicate OnTheWire(w: World)
    requires w.core.Ok() && Positions(w) && HeldOk(w)
  {
    w.out + (if w.held.Some? then w.held.value.Unsent() else "") == Handed(w)
  }

  predicate Inv(w: World) {
    InOrder(w) && OwnReplies(w) && Positions(w) && HeldOk(w) && InStep(w) && WireOk(w) && OnTheWire(w)
  }

  /** Every request says truly how many replies it gets. */
  ghost predicate AllCounted(staged: seq<Request>) {
    forall i :: 0 <= i < |staged| ==> WellCounted(staged[i].bytes, staged[i].multiSize)
  }

  predicate Normal(cfg: Config) { !cfg.Exclusive() }

  // ---- what is staged says truly how many replies it gets ----

  lemma RequestIsWellCounted(chunks: seq<string>)
    requires Printers.RequestFits(chunks)
    ensures WellCounted(Printers.Encoded(chunks), 0)
  {
    var one := [chunks];
    Printers.EncodedIsPrinted(one);
    Printers.FlattenOne(Printers.Encoded(chunks));
    assert Printers.EncodedAll(one) == [Printers.Encoded(chunks)];
    Printers.RequestIsPrintable(chunks);
    PrintedTreesParse(Printers.RequestTrees(one));
    hide Run, PrintAll, Printers.Encoded, Printable;
  }

  /** A reader that says nothing and has nothing left was given nothing. */
  lemma {:induction false} QuietRun(frames: seq<Frame>, kind: Option<Kind>, rest: string)
    requires Open(frames) && |frames| <= 8 && Run(frames, kind, rest) == ([], INITIAL)
    ensures frames == [] && kind == None && rest == ""
    decreases |rest|
  {
    hide Finish, NewlineAt, ProcessItem;
    match ProcessItem(frames, kind, rest)
    case Next(f, left) =>
      NextHasFrames(frames, kind, rest);
      QuietRun(f, None, left);
    case _ => WaitingKnowsType(frames, kind, rest);
  }

  lemma NextHasFrames(frames: seq<Frame>, kind: Option<Kind>, rest: string)
    requires Open(frames) && |frames| <= 8 && ProcessItem(frames, kind, rest).Next?
    ensures ProcessItem(frames, kind, rest).frames != []
  {
    hide NewlineAt;
  }

  lemma WaitingKnowsType(frames: seq<Frame>, kind: Option<Kind>, rest: string)
    requires Open(frames) && |frames| <= 8 && ProcessItem(frames, kind, rest).NeedMore?
    ensures ProcessItem(frames, kind, rest).kind == None ==> kind == None && rest == ""
  {
    if kind.Some? {
      TypedItemWaits(frames, kind.value, rest);
    } else if rest != "" && KindOfByte(rest[0]).Some? {
      TypedItemWaits(frames, KindOfByte(rest[0]).value, rest[1..]);
    }
    hide TypedItem;
  }

  lemma TypedItemWaits(frames: seq<Frame>, kind: Kind, rest: string)
    requires Open(frames) && |frames| <= 8
    ensures TypedItem(frames, kind, rest).NeedMore? ==> TypedItem(frames, kind, rest).kind.Some?
  {
    hide NewlineAt, Finish;
  }

  /** The last request of a whole buffer is read only with its last byte. */
  lemma PrefixHasFewer(a: string, b: string)
    ensures RequestsIn(a) <= RequestsIn(a + b)
    ensures IsWhole(a + b) && b != "" ==> RequestsIn(a) < RequestsIn(a + b)
  {
    RunSplits([], None, a, b);
    var st := Run([], None, a).1;
    hide Run;
    if st.Reading? && Feed(st, b) == ([], INITIAL) { QuietRun(st.frames, st.kind, st.unread + b); }
  }

  lemma ReadGrows(bytes: string, k: nat, j: nat, multiSize: nat)
    requires k <= j <= |bytes| && WellCounted(bytes, multiSize)
    ensures RequestsIn(bytes[..k]) <= RequestsIn(bytes[..j])
    ensures if j < |bytes| then RequestsIn(bytes[..j]) <= multiSize else RequestsIn(bytes[..j]) == multiSize + 1
  {
    assert bytes[..k] + bytes[k..j] == bytes[..j] && bytes[..j] + bytes[j..] == bytes;
    hide RequestsIn, IsWhole;
    PrefixHasFewer(bytes[..k], bytes[k..j]);
    PrefixHasFewer(bytes[..j], bytes[j..]);
    assert j == |bytes| ==> bytes[..j] == bytes;
  }

  lemma CountsAdd(a: string, b: string)
    requires IsWhole(a)
    ensures RequestsIn(a + b) == RequestsIn(a) + RequestsIn(b) && (IsWhole(a + b) <==> IsWhole(b))
  {
    RunSplits([], None, a, b);
    assert "" + b == b;
    hide Run;
  }

  function RequestsInAll(pieces: seq<string>): nat {
    if pieces == [] then 0 else RequestsIn(pieces[0]) + RequestsInAll(pieces[1..])
  }

  lemma NoRequests()
    ensures RequestsIn("") == 0 && IsWhole("")
  {}

  lemma {:induction false} WholesAdd(pieces: seq<string>)
    requires forall i :: 0 <= i < |pieces| ==> IsWhole(pieces[i])
    ensures RequestsIn(Flatten(pieces)) == RequestsInAll(pieces) && IsWhole(Flatten(pieces))
  {
    hide RequestsIn, IsWhole;
    if pieces == [] {
      NoRequests();
    } else {
      WholesAdd(pieces[1..]);
      CountsAdd(pieces[0], Flatten(pieces[1..]));
    }
  }

  lemma SurroundedCounts(first: string, pieces: seq<string>, last: string)
    requires WellCounted(first, 0) && WellCounted(last, 0)
    requires forall i :: 0 <= i < |pieces| ==> IsWhole(pieces[i])
    ensures RequestsIn(first + Flatten(pieces) + last) == RequestsInAll(pieces) + 2
    ensures IsWhole(first + Flatten(pieces) + last)
  {
    hide RequestsIn, IsWhole, Flatten, RequestsInAll;
    WholesAdd(pieces);
    CountsAdd(Flatten(pieces), last);
    CountsAdd(first, Flatten(pieces) + last);
    assert first + Flatten(pieces) + last == first + (Flatten(pieces) + last);
  }

  /** A fused block of n pieces gets n + 2 replies, as the multi-size n + 1 says, if and only if the
      pieces hold n requests in all. */
  lemma BlockIsWellCounted(pieces: seq<string>)
    requires forall i :: 0 <= i < |pieces| ==> IsWhole(pieces[i])
    ensures WellCounted(Printers.BlockBytes(pieces), |pieces| + 1) <==> RequestsInAll(pieces) == |pieces|
  {
    hide RequestsIn, IsWhole, Run, Printers.Encoded, Flatten, RequestsInAll;
    RequestIsWellCounted(["MULTI"]);
    RequestIsWellCounted(["EXEC"]);
    SurroundedCounts(Printers.Encoded(["MULTI"]), pieces, Printers.Encoded(["EXEC"]));
  }

  /** In particular if each of them is the encoding of a request, or reads as one. */
  lemma {:induction false} OneEach(pieces: seq<string>)
    requires forall i :: 0 <= i < |pieces| ==> WellCounted(pieces[i], 0)
    ensures RequestsInAll(pieces) == |pieces| && forall i :: 0 <= i < |pieces| ==> IsWhole(pieces[i])
  {
    hide RequestsIn, IsWhole;
    if pieces != [] { OneEach(pieces[1..]); }
  }

  // ---- every step keeps them ----

  lemma {:induction false} PendingIgnoresLater(a: seq<Request>, b: seq<Request>, id: nat, part: nat, upto: nat)
    requires upto <= |a| && a <= b
    ensures Pending(a, id, part, upto) == Pending(b, id, part, upto)
    decreases if id <= upto then upto - id else 0
  {
    if id < upto { PendingIgnoresLater(a, b, id + 1, 0, upto); }
  }

  lemma PendingBegins(staged: seq<Request>, id: nat, part: nat, upto: nat)
    requires upto <= |staged|
    ensures id >= upto ==> Pending(staged, id, part, upto) == []
    ensures id < upto ==>
      Pending(staged, id, part, upto) == Parts(id, part, staged[id].multiSize) + Pending(staged, id + 1, 0, upto)
  {
    hide Parts;
  }

  /** The request in hand arrives in full: the parts that were not due yet are due now. */
  lemma {:induction false} PendingExtends(staged: seq<Request>, id: nat, part: nat, upto: nat)
    requires id <= upto < |staged|
    ensures Pending(staged, id, part, upto + 1)
      == Pending(staged, id, part, upto) + Parts(upto, if id < upto then 0 else part, staged[upto].multiSize)
    decreases upto - id
  {
    hide Parts, Pending;
    PendingBegins(staged, id, part, upto);
    PendingBegins(staged, id, part, upto + 1);
    if id < upto {
      var first, middle := Parts(id, part, staged[id].multiSize), Pending(staged, id + 1, 0, upto);
      var last := Parts(upto, 0, staged[upto].multiSize);
      PendingExtends(staged, id + 1, 0, upto);
      assert first + (middle + last) == (first + middle) + last;
    } else {
      PendingBegins(staged, upto + 1, 0, upto + 1);
      var last := Parts(upto, part, staged[upto].multiSize);
      assert last + [] == [] + last;
    }
  }

  lemma SpansJoin(id: nat, a: nat, b: nat, c: nat)
    requires a <= b <= c
    ensures Span(id, a, b) + Span(id, b, c) == Span(id, a, c)
  {
    hide Parts;
  }

  lemma DueExtends(staged: seq<Request>, id: nat, part: nat, upto: nat, read: nat, more: nat)
    requires id <= upto <= |staged| && (id < upto || part <= read) && read <= more
    ensures Due(staged, id, part, upto, read) + Span(upto, read, more) == Due(staged, id, part, upto, more)
  {
    hide Pending, Span;
    SpansJoin(upto, if id < upto then 0 else part, read, more);
  }

  lemma DueCompletes(staged: seq<Request>, id: nat, part: nat, upto: nat)
    requires id <= upto < |staged| && (id < upto || part <= staged[upto].multiSize)
    ensures Due(staged, id, part, upto, staged[upto].multiSize + 1)
      == Due(staged, id, part, upto + 1, 0)
  {
    hide Pending;
    PendingExtends(staged, id, part, upto);
  }

  lemma {:induction false} NonPushAppend(wire: seq<Wired>, x: Wired)
    ensures NonPush(wire + [x]) == NonPush(wire) + (if x.tag == PushTag then [] else [x.tag])
  {
    if wire != [] {
      NonPushAppend(wire[1..], x);
      assert (wire + [x])[1..] == wire[1..] + [x];
    }
  }

  lemma OwnRepliesStay(w: World, v: World)
    requires InOrder(w) && OwnReplies(w) && InOrder(v)
    requires v.outcomes == w.outcomes && v.core.executed == w.core.executed && w.core.staged <= v.core.staged
    ensures OwnReplies(v)
  {}

  /** Staging adds one request at the end and touches nothing that the invariants look at. */
  ghost predicate OneStaged(w: World, v: World) {
    && v == w.(core := v.core)
    && v.core == w.core.(staged := v.core.staged, slots := v.core.slots, promises := v.core.promises)
    && |v.core.staged| == |w.core.staged| + 1 && w.core.staged <= v.core.staged
  }

  lemma StageKeepsPlaces(w: World, v: World)
    requires InOrder(w) && Positions(w) && HeldOk(w) && WireOk(w) && OneStaged(w, v)
    ensures InOrder(v) && Positions(v) && HeldOk(v) && WireOk(v)
  {}

  lemma StageKeepsStep(w: World, v: World)
    requires InOrder(w) && Positions(w) && InOrder(v) && Positions(v) && InStep(w) && OneStaged(w, v)
    ensures InStep(v)
  {
    hide Pending, NonPush, Parts;
    PendingIgnoresLater(w.core.staged, v.core.staged, AckId(w.core), w.core.ignored, w.received);
  }

  lemma StageKeepsBytes(w: World, v: World)
    requires InOrder(w) && Positions(w) && HeldOk(w) && InOrder(v) && Positions(v) && HeldOk(v)
    requires OnTheWire(w) && OneStaged(w, v)
    ensures OnTheWire(v)
  {
    hide HeldOk, Flatten, BytesOf;
    assert v.core.staged[w.first..WriteId(v.core)] == w.core.staged[w.first..WriteId(w.core)];
  }

  lemma StagesOne(w: World, cfg: Config, e: Event)
    requires Enabled(w, cfg, e) && (e.StageCallback? || e.StageForFuture?)
    ensures OneStaged(w, Apply(w, cfg, e))
  {}

  lemma StageKeepsInv(w: World, cfg: Config, e: Event)
    requires Inv(w) && Enabled(w, cfg, e) && (e.StageCallback? || e.StageForFuture?)
    ensures Inv(Apply(w, cfg, e))
  {
    StagesOne(w, cfg, e);
    hide Apply, Enabled, InOrder, Positions, HeldOk, WireOk, OwnReplies, InStep, OnTheWire;
    var v := Apply(w, cfg, e);
    StageKeepsPlaces(w, v);
    StageKeepsStep(w, v);
    StageKeepsBytes(w, v);
    OwnRepliesStay(w, v);
  }

  /** A reply on its way changes nothing but where it is. */
  lemma WireMoves(w: World, v: World)
    requires Inv(w) && v == w.(wire := v.wire, owed := v.owed) && Stream(v) == Stream(w) && WireOk(v)
    ensures Inv(v)
  {
    hide Flatten, BytesOf, Pending, Stream, WireOk;
    assert InOrder(v);
    OwnRepliesStay(w, v);
    hide OwnReplies, InOrder;
  }

  lemma AnswerKeepsInv(w: World, cfg: Config, e: Event)
    requires Inv(w) && Enabled(w, cfg, e) && (e.Answer? || e.Push?)
    ensures Inv(Apply(w, cfg, e))
  {
    hide InOrder, OwnReplies, InStep, Positions, HeldOk, OnTheWire, NonPush;
    var v := Apply(w, cfg, e);
    if e.Answer? {
      NonPushAppend(w.wire, Wired(e.reply, w.owed[0]));
      assert w.owed == [w.owed[0]] + w.owed[1..];
    } else {
      NonPushAppend(w.wire, Wired(e.reply, PushTag));
    }
    assert Stream(v) == Stream(w);
    assert WireOk(v);
    hide Apply, Enabled, Stream, WireOk, Inv;
    WireMoves(w, v);
  }

  lemma TakenIsHanded(w: World, v: World, taken: string)
    requires InOrder(w) && Positions(w) && Positions(v) && w.core.handshakeRequests == v.core.handshakeRequests
    requires v.core.staged == w.core.staged && v.core.base == w.core.base && v.first == w.first
    requires w.core.handshakeWrite <= v.core.handshakeWrite <= |w.core.handshakeRequests|
    requires
      || (WriteId(v.core) == WriteId(w.core) == w.first && v.core.handshakeWrite == w.core.handshakeWrite + 1
          && taken == w.core.handshakeRequests[w.core.handshakeWrite])
      || (v.core.handshakeWrite == w.core.handshakeWrite && WriteId(v.core) == WriteId(w.core) + 1
          && taken == w.core.staged[WriteId(w.core)].bytes)
    ensures Handed(v) == Handed(w) + taken
  {
    var c := w.core;
    var before := BytesOf(c.staged[w.first..WriteId(c)]);
    if v.core.handshakeWrite == c.handshakeWrite {
      assert BytesOf(c.staged[w.first..WriteId(v.core)]) == before + [taken];
      FlattenAppend(before, [taken]);
      Printers.FlattenOne(taken);
    } else {
      Printers.FlattenNext(c.handshakeRequests, c.handshakeWrite);
      assert before == [];
    }
  }

  lemma TakeKeepsInv(w: World, cfg: Config)
    requires Inv(w) && Enabled(w, cfg, Take) && Normal(cfg)
    ensures Inv(Apply(w, cfg, Take))
  {
    hide OwnReplies, Flatten, BytesOf, Pending, NonPush, Handed;
    var v := Apply(w, cfg, Take);
    OwnRepliesStay(w, v);
    if v.held.Some? {
      TakenIsHanded(w, v, v.held.value.bytes);
    } else {
      assert v == w;
    }
  }

  lemma SendFrame(w: World, cfg: Config, count: nat)
    requires Enabled(w, cfg, Send(count))
    ensures
      var h, v := w.held.value, Apply(w, cfg, Send(count));
      var g := h.(accepted := Some(count));
      && v == w.(held := Some(g), out := v.out, owed := v.owed, received := v.received, read := v.read,
                 handshakeReceived := v.handshakeReceived)
      && !h.Complete() && h.Fits() && g.Fits() && h.Done() <= g.Done()
      && v.owed == w.owed + NextOwed(h, g)
      && v.received == (if g.Complete() && g.user.Some? then g.user.value + 1 else w.received)
      && v.read == (if g.user.None? then w.read else if g.Complete() then 0 else ReadOf(g))
      && v.handshakeReceived == (if g.Complete() && g.user.None? then w.handshakeReceived + 1 else w.handshakeReceived)
  {
    hide NextOwed, ReadOf;
  }

  /** The server has the handshake's request in full, and owes one reply more. */
  lemma HandshakeRequestArrives(w: World, v: World)
    requires Inv(w) && w.held.Some? && w.held.value.user.None? && !w.held.value.Complete()
    requires v == w.(held := v.held, out := v.out, owed := w.owed + [HandshakeTag], handshakeReceived := w.handshakeReceived + 1)
    ensures w.received <= |w.core.staged| && 0 <= AckId(w.core) && InStep(v)
  {
    hide OwnReplies, WireOk, OnTheWire, Pending, NonPush;
    if w.alive {
      assert Stream(v) == Stream(w) + [HandshakeTag];
    }
  }

  lemma NothingArrives(w: World, v: World)
    requires Inv(w) && v == w.(held := v.held, out := v.out, owed := w.owed + [])
    ensures w.received <= |w.core.staged| && 0 <= AckId(w.core) && InStep(v)
  {
    hide OwnReplies, WireOk, OnTheWire, HeldOk, Pending, NonPush;
    assert Stream(v) == Stream(w);
  }

  /** The server has read more of the request in hand, and owes replies to that. */
  lemma PartArrives(w: World, v: World, more: nat)
    requires Inv(w) && !w.core.inHandshake && w.received < |w.core.staged|
    requires w.read <= more <= w.core.staged[w.received].multiSize
    requires v == w.(held := v.held, out := v.out, read := more, owed := w.owed + Span(w.received, w.read, more))
    ensures 0 <= AckId(w.core) && InStep(v)
  {
    hide OwnReplies, WireOk, OnTheWire, HeldOk, Due, NonPush, Span;
    if w.alive {
      assert Stream(v) == Stream(w) + Span(w.received, w.read, more);
      DueExtends(w.core.staged, AckId(w.core), w.core.ignored, w.received, w.read, more);
    }
  }

  /** The server has the request in hand in full, and owes all its replies. */
  lemma RequestArrives(w: World, v: World)
    requires Inv(w) && !w.core.inHandshake && w.received < |w.core.staged|
    requires v == w.(held := v.held, out := v.out, received := w.received + 1, read := 0,
                     owed := w.owed + Span(w.received, w.read, w.core.staged[w.received].multiSize + 1))
    ensures 0 <= AckId(w.core) && InStep(v)
  {
    hide OwnReplies, WireOk, OnTheWire, HeldOk, Due, NonPush, Span;
    if w.alive {
      var all := w.core.staged[w.received].multiSize + 1;
      assert Stream(v) == Stream(w) + Span(w.received, w.read, all);
      DueExtends(w.core.staged, AckId(w.core), w.core.ignored, w.received, w.read, all);
      DueCompletes(w.core.staged, AckId(w.core), w.core.ignored, w.received);
    }
  }

  lemma RequestInHand(w: World)
    requires Inv(w) && w.held.Some? && w.held.value.user.Some? && !w.held.value.Complete()
    ensures
      var h := w.held.value;
      && !w.core.inHandshake && w.received == h.user.value < |w.core.staged|
      && h.bytes == w.core.staged[w.received].bytes && h.Fits() && w.read == ReadOf(h)
  {
    hide OwnReplies, InStep, WireOk, OnTheWire, ReadOf;
  }

  lemma SendKeepsInStep(w: World, cfg: Config, count: nat)
    requires Inv(w) && Enabled(w, cfg, Send(count)) && AllCounted(w.core.staged)
    requires var v := Apply(w, cfg, Send(count)); v.received <= |v.core.staged| && 0 <= AckId(v.core)
    ensures InStep(Apply(w, cfg, Send(count)))
  {
    SendFrame(w, cfg, count);
    var h, v := w.held.value, Apply(w, cfg, Send(count));
    var g := v.held.value;
    hide Apply, Enabled, Inv, InStep, WellCounted, RequestsIn, Span;
    if g.user.None? {
      if g.Complete() { HandshakeRequestArrives(w, v); } else { NothingArrives(w, v); }
    } else {
      RequestInHand(w);
      var request := w.core.staged[w.received];
      assert WellCounted(request.bytes, request.multiSize);
      ReadGrows(g.bytes, h.Done(), g.Done(), request.multiSize);
      if g.Complete() { RequestArrives(w, v); } else { PartArrives(w, v, ReadOf(g)); }
    }
  }

  lemma OwedIsNoPush(h: Held, g: Held)
    requires h.Fits() && g.Fits()
    ensures forall i :: 0 <= i < |NextOwed(h, g)| ==> NextOwed(h, g)[i] != PushTag
  {
    hide ReadOf;
  }

  lemma SendKeepsHeld(w: World, cfg: Config, count: nat)
    requires Inv(w) && Enabled(w, cfg, Send(count))
    ensures var v := Apply(w, cfg, Send(count)); InOrder(v) && Positions(v) && HeldOk(v) && WireOk(v)
  {
    hide OwnReplies, InStep, OnTheWire, NextOwed, ReadOf;
    SendFrame(w, cfg, count);
    hide Apply;
    OwedIsNoPush(w.held.value, w.held.value.(accepted := Some(count)));
  }

  lemma SendUnsent(w: World, cfg: Config, count: nat)
    requires Enabled(w, cfg, Send(count))
    ensures
      var h, v := w.held.value, Apply(w, cfg, Send(count));
      && v.first == w.first && h.Fits() && h.Unsent() == h.bytes[h.written..]
      && v.held.Some? && v.held.value.Fits() && v.held.value.Unsent() == h.bytes[h.written + count..]
      && v.out == w.out + h.bytes[h.written..h.written + count]
  {
    hide NextOwed;
  }

  /** A piece moves from what is unsent to what is out. */
  lemma BytesMove(w: World, v: World, piece: string)
    requires w.core.Ok() && Positions(w) && HeldOk(w) && v.core == w.core && Positions(v) && HeldOk(v) && v.first == w.first
    requires w.held.Some? && v.held.Some? && OnTheWire(w)
    requires w.held.value.Fits() && v.held.value.Fits()
    requires v.out == w.out + piece && w.held.value.Unsent() == piece + v.held.value.Unsent()
    ensures OnTheWire(v)
  {
    hide HeldOk;
    SameHanded(w, v);
    hide Handed;
    var left := v.held.value.Unsent();
    assert (w.out + piece) + left == w.out + (piece + left);
  }

  lemma SendKeepsBytes(w: World, cfg: Config, count: nat)
    requires Inv(w) && Enabled(w, cfg, Send(count))
    requires var v := Apply(w, cfg, Send(count)); InOrder(v) && Positions(v) && HeldOk(v)
    ensures OnTheWire(Apply(w, cfg, Send(count)))
  {
    hide Apply, OwnReplies, InStep, NextOwed, ReadOf, WireOk, HeldOk, OnTheWire;
    SendFrame(w, cfg, count);
    SendUnsent(w, cfg, count);
    assert w.core.Ok() && Positions(w);
    var h := w.held.value;
    hide Positions, Inv, Core.Ok;
    SplitAt(h.bytes, h.written, h.written + count);
    BytesMove(w, Apply(w, cfg, Send(count)), h.bytes[h.written..h.written + count]);
  }

  lemma SplitAt(s: string, i: nat, j: nat)
    requires i <= j <= |s|
    ensures s[i..] == s[i..j] + s[j..]
  {}

  lemma SendKeepsInv(w: World, cfg: Config, count: nat)
    requires Inv(w) && Enabled(w, cfg, Send(count)) && AllCounted(w.core.staged)
    ensures Inv(Apply(w, cfg, Send(count)))
  {
    hide Enabled, Apply, InOrder, OwnReplies, InStep, OnTheWire, WireOk, HeldOk;
    SendFrame(w, cfg, count);
    SendKeepsHeld(w, cfg, count);
    SendKeepsBytes(w, cfg, count);
    SendKeepsInStep(w, cfg, count);
    OwnRepliesStay(w, Apply(w, cfg, Send(count)));
  }

  lemma SameHanded(w: World, v: World)
    requires v.core.staged == w.core.staged && v.core.handshakeRequests == w.core.handshakeRequests
    requires v.core.handshakeWrite == w.core.handshakeWrite <= |w.core.handshakeRequests|
    requires v.first == w.first <= WriteId(v.core) == WriteId(w.core) <= |w.core.staged|
    ensures Handed(v) == Handed(w)
  {}

  lemma RecordKeepsInv(w: World, cfg: Config)
    requires Inv(w) && Enabled(w, cfg, Record)
    ensures Inv(Apply(w, cfg, Record))
  {
    hide RequestsIn, Due, NonPush, Flatten, BytesOf;
  }

  lemma FreshConnectionIsOk(w: World, core: Core, cfg: Config)
    requires InOrder(w.(core := core)) && OwnReplies(w.(core := core))
    requires core.ack == core.write && core.ignored == 0 && core.handshakeWrite == 0
    requires if core.inHandshake then |core.handshakeRequests| == 1 else core.handshakeRequests == []
    ensures Inv(FreshConnection(w, core))
  {
    var v := FreshConnection(w, core);
    assert core.handshakeRequests[..0] == [] && core.staged[v.first..v.first] == [];
  }

  lemma ReconnectKeepsInv(w: World, cfg: Config, random: string)
    requires Inv(w) && Enabled(w, cfg, Reconnect(random))
    ensures Inv(Apply(w, cfg, Reconnect(random)))
  {
    FreshConnectionIsOk(w, Reconnection(w.core, cfg, random), cfg);
  }

  lemma ClearEffect(w: World, cfg: Config, random: string)
    requires w.core.Ok() && AckId(w.core) >= 0
    ensures
      var c, v := w.core, Apply(w, cfg, Clear(random));
      && v.core.Ok() && v.core.staged == c.staged && v.core.base == |c.staged| && v.core.ack == v.core.write == 1
      && v.core.executed == c.executed + NullReplies(c.staged[AckId(c)..])
      && |v.outcomes| == |w.outcomes| + (|c.staged| - AckId(c)) && w.outcomes <= v.outcomes
      && forall i :: |w.outcomes| <= i < |v.outcomes| ==> v.outcomes[i] == Dropped
  {
    hide Provide, Restart, AcknowledgeAll;
    AcknowledgeAllGrows(w.core.(inHandshake := false), cfg);
  }

  lemma DroppedOutcome(c: Core, d: Core, i: nat)
    requires |c.executed| <= i < |d.executed| <= |d.staged| && |c.executed| <= |c.staged| && d.staged == c.staged
    requires d.executed == c.executed + NullReplies(c.staged[|c.executed|..])
    ensures d.executed[i] == Response(c.staged[i].callback, None) && OutcomeOk(d, i, Dropped)
  {
    assert d.executed[i] == NullReplies(c.staged[|c.executed|..])[i - |c.executed|];
  }

  lemma ClearedIsInOrder(w: World, cfg: Config, random: string)
    requires InOrder(w) && OwnReplies(w)
    ensures
      var v := Apply(w, cfg, Clear(random));
      InOrder(v) && OwnReplies(v) && v.core.staged == w.core.staged && |v.core.executed| == |v.core.staged|
  {
    ClearEffect(w, cfg, random);
    hide Apply, Enabled, NullReplies, OutcomeOk;
    var c, v := w.core, Apply(w, cfg, Clear(random));
    forall i | 0 <= i < |v.core.executed| ensures v.core.executed[i].callback == v.core.staged[i].callback {
      if i >= |c.executed| { DroppedOutcome(c, v.core, i); }
    }
    forall i | 0 <= i < |v.outcomes| ensures OutcomeOk(v.core, i, v.outcomes[i]) {
      if i < |w.outcomes| {
        OutcomeStays(c, v.core, i, w.outcomes[i]);
      } else {
        DroppedOutcome(c, v.core, i);
      }
    }
  }

  lemma ClearKeepsInv(w: World, cfg: Config, random: string)
    requires Inv(w) && Enabled(w, cfg, Clear(random))
    ensures Inv(Apply(w, cfg, Clear(random)))
  {
    ClearedIsInOrder(w, cfg, random);
    hide InOrder, OwnReplies, InStep, OnTheWire, WireOk, HeldOk, Positions, Provide, Restart, AcknowledgeAll;
    var v := Apply(w, cfg, Clear(random));
    FreshConnectionIsOk(v, v.core, cfg);
  }

  lemma ServiceFrame(w: World, cfg: Config)
    requires Enabled(w, cfg, Service)
    ensures
      var c, v := w.core, Apply(w, cfg, Service);
      && v == w.(core := ServiceNext(c))
      && v.core == c.(serviced := c.serviced + 1, called := v.core.called, futureValues := v.core.futureValues)
  {}

  lemma ServiceIsUnseen(w: World, v: World)
    requires Inv(w) && InOrder(v)
    requires v == w.(core := w.core.(serviced := v.core.serviced, called := v.core.called, futureValues := v.core.futureValues))
    ensures Positions(v) && HeldOk(v) && InStep(v) && WireOk(v) && OnTheWire(v)
  {
    hide OwnReplies, Due, NonPush, ReadOf, Handed, FirstParts;
    SameHanded(w, v);
  }

  /** None of the invariants looks at how far the executor has come. */
  lemma ServiceKeepsInv(w: World, cfg: Config)
    requires Inv(w) && Enabled(w, cfg, Service)
    ensures Inv(Apply(w, cfg, Service))
  {
    ServiceFrame(w, cfg);
    hide Apply, Positions, HeldOk, InStep, WireOk, OnTheWire, OutcomeOk;
    var v := Apply(w, cfg, Service);
    assert InOrder(v);
    OwnRepliesStay(w, v);
    hide ServiceNext, OwnReplies, InOrder;
    ServiceIsUnseen(w, v);
  }

  lemma OutcomeStays(c: Core, d: Core, i: nat, o: Outcome)
    requires i < |c.executed| && i < |c.staged| && OutcomeOk(c, i, o)
    requires c.executed <= d.executed && c.staged <= d.staged
    ensures OutcomeOk(d, i, o)
  {}

  /** A reply that was refused: nothing on this connection is relied on any more. */
  lemma RefusalKeepsInv(w: World, core: Core, left: seq<Wired>, swallowed: seq<Tag>)
    requires Inv(w) && w.wire != [] && left == w.wire[1..]
    requires core == w.core.(ignored := core.ignored, handshake := core.handshake)
    requires core.handshake.Some? == w.core.handshake.Some?
    requires w.core.inHandshake ==> core.ignored == 0
    ensures Inv(w.(core := core, wire := left, alive := false, swallowed := swallowed))
  {
    hide Flatten, BytesOf, Due, NonPush, OutcomeOk, ReadOf;
    var v := w.(core := core, wire := left, alive := false, swallowed := swallowed);
    forall i | 0 <= i < |w.outcomes| ensures OutcomeOk(core, i, w.outcomes[i]) {
      OutcomeStays(w.core, core, i, w.outcomes[i]);
    }
  }

  lemma HandshakeReplyEffect(w: World, cfg: Config, parsed: bool, random: string)
    requires w.core.Ok() && Enabled(w, cfg, Deliver(parsed, random)) && w.core.inHandshake && w.core.handshake.Some?
    requires !(cfg.transparentUnavailable && IsUnavailable(w.wire[0].reply))
    ensures
      var r := ConsumeHandshake(w.core, cfg, w.wire[0].reply, random);
      && Apply(w, cfg, Deliver(parsed, random)) == w.(core := r.0, wire := w.wire[1..], alive := r.1)
      && r.0 == w.core.(handshake := r.0.handshake, handshakeRequests := r.0.handshakeRequests, inHandshake := r.0.inHandshake)
      && r.0.handshake.Some? && r.0.Ok()
      && (!r.1 ==> r.0 == w.core.(handshake := r.0.handshake))
      && (r.1 && !r.0.inHandshake ==> r.0.handshakeRequests == w.core.handshakeRequests)
      && (r.1 && r.0.inHandshake ==>
          && |r.0.handshakeRequests| == |w.core.handshakeRequests| + 1
          && w.core.handshakeRequests <= r.0.handshakeRequests)
  {
    hide Validate, Provide, Printers.Encoded;
  }

  /** The writer has handed over all handshake requests, and the server's only reply is this one. */
  lemma HandshakeIsAnswered(w: World)
    requires InOrder(w) && Positions(w) && HeldOk(w) && InStep(w) && WireOk(w)
    requires w.alive && w.core.inHandshake && w.wire != [] && w.wire[0].tag != PushTag
    ensures
      var c, left := w.core, NonPush(w.wire[1..]) + w.owed;
      left == [] && w.handshakeReceived == c.handshakeWrite == |c.handshakeRequests| && w.swallowed == []
      && (w.held.Some? ==> w.held.value.Complete())
  {
    hide WireOk;
    assert Stream(w) == [w.wire[0].tag] + (NonPush(w.wire[1..]) + w.owed);
  }

  lemma HandshakeMovesOn(w: World, v: World)
    requires Inv(w) && w.alive && w.core.inHandshake && w.wire != [] && w.wire[0].tag != PushTag
    requires v == w.(core := v.core, wire := w.wire[1..])
    requires v.core == w.core.(handshake := v.core.handshake, handshakeRequests := v.core.handshakeRequests,
                               inHandshake := v.core.inHandshake)
    requires v.core.Ok()
    requires
      if v.core.inHandshake then
        |v.core.handshakeRequests| == |w.core.handshakeRequests| + 1 && w.core.handshakeRequests <= v.core.handshakeRequests
      else v.core.handshakeRequests == w.core.handshakeRequests
    ensures Inv(v)
  {
    HandshakeIsAnswered(w);
    assert InOrder(v);
    OwnRepliesStay(w, v);
    hide InOrder, OwnReplies;
    assert v.core.handshakeRequests[..v.core.handshakeWrite] == w.core.handshakeRequests[..w.core.handshakeWrite];
    hide Flatten, BytesOf, NonPush, Pending;
    assert Positions(v) && HeldOk(v) && WireOk(v);
    assert Stream(v) == [];
    NothingDue(v);
  }

  lemma NothingDue(w: World)
    requires 0 <= AckId(w.core) && w.received <= |w.core.staged|
    ensures
      AckId(w.core) == w.received && w.core.ignored == w.read == 0 ==>
        Due(w.core.staged, AckId(w.core), w.core.ignored, w.received, w.read) == []
  {}

  lemma HandshakeReplyKeepsInv(w: World, cfg: Config, parsed: bool, random: string)
    requires Inv(w) && Enabled(w, cfg, Deliver(parsed, random)) && w.core.inHandshake
    requires !(cfg.transparentUnavailable && IsUnavailable(w.wire[0].reply))
    ensures Inv(Apply(w, cfg, Deliver(parsed, random)))
  {
    HandshakeIsThere(w);
    HandshakeReplyEffect(w, cfg, parsed, random);
    if w.wire[0].tag == PushTag { HandshakePushEndsConnection(w, cfg, parsed, random); }
    hide Inv, Apply, ConsumeHandshake;
    var v := Apply(w, cfg, Deliver(parsed, random));
    if v.alive {
      HandshakeMovesOn(w, v);
    } else {
      HandshakeHasNoParts(w);
      RefusalKeepsInv(w, v.core, v.wire, v.swallowed);
    }
  }

  lemma HandshakeIsThere(w: World)
    requires Inv(w) && w.wire != []
    ensures w.core.Ok() && (w.core.inHandshake ==> w.core.handshake.Some?)
    ensures w.wire[0].tag == PushTag <==> IsPush(w.wire[0].reply)
  {
    hide OwnReplies, HeldOk, InStep, OnTheWire;
  }

  lemma HandshakePushEndsConnection(w: World, cfg: Config, parsed: bool, random: string)
    requires Inv(w) && Enabled(w, cfg, Deliver(parsed, random)) && w.core.inHandshake && w.wire[0].tag == PushTag
    ensures !Apply(w, cfg, Deliver(parsed, random)).alive
  {
    HandshakeIsThere(w);
    hide Inv, Validate, Provide;
    PushIsRefused(w.core.handshake.value, w.wire[0].reply);
  }

  lemma HandshakeHasNoParts(w: World)
    requires Inv(w) && w.core.inHandshake
    ensures w.core.ignored == 0
  {
    hide InOrder, OwnReplies, HeldOk, InStep, WireOk, OnTheWire;
  }

  lemma PushEffect(w: World, cfg: Config, parsed: bool, random: string)
    requires Enabled(w, cfg, Deliver(parsed, random)) && !w.core.inHandshake
    requires IsPush(w.wire[0].reply) && w.wire[0].tag == PushTag
    ensures
      var v := Apply(w, cfg, Deliver(parsed, random));
      v == w.(wire := w.wire[1..], alive := v.alive) && (v.alive ==> w.alive)
  {
    hide ConsumeReply, ConsumeHandshake;
  }

  lemma PushKeepsInv(w: World, cfg: Config, parsed: bool, random: string)
    requires Inv(w) && Enabled(w, cfg, Deliver(parsed, random)) && !w.core.inHandshake
    requires IsPush(w.wire[0].reply)
    ensures Inv(Apply(w, cfg, Deliver(parsed, random)))
  {
    PushEffect(w, cfg, parsed, random);
    hide Apply, Flatten, BytesOf, OutcomeOk, Pending;
    assert Stream(Apply(w, cfg, Deliver(parsed, random))) == Stream(w);
  }

  lemma SpanBegins(id: nat, from: nat, upto: nat)
    requires from < upto
    ensures Span(id, from, upto) == [UserTag(id, from)] + Span(id, from + 1, upto)
  {}

  /** A reply to the oldest pending request is the next part it is owed; the last part, and only
      that one, acknowledges the request. The request may still be on its way to the server. */
  lemma ConsumeReplyTakesOnePart(c: Core, cfg: Config, reply: Reply, received: nat, read: nat)
    requires c.Ok() && 0 <= AckId(c) <= received <= |c.staged| && AckId(c) < |c.staged|
    requires
      if AckId(c) < received then c.ignored <= c.staged[AckId(c)].multiSize
      else c.ignored < read <= c.staged[received].multiSize
    ensures
      var r, req := ConsumeReply(c, cfg, reply), c.staged[AckId(c)];
      var tags := Due(c.staged, AckId(c), c.ignored, received, read);
      && tags != [] && tags[0] == UserTag(AckId(c), c.ignored)
      && if c.ignored < req.multiSize then
           && r.0 == c.(ignored := c.ignored + 1)
           && tags[1..] == Due(c.staged, AckId(c), c.ignored + 1, received, read)
         else
           && r == (AcknowledgePending(c.(ignored := 0), cfg, Some(reply)), true) && AckId(c) < received
           && tags[1..] == Due(c.staged, AckId(c) + 1, 0, received, read)
  {
    hide ConsumeReply, Due, AcknowledgePending;
    ConsumeReplyEffect(c, cfg, reply);
    DueBegins(c.staged, AckId(c), c.ignored, received, read);
  }

  /** The first reply due, and what is due after it. */
  lemma DueBegins(staged: seq<Request>, id: nat, part: nat, received: nat, read: nat)
    requires id <= received <= |staged| && id < |staged|
    requires if id < received then part <= staged[id].multiSize else part < read <= staged[received].multiSize
    ensures
      var tags := Due(staged, id, part, received, read);
      && tags != [] && tags[0] == UserTag(id, part)
      && tags[1..] ==
        if part < staged[id].multiSize then Due(staged, id, part + 1, received, read)
        else Due(staged, id + 1, 0, received, read)
  {
    hide Parts, Pending;
    if id < received {
      PartsBegin(id, part, staged[id].multiSize);
      PendingBegins(staged, id, part, received);
      PendingBegins(staged, id, part + 1, received);
      hide Span;
      TailOfThree(UserTag(id, part), Parts(id, part + 1, staged[id].multiSize), Pending(staged, id + 1, 0, received),
                  Span(received, 0, read));
    } else {
      PendingBegins(staged, id, part, received);
      PendingBegins(staged, id, part + 1, received);
      SpanBegins(received, part, read);
      hide Span;
      TailOfThree(UserTag(id, part), [], [], Span(received, part + 1, read));
    }
  }

  lemma TailOfThree(x: Tag, a: seq<Tag>, b: seq<Tag>, c: seq<Tag>)
    ensures ([x] + a) + b + c == [x] + (a + b + c) && [] + ([x] + c) == [x] + ([] + c)
    ensures [] + [] + c == [] + c && (a == [] ==> a + b == b)
  {}

  lemma PartsBegin(id: nat, from: nat, last: nat)
    requires from <= last
    ensures Parts(id, from, last) == [UserTag(id, from)] + Parts(id, from + 1, last)
    ensures from == last ==> Parts(id, from + 1, last) == []
  {}

  lemma ConsumeReplyEffect(c: Core, cfg: Config, reply: Reply)
    requires c.Ok() && 0 <= AckId(c) < |c.staged| && c.ignored <= c.staged[AckId(c)].multiSize
    ensures
      var r := ConsumeReply(c, cfg, reply);
      if c.ignored < c.staged[AckId(c)].multiSize then r.0 == c.(ignored := c.ignored + 1)
      else r == (AcknowledgePending(c.(ignored := 0), cfg, Some(reply)), true)
  {
    hide IsOK, IsQueued;
  }

  ghost predicate UserReply(w: World, cfg: Config, parsed: bool, random: string) {
    && Inv(w) && Enabled(w, cfg, Deliver(parsed, random)) && Normal(cfg) && !w.core.inHandshake
    && !IsPush(w.wire[0].reply)
    && !(cfg.transparentUnavailable && IsUnavailable(w.wire[0].reply))
  }

  /** Some reply to the oldest pending request is due, and it is not consumed yet. */
  predicate OldestIsDue(w: World) {
    && 0 <= AckId(w.core) <= w.received <= |w.core.staged| && AckId(w.core) < |w.core.staged|
    && if AckId(w.core) < w.received then w.core.ignored <= w.core.staged[AckId(w.core)].multiSize
       else w.core.ignored < w.read <= w.core.staged[w.received].multiSize
  }

  /** The oldest reply on the wire is the next part that the oldest pending request is owed. */
  lemma NextReplyIsForOldest(w: World, cfg: Config, parsed: bool, random: string)
    requires UserReply(w, cfg, parsed, random)
    ensures OldestIsDue(w) && w.wire[0].tag == UserTag(AckId(w.core), w.core.ignored)
    ensures Stream(Apply(w, cfg, Deliver(parsed, random))) == Stream(w)[1..]
    ensures FirstParts(AckId(w.core), w.core.ignored) + [w.wire[0].tag] == FirstParts(AckId(w.core), w.core.ignored + 1)
  {
    assert Inv(w) && w.wire != [] && w.alive && !w.core.inHandshake && !IsPush(w.wire[0].reply);
    DeliveryTakesOne(w, cfg, parsed, random);
    hide Inv, Apply, Enabled, UserReply, ConsumeReply, Due, FirstParts, IsPush;
    HandshakeIsThere(w);
    var v := Apply(w, cfg, Deliver(parsed, random));
    FirstOfStream(w, v);
    SomethingIsDue(w);
    AliveHasSwallowed(w);
    ConsumeReplyTakesOnePart(w.core, cfg, w.wire[0].reply, w.received, w.read);
    PartsGrow(AckId(w.core), w.core.ignored);
  }

  lemma DeliveryTakesOne(w: World, cfg: Config, parsed: bool, random: string)
    requires Enabled(w, cfg, Deliver(parsed, random))
    ensures var v := Apply(w, cfg, Deliver(parsed, random)); v.wire == w.wire[1..] && v.owed == w.owed
  {
    hide ConsumeResponse;
  }

  lemma FirstOfStream(w: World, v: World)
    requires w.wire != [] && w.wire[0].tag != PushTag && v.wire == w.wire[1..] && v.owed == w.owed
    ensures Stream(w) == [w.wire[0].tag] + Stream(v) && Stream(v) == Stream(w)[1..]
  {
    assert Stream(w) == [w.wire[0].tag] + NonPush(w.wire[1..]) + w.owed;
  }

  lemma SomethingIsDue(w: World)
    requires Inv(w) && w.alive && !w.core.inHandshake && Stream(w) != []
    ensures OldestIsDue(w)
  {
    hide InOrder, OwnReplies, OnTheWire, WireOk, HeldOk, Stream, FirstParts;
  }

  lemma UserReplyEffect(w: World, cfg: Config, parsed: bool, random: string)
    requires UserReply(w, cfg, parsed, random)
    ensures
      var r := ConsumeReply(w.core, cfg, w.wire[0].reply);
      OldestIsDue(w) && w.core.Ok() &&
      Apply(w, cfg, Deliver(parsed, random)) ==
        if w.core.ignored < w.core.staged[AckId(w.core)].multiSize
        then w.(core := w.core.(ignored := w.core.ignored + 1), wire := w.wire[1..], alive := r.1,
                swallowed := w.swallowed + [w.wire[0].tag])
        else w.(core := AcknowledgePending(w.core.(ignored := 0), cfg, Some(w.wire[0].reply)), wire := w.wire[1..],
                alive := true, outcomes := w.outcomes + [Answered(w.wire[0], w.swallowed + [w.wire[0].tag])],
                swallowed := [])
  {
    NextReplyIsForOldest(w, cfg, parsed, random);
    ConsumeReplyEffect(w.core, cfg, w.wire[0].reply);
    hide OwnReplies, HeldOk, InStep, WireOk, OnTheWire, ConsumeReply, Due, Stream, IsUnavailable, IsPush, FirstParts;
  }

  /** A part of a block that is not the last: nothing but the count moves. */
  lemma PartMovesOn(w: World, v: World)
    requires Inv(w) && w.alive && !w.core.inHandshake && w.wire != [] && OldestIsDue(w)
    requires v == w.(core := w.core.(ignored := w.core.ignored + 1), wire := w.wire[1..], swallowed := v.swallowed)
    requires w.core.ignored < w.core.staged[AckId(w.core)].multiSize
    requires v.swallowed == FirstParts(AckId(w.core), w.core.ignored + 1)
    requires Stream(v) == Due(w.core.staged, AckId(w.core), w.core.ignored + 1, w.received, w.read)
    ensures Inv(v)
  {
    hide Flatten, BytesOf, Due, Stream, FirstParts, ReadOf;
    assert InOrder(v);
    OwnRepliesStay(w, v);
    SameHanded(w, v);
    hide OwnReplies, Handed;
  }

  lemma AliveHasSwallowed(w: World)
    requires Inv(w) && w.alive && !w.core.inHandshake
    ensures w.received <= |w.core.staged| && 0 <= AckId(w.core)
    ensures w.swallowed == FirstParts(AckId(w.core), w.core.ignored)
    ensures Stream(w) == Due(w.core.staged, AckId(w.core), w.core.ignored, w.received, w.read)
  {
    hide OwnReplies, HeldOk, WireOk, OnTheWire;
  }

  /** What is known about a reply to a user request when it is the next part of a block. */
  lemma UserPartEffect(w: World, cfg: Config, parsed: bool, random: string)
    requires UserReply(w, cfg, parsed, random)
    requires AckId(w.core) < |w.core.staged| && w.core.ignored < w.core.staged[AckId(w.core)].multiSize
    ensures w.core.Ok() && OldestIsDue(w)
    ensures
      var v := Apply(w, cfg, Deliver(parsed, random));
      && v == w.(core := w.core.(ignored := w.core.ignored + 1), wire := w.wire[1..], alive := v.alive, swallowed := v.swallowed)
      && v.swallowed == FirstParts(AckId(w.core), w.core.ignored + 1)
      && Stream(v) == Due(w.core.staged, AckId(w.core), w.core.ignored + 1, w.received, w.read)
  {
    assert Inv(w) && w.wire != [] && w.alive && !w.core.inHandshake;
    hide Inv, Apply, ConsumeReply, Due, Stream, FirstParts, UserReply, AcknowledgePending;
    UserReplyEffect(w, cfg, parsed, random);
    NextReplyIsForOldest(w, cfg, parsed, random);
    AliveHasSwallowed(w);
    ConsumeReplyTakesOnePart(w.core, cfg, w.wire[0].reply, w.received, w.read);
  }

  lemma UserPartKeepsInv(w: World, cfg: Config, parsed: bool, random: string)
    requires UserReply(w, cfg, parsed, random)
    requires AckId(w.core) < |w.core.staged| && w.core.ignored < w.core.staged[AckId(w.core)].multiSize
    ensures Inv(Apply(w, cfg, Deliver(parsed, random)))
  {
    assert Inv(w) && w.wire != [] && w.alive && !w.core.inHandshake;
    hide Inv, Apply, Due, Stream, FirstParts, UserReply;
    UserPartEffect(w, cfg, parsed, random);
    var v := Apply(w, cfg, Deliver(parsed, random));
    if v.alive {
      PartMovesOn(w, v);
    } else {
      RefusalKeepsInv(w, v.core, v.wire, v.swallowed);
    }
  }

  /** The last part: the next request is now the oldest pending one. */
  lemma AnswerMovesOn(w: World, v: World, cfg: Config, reply: Reply)
    requires Inv(w) && w.alive && !w.core.inHandshake && w.wire != [] && AckId(w.core) < w.received
    requires v == w.(core := AcknowledgePending(w.core.(ignored := 0), cfg, Some(reply)), wire := w.wire[1..],
                     outcomes := v.outcomes, swallowed := [])
    requires Stream(v) == Due(w.core.staged, AckId(w.core) + 1, 0, w.received, w.read)
    ensures InOrder(v) && Positions(v) && HeldOk(v) && InStep(v) && WireOk(v) && OnTheWire(v)
  {
    hide OwnReplies, Flatten, BytesOf, Due, Stream, ReadOf;
    assert InOrder(v);
    SameHanded(w, v);
    hide Handed;
  }

  /** What is known about a reply to a user request when it is the last part. */
  lemma UserAnswerEffect(w: World, cfg: Config, parsed: bool, random: string)
    requires UserReply(w, cfg, parsed, random)
    requires AckId(w.core) < |w.core.staged| && w.core.ignored >= w.core.staged[AckId(w.core)].multiSize
    ensures w.core.Ok() && AckId(w.core) < w.received <= |w.core.staged| && 0 <= AckId(w.core)
    ensures
      var x, v, last := w.wire[0], Apply(w, cfg, Deliver(parsed, random)), w.core.staged[AckId(w.core)].multiSize;
      && v == w.(core := AcknowledgePending(w.core.(ignored := 0), cfg, Some(x.reply)), wire := w.wire[1..],
                 outcomes := v.outcomes, swallowed := [])
      && Stream(v) == Due(w.core.staged, AckId(w.core) + 1, 0, w.received, w.read)
      && v.outcomes == w.outcomes + [Answered(x, Parts(AckId(w.core), 0, last))] && x.tag == UserTag(AckId(w.core), last)
  {
    assert Inv(w) && w.wire != [] && w.alive && !w.core.inHandshake;
    hide Inv, Apply, ConsumeReply, Due, Stream, FirstParts, Parts, UserReply, AcknowledgePending;
    UserReplyEffect(w, cfg, parsed, random);
    NextReplyIsForOldest(w, cfg, parsed, random);
    AliveHasSwallowed(w);
    AllPartsSwallowed(w, w.wire[0]);
    ConsumeReplyTakesOnePart(w.core, cfg, w.wire[0].reply, w.received, w.read);
  }

  lemma OwnRepliesSoFar(w: World)
    requires Inv(w)
    ensures InOrder(w) && OwnReplies(w) && AckId(w.core) == |w.core.executed|
  {
    hide Positions, HeldOk, InStep, WireOk, OnTheWire, OwnReplies;
  }

  lemma UserAnswerKeepsInv(w: World, cfg: Config, parsed: bool, random: string)
    requires UserReply(w, cfg, parsed, random)
    requires AckId(w.core) < |w.core.staged| && w.core.ignored >= w.core.staged[AckId(w.core)].multiSize
    ensures Inv(Apply(w, cfg, Deliver(parsed, random)))
  {
    assert Inv(w) && w.wire != [] && w.alive && !w.core.inHandshake;
    UserAnswerEffect(w, cfg, parsed, random);
    OwnRepliesSoFar(w);
    hide Apply, Due, Stream, Parts, UserReply, InOrder, OwnReplies, HeldOk, InStep, WireOk, OnTheWire, Positions;
    var v := Apply(w, cfg, Deliver(parsed, random));
    AnswerMovesOn(w, v, cfg, w.wire[0].reply);
    AnswerIsOwn(w, v, w.wire[0]);
  }

  lemma AllPartsSwallowed(w: World, x: Wired)
    requires 0 <= AckId(w.core) < |w.core.staged| && w.core.ignored == w.core.staged[AckId(w.core)].multiSize
    requires w.swallowed == FirstParts(AckId(w.core), w.core.ignored)
    requires FirstParts(AckId(w.core), w.core.ignored) + [x.tag] == FirstParts(AckId(w.core), w.core.ignored + 1)
    ensures w.swallowed + [x.tag] == Parts(AckId(w.core), 0, w.core.staged[AckId(w.core)].multiSize)
  {}

  lemma {:induction false} PartsGrow(id: nat, n: nat)
    ensures FirstParts(id, n) + [UserTag(id, n)] == FirstParts(id, n + 1)
  {}

  lemma AnswerIsOwn(w: World, v: World, x: Wired)
    requires InOrder(w) && OwnReplies(w) && InOrder(v) && v.core.staged == w.core.staged
    requires |w.core.executed| < |w.core.staged|
    requires v.core.executed == w.core.executed + [Response(w.core.staged[|w.core.executed|].callback, Some(x.reply))]
    requires v.outcomes == w.outcomes + [Answered(x, Parts(|w.core.executed|, 0, w.core.staged[|w.core.executed|].multiSize))]
    requires x.tag == UserTag(|w.core.executed|, w.core.staged[|w.core.executed|].multiSize)
    ensures OwnReplies(v)
  {}

  lemma DeliverKeepsInv(w: World, cfg: Config, parsed: bool, random: string)
    requires Inv(w) && Enabled(w, cfg, Deliver(parsed, random)) && Normal(cfg)
    ensures Inv(Apply(w, cfg, Deliver(parsed, random)))
  {
    hide Flatten, BytesOf, Pending, NonPush, OutcomeOk;
    var c, x := w.core, w.wire[0];
    if cfg.transparentUnavailable && IsUnavailable(x.reply) {
      RefusalKeepsInv(w, c, w.wire[1..], Apply(w, cfg, Deliver(parsed, random)).swallowed);
    } else if c.inHandshake {
      HandshakeReplyKeepsInv(w, cfg, parsed, random);
    } else if IsPush(x.reply) {
      PushKeepsInv(w, cfg, parsed, random);
    } else {
      NextReplyIsForOldest(w, cfg, parsed, random);
      if c.ignored < c.staged[AckId(c)].multiSize {
        UserPartKeepsInv(w, cfg, parsed, random);
      } else {
        UserAnswerKeepsInv(w, cfg, parsed, random);
      }
    }
  }
}
