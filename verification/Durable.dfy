/** A queue of operations in a key-value store, and the flusher that executes them: what survives
    crashes at any point, and what a restart executes again. */
module Durable {
  import opened Common
  import opened Binary

  type Operation = seq<Bytes>

  type Store = map<Bytes, Bytes>

  // ---- one operation as bytes ----

  /** The n low bytes of u, least significant first, as memcpy sees them on a little-endian host. */
  function LittleEndian(u: nat, n: nat): (b: Bytes)
    ensures |b| == n
    decreases n
  {
    if n == 0 then [] else [(u % 256) as char] + LittleEndian(u / 256, n - 1)
  }

  function NativeNumber(b: Bytes): nat {
    if b == [] then 0 else b[0] as nat + 256 * NativeNumber(b[1..])
  }

  lemma {:induction false} NativeThereAndBack(u: nat, n: nat)
    requires u < Pow256(n)
    ensures NativeNumber(LittleEndian(u, n)) == u
    decreases n
  {
    if n > 0 {
      NativeThereAndBack(u / 256, n - 1);
      assert LittleEndian(u, n)[1..] == LittleEndian(u / 256, n - 1);
    }
  }

  function LengthBytes(n: nat): (b: Bytes)
    ensures |b| == 8
  {
    LittleEndian(n, 8)
  }

  function Serialized(op: Operation): Bytes {
    if op == [] then []
    else LengthBytes(|op[0]|) + op[0] + Serialized(op[1..])
  }

  /** Reading element after element; it must not run over the end. */
  function Deserialized(data: Bytes): Option<Operation>
    decreases |data|
  {
    if data == [] then Some([])
    else if |data| < 8 then None
    else
      var n := NativeNumber(data[..8]);
      if |data| - 8 < n then None
      else
        match Deserialized(data[8 + n..])
        case None => None
        case Some(rest) => Some([data[8..8 + n]] + rest)
  }

  predicate Short(op: Operation) {
    forall i :: 0 <= i < |op| ==> |op[i]| <= INT64_MAX
  }

  /** Whatever was recorded is read back as it was. */
  lemma {:induction false} OperationRoundTrip(op: Operation)
    requires Short(op)
    ensures Deserialized(Serialized(op)) == Some(op)
    decreases |op|
  {
    if op != [] {
      OperationRoundTrip(op[1..]);
      EightBytesAreEnough();
      NativeThereAndBack(|op[0]|, 8);
      OneElement(Serialized(op), op[0], Serialized(op[1..]));
      assert [op[0]] + op[1..] == op;
    }
  }

  lemma OneElement(data: Bytes, x: Bytes, rest: Bytes)
    requires data == LengthBytes(|x|) + x + rest && NativeNumber(LengthBytes(|x|)) == |x|
    ensures |data| >= 8 + |x| && NativeNumber(data[..8]) == |x| && data[8..8 + |x|] == x && data[8 + |x|..] == rest
  {
    hide LengthBytes, NativeNumber;
    assert data[..8] == LengthBytes(|x|);
  }

  // ---- the store ----

  const START_KEY: Bytes := "START-INDEX"
  const END_KEY: Bytes := "END-INDEX"

  function KeyOf(index: int): (k: Bytes)
    ensures k != START_KEY && k != END_KEY
  {
    var k: Bytes := "I" + Int64Bytes(index) + "\n";
    assert |k| == 10;
    k
  }

  lemma KeysDiffer(i: int, j: int)
    requires IsInt64(i) && IsInt64(j) && i != j
    ensures KeyOf(i) != KeyOf(j)
  {
    assert KeyOf(i)[1..9] == Int64Bytes(i) && KeyOf(j)[1..9] == Int64Bytes(j);
    Int64ThereAndBack(i);
    Int64ThereAndBack(j);
  }

  /** A counter that is not there yet is zero; one of the wrong size is a corruption. */
  function Counter(store: Store, key: Bytes): Option<int> {
    if key !in store then Some(0) else if |store[key]| != 8 then None else Some(Int64From(store[key]))
  }

  function Recorded(store: Store, index: int, op: Operation): Store {
    store[KeyOf(index) := Serialized(op)][END_KEY := Int64Bytes(index + 1)]
  }

  function Popped(store: Store, start: int): Store {
    (store - {KeyOf(start)})[START_KEY := Int64Bytes(start + 1)]
  }

  function Retrieve(store: Store, index: int): Option<Operation> {
    if KeyOf(index) !in store then None else Deserialized(store[KeyOf(index)])
  }

  /** The store holds exactly the operations that were pushed and not popped, in order. */
  ghost predicate Holds(store: Store, pushed: seq<Operation>, popped: nat) {
    && popped <= |pushed| <= INT64_MAX
    && Counter(store, START_KEY) == Some(popped) && Counter(store, END_KEY) == Some(|pushed|)
    && (forall i :: IsInt64(i) ==> (KeyOf(i) in store <==> popped <= i < |pushed|))
    && (forall i :: popped <= i < |pushed| ==> Retrieve(store, i) == Some(pushed[i]))
  }

  lemma RecordedHolds(store: Store, pushed: seq<Operation>, popped: nat, op: Operation)
    requires Holds(store, pushed, popped) && |pushed| < INT64_MAX && Short(op)
    ensures Holds(Recorded(store, |pushed|, op), pushed + [op], popped)
  {
    hide KeyOf, Int64Bytes, Int64From, Serialized, Deserialized, Short;
    var s, n := Recorded(store, |pushed|, op), |pushed|;
    OperationRoundTrip(op);
    Int64ThereAndBack(n + 1);
    forall i | IsInt64(i) ensures KeyOf(i) in s <==> popped <= i < n + 1 {
      if i != n { KeysDiffer(i, n); }
    }
    forall i | popped <= i < n + 1 ensures Retrieve(s, i) == Some((pushed + [op])[i]) {
      if i != n { KeysDiffer(i, n); assert Retrieve(store, i) == Some(pushed[i]); }
    }
  }

  lemma PoppedHolds(store: Store, pushed: seq<Operation>, popped: nat)
    requires Holds(store, pushed, popped) && popped < |pushed|
    ensures Holds(Popped(store, popped), pushed, popped + 1)
  {
    hide KeyOf, Int64Bytes, Int64From, Deserialized;
    var s := Popped(store, popped);
    Int64ThereAndBack(popped + 1);
    forall i | IsInt64(i) ensures KeyOf(i) in s <==> popped + 1 <= i < |pushed| {
      if i != popped { KeysDiffer(i, popped); }
    }
    forall i | popped + 1 <= i < |pushed| ensures Retrieve(s, i) == Some(pushed[i]) {
      KeysDiffer(i, popped);
      assert Retrieve(store, i) == Some(pushed[i]);
    }
  }

  // ---- whole runs ----

  /** A flusher that is up. Recovery has reached index next; a push that has been recorded may not have
      been executed yet. Of the operations executed since it is up, the first so many are answered. */
  datatype Process = Process(startIndex: int, endIndex: int, recovering: bool, next: int, half: Option<Operation>,
                             executed: seq<Operation>, answered: nat)
  {
    function Pending(): seq<Operation>
      requires answered <= |executed|
    {
      executed[answered..]
    }

    /** Where the operation executed as number k is stored until it is acknowledged. */
    function IndexOf(k: nat): int { startIndex - answered + k }
  }

  datatype World = World(store: Store, process: Option<Process>, pushed: seq<Operation>, acknowledged: seq<Operation>)

  /** A reply says which operation of this process it is for, by its number. They come in the order in
      which the operations were executed (module FlusherSystem). A crash may come between any two of
      these; error and null replies end the process too. */
  datatype Event =
    | Boot
    | Recover
    | Ready
    | Record(op: Operation)
    | Execute
    | Acknowledge(k: nat)
    | Crash

  const START := World(map[], None, [], [])

  predicate Up(w: World) { w.process.Some? }

  predicate MayRecover(store: Store, p: Process) {
    p.recovering && p.next != p.endIndex && Retrieve(store, p.next).Some?
  }

  predicate MayRecord(p: Process, op: Operation) {
    !p.recovering && p.half.None? && Short(op) && p.endIndex < INT64_MAX
  }

  predicate Enabled(w: World, e: Event) {
    match e
    case Boot => !Up(w) && Counter(w.store, START_KEY).Some? && Counter(w.store, END_KEY).Some?
    case Crash => Up(w)
    case Recover => Up(w) && MayRecover(w.store, w.process.value)
    case Ready => Up(w) && w.process.value.recovering && w.process.value.next == w.process.value.endIndex
    case Record(op) => Up(w) && MayRecord(w.process.value, op)
    case Execute => Up(w) && w.process.value.half.Some?
    case Acknowledge(k) => Up(w) && k == w.process.value.answered < |w.process.value.executed|
  }

  /** What the process does on a reply, whichever operation it is for: the oldest record goes. */
  function Acknowledged(w: World, k: nat): World
    requires Up(w) && k < |w.process.value.executed|
  {
    var p := w.process.value;
    w.(store := Popped(w.store, p.startIndex), acknowledged := w.acknowledged + [p.executed[k]],
       process := Some(p.(startIndex := p.startIndex + 1, answered := p.answered + 1)))
  }

  function Apply(w: World, e: Event): World
    requires Enabled(w, e)
  {
    match e
    case Boot =>
      var start, end := Counter(w.store, START_KEY).value, Counter(w.store, END_KEY).value;
      w.(process := Some(Process(start, end, true, start, None, [], 0)))
    case Crash => w.(process := None)
    case Recover =>
      var p := w.process.value;
      w.(process := Some(p.(next := p.next + 1, executed := p.executed + [Retrieve(w.store, p.next).value])))
    case Ready =>
      var p := w.process.value;
      w.(process := Some(p.(recovering := false)))
    case Record(op) =>
      var p := w.process.value;
      w.(store := Recorded(w.store, p.endIndex, op), pushed := w.pushed + [op],
         process := Some(p.(endIndex := p.endIndex + 1, half := Some(op))))
    case Execute =>
      var p := w.process.value;
      w.(process := Some(p.(half := None, next := p.next + 1, executed := p.executed + [p.half.value])))
    case Acknowledge(k) => Acknowledged(w, k)
  }

  function After(w: World, events: seq<Event>): Option<World>
    decreases |events|
  {
    if events == [] then Some(w)
    else if !Enabled(w, events[0]) then None
    else After(Apply(w, events[0]), events[1..])
  }

  ghost predicate Reachable(w: World) {
    exists events :: After(START, events) == Some(w)
  }

  /** What the process knows agrees with the store. */
  predicate ProcessOk(p: Process, pushed: seq<Operation>, popped: nat) {
    && p.startIndex == popped <= p.next <= p.endIndex == |pushed|
    && p.answered <= |p.executed| && p.Pending() == pushed[popped..p.next]
    && (p.recovering ==> p.half == None)
    && (!p.recovering ==> pushed[p.next..] == match p.half case None => [] case Some(op) => [op])
  }

  ghost predicate Inv(w: World) {
    && Holds(w.store, w.pushed, |w.acknowledged|)
    && w.acknowledged == w.pushed[..|w.acknowledged|]
    && (w.process.Some? ==> ProcessOk(w.process.value, w.pushed, |w.acknowledged|))
  }

  lemma RecordKeepsProcess(p: Process, pushed: seq<Operation>, popped: nat, op: Operation)
    requires ProcessOk(p, pushed, popped) && !p.recovering && p.half.None?
    ensures ProcessOk(p.(endIndex := p.endIndex + 1, half := Some(op)), pushed + [op], popped)
  {
    assert p.next == |pushed|;
    assert (pushed + [op])[p.next..] == [op] && (pushed + [op])[popped..p.next] == pushed[popped..p.next];
  }

  lemma RecordEffect(w: World, op: Operation)
    requires Enabled(w, Record(op))
    ensures
      var p, v := w.process.value, Apply(w, Record(op));
      && v.process == Some(p.(endIndex := p.endIndex + 1, half := Some(op))) && v.store == Recorded(w.store, p.endIndex, op)
      && v.pushed == w.pushed + [op] && v.acknowledged == w.acknowledged
      && !p.recovering && p.half.None? && Short(op) && p.endIndex < INT64_MAX
  {}

  lemma RecordKeepsInv(w: World, op: Operation)
    requires Inv(w) && Enabled(w, Record(op))
    ensures Inv(Apply(w, Record(op)))
  {
    RecordKeepsProcess(w.process.value, w.pushed, |w.acknowledged|, op);
    RecordEffect(w, op);
    hide Apply, Enabled;
    RecordedHolds(w.store, w.pushed, |w.acknowledged|, op);
    hide ProcessOk, Recorded, Short, Holds, Retrieve, Counter, Popped, MayRecover;
    assert (w.pushed + [op])[..|w.acknowledged|] == w.pushed[..|w.acknowledged|];
  }

  lemma AcknowledgeKeepsProcess(p: Process, pushed: seq<Operation>, popped: nat)
    requires ProcessOk(p, pushed, popped) && p.answered < |p.executed|
    ensures popped < |pushed| && p.executed[p.answered] == pushed[popped]
    ensures ProcessOk(p.(startIndex := p.startIndex + 1, answered := p.answered + 1), pushed, popped + 1)
  {
    assert p.executed[p.answered] == p.Pending()[0];
    assert p.executed[p.answered + 1..] == p.Pending()[1..] == pushed[popped + 1..p.next];
  }

  lemma AcknowledgeEffect(w: World, k: nat)
    requires Enabled(w, Acknowledge(k))
    ensures
      var p, v := w.process.value, Apply(w, Acknowledge(k));
      && k == p.answered < |p.executed| && v.pushed == w.pushed && v.acknowledged == w.acknowledged + [p.executed[k]]
      && v.store == Popped(w.store, p.startIndex)
      && v.process == Some(p.(startIndex := p.startIndex + 1, answered := p.answered + 1))
  {
    hide Popped;
  }

  lemma InvParts(w: World)
    requires Inv(w) && w.process.Some?
    ensures Holds(w.store, w.pushed, |w.acknowledged|) && w.acknowledged == w.pushed[..|w.acknowledged|]
    ensures ProcessOk(w.process.value, w.pushed, |w.acknowledged|) && w.process.value.startIndex == |w.acknowledged|
  {
    hide Holds;
  }

  lemma AcknowledgeKeepsInv(w: World, k: nat)
    requires Inv(w) && Enabled(w, Acknowledge(k))
    ensures Inv(Apply(w, Acknowledge(k)))
  {
    var n, v := |w.acknowledged|, Apply(w, Acknowledge(k));
    AcknowledgeEffect(w, k);
    InvParts(w);
    hide Apply, Enabled, ProcessOk, Popped, Holds;
    AcknowledgeKeepsProcess(w.process.value, w.pushed, n);
    PoppedHolds(w.store, w.pushed, n);
    assert w.pushed[..n + 1] == w.pushed[..n] + [w.pushed[n]] == v.acknowledged;
  }

  lemma ExecuteEffect(w: World, e: Event)
    requires Enabled(w, e) && (e.Recover? || e.Execute?)
    requires e.Recover? ==> Retrieve(w.store, w.process.value.next).Some?
    ensures
      var p, v := w.process.value, Apply(w, e);
      var op := if e.Recover? then Retrieve(w.store, p.next).value else p.half.GetOr([]);
      v == w.(process := Some(p.(half := if e.Recover? then p.half else None, next := p.next + 1, executed := p.executed + [op])))
  {
    hide Retrieve;
  }

  lemma ExecuteKeepsProcess(p: Process, q: Process, pushed: seq<Operation>, popped: nat)
    requires ProcessOk(p, pushed, popped) && p.next < |pushed|
    requires q == p.(half := q.half, next := p.next + 1, executed := p.executed + [pushed[p.next]])
    requires q.half == if p.recovering then p.half else None
    ensures ProcessOk(q, pushed, popped)
  {
    assert q.Pending() == p.Pending() + [pushed[p.next]] == pushed[popped..p.next + 1];
    assert pushed[p.next..][1..] == pushed[p.next + 1..];
  }

  lemma ExecuteKeepsInv(w: World, e: Event)
    requires Inv(w) && Enabled(w, e) && (e.Recover? || e.Execute?)
    ensures Inv(Apply(w, e))
  {
    var p := w.process.value;
    InvParts(w);
    NextToExecute(w, e);
    ExecuteEffect(w, e);
    hide Apply, Enabled, Holds, Retrieve;
    ExecuteKeepsProcess(p, Apply(w, e).process.value, w.pushed, |w.acknowledged|);
    hide ProcessOk;
  }

  lemma NextToExecute(w: World, e: Event)
    requires Inv(w) && Enabled(w, e) && (e.Recover? || e.Execute?)
    ensures
      var p := w.process.value;
      && 0 <= p.next < |w.pushed| && (e.Recover? <==> p.recovering)
      && (if e.Recover? then Retrieve(w.store, p.next) == Some(w.pushed[p.next]) else p.half == Some(w.pushed[p.next]))
  {
    hide Deserialized, KeyOf, Counter;
    var p := w.process.value;
    if e.Execute? { assert w.pushed[p.next..] == [p.half.value]; }
  }

  lemma BootKeepsInv(w: World)
    requires Inv(w) && Enabled(w, Boot)
    ensures Inv(Apply(w, Boot))
  {
    assert w.pushed[|w.acknowledged|..|w.acknowledged|] == [];
    hide Retrieve, KeyOf, Int64From;
  }

  lemma ReadyOrCrashKeepsInv(w: World, e: Event)
    requires Inv(w) && Enabled(w, e) && (e.Ready? || e.Crash?)
    ensures Inv(Apply(w, e))
  {
    hide Holds;
  }

  lemma StepKeepsInv(w: World, e: Event)
    requires Inv(w) && Enabled(w, e)
    ensures Inv(Apply(w, e))
  {
    hide Inv, Apply, Enabled;
    match e
    case Record(op) => RecordKeepsInv(w, op);
    case Acknowledge(k) => AcknowledgeKeepsInv(w, k);
    case Execute => ExecuteKeepsInv(w, e);
    case Recover => ExecuteKeepsInv(w, e);
    case Boot => BootKeepsInv(w);
    case _ => ReadyOrCrashKeepsInv(w, e);
  }

  lemma {:induction false} RunKeepsInv(w: World, events: seq<Event>)
    requires Inv(w)
    ensures After(w, events).Some? ==> Inv(After(w, events).value)
    decreases |events|
  {
    hide Inv, Apply, Enabled;
    if events != [] && Enabled(w, events[0]) {
      StepKeepsInv(w, events[0]);
      RunKeepsInv(Apply(w, events[0]), events[1..]);
    }
  }

  lemma ReachableIsOk(w: World)
    requires Reachable(w)
    ensures Inv(w)
  {
    var events :| After(START, events) == Some(w);
    RunKeepsInv(START, events);
  }

  lemma {:induction false} OneMoreEvent(w: World, events: seq<Event>, e: Event)
    requires After(w, events).Some? && Enabled(After(w, events).value, e)
    ensures After(w, events + [e]) == Some(Apply(After(w, events).value, e))
    decreases |events|
  {
    hide Apply, Enabled;
    if events == [] {
      assert [] + [e] == [e] && [e][1..] == [];
      assert After(w, [e]) == After(Apply(w, e), []);
    } else {
      assert (events + [e])[1..] == events[1..] + [e];
      OneMoreEvent(Apply(w, events[0]), events[1..], e);
    }
  }

  lemma StaysReachable(w: World, e: Event)
    requires Reachable(w) && Enabled(w, e)
    ensures Reachable(Apply(w, e))
  {
    hide After, Apply, Enabled;
    var events :| After(START, events) == Some(w);
    OneMoreEvent(START, events, e);
  }

  // ---- main results ----

  /** The operations between two indices of the store, as far as they can be read. */
  function Stored(store: Store, from: int, upto: int): seq<Option<Operation>>
    decreases if from < upto then upto - from else 0
  {
    if from >= upto then [] else [Retrieve(store, from)] + Stored(store, from + 1, upto)
  }

  lemma {:induction false} StoredIsHeld(store: Store, pushed: seq<Operation>, popped: nat, from: nat)
    requires Holds(store, pushed, popped) && popped <= from <= |pushed|
    ensures
      var s := Stored(store, from, |pushed|);
      |s| == |pushed| - from && forall i :: 0 <= i < |s| ==> s[i] == Some(pushed[from + i])
    decreases |pushed| - from
  {
    hide Retrieve, KeyOf, Counter;
    if from < |pushed| {
      StoredIsHeld(store, pushed, popped, from + 1);
    }
  }

  /** At every point of every run, crashed or not, the acknowledged operations and the stored ones
      together are, in order, exactly the operations pushed; each is stored, readable, until its own
      acknowledgement and nothing else is stored. */
  lemma NothingLost(w: World)
    requires Reachable(w)
    ensures Counter(w.store, START_KEY) == Some(|w.acknowledged|) && Counter(w.store, END_KEY) == Some(|w.pushed|)
    ensures w.acknowledged <= w.pushed
    ensures
      var s := Stored(w.store, |w.acknowledged|, |w.pushed|);
      && |s| == |w.pushed| - |w.acknowledged|
      && forall i :: 0 <= i < |s| ==> s[i] == Some(w.pushed[|w.acknowledged| + i])
    ensures forall i :: IsInt64(i) ==> (KeyOf(i) in w.store <==> |w.acknowledged| <= i < |w.pushed|)
  {
    hide Retrieve, KeyOf, Counter, Reachable, ProcessOk, Holds, Stored;
    ReachableIsOk(w);
    HeldKeys(w.store, w.pushed, |w.acknowledged|);
    StoredIsHeld(w.store, w.pushed, |w.acknowledged|, |w.acknowledged|);
  }

  lemma HeldKeys(store: Store, pushed: seq<Operation>, popped: nat)
    requires Holds(store, pushed, popped)
    ensures popped <= |pushed| && Counter(store, START_KEY) == Some(popped) && Counter(store, END_KEY) == Some(|pushed|)
    ensures forall i :: IsInt64(i) ==> (KeyOf(i) in store <==> popped <= i < |pushed|)
  {
    hide Retrieve, KeyOf, Counter;
  }

  lemma RecordOf(w: World, k: nat)
    requires Inv(w) && w.process.Some? && w.process.value.answered <= k < |w.process.value.executed|
    ensures
      var p := w.process.value;
      && IsInt64(p.startIndex) && IsInt64(p.IndexOf(k)) && KeyOf(p.IndexOf(k)) in w.store
      && Retrieve(w.store, p.IndexOf(k)) == Some(p.executed[k])
  {
    hide Deserialized, Counter;
    var p := w.process.value;
    assert p.executed[k] == p.Pending()[k - p.answered] == w.pushed[p.IndexOf(k)];
    assert Retrieve(w.store, p.IndexOf(k)) == Some(w.pushed[p.IndexOf(k)]);
  }

  /** Whatever reply comes, pop() removes the oldest record. Each operation that waits for its reply,
      say number k, has a record; it is the one removed by its own reply if and only if no older
      operation waits. */
  lemma PopMatchesReply(w: World, k: nat)
    requires Reachable(w) && w.process.Some? && w.process.value.answered <= k < |w.process.value.executed|
    ensures
      var p := w.process.value;
      && KeyOf(p.IndexOf(k)) in w.store && Retrieve(w.store, p.IndexOf(k)) == Some(p.executed[k])
      && (KeyOf(p.IndexOf(k)) !in Popped(w.store, p.startIndex) <==> k == p.answered)
      && Popped(w.store, p.startIndex).Keys == w.store.Keys - {KeyOf(p.startIndex)} + {START_KEY}
      && forall key :: key in w.store && key != KeyOf(p.startIndex) && key != START_KEY ==>
        Popped(w.store, p.startIndex)[key] == w.store[key]
  {
    ReachableIsOk(w);
    RecordOf(w, k);
    hide Inv, Retrieve, KeyOf;
    var p := w.process.value;
    if k != p.answered { KeysDiffer(p.IndexOf(k), p.startIndex); }
  }

  function Recoveries(n: nat): seq<Event> {
    if n == 0 then [] else [Recover] + Recoveries(n - 1)
  }

  /** After a crash, at whatever point, a restart executes again exactly the operations that were
      pushed and not acknowledged, in order. */
  lemma RestartExecutesUnacknowledged(w: World)
    requires Reachable(w) && w.process.None?
    ensures
      var n := |w.pushed| - |w.acknowledged|;
      && n >= 0
      && match After(w, [Boot] + Recoveries(n) + [Ready])
         case None => false
         case Some(v) =>
           && v.process.Some? && v.process.value.executed == w.pushed[|w.acknowledged|..] && v.process.value.answered == 0
           && !v.process.value.recovering && v.store == w.store
  {
    hide Reachable, Holds, Apply, Enabled, After, Recoveries, ProcessOk;
    ReachableIsOk(w);
    HeldKeys(w.store, w.pushed, |w.acknowledged|);
    BootStep(w);
    hide Inv;
    var n, u := |w.pushed| - |w.acknowledged|, Apply(w, Boot);
    StepKeepsInv(w, Boot);
    assert [Boot] + Recoveries(n) + [Ready] == [Boot] + (Recoveries(n) + [Ready]);
    FirstEvent(w, Boot, Recoveries(n) + [Ready]);
    RecoveryFinishes(u, n);
  }

  lemma FirstEvent(w: World, e: Event, rest: seq<Event>)
    requires Enabled(w, e)
    ensures After(w, [e] + rest) == After(Apply(w, e), rest)
  {
    hide Apply, Enabled;
    assert ([e] + rest)[1..] == rest;
  }

  lemma RecoverStep(w: World)
    requires Inv(w) && w.process.Some? && w.process.value.recovering && w.process.value.next < w.process.value.endIndex
    ensures Enabled(w, Recover)
    ensures
      var v := Apply(w, Recover);
      && v.store == w.store && v.pushed == w.pushed && v.acknowledged == w.acknowledged
      && v.process.Some? && v.process.value.recovering
      && v.process.value.next == w.process.value.next + 1 && v.process.value.endIndex == w.process.value.endIndex
      && v.process.value.answered == w.process.value.answered
  {
    assert Retrieve(w.store, w.process.value.next) == Some(w.pushed[w.process.value.next]);
  }

  lemma ReadyStep(w: World)
    requires Inv(w) && w.process.Some? && w.process.value.recovering && w.process.value.next == w.process.value.endIndex
    requires w.process.value.answered == 0
    ensures Enabled(w, Ready)
    ensures
      var v := Apply(w, Ready);
      && v.store == w.store && v.process.Some? && !v.process.value.recovering
      && v.process.value.executed == w.pushed[|w.acknowledged|..] && v.process.value.answered == 0
  {
    hide Holds;
    assert w.process.value.Pending() == w.process.value.executed;
    assert w.pushed[|w.acknowledged|..|w.pushed|] == w.pushed[|w.acknowledged|..];
  }

  lemma {:induction false} RecoveryFinishes(w: World, n: nat)
    requires Inv(w) && w.process.Some? && w.process.value.recovering && n == w.process.value.endIndex - w.process.value.next
    requires w.process.value.answered == 0
    ensures
      match After(w, Recoveries(n) + [Ready])
      case None => false
      case Some(v) =>
        && v.process.Some? && v.process.value.executed == w.pushed[|w.acknowledged|..] && v.process.value.answered == 0
        && !v.process.value.recovering && v.store == w.store
    decreases n
  {
    hide Inv, Apply, Enabled;
    if n == 0 {
      ReadyStep(w);
      assert [] + [Ready] == [Ready] && [Ready][1..] == [];
    } else {
      RecoverStep(w);
      assert (Recoveries(n) + [Ready])[1..] == Recoveries(n - 1) + [Ready];
      StepKeepsInv(w, Recover);
      RecoveryFinishes(Apply(w, Recover), n - 1);
    }
  }

  lemma BootStep(w: World)
    requires Inv(w) && w.process.None?
    ensures Enabled(w, Boot)
    ensures
      var v := Apply(w, Boot);
      && v.store == w.store && v.pushed == w.pushed && v.acknowledged == w.acknowledged
      && v.process == Some(Process(|w.acknowledged|, |w.pushed|, true, |w.acknowledged|, None, [], 0))
  {}
}
