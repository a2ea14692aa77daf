/** The persistent queue and the background flusher, as they work on a key-value database. */
module Flusher {
  import opened Common
  import opened Binary
  import opened Durable
  import Resp

  datatype BatchItem = Put(key: Bytes, value: Bytes) | SingleDelete(key: Bytes)

  function WithItem(store: Store, item: BatchItem): Store {
    match item
    case Put(key, value) => store[key := value]
    case SingleDelete(key) => store - {key}
  }

  function Written(store: Store, batch: seq<BatchItem>): Store {
    if batch == [] then store
    else WithItem(Written(store, batch[..|batch| - 1]), batch[|batch| - 1])
  }

  lemma WrittenTwo(store: Store, a: BatchItem, b: BatchItem)
    ensures Written(store, [a, b]) == WithItem(WithItem(store, a), b)
  {
    assert Written(store, [a]) == WithItem(store, a) by { assert [a][..0] == []; }
    assert [a, b][..1] == [a];
  }

  /** What lies on the disk. A batch is written as a whole or not at all. */
  class Database {
    var data: Store

    constructor ()
      ensures data == map[]
    {
      data := map[];
    }

    method Write(batch: seq<BatchItem>)
      modifies this
      ensures data == Written(old(data), batch)
    {
      var i := 0;
      while i < |batch|
        invariant i <= |batch| && data == Written(old(data), batch[..i])
      {
        assert batch[..i + 1][..i] == batch[..i];
        match batch[i] {
          case Put(key, value) => data := data[key := value];
          case SingleDelete(key) => data := data - {key};
        }
        i := i + 1;
      }
      assert batch[..i] == batch;
    }
  }

  method SerializeVector(vec: Operation) returns (data: Bytes)
    ensures data == Serialized(vec)
  {
    hide LengthBytes;
    data := [];
    var i := 0;
    while i < |vec|
      invariant i <= |vec| && data + Serialized(vec[i..]) == Serialized(vec)
    {
      assert vec[i..][1..] == vec[i + 1..] && vec[i..][0] == vec[i];
      assert data + Serialized(vec[i..]) == data + LengthBytes(|vec[i]|) + vec[i] + Serialized(vec[i + 1..]);
      data := data + LengthBytes(|vec[i]|);
      data := data + vec[i];
      i := i + 1;
    }
    assert vec[i..] == [] && data + [] == data;
  }

  lemma NextElement(data: Bytes, pos: nat)
    requires pos < |data| && Deserialized(data[pos..]).Some?
    ensures pos + 8 <= |data|
    ensures
      var len := NativeNumber(data[pos..pos + 8]);
      && pos + 8 + len <= |data| && Deserialized(data[pos + 8 + len..]).Some?
      && Deserialized(data[pos..]).value == [data[pos + 8..pos + 8 + len]] + Deserialized(data[pos + 8 + len..]).value
  {
    hide NativeNumber;
    var left := data[pos..];
    assert |left| >= 8 && left[..8] == data[pos..pos + 8];
    var len := NativeNumber(left[..8]);
    assert left[8..8 + len] == data[pos + 8..pos + 8 + len] && left[8 + len..] == data[pos + 8 + len..];
  }

  /** The source does not look whether a length runs over the end. */
  method DeserializeVector(data: Bytes) returns (vec: Operation)
    requires Deserialized(data).Some?
    ensures Deserialized(data) == Some(vec)
  {
    vec := [];
    var pos := 0;
    assert data[0..] == data;
    assert [] + Deserialized(data).value == Deserialized(data).value;
    assert Deserialized([]) == Some([]);
    hide NativeNumber, Deserialized;
    while pos < |data|
      invariant pos <= |data| && Deserialized(data[pos..]).Some?
      invariant vec + Deserialized(data[pos..]).value == Deserialized(data).value
    {
      NextElement(data, pos);
      var len := NativeNumber(data[pos..pos + 8]);
      pos := pos + 8;
      var x, rest := data[pos..pos + len], Deserialized(data[pos + len..]).value;
      assert vec + ([x] + rest) == (vec + [x]) + rest;
      vec := vec + [x];
      pos := pos + len;
    }
    assert data[pos..] == [];
    assert vec + [] == vec;
  }

  class RocksDBPersistency {
    const db: Database
    var startIndex: int
    var endIndex: int

    /** Opening a database whose counters can be read. */
    constructor (db: Database)
      requires Counter(db.data, START_KEY).Some? && Counter(db.data, END_KEY).Some?
      ensures this.db == db && Some(startIndex) == Counter(db.data, START_KEY) && Some(endIndex) == Counter(db.data, END_KEY)
    {
      this.db := db;
      startIndex := Counter(db.data, START_KEY).value;
      endIndex := Counter(db.data, END_KEY).value;
    }

    /** An unexpected index ends the process before anything is written. */
    method Record(index: int, cmd: Operation) returns (alive: bool)
      modifies this`endIndex, db
      ensures alive <==> index == old(endIndex)
      ensures alive ==> db.data == Recorded(old(db.data), index, cmd) && endIndex == index + 1
      ensures !alive ==> db.data == old(db.data) && endIndex == old(endIndex)
    {
      if index != endIndex { return false; }
      hide KeyOf, Int64Bytes, Serialized;
      var serialization := SerializeVector(cmd);
      var batch := [Put(KeyOf(index), serialization), Put(END_KEY, Int64Bytes(index + 1))];
      WrittenTwo(db.data, batch[0], batch[1]);
      db.Write(batch);
      endIndex := index + 1;
      return true;
    }

    method Retrieve(index: int) returns (ret: Option<Operation>)
      requires KeyOf(index) in db.data ==> Deserialized(db.data[KeyOf(index)]).Some?
      ensures ret == Durable.Retrieve(db.data, index)
    {
      var key := KeyOf(index);
      if key !in db.data { return None; }
      var vec := DeserializeVector(db.data[key]);
      return Some(vec);
    }

    /** Popping an empty queue ends the process. */
    method Pop() returns (alive: bool)
      modifies this`startIndex, db
      ensures alive <==> old(startIndex) < endIndex
      ensures alive ==> db.data == Popped(old(db.data), old(startIndex)) && startIndex == old(startIndex) + 1
      ensures !alive ==> db.data == old(db.data) && startIndex == old(startIndex)
    {
      if startIndex >= endIndex { return false; }
      hide KeyOf, Int64Bytes;
      var batch := [SingleDelete(KeyOf(startIndex)), Put(START_KEY, Int64Bytes(startIndex + 1))];
      WrittenTwo(db.data, batch[0], batch[1]);
      db.Write(batch);
      startIndex := startIndex + 1;
      return true;
    }
  }

  class BackgroundFlusher {
    const persistency: RocksDBPersistency
    /** What the QClient was given to execute, in order, and how many replies it has handed back. */
    var executed: seq<Operation>
    var answered: nat
    var enqueued: int
    var acknowledged: int
    var inShutdown: bool
    ghost var recovering: bool
    ghost var next: int

    ghost function Model(): Process
      reads this, persistency
    {
      Process(persistency.startIndex, persistency.endIndex, recovering, next, None, executed, answered)
    }

    ghost function Footprint(): set<object> { {this, persistency, persistency.db} }

    constructor (persistency: RocksDBPersistency)
      ensures this.persistency == persistency && !inShutdown && enqueued == acknowledged == 0
      ensures
        var p := persistency;
        Model() == Process(p.startIndex, p.endIndex, true, p.startIndex, None, [], 0)
    {
      this.persistency := persistency;
      executed, answered, enqueued, acknowledged, inShutdown := [], 0, 0, 0, false;
      recovering, next := true, persistency.startIndex;
    }

    /** The rest of the constructor: everything stored is executed again. An entry that is missing ends
        the process. */
    method Restore() returns (alive: bool)
      requires recovering && next == persistency.startIndex <= persistency.endIndex && executed == [] && answered == 0
      requires forall i :: KeyOf(i) in persistency.db.data ==> Deserialized(persistency.db.data[KeyOf(i)]).Some?
      modifies this`executed, this`next, this`recovering
      ensures
        var p := persistency;
        var stored := Stored(p.db.data, p.startIndex, p.endIndex);
        && (alive <==> None !in stored)
        && (alive ==> Model() == Process(p.startIndex, p.endIndex, false, p.endIndex, None, executed, 0)
                      && |executed| == |stored| && forall k :: 0 <= k < |stored| ==> stored[k] == Some(executed[k]))
    {
      hide Deserialized, KeyOf, Durable.Retrieve;
      ghost var stored := Stored(persistency.db.data, persistency.startIndex, persistency.endIndex);
      StoredLength(persistency.db.data, persistency.startIndex, persistency.endIndex);
      var i := persistency.startIndex;
      while i != persistency.endIndex
        invariant persistency.startIndex <= i <= persistency.endIndex && next == i && recovering && answered == 0
        invariant |executed| == i - persistency.startIndex
        invariant forall k :: 0 <= k < |executed| ==> stored[k] == Some(executed[k])
        decreases persistency.endIndex - i
      {
        var contents := persistency.Retrieve(i);
        StoredAt(persistency.db.data, persistency.startIndex, persistency.endIndex, i);
        if contents.None? {
          assert stored[i - persistency.startIndex] == None;
          return false;
        }
        executed := executed + [contents.value];
        i := i + 1;
        next := i;
      }
      recovering := false;
      return true;
    }

    /** Recorded first, and only then executed: both steps of a push. */
    method PushRequest(operation: Operation)
      requires !recovering && next == persistency.endIndex
      modifies Footprint()
      ensures persistency.db.data == Recorded(old(persistency.db.data), old(persistency.endIndex), operation)
      ensures
        var p := old(Model());
        Model() == p.(endIndex := p.endIndex + 1, next := p.next + 1, executed := p.executed + [operation])
      ensures enqueued == old(enqueued) + 1 && acknowledged == old(acknowledged) && inShutdown == old(inShutdown)
    {
      var _ := persistency.Record(persistency.endIndex, operation);
      executed := executed + [operation];
      next := next + 1;
      enqueued := enqueued + 1;
    }

    method ItemWasAcknowledged() returns (alive: bool)
      requires answered < |executed|
      modifies Footprint()
      ensures alive <==> old(persistency.startIndex) < old(persistency.endIndex)
      ensures alive ==>
        var p := old(Model());
        && persistency.db.data == Popped(old(persistency.db.data), p.startIndex)
        && Model() == p.(startIndex := p.startIndex + 1, answered := p.answered + 1)
        && acknowledged == old(acknowledged) + 1
      ensures !alive ==> persistency.db.data == old(persistency.db.data)
    {
      alive := persistency.Pop();
      if !alive { return; }
      answered := answered + 1;
      acknowledged := acknowledged + 1;
    }

    /** A reply to an operation in flight, whichever it is: the oldest record goes. No reply, or an error, ends the process without
        touching the store; only during shutdown is a missing reply ignored. */
    method HandleResponse(reply: Option<Resp.Reply>) returns (alive: bool)
      requires answered < |executed|
      modifies Footprint()
      ensures
        var p := old(Model());
        match reply
        case None =>
          alive == old(inShutdown) && persistency.db.data == old(persistency.db.data) && Model() == p
        case Some(Error(_)) => !alive && persistency.db.data == old(persistency.db.data) && Model() == p
        case Some(_) =>
          && (alive <==> p.startIndex < p.endIndex)
          && (alive ==> persistency.db.data == Popped(old(persistency.db.data), p.startIndex)
                        && Model() == p.(startIndex := p.startIndex + 1, answered := p.answered + 1))
    {
      if reply.None? { return inShutdown; }
      if reply.value.Error? { return false; }
      alive := ItemWasAcknowledged();
    }
  }

  lemma {:induction false} StoredLength(store: Store, from: int, upto: int)
    requires from <= upto
    ensures |Stored(store, from, upto)| == upto - from
    decreases upto - from
  {
    if from < upto { StoredLength(store, from + 1, upto); }
  }

  lemma {:induction false} StoredAt(store: Store, from: int, upto: int, i: int)
    requires from <= i < upto
    ensures |Stored(store, from, upto)| == upto - from && Stored(store, from, upto)[i - from] == Retrieve(store, i)
    decreases upto - from
  {
    hide Retrieve;
    StoredLength(store, from, upto);
    if from < i {
      StoredAt(store, from + 1, upto, i);
      assert Stored(store, from, upto)[i - from] == Stored(store, from + 1, upto)[i - from - 1];
    }
  }

  /** The two steps of a push, as events of the queue's runs. */
  lemma PushIsTwoEvents(w: World, op: Operation)
    requires Inv(w) && Enabled(w, Record(op))
    ensures
      var p := w.process.value;
      match After(w, [Record(op), Execute])
      case None => false
      case Some(v) =>
        && v.store == Recorded(w.store, p.endIndex, op)
        && v.process == Some(p.(endIndex := p.endIndex + 1, next := p.next + 1, executed := p.executed + [op]))
  {
    hide Recorded, Inv;
    assert [Record(op), Execute][1..] == [Execute] && [Execute][1..] == [];
    assert After(w, [Record(op), Execute]) == After(Apply(w, Record(op)), [Execute]);
  }
}
