/** The last N elements put into a set or a map, kept in a ring with counts beside it. */
module LastN {
  import opened Common

  /** The last n elements of a history, or all of them. */
  function LastOf<T>(history: seq<T>, n: nat): (window: seq<T>)
    ensures |window| == if |history| < n then |history| else n
  {
    if |history| < n then history else history[|history| - n..]
  }

  /** One more insert: the oldest element leaves a full window. */
  lemma WindowMoves<T>(history: seq<T>, n: nat, x: T)
    requires 0 < n
    ensures
      var w := LastOf(history, n);
      LastOf(history + [x], n) == (if |history| < n then w else w[1..]) + [x]
  {}

  /** Cells of a ring that hold the last elements of a history, the next one to evict at place next. */
  ghost predicate InRing<T>(cells: seq<T>, next: nat, rollover: bool, history: seq<T>) {
    && next < |cells|
    && (rollover <==> |cells| <= |history|)
    && LastOf(history, |cells|) == (if rollover then cells[next..] + cells[..next] else cells[..next])
  }

  lemma InRingAfterInsert<T>(cells: seq<T>, next: nat, rollover: bool, history: seq<T>, x: T)
    requires InRing(cells, next, rollover, history)
    ensures
      var last := next + 1 == |cells|;
      InRing(cells[next := x], if last then 0 else next + 1, rollover || last, history + [x])
  {
    WindowMoves(history, |cells|, x);
    var w, d := LastOf(history, |cells|), cells[next := x];
    var kept := if rollover then w[1..] else w;
    assert d[..next + 1] == cells[..next] + [x] && d[next + 1..] == cells[next + 1..];
    if rollover {
      assert kept == cells[next + 1..] + cells[..next];
      assert kept + [x] == d[next + 1..] + d[..next + 1];
    } else {
      assert |history| == next && kept + [x] == d[..next + 1];
    }
    if next + 1 == |cells| {
      assert d[next + 1..] == [] && d[..next + 1] == d && d[0..] == d && d[..0] == [];
      assert kept + [x] == d == d[0..] + d[..0];
    }
  }

  class RingBuffer<T(0)> {
    const ring: array<T>
    var nextToEvict: nat
    var rollover: bool
    /** Everything ever put in. */
    ghost var history: seq<T>

    ghost predicate Valid()
      reads this, ring
    {
      nextToEvict < ring.Length && InRing(ring[..], nextToEvict, rollover, history)
    }

    constructor (n: nat)
      requires 0 < n
      ensures Valid() && fresh(ring) && ring.Length == n && history == []
    {
      ring := new T[n];
      nextToEvict, rollover, history := 0, false, [];
    }

    method EmplaceBack(x: T)
      requires Valid()
      modifies this, ring
      ensures Valid() && history == old(history) + [x]
    {
      hide InRing, LastOf;
      InRingAfterInsert(ring[..], nextToEvict, rollover, history, x);
      history := history + [x];
      ring[nextToEvict] := x;
      assert ring[..] == old(ring[..])[nextToEvict := x];
      nextToEvict := nextToEvict + 1;
      if nextToEvict >= ring.Length {
        nextToEvict := 0;
        rollover := true;
      }
    }

    function GetNextToEvict(): (x: T)
      reads this, ring
      requires Valid()
      ensures ring.Length <= |history| ==> x == LastOf(history, ring.Length)[0]
    {
      ring[nextToEvict]
    }

    predicate HasRolledOver()
      reads this, ring
      requires Valid()
      ensures HasRolledOver() <==> ring.Length <= |history|
    {
      rollover
    }
  }

  /** The counts are those of the window, and no count is zero. */
  ghost predicate CountsOf<T>(counts: map<T, nat>, window: seq<T>) {
    && (forall x :: x in counts ==> 0 < counts[x] == multiset(window)[x])
    && forall x :: x in window ==> x in counts
  }

  /** The window without its oldest element, if it is full. */
  function Kept<T>(window: seq<T>, full: bool): seq<T>
    requires full ==> window != []
  {
    if full then window[1..] else window
  }

  function Fewer<T>(counts: map<T, nat>, x: T): map<T, nat> {
    if x !in counts then counts else if counts[x] <= 1 then counts - {x} else counts[x := counts[x] - 1]
  }

  function More<T>(counts: map<T, nat>, x: T): map<T, nat> {
    counts[x := if x in counts then counts[x] + 1 else 1]
  }

  lemma CountsAfterEviction<T>(counts: map<T, nat>, window: seq<T>)
    requires window != [] && CountsOf(counts, window)
    ensures CountsOf(Fewer(counts, window[0]), window[1..])
  {
    assert window == [window[0]] + window[1..];
    assert multiset(window) == multiset{window[0]} + multiset(window[1..]);
    forall y | y in window[1..] ensures multiset(window)[y] > 0 && (y == window[0] ==> counts[y] > 1) {
      assert y in multiset(window[1..]);
    }
  }

  lemma CountsAfterInsert<T>(counts: map<T, nat>, window: seq<T>, x: T)
    requires CountsOf(counts, window)
    ensures CountsOf(More(counts, x), window + [x])
  {
    if x !in counts { assert x !in multiset(window); }
  }

  class LastNSet<T(0, ==)> {
    const mRingBuffer: RingBuffer<T>
    var mSet: map<T, nat>

    ghost predicate Valid()
      reads this, mRingBuffer, mRingBuffer.ring
    {
      mRingBuffer.Valid() && CountsOf(mSet, Window())
    }

    ghost function History(): seq<T>
      reads mRingBuffer
    {
      mRingBuffer.history
    }

    ghost function Window(): seq<T>
      reads mRingBuffer
    {
      LastOf(mRingBuffer.history, mRingBuffer.ring.Length)
    }

    constructor (n: nat)
      requires 0 < n
      ensures Valid() && fresh(mRingBuffer) && fresh(mRingBuffer.ring) && mRingBuffer.ring.Length == n && History() == []
    {
      mRingBuffer := new RingBuffer<T>(n);
      mSet := map[];
    }

    /** Exactly the last N inserts are found. */
    method Query(elem: T) returns (found: bool)
      requires Valid()
      ensures found <==> elem in LastOf(History(), mRingBuffer.ring.Length)
    {
      if elem in mSet { assert elem in multiset(Window()); }
      return elem in mSet;
    }

    method Discount(item: T)
      modifies this`mSet
      ensures mSet == Fewer(old(mSet), item)
    {
      if item in mSet {
        mSet := if mSet[item] <= 1 then mSet - {item} else mSet[item := mSet[item] - 1];
      }
    }

    method Emplace(item: T)
      requires Valid()
      modifies this, mRingBuffer, mRingBuffer.ring
      ensures Valid() && History() == old(History()) + [item]
    {
      hide LastOf, CountsOf, InRing, Fewer;
      WindowMoves(History(), mRingBuffer.ring.Length, item);
      ghost var full := mRingBuffer.ring.Length <= |History()|;
      ghost var kept := Kept(Window(), full);
      if mRingBuffer.HasRolledOver() {
        var oldest := mRingBuffer.GetNextToEvict();
        CountsAfterEviction(mSet, Window());
        Discount(oldest);
      }
      CountsAfterInsert(mSet, kept, item);
      mRingBuffer.EmplaceBack(item);
      mSet := mSet[item := if item in mSet then mSet[item] + 1 else 1];
    }
  }

  /** The value that came with the newest insert of the key. */
  function Newest<K(==), V>(inserts: seq<(K, V)>, key: K): (r: Option<V>) {
    if inserts == [] then None
    else if inserts[|inserts| - 1].0 == key then Some(inserts[|inserts| - 1].1)
    else Newest(inserts[..|inserts| - 1], key)
  }

  lemma {:induction false} NewestIsNewest<K, V>(inserts: seq<(K, V)>, key: K)
    ensures
      match Newest(inserts, key)
      case None => forall i :: 0 <= i < |inserts| ==> inserts[i].0 != key
      case Some(v) =>
        exists i :: 0 <= i < |inserts| && inserts[i] == (key, v) && forall j :: i < j < |inserts| ==> inserts[j].0 != key
  {
    if inserts != [] {
      var init, last := inserts[..|inserts| - 1], |inserts| - 1;
      NewestIsNewest(init, key);
      if inserts[last].0 == key {
        assert inserts[last] == (key, inserts[last].1);
      } else if Newest(init, key).Some? {
        var i :| 0 <= i < |init| && init[i] == (key, Newest(init, key).value) && forall j :: i < j < |init| ==> init[j].0 != key;
        forall j | i < j < |inserts| ensures inserts[j].0 != key { if j < last { assert init[j] == inserts[j]; } }
        assert inserts[i] == (key, Newest(inserts, key).value);
      }
    }
  }

  /** The oldest insert may go if its key is still inserted later, or is not the key asked for. */
  lemma {:induction false} NewestIgnoresOldest<K, V>(inserts: seq<(K, V)>, key: K)
    requires inserts != [] && (inserts[0].0 != key || exists i :: 1 <= i < |inserts| && inserts[i].0 == key)
    ensures Newest(inserts[1..], key) == Newest(inserts, key)
    decreases |inserts|
  {
    var last := |inserts| - 1;
    if last > 0 && inserts[last].0 != key {
      NewestIgnoresOldest(inserts[..last], key);
      assert inserts[..last][1..] == inserts[1..][..last - 1];
    }
  }

  function Keys<K, V>(inserts: seq<(K, V)>): (keys: seq<K>)
    ensures |keys| == |inserts| && forall i :: 0 <= i < |inserts| ==> keys[i] == inserts[i].0
  {
    seq(|inserts|, i requires 0 <= i < |inserts| => inserts[i].0)
  }

  datatype InternalItem<V> = InternalItem(count: nat, value: V)

  function CountsIn<K, V>(contents: map<K, InternalItem<V>>): map<K, nat> {
    map k | k in contents :: contents[k].count
  }

  /** The contents are those of the window of inserts: its counts, and the newest values. */
  ghost predicate ContentsOf<K, V>(contents: map<K, InternalItem<V>>, window: seq<(K, V)>) {
    && CountsOf(CountsIn(contents), Keys(window))
    && forall k :: k in contents ==> Newest(window, k) == Some(contents[k].value)
  }

  function Without<K, V>(contents: map<K, InternalItem<V>>, k: K): map<K, InternalItem<V>> {
    if k !in contents then contents
    else if contents[k].count <= 1 then contents - {k}
    else contents[k := contents[k].(count := contents[k].count - 1)]
  }

  function With<K, V>(contents: map<K, InternalItem<V>>, k: K, v: V): map<K, InternalItem<V>> {
    contents[k := InternalItem(if k in contents then contents[k].count + 1 else 1, v)]
  }

  lemma KeptKeyIsInWindow<K, V>(counts: map<K, nat>, window: seq<(K, V)>, k: K)
    requires CountsOf(counts, Keys(window)) && k in counts
    ensures exists i :: 0 <= i < |window| && window[i].0 == k
  {
    assert k in multiset(Keys(window));
    var i :| 0 <= i < |window| && Keys(window)[i] == k;
    assert window[i].0 == k;
  }

  lemma NewestStays<K, V>(counts: map<K, nat>, window: seq<(K, V)>, k: K)
    requires window != [] && CountsOf(counts, Keys(window[1..])) && k in counts
    ensures Newest(window[1..], k) == Newest(window, k)
  {
    KeptKeyIsInWindow(counts, window[1..], k);
    var i :| 0 <= i < |window[1..]| && window[1..][i].0 == k;
    assert window[i + 1].0 == k;
    NewestIgnoresOldest(window, k);
  }

  lemma EvictionCounts<K, V>(contents: map<K, InternalItem<V>>, k: K)
    ensures CountsIn(Without(contents, k)) == Fewer(CountsIn(contents), k)
  {}

  lemma KeptValues<K, V>(contents: map<K, InternalItem<V>>, k: K)
    ensures
      forall m :: m in Without(contents, k) ==>
        m in CountsIn(Without(contents, k)) && m in contents && Without(contents, k)[m].value == contents[m].value
  {}

  lemma ContentsAfterEviction<K, V>(contents: map<K, InternalItem<V>>, window: seq<(K, V)>)
    requires window != [] && ContentsOf(contents, window)
    ensures ContentsOf(Without(contents, window[0].0), window[1..])
  {
    var after := Without(contents, window[0].0);
    assert Keys(window)[1..] == Keys(window[1..]);
    CountsAfterEviction(CountsIn(contents), Keys(window));
    EvictionCounts(contents, window[0].0);
    hide CountsOf, Fewer, Newest, Keys, Without, CountsIn;
    KeptValues(contents, window[0].0);
    forall k | k in after ensures Newest(window[1..], k) == Some(after[k].value) {
      NewestStays(CountsIn(after), window, k);
    }
  }

  lemma ContentsAfterInsert<K, V>(contents: map<K, InternalItem<V>>, window: seq<(K, V)>, k: K, v: V)
    requires ContentsOf(contents, window)
    ensures ContentsOf(With(contents, k, v), window + [(k, v)])
  {
    CountsAfterInsert(CountsIn(contents), Keys(window), k);
    hide CountsOf, More;
    assert CountsIn(With(contents, k, v)) == More(CountsIn(contents), k);
    assert Keys(window + [(k, v)]) == Keys(window) + [k];
    assert (window + [(k, v)])[..|window|] == window;
  }

  class LastNMap<K(0, ==), V> {
    const mRingBuffer: RingBuffer<K>
    var mContents: map<K, InternalItem<V>>
    ghost var history: seq<(K, V)>

    ghost function Window(): seq<(K, V)>
      reads this
    {
      LastOf(history, mRingBuffer.ring.Length)
    }

    ghost predicate Valid()
      reads this, mRingBuffer, mRingBuffer.ring
    {
      && mRingBuffer.Valid() && mRingBuffer.history == Keys(history)
      && ContentsOf(mContents, Window())
    }

    constructor (n: nat)
      requires 0 < n
      ensures Valid() && fresh(mRingBuffer) && fresh(mRingBuffer.ring) && mRingBuffer.ring.Length == n && history == []
    {
      mRingBuffer := new RingBuffer<K>(n);
      mContents, history := map[], [];
    }

    /** Exactly the keys of the last N inserts are found, with the value inserted last. */
    method Query(key: K) returns (r: Option<V>)
      requires Valid()
      ensures r == Newest(LastOf(history, mRingBuffer.ring.Length), key)
    {
      if key in mContents { return Some(mContents[key].value); }
      NewestIsNewest(Window(), key);
      assert key !in CountsIn(mContents);
      return None;
    }

    /** The oldest insert leaves a full window. */
    method Evict()
      requires Valid()
      modifies this`mContents
      ensures ContentsOf(mContents, Kept(Window(), mRingBuffer.ring.Length <= |history|))
    {
      hide ContentsOf, InRing;
      if mRingBuffer.HasRolledOver() {
        var oldest := mRingBuffer.GetNextToEvict();
        assert oldest == Window()[0].0;
        ContentsAfterEviction(mContents, Window());
        if oldest in mContents {
          var item := mContents[oldest];
          mContents := if item.count <= 1 then mContents - {oldest} else mContents[oldest := item.(count := item.count - 1)];
        }
      }
    }

    method Insert(k: K, v: V)
      requires Valid()
      modifies this, mRingBuffer, mRingBuffer.ring
      ensures Valid() && history == old(history) + [(k, v)]
    {
      hide ContentsOf, InRing, LastOf;
      WindowMoves(history, mRingBuffer.ring.Length, (k, v));
      ghost var kept := Kept(Window(), mRingBuffer.ring.Length <= |history|);
      Evict();
      ContentsAfterInsert(mContents, kept, k, v);
      mRingBuffer.EmplaceBack(k);
      assert Keys(history + [(k, v)]) == Keys(history) + [k];
      history := history + [(k, v)];
      mContents := mContents[k := InternalItem(if k in mContents then mContents[k].count + 1 else 1, v)];
    }
  }
}
