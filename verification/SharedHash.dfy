/** A replica of a server's hash, kept up to date by revisions that may be lost, duplicated, reordered
    or stale, and by snapshots. */
module SharedHash {
  import opened Common
  import opened Resp
  import opened RespRoundTrip

  type Contents = map<string, string>

  // ---- the messages ----

  /** Keys and values in turn. */
  function Strings(pairs: seq<(string, string)>): (r: seq<Reply>)
    ensures |r| == 2 * |pairs|
  {
    if pairs == [] then []
    else Strings(pairs[..|pairs| - 1]) + [Str(pairs[|pairs| - 1].0), Str(pairs[|pairs| - 1].1)]
  }

  function VersionedReply(revision: int, pairs: seq<(string, string)>): Reply {
    Aggregate(false, [Integer(revision), Aggregate(false, Strings(pairs))])
  }

  /** Later pairs win. */
  function Collected(elements: seq<Reply>): (r: Option<Contents>)
    requires |elements| % 2 == 0
  {
    if elements == [] then Some(map[])
    else
      var n := |elements| - 2;
      var k, v := elements[n], elements[n + 1];
      match Collected(elements[..n])
      case None => None
      case Some(contents) => if k.Str? && v.Str? then Some(contents[k.text := v.text]) else None
  }

  /** Revision and contents of a reply; the integer is taken as unsigned. */
  function Versioned(reply: Option<Reply>): (r: Option<(nat, Contents)>)
    ensures r.Some? ==> r.value.0 < TWO_64
  {
    match reply
    case Some(Aggregate(false, es)) =>
      if |es| == 2 && es[0].Integer? && es[1].Aggregate? && !es[1].push && |es[1].element| % 2 == 0 then
        match Collected(es[1].element)
        case None => None
        case Some(contents) => Some((es[0].value % TWO_64, contents))
      else None
    case _ => None
  }

  /** What a message payload says. */
  function Decode(payload: string): (r: Option<(nat, Contents)>)
    ensures r.Some? ==> r.value.0 < TWO_64
  {
    Versioned(Pull([], None, payload).0)
  }

  function MapOf(pairs: seq<(string, string)>): Contents {
    if pairs == [] then map[] else MapOf(pairs[..|pairs| - 1])[pairs[|pairs| - 1].0 := pairs[|pairs| - 1].1]
  }

  lemma {:induction false} CollectedStrings(pairs: seq<(string, string)>)
    ensures Collected(Strings(pairs)) == Some(MapOf(pairs))
  {
    if pairs != [] {
      var init := pairs[..|pairs| - 1];
      CollectedStrings(init);
      assert Strings(pairs)[..2 * |init|] == Strings(init);
    }
  }

  lemma PublishedIsVersioned(revision: nat, pairs: seq<(string, string)>)
    requires revision <= INT64_MAX
    ensures Versioned(Some(VersionedReply(revision, pairs))) == Some((revision, MapOf(pairs)))
  {
    CollectedStrings(pairs);
    hide Strings, Collected, MapOf;
  }

  /** The pairs that these elements list. */
  function PairsIn(elements: seq<Reply>): (pairs: seq<(string, string)>)
    requires |elements| % 2 == 0
  {
    if elements == [] then []
    else
      var n := |elements| - 2;
      PairsIn(elements[..n])
        + (if elements[n].Str? && elements[n + 1].Str? then [(elements[n].text, elements[n + 1].text)] else [])
  }

  lemma {:induction false} CollectedAreStrings(elements: seq<Reply>)
    requires |elements| % 2 == 0 && Collected(elements).Some?
    ensures Strings(PairsIn(elements)) == elements
    decreases |elements|
  {
    if elements != [] {
      var n := |elements| - 2;
      var pairs := PairsIn(elements);
      CollectedAreStrings(elements[..n]);
      assert pairs[..|pairs| - 1] == PairsIn(elements[..n]);
      assert elements[..n] + [elements[n], elements[n + 1]] == elements;
    }
  }

  lemma MessageIsUnderstood(n: int, pairs: seq<(string, string)>)
    ensures Versioned(Some(VersionedReply(n, pairs))) == Some((n % TWO_64, MapOf(pairs)))
  {
    CollectedStrings(pairs);
    hide Strings, Collected, MapOf;
  }

  lemma UnderstoodIsMessage(reply: Option<Reply>)
    requires Versioned(reply).Some?
    ensures reply.Some? && reply.value.Aggregate?
    ensures
      var es := reply.value.element;
      && |es| == 2 && es[0].Integer? && es[1].Aggregate? && |es[1].element| % 2 == 0
      && reply == Some(VersionedReply(es[0].value, PairsIn(es[1].element)))
  {
    var es := reply.value.element;
    CollectedAreStrings(es[1].element);
    hide Strings, Collected, PairsIn;
    assert es == [es[0], es[1]];
  }

  /** What is understood are exactly the published messages: a revision and, in turn, keys and values. */
  lemma VersionedIff(reply: Option<Reply>, revision: nat, contents: Contents)
    ensures
      Versioned(reply) == Some((revision, contents))
      <==> exists n, pairs ::
             reply == Some(VersionedReply(n, pairs)) && revision == n % TWO_64 && contents == MapOf(pairs)
  {
    hide Versioned, VersionedReply, MapOf;
    if Versioned(reply).Some? {
      UnderstoodIsMessage(reply);
      MessageIsUnderstood(reply.value.element[0].value, PairsIn(reply.value.element[1].element));
    }
    forall n, pairs | reply == Some(VersionedReply(n, pairs))
      ensures Versioned(reply) == Some((n % TWO_64, MapOf(pairs)))
    {
      MessageIsUnderstood(n, pairs);
    }
  }

  /** A published revision is understood as it was meant. */
  lemma DecodePublished(revision: nat, pairs: seq<(string, string)>, rest: string)
    requires revision <= INT64_MAX && Printable(VersionedReply(revision, pairs))
    ensures Decode(Print(VersionedReply(revision, pairs)) + rest) == Some((revision, MapOf(pairs)))
  {
    RoundTrip(VersionedReply(revision, pairs), rest);
    PublishedIsVersioned(revision, pairs);
    hide Pull, Print, Printable, Versioned;
  }

  // ---- the replica ----

  datatype Replica = Replica(contents: Contents, version: nat)

  function WithSingle(contents: Contents, key: string, value: string): Contents {
    if value == "" then contents - {key} else contents[key := value]
  }

  /** An empty value deletes. */
  function Updated(contents: Contents, updates: Contents): Contents {
    map k | k in contents.Keys + updates.Keys && !(k in updates && updates[k] == "")
      :: if k in updates then updates[k] else contents[k]
  }

  function Fed(r: Replica, revision: nat, updates: Contents): (Replica, bool) {
    if revision <= r.version then (r, true)
    else if revision >= (r.version + 2) % TWO_64 then (r, false)
    else (Replica(Updated(r.contents, updates), revision), true)
  }

  /** Revision r of the server's hash is the result of its first r updates. */
  function Replay(log: seq<Contents>, r: nat): Contents
    requires r <= |log|
  {
    if r == 0 then map[] else Updated(Replay(log, r - 1), log[r - 1])
  }

  datatype Event =
    | Publish(updates: Contents)
    | Message(payload: string)
    | Snapshot(reply: Option<Reply>)

  datatype World = World(log: seq<Contents>, replica: Replica, resilverings: nat)

  const START := World([], Replica(map[], 0), 0)

  /** Messages are about revisions that were published, in any order and number, or are not understood. */
  ghost predicate Enabled(w: World, e: Event) {
    match e
    case Publish(_) => true
    case Message(payload) =>
      (match Decode(payload)
       case None => true
       case Some((revision, updates)) => 1 <= revision <= |w.log| && updates == w.log[revision - 1])
    case Snapshot(reply) =>
      (match Versioned(reply)
       case None => true
       case Some((revision, contents)) => revision <= |w.log| && contents == Replay(w.log, revision))
  }

  function Apply(w: World, e: Event): World {
    match e
    case Publish(updates) => w.(log := w.log + [updates])
    case Message(payload) =>
      (match Decode(payload)
       case None => w
       case Some((revision, updates)) =>
         var r := Fed(w.replica, revision, updates);
         w.(replica := r.0, resilverings := if r.1 then w.resilverings else w.resilverings + 1))
    case Snapshot(reply) =>
      (match Versioned(reply)
       case None => w
       case Some((revision, contents)) => w.(replica := Replica(contents, revision)))
  }

  ghost function After(w: World, events: seq<Event>): Option<World>
    decreases |events|
  {
    if events == [] then Some(w)
    else if !Enabled(w, events[0]) then None
    else After(Apply(w, events[0]), events[1..])
  }

  ghost predicate Synced(w: World) {
    w.replica.version < TWO_64 && w.replica.version <= |w.log| && w.replica.contents == Replay(w.log, w.replica.version)
  }

  lemma {:induction false} ReplayOfLonger(a: seq<Contents>, b: seq<Contents>, r: nat)
    requires r <= |a| && a <= b
    ensures Replay(a, r) == Replay(b, r)
  {
    if r > 0 { ReplayOfLonger(a, b, r - 1); }
  }

  lemma StepKeepsSynced(w: World, e: Event)
    requires Synced(w) && Enabled(w, e)
    ensures Synced(Apply(w, e))
  {
    hide Decode, Versioned, Updated;
    if e.Publish? { ReplayOfLonger(w.log, Apply(w, e).log, w.replica.version); }
    if e.Message? && Decode(e.payload).Some? {
      var revision := Decode(e.payload).value.0;
      FeedRevisionOutcome(w.replica, revision, Decode(e.payload).value.1);
    }
  }

  /** Consistency under any loss, duplication, reordering and staleness: the contents are always those
      of the revision that the replica says it has. */
  lemma {:induction false} ReplicaConsistency(w: World, events: seq<Event>)
    requires Synced(w)
    ensures After(w, events).Some? ==> Synced(After(w, events).value)
    decreases |events|
  {
    hide Synced, Apply, Enabled;
    if events != [] && Enabled(w, events[0]) {
      StepKeepsSynced(w, events[0]);
      ReplicaConsistency(Apply(w, events[0]), events[1..]);
    }
  }

  lemma StartIsSynced()
    ensures Synced(START)
  {}

  /** So in every run from the beginning the contents are those of the revision that the replica has. */
  lemma ContentsAreReplayed(events: seq<Event>)
    ensures
      match After(START, events)
      case None => true
      case Some(w) =>
        w.replica.version <= |w.log| && w.replica.contents == Replay(w.log, w.replica.version)
  {
    hide After, Enabled, Apply, Replay;
    StartIsSynced();
    ReplicaConsistency(START, events);
  }

  /** A revision is refused exactly on a gap, or where the 64-bit version runs out; a refused or known
      revision changes nothing, an accepted one leaves the replica at least as new as it. */
  lemma FeedRevisionOutcome(r: Replica, revision: nat, updates: Contents)
    requires r.version < TWO_64 && revision < TWO_64
    ensures
      var f := Fed(r, revision, updates);
      && (!f.1 <==> revision > r.version + 1 || (revision == r.version + 1 && r.version == UINT64_MAX - 1))
      && (!f.1 || revision <= r.version ==> f.0 == r)
      && (f.1 ==> f.0.version == if revision <= r.version then r.version else revision)
      && (f.1 && revision > r.version ==> revision == r.version + 1 && f.0.contents == Updated(r.contents, updates))
  {}

  /** Refusing exactly the gaps holds if and only if the version is not the last but one there is. */
  lemma RefusesExactlyGaps(r: Replica)
    requires r.version < TWO_64
    ensures
      (forall revision: nat, updates :: revision < TWO_64 ==>
        (!Fed(r, revision, updates).1 <==> revision > r.version + 1))
      <==> r.version != UINT64_MAX - 1
  {
    forall revision: nat, updates | revision < TWO_64 && r.version != UINT64_MAX - 1
      ensures !Fed(r, revision, updates).1 <==> revision > r.version + 1
    {
      FeedRevisionOutcome(r, revision, updates);
    }
    if r.version == UINT64_MAX - 1 {
      var last: nat := UINT64_MAX;
      assert !Fed(r, last, map[]).1 && last == r.version + 1;
    }
  }

  /** Revisions that arrive in order need no resilvering and leave nothing behind. */
  lemma {:induction false} InOrderNeedsNoResilvering(w: World, events: seq<Event>)
    requires Synced(w) && |w.log| < UINT64_MAX
    requires forall i :: 0 <= i < |events| ==>
      events[i].Message? && w.replica.version + i < |w.log|
      && Decode(events[i].payload) == Some((w.replica.version + i + 1, w.log[w.replica.version + i]))
    ensures
      match After(w, events)
      case None => false
      case Some(v) =>
        && v.log == w.log && v.resilverings == w.resilverings
        && v.replica.version == w.replica.version + |events|
        && Synced(v)
    decreases |events|
  {
    hide Decode, Updated;
    if events != [] {
      var v := Apply(w, events[0]);
      StepKeepsSynced(w, events[0]);
      FeedRevisionOutcome(w.replica, w.replica.version + 1, w.log[w.replica.version]);
      assert v.log == w.log && v.replica.version == w.replica.version + 1;
      hide Synced, Apply;
      forall i | 0 <= i < |events[1..]| ensures
        events[1..][i].Message? && v.replica.version + i < |v.log|
        && Decode(events[1..][i].payload) == Some((v.replica.version + i + 1, v.log[v.replica.version + i]))
      {
        assert events[1..][i] == events[i + 1];
      }
      InOrderNeedsNoResilvering(v, events[1..]);
    }
  }

  /** A snapshot of everything published so far brings the replica up to date. */
  lemma SnapshotCatchesUp(w: World, pairs: seq<(string, string)>)
    requires |w.log| <= INT64_MAX && MapOf(pairs) == Replay(w.log, |w.log|)
    ensures
      var e := Snapshot(Some(VersionedReply(|w.log|, pairs)));
      Enabled(w, e) && Apply(w, e).replica == Replica(Replay(w.log, |w.log|), |w.log|)
  {
    PublishedIsVersioned(|w.log|, pairs);
    hide Versioned, VersionedReply, MapOf, Replay;
  }

  /** A step lowers the version if and only if it is a snapshot, one that is understood, of an earlier
      revision. */
  lemma LowersIffOldSnapshot(w: World, e: Event)
    requires w.replica.version < TWO_64
    ensures
      Apply(w, e).replica.version < w.replica.version
      <==> e.Snapshot? && match Versioned(e.reply)
                          case None => false
                          case Some((revision, _)) => revision < w.replica.version
  {
    hide Decode, Versioned, Updated;
    if e.Message? && Decode(e.payload).Some? {
      FeedRevisionOutcome(w.replica, Decode(e.payload).value.0, Decode(e.payload).value.1);
    }
  }

  /** The version may go back: an old snapshot may come late. */
  lemma VersionMayGoBack(updates: Contents, payload: string)
    requires Decode(payload) == Some((1, updates))
    ensures
      match After(START, [Publish(updates), Message(payload), Snapshot(Some(VersionedReply(0, [])))])
      case None => false
      case Some(w) =>
        && w.replica.version == 0
        && After(START, [Publish(updates), Message(payload)]).Some?
        && After(START, [Publish(updates), Message(payload)]).value.replica.version == 1
  {
    hide Decode;
    var e1, e2, e3: Event := Publish(updates), Message(payload), Snapshot(Some(VersionedReply(0, [])));
    PublishedIsVersioned(0, []);
    var w1 := Apply(START, e1);
    var w2 := Apply(w1, e2);
    assert w1.log == [updates] && Enabled(w1, e2) && w2.replica.version == 1;
    assert Versioned(e3.reply) == Some((0, map[])) && Enabled(w2, e3);
    assert [e1, e2, e3][1..] == [e2, e3] && [e2, e3][1..] == [e3] && [e3][1..] == [];
    assert [e1, e2][1..] == [e2] && [e2][1..] == [];
    hide Apply, Enabled;
    assert After(w2, [e3]) == After(Apply(w2, e3), []);
    assert After(w1, [e2, e3]) == After(w2, [e3]);
    assert After(w1, [e2]) == After(w2, []);
  }

  // ---- the replica as it works ----

  function AllFed(contents: Contents, pairs: seq<(string, string)>): Contents {
    if pairs == [] then contents
    else
      var last := pairs[|pairs| - 1];
      WithSingle(AllFed(contents, pairs[..|pairs| - 1]), last.0, last.1)
  }

  ghost predicate Enumerates(keys: seq<string>, updates: Contents) {
    && (forall i, j :: 0 <= i < j < |keys| ==> keys[i] != keys[j])
    && (forall k :: k in keys <==> k in updates)
  }

  function PairsOf(updates: Contents, keys: seq<string>): (pairs: seq<(string, string)>)
    requires forall i :: 0 <= i < |keys| ==> keys[i] in updates
    ensures |pairs| == |keys| && forall i :: 0 <= i < |keys| ==> pairs[i] == (keys[i], updates[keys[i]])
  {
    seq(|keys|, i requires 0 <= i < |keys| => (keys[i], updates[keys[i]]))
  }

  lemma {:induction false} FedKey(contents: Contents, updates: Contents, keys: seq<string>, k: string)
    requires forall i :: 0 <= i < |keys| ==> keys[i] in updates
    ensures
      var r := AllFed(contents, PairsOf(updates, keys));
      if k in keys then (k in r <==> updates[k] != "") && (k in r ==> r[k] == updates[k])
      else (k in r <==> k in contents) && (k in r ==> r[k] == contents[k])
    decreases |keys|
  {
    if keys != [] {
      var init := keys[..|keys| - 1];
      FedKey(contents, updates, init, k);
      assert PairsOf(updates, keys)[..|init|] == PairsOf(updates, init);
      assert keys == init + [keys[|init|]];
    }
  }

  /** Feeding the pairs one by one, in whatever order, is the update as a whole. */
  lemma AllFedIsUpdated(contents: Contents, updates: Contents, keys: seq<string>)
    requires Enumerates(keys, updates)
    ensures AllFed(contents, PairsOf(updates, keys)) == Updated(contents, updates)
  {
    hide AllFed;
    var r := AllFed(contents, PairsOf(updates, keys));
    forall k ensures k in r <==> k in Updated(contents, updates) { FedKey(contents, updates, keys, k); }
    forall k | k in r ensures r[k] == Updated(contents, updates)[k] { FedKey(contents, updates, keys, k); }
  }

  class PersistentSharedHash {
    var contents: Contents
    var currentVersion: nat
    const hasSubscriber: bool
    /** What the subscriber was told. */
    var notified: seq<(string, string)>
    /** How often VHGETALL was asked for. */
    var resilverings: nat

    ghost function Model(): Replica
      reads this
    {
      Replica(contents, currentVersion)
    }

    constructor (hasSubscriber: bool)
      ensures Model() == START.replica && notified == [] && resilverings == 1 && this.hasSubscriber == hasSubscriber
    {
      contents, currentVersion, notified, resilverings := map[], 0, [], 1;
      this.hasSubscriber := hasSubscriber;
    }

    method FeedSingleKeyValue(key: string, value: string)
      modifies this`contents
      ensures contents == WithSingle(old(contents), key, value)
    {
      if value == "" {
        contents := contents - {key};
        return;
      }
      contents := contents[key := value];
    }

    method FeedAll(updates: Contents, keys: seq<string>)
      requires forall i :: 0 <= i < |keys| ==> keys[i] in updates
      modifies this`contents
      ensures contents == AllFed(old(contents), PairsOf(updates, keys))
    {
      hide WithSingle;
      ghost var pairs := PairsOf(updates, keys);
      var i := 0;
      while i < |keys|
        invariant i <= |keys| && contents == AllFed(old(contents), pairs[..i])
      {
        assert pairs[..i + 1][..i] == pairs[..i];
        FeedSingleKeyValue(keys[i], updates[keys[i]]);
        i := i + 1;
      }
      assert pairs[..i] == pairs;
    }

    method NotifyAll(updates: Contents, keys: seq<string>)
      requires forall i :: 0 <= i < |keys| ==> keys[i] in updates
      modifies this`notified
      ensures notified == old(notified) + PairsOf(updates, keys)
    {
      ghost var pairs := PairsOf(updates, keys);
      var i := 0;
      while i < |keys|
        invariant i <= |keys| && notified == old(notified) + pairs[..i]
      {
        notified := notified + [(keys[i], updates[keys[i]])];
        i := i + 1;
      }
      assert pairs[..i] == pairs;
    }

    /** The keys of the update come in the order of iteration. What the subscriber is told is, pair by
        pair, what turns the old contents into the new ones. */
    method FeedRevision(revision: nat, updates: Contents, keys: seq<string>) returns (ok: bool)
      requires Enumerates(keys, updates) && currentVersion < TWO_64 && revision < TWO_64
      modifies this`contents, this`currentVersion, this`notified
      ensures currentVersion < TWO_64
      ensures (Model(), ok) == Fed(old(Model()), revision, updates)
      ensures old(notified) <= notified
      ensures hasSubscriber ==> contents == AllFed(old(contents), notified[|old(notified)|..])
      ensures
        var changed := currentVersion != old(currentVersion);
        var told := if hasSubscriber && changed then (KeysAreIn(keys, updates); keys) else [];
        notified == old(notified) + PairsOf(updates, told)
    {
      hide Enumerates, WithSingle;
      ghost var told, before := notified, contents;
      assert notified[|told|..] == [];
      if revision <= currentVersion { return true; }
      if revision >= (currentVersion + 2) % TWO_64 { return false; }
      assert revision == currentVersion + 1;
      KeysAreIn(keys, updates);
      FeedAll(updates, keys);
      AllFedIsUpdated(before, updates, keys);
      currentVersion := revision;
      if hasSubscriber {
        NotifyAll(updates, keys);
        assert notified[|told|..] == PairsOf(updates, keys);
      }
      return true;
    }

    method Resilver(revision: nat, newContents: Contents)
      modifies this`contents, this`currentVersion
      ensures Model() == Replica(newContents, revision)
    {
      currentVersion := revision;
      contents := newContents;
    }

    method HandleResponse(reply: Option<Reply>)
      modifies this`contents, this`currentVersion
      ensures
        match Versioned(reply)
        case None => Model() == old(Model())
        case Some((revision, newContents)) => Model() == Replica(newContents, revision)
    {
      var parsed := ParseReply(reply);
      if parsed.Some? { Resilver(parsed.value.0, parsed.value.1); }
    }

    /** A message on our channel. A revision that cannot be applied asks for a snapshot. */
    method ProcessIncoming(payload: string, keys: seq<string>)
      requires currentVersion < TWO_64
      requires Decode(payload).Some? ==> Enumerates(keys, Decode(payload).value.1)
      modifies this
      ensures currentVersion < TWO_64
      ensures
        match Decode(payload)
        case None => Model() == old(Model()) && resilverings == old(resilverings)
        case Some((revision, updates)) =>
          var r := Fed(old(Model()), revision, updates);
          Model() == r.0 && resilverings == if r.1 then old(resilverings) else old(resilverings) + 1
    {
      hide Pull, Versioned;
      var parsed := ParseReply(Pull([], None, payload).0);
      if parsed.None? { return; }
      var ok := FeedRevision(parsed.value.0, parsed.value.1, keys);
      if !ok { resilverings := resilverings + 1; }
    }
  }

  lemma KeysAreIn(keys: seq<string>, updates: Contents)
    requires Enumerates(keys, updates)
    ensures forall i :: 0 <= i < |keys| ==> keys[i] in updates
  {}

  method ParseReply(reply: Option<Reply>) returns (r: Option<(nat, Contents)>)
    ensures r == Versioned(reply)
  {
    if reply.None? || !reply.value.Aggregate? || reply.value.push || |reply.value.element| != 2 { return None; }
    var es := reply.value.element;
    if !es[0].Integer? { return None; }
    var revision := es[0].value % TWO_64;
    if !es[1].Aggregate? || es[1].push || |es[1].element| % 2 != 0 { return None; }
    var content := es[1].element;
    var contents: Contents := map[];
    var i := 0;
    while i < |content|
      invariant i <= |content| && i % 2 == 0 && Collected(content[..i]) == Some(contents)
    {
      assert content[..i + 2][..i] == content[..i];
      if !content[i].Str? || !content[i + 1].Str? {
        NeverCollected(content, i + 2);
        return None;
      }
      contents := contents[content[i].text := content[i + 1].text];
      i := i + 2;
    }
    assert content[..i] == content;
    return Some((revision, contents));
  }

  lemma {:induction false} NeverCollected(elements: seq<Reply>, n: nat)
    requires |elements| % 2 == 0 && n <= |elements| && n % 2 == 0 && Collected(elements[..n]).None?
    ensures Collected(elements).None?
    decreases |elements|
  {
    if n < |elements| {
      assert elements[..|elements| - 2][..n] == elements[..n];
      NeverCollected(elements[..|elements| - 2], n);
    } else {
      assert elements[..n] == elements;
    }
  }
}
