/** Payloads of the shared data structures: batches, and communicator requests and replies. */
module Framing {
  import opened Common
  import opened Binary

  datatype CommunicatorReply = CommunicatorReply(status: int, contents: Bytes)

  const REQ: Bytes := "REQ"
  const RESP: Bytes := "RESP"

  // ---- communicator requests and replies ----

  function RequestBytes(uuid: Bytes, contents: Bytes): Bytes {
    StringBytes(REQ) + StringBytes(uuid) + StringBytes(contents)
  }

  function ReplyBytes(uuid: Bytes, reply: CommunicatorReply): Bytes {
    StringBytes(RESP) + StringBytes(uuid) + Int64Bytes(reply.status) + StringBytes(reply.contents)
  }

  function ParseRequest(payload: Bytes): Option<(Bytes, Bytes)> {
    match TakeString(payload)
    case None => None
    case Some((tag, afterTag)) =>
      if tag != REQ then None
      else
        match TakeString(afterTag)
        case None => None
        case Some((uuid, afterUuid)) =>
          match TakeString(afterUuid)
          case None => None
          case Some((contents, left)) => if left != [] then None else Some((uuid, contents))
  }

  function ParseReply(payload: Bytes): Option<(Bytes, CommunicatorReply)> {
    match TakeString(payload)
    case None => None
    case Some((tag, afterTag)) =>
      if tag != RESP then None
      else
        match TakeString(afterTag)
        case None => None
        case Some((uuid, afterUuid)) =>
          match TakeInt64(afterUuid)
          case None => None
          case Some((status, afterStatus)) =>
            match TakeString(afterStatus)
            case None => None
            case Some((contents, left)) =>
              if left != [] then None else Some((uuid, CommunicatorReply(status, contents)))
  }

  /** A payload parses to a request if and only if it is that request's serialization. */
  lemma RequestFraming(payload: Bytes, uuid: Bytes, contents: Bytes)
    ensures ParseRequest(payload) == Some((uuid, contents))
      <==> |uuid| < TWO_64 && |contents| < TWO_64 && payload == RequestBytes(uuid, contents)
  {
    hide StringBytes, TakeString;
    var afterUuid := StringBytes(contents);
    var afterTag := StringBytes(uuid) + afterUuid;
    assert StringBytes(REQ) + afterTag == RequestBytes(uuid, contents);
    assert afterUuid + [] == afterUuid;
    if ParseRequest(payload) == Some((uuid, contents)) {
      var t1 := TakeString(payload).value.1;
      var t2 := TakeString(t1).value.1;
      TakeStringIff(payload, REQ, t1);
      TakeStringIff(t1, uuid, t2);
      TakeStringIff(t2, contents, []);
    }
    TakeStringIff(payload, REQ, afterTag);
    TakeStringIff(afterTag, uuid, afterUuid);
    TakeStringIff(afterUuid, contents, []);
  }

  lemma ReplyFraming(payload: Bytes, uuid: Bytes, reply: CommunicatorReply)
    ensures ParseReply(payload) == Some((uuid, reply))
      <==> |uuid| < TWO_64 && |reply.contents| < TWO_64 && IsInt64(reply.status) && payload == ReplyBytes(uuid, reply)
  {
    hide StringBytes, TakeString, TakeInt64, Int64Bytes;
    var afterStatus := StringBytes(reply.contents);
    var afterUuid := Int64Bytes(reply.status) + afterStatus;
    var afterTag := StringBytes(uuid) + afterUuid;
    assert StringBytes(RESP) + afterTag == ReplyBytes(uuid, reply);
    assert afterStatus + [] == afterStatus;
    if ParseReply(payload) == Some((uuid, reply)) {
      var t1 := TakeString(payload).value.1;
      var t2 := TakeString(t1).value.1;
      var t3 := TakeInt64(t2).value.1;
      TakeStringIff(payload, RESP, t1);
      TakeStringIff(t1, uuid, t2);
      TakeInt64Iff(t2, reply.status, t3);
      TakeStringIff(t3, reply.contents, []);
    }
    TakeStringIff(payload, RESP, afterTag);
    TakeStringIff(afterTag, uuid, afterUuid);
    TakeInt64Iff(afterUuid, reply.status, afterStatus);
    TakeStringIff(afterStatus, reply.contents, []);
  }

  /** A communicator reads its own channel: no request is taken for a reply, or a reply for a request. */
  lemma NeverBoth(payload: Bytes)
    ensures ParseRequest(payload).None? || ParseReply(payload).None?
  {}

  /** The precomputed size is filled exactly. */
  method SerializeCommunicatorRequest(uuid: Bytes, contents: Bytes) returns (payload: array<Byte>)
    ensures payload[..] == RequestBytes(uuid, contents)
  {
    hide StringBytes, Int64Bytes;
    var payloadSize := (8 + 3) + (8 + |uuid|) + (8 + |contents|);
    var serializer := new BinarySerializer(payloadSize);
    serializer.AppendString("REQ");
    serializer.AppendString(uuid);
    serializer.AppendString(contents);
    assert serializer.GetRemaining() == 0;
    assert [] + StringBytes(REQ) == StringBytes(REQ);
    return serializer.target;
  }

  method SerializeCommunicatorReply(uuid: Bytes, reply: CommunicatorReply) returns (payload: array<Byte>)
    ensures payload[..] == ReplyBytes(uuid, reply)
  {
    hide StringBytes, Int64Bytes;
    var payloadSize := (8 + 4) + (8 + |uuid|) + 8 + (8 + |reply.contents|);
    var serializer := new BinarySerializer(payloadSize);
    serializer.AppendString("RESP");
    serializer.AppendString(uuid);
    serializer.AppendInt64(reply.status);
    serializer.AppendString(reply.contents);
    assert serializer.GetRemaining() == 0;
    assert [] + StringBytes(RESP) == StringBytes(RESP);
    return serializer.target;
  }

  method ParseCommunicatorRequest(payload: Bytes) returns (r: Option<(Bytes, Bytes)>)
    ensures r == ParseRequest(payload)
  {
    hide StringBytes, TakeString;
    var deserializer := new BinaryDeserializer(payload);
    var tag := deserializer.ConsumeString();
    if tag.None? || tag.value != "REQ" { return None; }
    var uuid := deserializer.ConsumeString();
    if uuid.None? { return None; }
    var contents := deserializer.ConsumeString();
    if contents.None? || deserializer.BytesLeft() != 0 { return None; }
    return Some((uuid.value, contents.value));
  }

  method ParseCommunicatorReply(payload: Bytes) returns (r: Option<(Bytes, CommunicatorReply)>)
    ensures r == ParseReply(payload)
  {
    hide StringBytes, TakeString, TakeInt64;
    var deserializer := new BinaryDeserializer(payload);
    var tag := deserializer.ConsumeString();
    if tag.None? || tag.value != "RESP" { return None; }
    var uuid := deserializer.ConsumeString();
    if uuid.None? { return None; }
    var status := deserializer.ConsumeInt64();
    if status.None? { return None; }
    var contents := deserializer.ConsumeString();
    if contents.None? || deserializer.BytesLeft() != 0 { return None; }
    return Some((uuid.value, CommunicatorReply(status.value, contents.value)));
  }

  // ---- batches ----

  function PairBytes(pairs: seq<(Bytes, Bytes)>): Bytes {
    if pairs == [] then []
    else PairBytes(pairs[..|pairs| - 1]) + StringBytes(pairs[|pairs| - 1].0) + StringBytes(pairs[|pairs| - 1].1)
  }

  function BatchBytes(pairs: seq<(Bytes, Bytes)>): Bytes {
    Int64Bytes(2 * |pairs|) + PairBytes(pairs)
  }

  /** Later pairs win. */
  function MapOf(pairs: seq<(Bytes, Bytes)>): map<Bytes, Bytes> {
    if pairs == [] then map[]
    else MapOf(pairs[..|pairs| - 1])[pairs[|pairs| - 1].0 := pairs[|pairs| - 1].1]
  }

  ghost function PairsOf(batch: map<Bytes, Bytes>, keys: seq<Bytes>): (pairs: seq<(Bytes, Bytes)>)
    requires forall k :: k in keys ==> k in batch
    ensures |pairs| == |keys| && forall i :: 0 <= i < |keys| ==> pairs[i] == (keys[i], batch[keys[i]])
  {
    seq(|keys|, i requires 0 <= i < |keys| => (keys[i], batch[keys[i]]))
  }

  /** The keys of the batch in some order, once each. */
  ghost predicate Enumerates(keys: seq<Bytes>, batch: map<Bytes, Bytes>) {
    && (forall i, j :: 0 <= i < j < |keys| ==> keys[i] != keys[j])
    && (forall k :: k in keys <==> k in batch)
  }

  /** The first n pairs that are left, if there are so many. */
  function TakePairs(left: Bytes, n: nat): (r: Option<(seq<(Bytes, Bytes)>, Bytes)>)
    ensures r.Some? ==> |r.value.0| == n
  {
    if n == 0 then Some(([], left))
    else
      match TakePairs(left, n - 1)
      case None => None
      case Some((pairs, rest)) =>
        match TakeString(rest)
        case None => None
        case Some((key, afterKey)) =>
          match TakeString(afterKey)
          case None => None
          case Some((value, afterValue)) => Some((pairs + [(key, value)], afterValue))
  }

  function ParsedBatch(payload: Bytes): Option<map<Bytes, Bytes>> {
    match TakeInt64(payload)
    case None => None
    case Some((elements, left)) =>
      if elements < 0 || elements % 2 != 0 then None
      else
        match TakePairs(left, elements / 2)
        case None => None
        case Some((pairs, _)) => Some(MapOf(pairs))
  }

  predicate Short(pairs: seq<(Bytes, Bytes)>) {
    forall i :: 0 <= i < |pairs| ==> |pairs[i].0| < TWO_64 && |pairs[i].1| < TWO_64
  }

  lemma {:induction false} TakePairsIff(left: Bytes, pairs: seq<(Bytes, Bytes)>, rest: Bytes)
    ensures TakePairs(left, |pairs|) == Some((pairs, rest)) <==> Short(pairs) && left == PairBytes(pairs) + rest
    decreases |pairs|
  {
    hide StringBytes, TakeString;
    if pairs == [] {
      assert PairBytes(pairs) + rest == rest;
    } else {
      var n := |pairs| - 1;
      var init, k, v := pairs[..n], pairs[n].0, pairs[n].1;
      var afterKey := StringBytes(v) + rest;
      var before := StringBytes(k) + afterKey;
      assert pairs == init + [(k, v)];
      assert PairBytes(pairs) + rest == PairBytes(init) + before;
      if TakePairs(left, |pairs|) == Some((pairs, rest)) {
        var t := TakePairs(left, n).value;
        assert t.0 == init;
        TakePairsIff(left, init, t.1);
        TakeStringIff(t.1, k, TakeString(t.1).value.1);
        TakeStringIff(TakeString(t.1).value.1, v, rest);
      }
      TakePairsIff(left, init, before);
      TakeStringIff(before, k, afterKey);
      TakeStringIff(afterKey, v, rest);
      assert Short(pairs) <==> Short(init) && |k| < TWO_64 && |v| < TWO_64;
    }
  }

  /** A payload that begins with a serialized list of pairs parses to their map; what follows is ignored. */
  lemma BatchParses(pairs: seq<(Bytes, Bytes)>, rest: Bytes)
    requires Short(pairs) && 2 * |pairs| <= INT64_MAX
    ensures ParsedBatch(BatchBytes(pairs) + rest) == Some(MapOf(pairs))
  {
    hide TakeInt64, Int64Bytes, PairBytes, TakePairs, MapOf, Short;
    var left := PairBytes(pairs) + rest;
    assert BatchBytes(pairs) + rest == Int64Bytes(2 * |pairs|) + left;
    TakeInt64Iff(BatchBytes(pairs) + rest, 2 * |pairs|, left);
    TakePairsIff(left, pairs, rest);
  }

  /** And nothing else parses. */
  lemma OnlyBatchesParse(payload: Bytes) returns (pairs: seq<(Bytes, Bytes)>, rest: Bytes)
    requires ParsedBatch(payload).Some?
    ensures payload == BatchBytes(pairs) + rest && Short(pairs) && 2 * |pairs| <= INT64_MAX
    ensures ParsedBatch(payload) == Some(MapOf(pairs))
  {
    hide TakeInt64, Int64Bytes, PairBytes, TakePairs, MapOf, Short;
    var t := TakeInt64(payload).value;
    TakeInt64Iff(payload, t.0, t.1);
    var p := TakePairs(t.1, t.0 / 2).value;
    pairs, rest := p.0, p.1;
    TakePairsIff(t.1, pairs, rest);
    assert payload == Int64Bytes(2 * |pairs|) + (PairBytes(pairs) + rest) == BatchBytes(pairs) + rest;
  }

  lemma {:induction false} MapOfPairs(batch: map<Bytes, Bytes>, keys: seq<Bytes>, pairs: seq<(Bytes, Bytes)>, k: Bytes)
    requires |pairs| == |keys| && forall i :: 0 <= i < |keys| ==> keys[i] in batch && pairs[i] == (keys[i], batch[keys[i]])
    ensures k in MapOf(pairs) <==> k in keys
    ensures k in MapOf(pairs) ==> k in batch && MapOf(pairs)[k] == batch[k]
    decreases |keys|
  {
    if keys != [] {
      var n := |keys| - 1;
      MapOfPairs(batch, keys[..n], pairs[..n], k);
      assert keys == keys[..n] + [keys[n]];
    }
  }

  lemma MapOfEnumeration(batch: map<Bytes, Bytes>, keys: seq<Bytes>, pairs: seq<(Bytes, Bytes)>)
    requires Enumerates(keys, batch) && pairs == PairsOf(batch, keys)
    ensures MapOf(pairs) == batch
  {
    hide MapOf;
    forall k ensures k in MapOf(pairs) <==> k in batch { MapOfPairs(batch, keys, pairs, k); }
    forall k | k in batch ensures MapOf(pairs)[k] == batch[k] { MapOfPairs(batch, keys, pairs, k); }
  }

  /** Whatever the order in which the keys are written, parsing gives the batch back. */
  lemma BatchRoundTrip(batch: map<Bytes, Bytes>, keys: seq<Bytes>, rest: Bytes)
    requires Enumerates(keys, batch) && 2 * |keys| <= INT64_MAX && Short(PairsOf(batch, keys))
    ensures ParsedBatch(BatchBytes(PairsOf(batch, keys)) + rest) == Some(batch)
  {
    var pairs := PairsOf(batch, keys);
    MapOfEnumeration(batch, keys, pairs);
    hide MapOf, BatchBytes, ParsedBatch, Short, Enumerates;
    BatchParses(pairs, rest);
  }

  function PairSize(pairs: seq<(Bytes, Bytes)>): (n: nat)
    ensures n == |PairBytes(pairs)|
  {
    if pairs == [] then 0
    else PairSize(pairs[..|pairs| - 1]) + 8 + |pairs[|pairs| - 1].0| + 8 + |pairs[|pairs| - 1].1|
  }

  lemma {:induction false} PairSizeMonotone(pairs: seq<(Bytes, Bytes)>, n: nat)
    requires n <= |pairs|
    ensures PairSize(pairs[..n]) <= PairSize(pairs)
    decreases |pairs|
  {
    if n < |pairs| {
      PairSizeMonotone(pairs[..|pairs| - 1], n);
      assert pairs[..|pairs| - 1][..n] == pairs[..n];
    } else {
      assert pairs[..n] == pairs;
    }
  }

  method BatchSize(batch: map<Bytes, Bytes>, keys: seq<Bytes>) returns (size: nat)
    requires forall k :: k in keys ==> k in batch
    ensures size == |BatchBytes(PairsOf(batch, keys))|
  {
    hide StringBytes, Int64Bytes, PairBytes;
    ghost var pairs := PairsOf(batch, keys);
    size := 8;
    var i := 0;
    while i < |keys|
      invariant i <= |keys| && size == 8 + PairSize(pairs[..i])
    {
      assert pairs[..i + 1][..i] == pairs[..i];
      size := size + 8 + |keys[i]|;
      size := size + 8 + |batch[keys[i]]|;
      i := i + 1;
    }
    assert pairs[..i] == pairs;
  }

  method AppendPair(serializer: BinarySerializer, key: Bytes, value: Bytes)
    requires serializer.Valid()
    requires serializer.currentPosition + 16 + |key| + |value| <= serializer.target.Length
    modifies serializer, serializer.target
    ensures serializer.Valid()
    ensures serializer.Written() == old(serializer.Written()) + StringBytes(key) + StringBytes(value)
    ensures serializer.currentPosition == old(serializer.currentPosition) + 16 + |key| + |value|
  {
    hide StringBytes;
    serializer.AppendString(key);
    serializer.AppendString(value);
  }

  /** The keys come in the order of iteration. */
  method SerializeBatch(batch: map<Bytes, Bytes>, keys: seq<Bytes>) returns (payload: array<Byte>)
    requires Enumerates(keys, batch)
    ensures payload[..] == BatchBytes(PairsOf(batch, keys))
  {
    hide StringBytes, Int64Bytes, BinarySerializer.Written, PairsOf;
    ghost var pairs := PairsOf(batch, keys);
    var size := BatchSize(batch, keys);
    var serializer := new BinarySerializer(size);
    serializer.AppendInt64(2 * |keys|);
    assert [] + Int64Bytes(2 * |keys|) == Int64Bytes(2 * |keys|) + PairBytes(pairs[..0]);
    var i := 0;
    while i < |keys|
      invariant i <= |keys| && serializer.Valid() && fresh(serializer) && fresh(serializer.target)
      invariant serializer.target.Length == size && serializer.currentPosition == 8 + PairSize(pairs[..i])
      invariant serializer.Written() == Int64Bytes(2 * |keys|) + PairBytes(pairs[..i])
    {
      OnePairMore(pairs, i);
      AppendPair(serializer, keys[i], batch[keys[i]]);
      i := i + 1;
    }
    assert pairs[..i] == pairs;
    AllWritten(serializer);
    return serializer.target;
  }

  lemma OnePairMore(pairs: seq<(Bytes, Bytes)>, i: nat)
    requires i < |pairs|
    ensures PairSize(pairs[..i + 1]) == PairSize(pairs[..i]) + 16 + |pairs[i].0| + |pairs[i].1| <= PairSize(pairs)
    ensures forall head: Bytes ::
      head + PairBytes(pairs[..i]) + StringBytes(pairs[i].0) + StringBytes(pairs[i].1) == head + PairBytes(pairs[..i + 1])
  {
    hide StringBytes;
    assert pairs[..i + 1][..i] == pairs[..i];
    PairSizeMonotone(pairs, i + 1);
    forall head: Bytes
      ensures head + PairBytes(pairs[..i]) + StringBytes(pairs[i].0) + StringBytes(pairs[i].1) == head + PairBytes(pairs[..i + 1])
    {
      var a, b, c := PairBytes(pairs[..i]), StringBytes(pairs[i].0), StringBytes(pairs[i].1);
      assert PairBytes(pairs[..i + 1]) == a + b + c;
      assert head + a + b + c == head + (a + b + c);
    }
  }

  lemma AllWritten(serializer: BinarySerializer)
    requires serializer.Valid() && serializer.GetRemaining() == 0
    ensures serializer.target[..] == serializer.Written()
  {}

  /** Element i of a batch is a key if i is even, and otherwise the value of the key before it. */
  method ParseElement(deserializer: BinaryDeserializer, ghost left: Bytes, i: nat, key: Bytes, out: map<Bytes, Bytes>)
    returns (ok: bool, newKey: Bytes, newOut: map<Bytes, Bytes>)
    requires deserializer.Valid() && PartlyParsed(left, i, deserializer.Left(), key, out)
    modifies deserializer
    ensures deserializer.Valid() && ok == TakeString(old(deserializer.Left())).Some?
    ensures ok ==> PartlyParsed(left, i + 1, deserializer.Left(), newKey, newOut)
  {
    hide TakeString, TakePairs, MapOf, PartlyParsed;
    newKey, newOut := key, out;
    ghost var before := deserializer.Left();
    var value := deserializer.ConsumeString();
    if value.None? { return false, newKey, newOut; }
    PartlyParsedNext(left, i, before, deserializer.Left(), key, out);
    if i % 2 != 0 {
      newOut := out[key := value.value];
    } else {
      newKey := value.value;
    }
    return true, newKey, newOut;
  }

  method ParseElements(deserializer: BinaryDeserializer, elements: nat) returns (ok: bool, out: map<Bytes, Bytes>)
    requires deserializer.Valid() && elements % 2 == 0
    modifies deserializer
    ensures ok <==> TakePairs(old(deserializer.Left()), elements / 2).Some?
    ensures ok ==> out == MapOf(TakePairs(old(deserializer.Left()), elements / 2).value.0)
  {
    hide TakeString, TakePairs, MapOf, PartlyParsed;
    ghost var left := deserializer.Left();
    ParseBegins(left);
    var key: Bytes := [];
    out := map[];
    var i := 0;
    while i < elements
      invariant i <= elements && deserializer.Valid()
      invariant PartlyParsed(left, i, deserializer.Left(), key, out)
    {
      ghost var before, oldKey, oldOut := deserializer.Left(), key, out;
      ok, key, out := ParseElement(deserializer, left, i, key, out);
      if !ok {
        TakePairsFails(left, i, elements, before, oldKey, oldOut);
        return;
      }
      i := i + 1;
    }
    ParseEnds(left, elements, deserializer.Left(), key, out);
    ok := true;
  }

  /** When parsing fails the output may hold what was read so far. */
  method ParseBatch(payload: Bytes) returns (ok: bool, out: map<Bytes, Bytes>)
    ensures ok <==> ParsedBatch(payload).Some?
    ensures ok ==> out == ParsedBatch(payload).value
  {
    hide TakeInt64, TakePairs, MapOf;
    var deserializer := new BinaryDeserializer(payload);
    var elements := deserializer.ConsumeInt64();
    if elements.None? { return false, map[]; }
    if elements.value < 0 || elements.value % 2 != 0 { return false, map[]; }
    ok, out := ParseElements(deserializer, elements.value);
  }

  /** The state of the parse after i elements, of which the last may be a key without its value. */
  ghost predicate PartlyParsed(left: Bytes, i: nat, now: Bytes, key: Bytes, out: map<Bytes, Bytes>) {
    match TakePairs(left, i / 2)
    case None => false
    case Some((pairs, rest)) =>
      && out == MapOf(pairs)
      && if i % 2 == 0 then now == rest else TakeString(rest) == Some((key, now))
  }

  lemma ParseBegins(left: Bytes)
    ensures PartlyParsed(left, 0, left, [], map[])
  {}

  lemma ParseEnds(left: Bytes, elements: nat, now: Bytes, key: Bytes, out: map<Bytes, Bytes>)
    requires PartlyParsed(left, elements, now, key, out) && elements % 2 == 0
    ensures TakePairs(left, elements / 2).Some? && out == MapOf(TakePairs(left, elements / 2).value.0)
  {
    hide TakePairs, MapOf, TakeString;
  }

  lemma PartlyParsedNext(left: Bytes, i: nat, before: Bytes, now: Bytes, key: Bytes, out: map<Bytes, Bytes>)
    requires PartlyParsed(left, i, before, key, out)
    requires TakeString(before).Some? && TakeString(before).value.1 == now
    ensures
      var value := TakeString(before).value.0;
      if i % 2 != 0 then PartlyParsed(left, i + 1, now, key, out[key := value])
      else PartlyParsed(left, i + 1, now, value, out)
  {
    hide TakeString, MapOf;
    if i % 2 != 0 {
      assert (i + 1) / 2 == i / 2 + 1;
      MapOfOneMore(TakePairs(left, i / 2).value.0, key, TakeString(before).value.0);
    } else {
      assert (i + 1) / 2 == i / 2;
    }
  }

  lemma MapOfOneMore(pairs: seq<(Bytes, Bytes)>, key: Bytes, value: Bytes)
    ensures MapOf(pairs + [(key, value)]) == MapOf(pairs)[key := value]
  {
    assert (pairs + [(key, value)])[..|pairs|] == pairs;
  }

  lemma TakePairsFails(left: Bytes, i: nat, elements: nat, now: Bytes, key: Bytes, out: map<Bytes, Bytes>)
    requires PartlyParsed(left, i, now, key, out) && TakeString(now).None? && i < elements && elements % 2 == 0
    ensures TakePairs(left, elements / 2).None?
  {
    hide TakeString, MapOf;
    NoMorePairs(left, i / 2 + 1, elements / 2);
  }

  lemma {:induction false} NoMorePairs(left: Bytes, m: nat, n: nat)
    requires m <= n && TakePairs(left, m).None?
    ensures TakePairs(left, n).None?
  {
    if m < n { NoMorePairs(left, m, n - 1); }
  }
}
