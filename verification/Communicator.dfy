/** The vault of pending requests and the communicator, as they work. */
module Communicators {
  import opened Common
  import opened Framing
  import opened Retries

  lemma FrontIsEarliest(v: Pending)
    requires v.Matched() && v.Sorted() && v.order != []
    ensures forall id :: id in v.items ==> v.order[0] in v.items && v.items[v.order[0]].lastRetry <= v.items[id].lastRetry
  {
    forall id | id in v.items ensures v.order[0] in v.items && v.items[v.order[0]].lastRetry <= v.items[id].lastRetry {
      var i := Position(v.order, id);
      assert i == 0 || v.LastRetry(v.order[0]) <= v.LastRetry(v.order[i]);
    }
  }

  lemma EmptyTogether(v: Pending)
    requires v.Matched()
    ensures v.items == map[] <==> v.order == []
  {
    if v.order != [] { assert v.order[0] in v.items; }
    if v.items != map[] {
      var id :| id in v.items;
      assert id in v.order;
    }
  }

  class PendingRequestVault {
    var mPendingRequests: map<RequestID, Item>
    var mNextToRetry: seq<RequestID>
    /** The values given to promises. */
    ghost var fulfilled: seq<(RequestID, CommunicatorReply)>

    ghost function Model(): Pending
      reads this
    {
      Pending(mPendingRequests, mNextToRetry)
    }

    ghost predicate Valid()
      reads this
    {
      Model().Matched()
    }

    constructor ()
      ensures Valid() && Model() == EMPTY && fulfilled == []
    {
      mPendingRequests, mNextToRetry, fulfilled := map[], [], [];
    }

    /** The identifier is freshly generated. */
    method Insert(id: RequestID, channel: Bytes, contents: Bytes, time: int)
      requires Valid() && id !in mPendingRequests
      modifies this
      ensures Valid() && Model() == Retries.Insert(old(Model()), id, channel, contents, time) && fulfilled == old(fulfilled)
    {
      InsertKeepsMatched(Model(), id, channel, contents, time);
      hide Pending.Matched;
      mPendingRequests := mPendingRequests[id := Item(time, time, channel, contents)];
      mNextToRetry := mNextToRetry + [id];
    }

    method Satisfy(id: RequestID, reply: CommunicatorReply) returns (found: bool)
      requires Valid()
      modifies this
      ensures Valid() && found == (id in old(mPendingRequests)) && Model() == Retries.Satisfy(old(Model()), id)
      ensures fulfilled == if found then old(fulfilled) + [(id, reply)] else old(fulfilled)
    {
      if id !in mPendingRequests { return false; }
      RemovedKeepsOrder(Model(), id);
      hide Pending.Matched;
      fulfilled := fulfilled + [(id, reply)];
      var i := Position(mNextToRetry, id);
      mNextToRetry := mNextToRetry[..i] + mNextToRetry[i + 1..];
      mPendingRequests := mPendingRequests - {id};
      return true;
    }

    /** The time of the oldest retry; there is none when the vault is empty. */
    method GetEarliestRetry() returns (time: Option<int>)
      requires Valid()
      ensures time == if mNextToRetry == [] then None else Some(mPendingRequests[mNextToRetry[0]].lastRetry)
      ensures time.None? <==> mPendingRequests == map[]
      ensures Model().Sorted() && time.Some? ==> forall id :: id in mPendingRequests ==> time.value <= mPendingRequests[id].lastRetry
    {
      if mPendingRequests == map[] {
        EmptyTogether(Model());
        return None;
      }
      EmptyTogether(Model());
      if Model().Sorted() { FrontIsEarliest(Model()); }
      return Some(mPendingRequests[mNextToRetry[0]].lastRetry);
    }

    method Expire(deadline: int) returns (expired: nat)
      requires Valid()
      modifies this
      ensures Valid() && Model() == Retries.Expire(old(Model()), deadline).0 && fulfilled == old(fulfilled)
      ensures expired == |Retries.Expire(old(Model()), deadline).1|
    {
      expired := 0;
      ghost var all := Retries.Expire(Model(), deadline);
      while mNextToRetry != []
        invariant Valid() && fulfilled == old(fulfilled)
        invariant Retries.Expire(Model(), deadline).0 == all.0
        invariant expired + |Retries.Expire(Model(), deadline).1| == |all.1|
        decreases |mNextToRetry|
      {
        if mPendingRequests[mNextToRetry[0]].start > deadline { break; }
        DropFrontKeepsOrder(Model());
        mPendingRequests := mPendingRequests - {mNextToRetry[0]};
        mNextToRetry := mNextToRetry[1..];
        expired := expired + 1;
      }
    }

    method RetryFrontItem(now: int) returns (front: Option<(RequestID, Item)>)
      requires Valid()
      modifies this
      ensures Valid()
      ensures front.None? <==> old(mNextToRetry) == []
      ensures fulfilled == old(fulfilled)
      ensures front.None? ==> Model() == old(Model())
      ensures front.Some? ==>
        var id := front.value.0;
        id == old(mNextToRetry[0]) && front.value.1 == old(mPendingRequests[mNextToRetry[0]])
        && Model() == RetryFront(old(Model()), now)
    {
      if mNextToRetry == [] { return None; }
      RetryFrontKeepsMatched(Model(), now);
      hide Pending.Matched;
      var id := mNextToRetry[0];
      front := Some((id, mPendingRequests[id]));
      mPendingRequests := mPendingRequests[id := mPendingRequests[id].(lastRetry := now)];
      mNextToRetry := mNextToRetry[1..] + [id];
    }
  }

  class Communicator {
    const cfg: Config
    const mPendingVault: PendingRequestVault
    /** Channels and payloads given to PUBLISH. */
    var published: seq<(Bytes, Bytes)>

    ghost predicate Valid()
      reads this, mPendingVault
    {
      mPendingVault.Valid()
    }

    constructor (cfg: Config)
      ensures Valid() && fresh(mPendingVault) && this.cfg == cfg
      ensures mPendingVault.Model() == EMPTY && published == [] && mPendingVault.fulfilled == []
    {
      this.cfg := cfg;
      mPendingVault := new PendingRequestVault();
      published := [];
    }

    method Publish(channel: Bytes, id: RequestID, contents: Bytes)
      modifies this`published
      ensures published == old(published) + [(channel, RequestBytes(id, contents))]
    {
      var payload := SerializeCommunicatorRequest(id, contents);
      published := published + [(channel, payload[..])];
    }

    /** The identifier is freshly generated. */
    method Issue(contents: Bytes, id: RequestID, now: int)
      requires Valid() && id !in mPendingVault.mPendingRequests
      modifies this, mPendingVault
      ensures Valid() && mPendingVault.Model() == Insert(old(mPendingVault.Model()), id, cfg.channel, contents, now)
      ensures published == old(published) + [(cfg.channel, RequestBytes(id, contents))]
      ensures mPendingVault.fulfilled == old(mPendingVault.fulfilled)
    {
      mPendingVault.Insert(id, cfg.channel, contents, now);
      Publish(cfg.channel, id, contents);
    }

    /** One pass; the clock reads the same throughout. */
    method RunNextToRetry(now: int) returns (front: Option<(RequestID, Item)>)
      requires Valid()
      modifies mPendingVault
      ensures Valid() && mPendingVault.fulfilled == old(mPendingVault.fulfilled)
      ensures
        var r := RunNext(old(mPendingVault.Model()), cfg, now);
        && mPendingVault.Model() == r.0
        && (front.Some? <==> r.2.Some?)
        && (front.Some? ==>
            && front.value.0 == r.2.value && front.value.0 in r.0.items
            && front.value.1.channel == r.0.items[front.value.0].channel
            && front.value.1.contents == r.0.items[front.value.0].contents)
    {
      hide Distinct, Expire;
      var _ := mPendingVault.Expire(now - cfg.hardDeadline);
      var earliestRetry := mPendingVault.GetEarliestRetry();
      if earliestRetry.None? || earliestRetry.value + cfg.retryInterval > now { return None; }
      front := mPendingVault.RetryFrontItem(now);
    }

    /** One round of the background thread. It reads the clock once before the pass, and for the pass. */
    method BackgroundRound(before: int, now: int)
      requires Valid()
      modifies this, mPendingVault
      ensures Valid() && mPendingVault.fulfilled == old(mPendingVault.fulfilled)
      ensures
        var v := old(mPendingVault.Model());
        var r := RunNext(v, cfg, now);
        if v.order == [] || v.items[v.order[0]].lastRetry + cfg.retryInterval > before then
          mPendingVault.Model() == v && published == old(published)
        else
          && mPendingVault.Model() == r.0
          && published == old(published) + match r.2
            case None => []
            case Some(id) => [(Resend(r.0, id, now).channel, RequestBytes(id, Resend(r.0, id, now).contents))]
    {
      var earliestRetry := mPendingVault.GetEarliestRetry();
      if earliestRetry.None? || earliestRetry.value + cfg.retryInterval > before { return; }
      var front := RunNextToRetry(now);
      hide RunNext, RequestBytes, Pending.Matched;
      if front.Some? { Publish(front.value.1.channel, front.value.0, front.value.1.contents); }
    }

    /** A reply on our channel satisfies the request it names, if that is still pending. */
    method ProcessIncoming(isMessage: bool, channel: Bytes, payload: Bytes)
      requires Valid()
      modifies mPendingVault
      ensures Valid()
      ensures
        var v, parsed := old(mPendingVault.Model()), ParseReply(payload);
        if isMessage && channel == cfg.channel && parsed.Some? && parsed.value.0 in v.items then
          && mPendingVault.Model() == Satisfy(v, parsed.value.0)
          && mPendingVault.fulfilled == old(mPendingVault.fulfilled) + [parsed.value]
        else mPendingVault.Model() == v && mPendingVault.fulfilled == old(mPendingVault.fulfilled)
    {
      hide ParseReply;
      if !isMessage || channel != cfg.channel { return; }
      var parsed := ParseCommunicatorReply(payload);
      if parsed.Some? { var _ := mPendingVault.Satisfy(parsed.value.0, parsed.value.1); }
    }
  }
}
