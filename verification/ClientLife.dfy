/** When a client drops requests: what its retry mode promises, over its whole life. */
module ClientLife {
  import opened Common
  import opened ConnectionModel
  import opened Client
  import opened Pipeline
  import Handshakes
  import Printers
  import Resp

  function LifeAfter(l: Life, cfg: Config, mode: RetryMode, acts: seq<Act>): (r: Life)
    requires l.core.Sane()
    ensures r.core.Sane()
    decreases |acts|
  {
    if acts == [] then l else Live(LifeAfter(l, cfg, mode, acts[..|acts| - 1]), cfg, mode, acts[|acts| - 1])
  }

  /** Requests are pending, and this is a clean-up that has to drop them: the mode does not retry for ever,
      its timeout is over, and the servers were there before or have all been tried. */
  predicate Drops(l: Life, mode: RetryMode, a: Act)
    requires l.core.Sane()
  {
    && a.CleanUp? && l.core.ItemHasArrived()
    && !mode.InfiniteRetries?
    && (mode.RetryWithTimeout? ==> l.lastAvailable + mode.timeout < a.now)
    && (l.answered || l.everAnswered || a.madeFullCircle)
  }

  /** What was handed over between two states got a reply, all of it. */
  predicate AllReplied(before: seq<Response>, after: seq<Response>) {
    before <= after && forall i :: |before| <= i < |after| ==> after[i].reply.Some?
  }

  lemma RepliedInTurn(a: seq<Response>, b: seq<Response>, c: seq<Response>)
    requires a <= b <= c
    ensures AllReplied(a, c) <==> AllReplied(a, b) && AllReplied(b, c)
  {
    if AllReplied(a, c) {
      forall i | |a| <= i < |b| ensures b[i].reply.Some? { assert c[i] == b[i]; }
    }
  }

  lemma UserReplied(c: Core, cfg: Config, t: Resp.Reply)
    requires c.Sane()
    ensures var d := ConsumeReply(c, cfg, t).0; AllReplied(c.executed, d.executed) && d.staged == c.staged
  {
    hide IsOK, IsQueued;
  }

  lemma OneReplied(c: Core, cfg: Config, t: Resp.Reply, parsed: bool, random: string)
    requires c.Sane()
    ensures
      var d := ConsumeResponse(c, cfg, t, parsed, random).0;
      AllReplied(c.executed, d.executed) && d.staged == c.staged
  {
    UserReplied(c, cfg, t);
    hide Handshakes.Validate, Handshakes.Provide, IsUnavailable, ConsumeReply, Printers.Encoded;
  }

  lemma {:induction false} ConsumedIsReplied(c: Core, cfg: Config, replies: seq<Resp.Reply>, o: Oracle)
    requires c.Sane()
    ensures
      var d := ConsumeAll(c, cfg, replies, o).0;
      AllReplied(c.executed, d.executed) && d.staged == c.staged
    decreases |replies|
  {
    hide ConsumeResponse;
    if replies != [] && !o.redirects(replies[0]) {
      var r := ConsumeResponse(c, cfg, replies[0], o.parses(replies[0]), o.random);
      OneReplied(c, cfg, replies[0], o.parses(replies[0]), o.random);
      if r.1 {
        ConsumedIsReplied(r.0, cfg, replies[1..], o);
        RepliedInTurn(c.executed, r.0.executed, ConsumeAll(r.0, cfg, replies[1..], o).0.executed);
      }
    }
  }

  lemma WritingHandsNothingOver(c: Core, cfg: Config)
    requires c.Ok()
    ensures GetNextToWrite(c, cfg).0.executed == c.executed && GetNextToWrite(c, cfg).0.staged == c.staged
  {
    DiscardWrittenCatchesUp(c, cfg);
    hide DiscardWritten;
  }

  /** One act drops requests exactly then. Whatever it does, what was staged or handed over stays. */
  lemma ActDropsIff(l: Life, cfg: Config, mode: RetryMode, a: Act)
    requires l.core.Sane()
    ensures
      var r := Live(l, cfg, mode, a);
      && l.core.executed <= r.core.executed && l.core.staged <= r.core.staged
      && (AllReplied(l.core.executed, r.core.executed) <==> !Drops(l, mode, a))
  {
    match a
    case Write => if l.core.Ok() { WritingHandsNothingOver(l.core, cfg); }
    case Receive(replies, o) => ConsumedIsReplied(l.core, cfg, replies, o);
    case CleanUp(now, madeFullCircle, random) => CleaningDropsIff(l, cfg, mode, now, madeFullCircle, random);
    case _ =>
    hide ConsumeAll, CleanedUp, GetNextToWrite, ShouldPurge, NullReplies, FirstIsConsumed;
  }

  lemma CleaningDropsIff(l: Life, cfg: Config, mode: RetryMode, now: int, circle: bool, random: string)
    requires l.core.Sane()
    ensures
      var a := CleanUp(now, circle, random);
      var r := Live(l, cfg, mode, a);
      && l.core.executed <= r.core.executed && r.core.staged == l.core.staged
      && (AllReplied(l.core.executed, r.core.executed) <==> !Drops(l, mode, a))
  {
    var c, ever := l.core, l.answered || l.everAnswered;
    CleanUpDrops(c, cfg, mode, l.lastAvailable, now, ever, circle, random);
    hide CleanedUp, ShouldPurge;
    var pending := c.staged[c.base + c.ack - 1..];
    var r := Live(l, cfg, mode, CleanUp(now, circle, random));
    if pending != [] && !MustKeep(mode, l.lastAvailable, now, ever, circle) {
      assert r.core.executed[|c.executed|] == NullReplies(pending)[0];
    }
  }

  lemma {:induction false} RunKeepsWhatWas(l: Life, cfg: Config, mode: RetryMode, acts: seq<Act>)
    requires l.core.Sane()
    ensures l.core.executed <= LifeAfter(l, cfg, mode, acts).core.executed
    decreases |acts|
  {
    hide Live, Drops, AllReplied;
    if acts != [] {
      var last := |acts| - 1;
      RunKeepsWhatWas(l, cfg, mode, acts[..last]);
      ActDropsIff(LifeAfter(l, cfg, mode, acts[..last]), cfg, mode, acts[last]);
    }
  }

  /** At some time among these acts requests have to be dropped. */
  ghost predicate SomeDrop(l: Life, cfg: Config, mode: RetryMode, acts: seq<Act>)
    requires l.core.Sane()
  {
    exists k :: 0 <= k < |acts| && Drops(LifeAfter(l, cfg, mode, acts[..k]), mode, acts[k])
  }

  lemma SomeDropMore(l: Life, cfg: Config, mode: RetryMode, acts: seq<Act>)
    requires l.core.Sane() && acts != []
    ensures
      var last := |acts| - 1;
      SomeDrop(l, cfg, mode, acts)
      <==> SomeDrop(l, cfg, mode, acts[..last]) || Drops(LifeAfter(l, cfg, mode, acts[..last]), mode, acts[last])
  {
    hide LifeAfter, Drops;
    var init := acts[..|acts| - 1];
    assert forall k :: 0 <= k < |init| ==> init[..k] == acts[..k] && init[k] == acts[k];
  }

  /** Over the whole life of a client: every request that was handed over got a reply, if and only if at no time
      a clean-up had to drop requests. */
  lemma {:induction false} RunDropsIff(l: Life, cfg: Config, mode: RetryMode, acts: seq<Act>)
    requires l.core.Sane()
    ensures
      AllReplied(l.core.executed, LifeAfter(l, cfg, mode, acts).core.executed) <==> !SomeDrop(l, cfg, mode, acts)
    decreases |acts|
  {
    hide Live, Drops, AllReplied;
    if acts == [] {
      NothingHandedOver(l.core.executed);
    } else {
      var last := |acts| - 1;
      SomeDropMore(l, cfg, mode, acts);
      hide SomeDrop;
      var m := LifeAfter(l, cfg, mode, acts[..last]);
      RunDropsIff(l, cfg, mode, acts[..last]);
      RunKeepsWhatWas(l, cfg, mode, acts[..last]);
      ActDropsIff(m, cfg, mode, acts[last]);
      RepliedInTurn(l.core.executed, m.core.executed, Live(m, cfg, mode, acts[last]).core.executed);
    }
  }

  lemma NothingHandedOver(executed: seq<Response>)
    ensures AllReplied(executed, executed)
  {}

  /** A client that retries for ever never answers a request with the null reply. */
  lemma InfiniteRetriesDropNothing(l: Life, cfg: Config, acts: seq<Act>)
    requires l.core.Sane()
    ensures AllReplied(l.core.executed, LifeAfter(l, cfg, InfiniteRetries, acts).core.executed)
  {
    hide LifeAfter, AllReplied;
    RunDropsIff(l, cfg, InfiniteRetries, acts);
  }

  /** No reply is received among these acts. */
  predicate NothingReceived(acts: seq<Act>) { forall k :: 0 <= k < |acts| ==> !acts[k].Receive? }

  lemma {:induction false} StaysUnanswered(l: Life, cfg: Config, mode: RetryMode, acts: seq<Act>)
    requires l.core.Sane() && !l.answered && !l.everAnswered && NothingReceived(acts)
    ensures var r := LifeAfter(l, cfg, mode, acts); !r.answered && !r.everAnswered
    decreases |acts|
  {
    hide CleanedUp, GetNextToWrite, ShouldPurge;
    if acts != [] { StaysUnanswered(l, cfg, mode, acts[..|acts| - 1]); }
  }

  /** Whatever the mode, nothing is dropped before a reply was received and all servers were tried. */
  lemma NothingDroppedBeforeFullCircle(l: Life, cfg: Config, mode: RetryMode, acts: seq<Act>)
    requires l.core.Sane() && !l.answered && !l.everAnswered && NothingReceived(acts)
    requires forall k :: 0 <= k < |acts| && acts[k].CleanUp? ==> !acts[k].madeFullCircle
    ensures AllReplied(l.core.executed, LifeAfter(l, cfg, mode, acts).core.executed)
  {
    hide LifeAfter, AllReplied;
    forall k | 0 <= k < |acts| ensures !Drops(LifeAfter(l, cfg, mode, acts[..k]), mode, acts[k]) {
      StaysUnanswered(l, cfg, mode, acts[..k]);
    }
    RunDropsIff(l, cfg, mode, acts);
  }

  lemma {:induction false} AvailabilityGrows(l: Life, cfg: Config, mode: RetryMode, acts: seq<Act>)
    requires l.core.Sane()
    requires forall k :: 0 <= k < |acts| && acts[k].NoteAvailable? ==> l.lastAvailable <= acts[k].now
    ensures l.lastAvailable <= LifeAfter(l, cfg, mode, acts).lastAvailable
    decreases |acts|
  {
    hide CleanedUp, GetNextToWrite, ShouldPurge, ConsumeAll, FirstIsConsumed;
    if acts != [] { AvailabilityGrows(l, cfg, mode, acts[..|acts| - 1]); }
  }

  /** With a timeout, nothing is dropped until that long after the servers were last known to be there. */
  lemma NothingDroppedWithinTimeout(l: Life, cfg: Config, timeout: int, acts: seq<Act>)
    requires l.core.Sane()
    requires forall k :: 0 <= k < |acts| && acts[k].NoteAvailable? ==> l.lastAvailable <= acts[k].now
    requires forall k :: 0 <= k < |acts| && acts[k].CleanUp? ==> acts[k].now <= l.lastAvailable + timeout
    ensures AllReplied(l.core.executed, LifeAfter(l, cfg, RetryWithTimeout(timeout), acts).core.executed)
  {
    hide LifeAfter, AllReplied;
    var mode := RetryWithTimeout(timeout);
    forall k | 0 <= k < |acts| ensures !Drops(LifeAfter(l, cfg, mode, acts[..k]), mode, acts[k]) {
      AvailabilityGrows(l, cfg, mode, acts[..k]);
    }
    RunDropsIff(l, cfg, mode, acts);
  }

  // ---- in the pipeline ----

  /** In the request pipeline a clean-up is a new connection, with a purge in front of it unless everything must
      be kept. */
  lemma CleaningIsReconnecting(l: Life, cfg: Config, mode: RetryMode, now: int, circle: bool, random: string, w: World)
    requires w.core == l.core && w.core.Ok()
    ensures
      var keep := MustKeep(mode, l.lastAvailable, now, l.answered || l.everAnswered, circle);
      && Enabled(w, cfg, Clear(random))
      && var u := if keep then w else Apply(w, cfg, Clear(random));
         && Enabled(u, cfg, Reconnect(random))
         && Live(l, cfg, mode, CleanUp(now, circle, random)).core == Apply(u, cfg, Reconnect(random)).core
  {
    hide ClearAllPending, Reconnection;
  }
}
