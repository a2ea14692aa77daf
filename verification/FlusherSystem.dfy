/** The flusher together with its client: what one of them does, the other sees. The client never
    purges, as the flusher makes it retry for ever; so its replies come in the order of the operations. */
module FlusherSystem {
  import opened Common
  import opened Resp
  import opened ConnectionModel
  import opened Pipeline
  import opened PipelineTheorems
  import Client
  import ClientLife
  import Durable
  import Handshakes
  import Printers

  /** A process has a client as long as it lives. */
  datatype System = System(disk: Durable.World, client: Option<World>)

  /** The process starts with a new client, goes on by itself, hands an operation to its client, or gets
      a reply; the client works by itself; a crash takes both. */
  datatype Step =
    | Boot(handshake: Option<Handshakes.Handshake>, random: string)
    | Internal(e: Durable.Event)
    | Hand(e: Durable.Event)
    | Net(event: Event)
    | Serve
    | Crash

  const BEGINNING := System(Durable.START, None)

  /** The operation that recovery, or the second half of a push, executes next. */
  function NextOperation(disk: Durable.World, e: Durable.Event): Durable.Operation
    requires Durable.Enabled(disk, e) && (e.Recover? || e.Execute?)
  {
    var p := disk.process.value;
    if e.Recover? then Durable.Retrieve(disk.store, p.next).value else p.half.value
  }

  /** qclient->execute(&callback, operation). The callback is told apart by the number of its operation. */
  function Staging(disk: Durable.World, e: Durable.Event): Event
    requires Durable.Enabled(disk, e) && (e.Recover? || e.Execute?)
  {
    StageCallback(|disk.process.value.executed|, Printers.Encoded(NextOperation(disk, e)), 0)
  }

  /** Staging and serving involve the flusher, and the client never purges. */
  predicate OnItsOwn(event: Event) {
    !event.StageCallback? && !event.StageForFuture? && !event.Service? && !event.Clear?
  }

  /** The flusher makes its client retry for ever; so each of its clean-ups is a new connection and no more, which
      is one of the steps that it takes on its own. */
  lemma CleaningIsOnItsOwn(w: World, cfg: Config, l: Client.Life, now: int, circle: bool, random: string)
    requires w.core == l.core && w.core.Ok()
    ensures OnItsOwn(Reconnect(random)) && Enabled(w, cfg, Reconnect(random))
    ensures
      Client.Live(l, cfg, Client.InfiniteRetries, Client.CleanUp(now, circle, random)).core
        == Apply(w, cfg, Reconnect(random)).core
  {
    hide Apply, Client.Live;
    ClientLife.CleaningIsReconnecting(l, cfg, Client.InfiniteRetries, now, circle, random, w);
  }

  predicate CanDo(s: System, cfg: Config, step: Step) {
    match step
    case Boot(_, _) => Durable.Enabled(s.disk, Durable.Boot)
    case Internal(e) => (e.Ready? || e.Record?) && Durable.Enabled(s.disk, e)
    case Hand(e) =>
      && (e.Recover? || e.Execute?) && Durable.Enabled(s.disk, e) && s.client.Some?
      && Enabled(s.client.value, cfg, Staging(s.disk, e))
    case Net(event) =>
      OnItsOwn(event) && s.client.Some? && Enabled(s.client.value, cfg, event)
    case Serve => s.client.Some? && Enabled(s.client.value, cfg, Service)
    case Crash => Durable.Enabled(s.disk, Durable.Crash)
  }

  /** The flusher's callback. No reply, or an error, ends the process. */
  function Handled(disk: Durable.World, response: Response): Durable.World {
    match response
    case Response(User(k), Some(reply)) =>
      if !Durable.Up(disk) || reply.Error? then disk.(process := None)
      else if k < |disk.process.value.executed| then Durable.Acknowledged(disk, k)
      else disk
    case _ => disk.(process := None)
  }

  function Do(s: System, cfg: Config, step: Step): System
    requires CanDo(s, cfg, step)
  {
    match step
    case Boot(handshake, random) => System(Durable.Apply(s.disk, Durable.Boot), Some(Start(cfg, handshake, random)))
    case Internal(e) => s.(disk := Durable.Apply(s.disk, e))
    case Hand(e) => System(Durable.Apply(s.disk, e), Some(Apply(s.client.value, cfg, Staging(s.disk, e))))
    case Net(event) => s.(client := Some(Apply(s.client.value, cfg, event)))
    case Serve =>
      var c := s.client.value.core;
      var disk := Handled(s.disk, c.executed[c.serviced]);
      System(disk, if disk.process.None? then None else Some(Apply(s.client.value, cfg, Service)))
    case Crash => System(Durable.Apply(s.disk, Durable.Crash), None)
  }

  function Done(s: System, cfg: Config, steps: seq<Step>): Option<System>
    decreases |steps|
  {
    if steps == [] then Some(s)
    else if !CanDo(s, cfg, steps[0]) then None
    else Done(Do(s, cfg, steps[0]), cfg, steps[1..])
  }

  ghost predicate Reached(s: System, cfg: Config) {
    exists steps :: Done(BEGINNING, cfg, steps) == Some(s)
  }

  // ---- what every step keeps ----

  /** What was staged are the operations that the process executed, in order, each with its number; and
      the process has seen every call of its callback. */
  predicate Executes(c: Core, p: Durable.Process) {
    && |c.staged| == |p.executed| && |c.called| == p.answered
    && forall k :: 0 <= k < |c.staged| ==> c.staged[k] == Request(User(k), Printers.Encoded(p.executed[k]), 0)
  }

  ghost predicate Together(w: World, cfg: Config, p: Durable.Process) {
    && Good(w, cfg) && Executes(w.core, p)
    && forall k :: 0 <= k < |w.outcomes| ==> w.outcomes[k].Answered?
  }

  ghost predicate SystemOk(s: System, cfg: Config) {
    && Durable.Reachable(s.disk) && (s.client.Some? <==> Durable.Up(s.disk))
    && (s.client.Some? ==> Together(s.client.value, cfg, s.disk.process.value))
  }

  lemma {:induction false} AllAreUsers(executed: seq<Response>)
    requires forall k :: 0 <= k < |executed| ==> executed[k].callback.User?
    ensures UserResponses(executed) == executed
  {
    if executed != [] {
      var last := |executed| - 1;
      AllAreUsers(executed[..last]);
      assert executed[..last] + [executed[last]] == executed;
    }
  }

  /** The callback has been called for the first operations, one call each. */
  lemma CalledInOrder(w: World, cfg: Config, p: Durable.Process)
    requires Together(w, cfg, p) && w.core.serviced < |w.core.executed|
    ensures w.core.serviced == p.answered < |p.executed|
  {
    var n := w.core.serviced;
    hide Good, UserResponses, Printers.Encoded;
    GoodReplies(cfg, w, n);
    forall i | 0 <= i < n ensures w.core.executed[i].callback.User? {
      GoodReplies(cfg, w, i);
    }
    AllAreUsers(w.core.executed[..n]);
  }

  /** The next reply that reaches the callback is the server's reply to the process's oldest operation
      without one. */
  lemma NextReplyIsForOldestOperation(w: World, cfg: Config, p: Durable.Process)
    requires Together(w, cfg, p) && w.core.serviced < |w.core.executed|
    ensures w.core.serviced == p.answered < |p.executed| && p.answered < |w.outcomes|
    ensures
      var k := p.answered;
      match w.core.executed[k].reply
      case None => false
      case Some(reply) =>
        && w.core.executed[k].callback == User(k)
        && w.outcomes[k] == Answered(Wired(reply, UserTag(k, 0)), [UserTag(k, 0)])
        && w.core.staged[k].bytes == Printers.Encoded(p.executed[k])
        && Executes(ServiceNext(w.core), p.(answered := k + 1))
  {
    CalledInOrder(w, cfg, p);
    hide Good, UserResponses, Printers.Encoded;
    GoodReplies(cfg, w, p.answered);
    assert Parts(p.answered, 0, 0) == [UserTag(p.answered, 0)];
  }

  lemma ServiceKeepsTogether(w: World, cfg: Config, p: Durable.Process)
    requires Together(w, cfg, p) && Normal(cfg) && Enabled(w, cfg, Service)
    ensures Together(Apply(w, cfg, Service), cfg, p.(answered := p.answered + 1))
  {
    NextReplyIsForOldestOperation(w, cfg, p);
    ServiceFrame(w, cfg);
    hide Good, Apply, Enabled, Executes;
    StepIsGood(w, cfg, Service);
  }

  lemma HandKeepsTogether(w: World, cfg: Config, p: Durable.Process, q: Durable.Process, op: Durable.Operation)
    requires Together(w, cfg, p) && Normal(cfg)
    requires q.executed == p.executed + [op] && q.answered == p.answered
    requires Enabled(w, cfg, StageCallback(|p.executed|, Printers.Encoded(op), 0))
    ensures Together(Apply(w, cfg, StageCallback(|p.executed|, Printers.Encoded(op), 0)), cfg, q)
  {
    hide Good, Printers.Encoded, WellCounted;
    StepIsGood(w, cfg, StageCallback(|p.executed|, Printers.Encoded(op), 0));
  }

  lemma NetKeepsTogether(w: World, cfg: Config, p: Durable.Process, e: Event)
    requires Together(w, cfg, p) && Normal(cfg) && Enabled(w, cfg, e) && OnItsOwn(e)
    ensures Together(Apply(w, cfg, e), cfg, p)
  {
    hide Good, Apply, Enabled, Printers.Encoded;
    GoodIsInv(w, cfg);
    StepIsGood(w, cfg, e);
    OtherStepFrame(w, cfg, e);
    OnlyClearDrops(w, cfg, e);
    var v := Apply(w, cfg, e);
    forall k | 0 <= k < |v.outcomes| ensures v.outcomes[k].Answered? {
      assert k < |w.outcomes| ==> v.outcomes[k] == w.outcomes[k];
    }
  }

  lemma StartIsTogether(cfg: Config, handshake: Option<Handshakes.Handshake>, random: string, p: Durable.Process)
    requires p.executed == [] && p.answered == 0
    ensures Together(Start(cfg, handshake, random), cfg, p)
  {
    StartIsGood(cfg, handshake, random);
    InitialIsEmpty(cfg, handshake, random);
    hide Good, Initial;
  }

  lemma ProcessAfterHand(disk: Durable.World, e: Durable.Event)
    requires Durable.Enabled(disk, e) && (e.Recover? || e.Execute?)
    ensures
      var p, v := disk.process.value, Durable.Apply(disk, e).process;
      v.Some? && v.value.answered == p.answered && v.value.executed == p.executed + [NextOperation(disk, e)]
  {
    hide Durable.Retrieve;
  }

  lemma ProcessAfterInternal(disk: Durable.World, e: Durable.Event)
    requires Durable.Enabled(disk, e) && (e.Ready? || e.Record?)
    ensures
      var p, v := disk.process.value, Durable.Apply(disk, e).process;
      Durable.Up(disk) && v.Some? && v.value.answered == p.answered && v.value.executed == p.executed
  {
    hide Durable.Recorded;
  }

  lemma ProcessAfterBoot(disk: Durable.World)
    requires Durable.Enabled(disk, Durable.Boot)
    ensures
      var v := Durable.Apply(disk, Durable.Boot).process;
      v.Some? && v.value.executed == [] && v.value.answered == 0
  {
    hide Durable.Counter;
  }

  /** A reply to the oldest operation is the event Acknowledge of that operation, or ends the process. */
  lemma HandledIsAcknowledge(disk: Durable.World, response: Response, reply: Reply)
    requires Durable.Up(disk) && disk.process.value.answered < |disk.process.value.executed|
    requires response == Response(User(disk.process.value.answered), Some(reply))
    ensures
      var p, d := disk.process.value, Handled(disk, response);
      && Durable.Enabled(disk, Durable.Acknowledge(p.answered)) && Durable.Enabled(disk, Durable.Crash)
      && if reply.Error? then d == Durable.Apply(disk, Durable.Crash) && d.process.None?
         else
           && d == Durable.Apply(disk, Durable.Acknowledge(p.answered)) && d.process.Some?
           && d.process.value.executed == p.executed && d.process.value.answered == p.answered + 1
  {
    hide Durable.Popped;
  }

  lemma SameCounts(w: World, cfg: Config, p: Durable.Process, q: Durable.Process)
    requires Together(w, cfg, p) && p.executed == q.executed && p.answered == q.answered
    ensures Together(w, cfg, q)
  {
    hide Good, Printers.Encoded;
  }

  lemma ServeEffect(s: System, cfg: Config)
    requires CanDo(s, cfg, Serve)
    ensures s.client.Some? && Enabled(s.client.value, cfg, Service)
    ensures
      var w, t := s.client.value, Do(s, cfg, Serve);
      && w.core.serviced < |w.core.executed| && t.disk == Handled(s.disk, w.core.executed[w.core.serviced])
      && t.client == if t.disk.process.None? then None else Some(Apply(w, cfg, Service))
  {
    hide Handled, Apply;
  }

  lemma ServeIsOk(s: System, cfg: Config)
    requires SystemOk(s, cfg) && Normal(cfg) && CanDo(s, cfg, Serve)
    ensures SystemOk(Do(s, cfg, Serve), cfg)
  {
    ServeEffect(s, cfg);
    var w, p, t := s.client.value, s.disk.process.value, Do(s, cfg, Serve);
    hide Together, Do, CanDo, Apply, Enabled, Handled, Executes, Durable.Apply, Durable.Enabled, Durable.Reachable;
    NextReplyIsForOldestOperation(w, cfg, p);
    var response := w.core.executed[w.core.serviced];
    HandledIsAcknowledge(s.disk, response, response.reply.value);
    if response.reply.value.Error? {
      Durable.StaysReachable(s.disk, Durable.Crash);
    } else {
      Durable.StaysReachable(s.disk, Durable.Acknowledge(p.answered));
      ServiceKeepsTogether(w, cfg, p);
      SameCounts(Apply(w, cfg, Service), cfg, p.(answered := p.answered + 1), t.disk.process.value);
    }
  }

  lemma DiskStepIsOk(s: System, cfg: Config, step: Step)
    requires SystemOk(s, cfg) && Normal(cfg) && CanDo(s, cfg, step)
    requires step.Boot? || step.Internal? || step.Hand? || step.Crash?
    ensures SystemOk(Do(s, cfg, step), cfg)
  {
    hide Together, Start, Apply, Enabled, Executes, Durable.Apply, Durable.Enabled, Durable.Reachable, NextOperation;
    match step
    case Boot(handshake, random) =>
      Durable.StaysReachable(s.disk, Durable.Boot);
      ProcessAfterBoot(s.disk);
      StartIsTogether(cfg, handshake, random, Durable.Apply(s.disk, Durable.Boot).process.value);
    case Internal(e) =>
      Durable.StaysReachable(s.disk, e);
      ProcessAfterInternal(s.disk, e);
      SameCounts(s.client.value, cfg, s.disk.process.value, Durable.Apply(s.disk, e).process.value);
    case Hand(e) =>
      Durable.StaysReachable(s.disk, e);
      ProcessAfterHand(s.disk, e);
      HandKeepsTogether(s.client.value, cfg, s.disk.process.value, Durable.Apply(s.disk, e).process.value,
                        NextOperation(s.disk, e));
    case Crash =>
      Durable.StaysReachable(s.disk, Durable.Crash);
      CrashLeavesNothing(s.disk);
  }

  lemma CrashLeavesNothing(disk: Durable.World)
    requires Durable.Enabled(disk, Durable.Crash)
    ensures Durable.Apply(disk, Durable.Crash).process.None?
  {}

  lemma StepIsOk(s: System, cfg: Config, step: Step)
    requires SystemOk(s, cfg) && Normal(cfg) && CanDo(s, cfg, step)
    ensures SystemOk(Do(s, cfg, step), cfg)
  {
    match step
    case Serve => ServeIsOk(s, cfg);
    case Net(event) =>
      hide Together, Apply, Enabled, Durable.Reachable;
      NetKeepsTogether(s.client.value, cfg, s.disk.process.value, event);
    case _ => DiskStepIsOk(s, cfg, step);
  }

  lemma {:induction false} StepsAreOk(s: System, cfg: Config, steps: seq<Step>)
    requires SystemOk(s, cfg) && Normal(cfg)
    ensures Done(s, cfg, steps).Some? ==> SystemOk(Done(s, cfg, steps).value, cfg)
    decreases |steps|
  {
    hide SystemOk, CanDo, Do;
    if steps != [] && CanDo(s, cfg, steps[0]) {
      StepIsOk(s, cfg, steps[0]);
      StepsAreOk(Do(s, cfg, steps[0]), cfg, steps[1..]);
    }
  }

  lemma ReachedIsOk(s: System, cfg: Config)
    requires Reached(s, cfg) && Normal(cfg)
    ensures SystemOk(s, cfg)
  {
    BeginningIsOk(cfg);
    hide SystemOk, Done;
    var steps :| Done(BEGINNING, cfg, steps) == Some(s);
    StepsAreOk(BEGINNING, cfg, steps);
  }

  lemma BeginningIsOk(cfg: Config)
    ensures SystemOk(BEGINNING, cfg)
  {
    assert Durable.After(Durable.START, []) == Some(Durable.START);
  }

  // ---- main results ----

  /** In every run of flusher and client together, whatever crashes, reconnections and partial writes
      there are, the reply handed to the callback is the server's reply to the very operation whose
      record the callback removes. */
  lemma ReplyAndRecordMatch(s: System, cfg: Config)
    requires Reached(s, cfg) && Normal(cfg) && CanDo(s, cfg, Serve)
    ensures Durable.Up(s.disk) && s.client.Some?
    ensures
      var p, w, t := s.disk.process.value, s.client.value, Do(s, cfg, Serve);
      var k := p.answered;
      && k < |p.executed| && k < |w.outcomes| && k < |w.core.staged|
      && w.core.staged[k].bytes == Printers.Encoded(p.executed[k])
      && w.outcomes[k].Answered? && w.outcomes[k].wired.tag == UserTag(k, 0)
      && Durable.Retrieve(s.disk.store, p.IndexOf(k)) == Some(p.executed[k])
      && t.disk == if w.outcomes[k].wired.reply.Error? then Durable.Apply(s.disk, Durable.Crash)
                   else Durable.Apply(s.disk, Durable.Acknowledge(k))
  {
    ReachedIsOk(s, cfg);
    ServeEffect(s, cfg);
    var w, p := s.client.value, s.disk.process.value;
    hide Reached, Together, Do, CanDo, Apply, Enabled, Handled, Executes, Durable.Apply, Durable.Reachable;
    NextReplyIsForOldestOperation(w, cfg, p);
    var response := w.core.executed[w.core.serviced];
    HandledIsAcknowledge(s.disk, response, response.reply.value);
    Durable.PopMatchesReply(s.disk, p.answered);
  }

  /** So no operation is lost: those acknowledged and those stored are, in order, the ones pushed. */
  lemma SystemLosesNothing(s: System, cfg: Config)
    requires Reached(s, cfg) && Normal(cfg)
    ensures s.disk.acknowledged <= s.disk.pushed
    ensures
      var stored := Durable.Stored(s.disk.store, |s.disk.acknowledged|, |s.disk.pushed|);
      && |stored| == |s.disk.pushed| - |s.disk.acknowledged|
      && forall i :: 0 <= i < |stored| ==> stored[i] == Some(s.disk.pushed[|s.disk.acknowledged| + i])
  {
    hide Reached, Together, Durable.Reachable, Durable.Stored;
    ReachedIsOk(s, cfg);
    Durable.NothingLost(s.disk);
  }
}
