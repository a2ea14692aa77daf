/** Which endpoint to connect to next: members in turn, each with the addresses its name resolves to,
    and what it means to have made a full circle. */
module Endpoints {
  import opened Common

  type Endpoint = string

  type ServiceEndpoint = string

  /** The resolver's answer to the k-th question it is asked. */
  type Answers = nat -> seq<ServiceEndpoint>

  // ---- the decider as a value ----

  datatype Decider = Decider(
    members: seq<Endpoint>, nextMember: nat, fullCircle: bool, redirection: Option<Endpoint>,
    resolved: seq<ServiceEndpoint>, asked: seq<Endpoint>, handed: seq<ServiceEndpoint>)
  {
    predicate Valid() { members != [] ==> nextMember < |members| }

    function Bound(): nat { |members| + if redirection.Some? then 1 else 0 }
  }

  function Start(members: seq<Endpoint>): Decider {
    Decider(members, 0, false, None, [], [], [])
  }

  function Reverse<T>(s: seq<T>): (r: seq<T>)
    ensures |r| == |s| && forall i :: 0 <= i < |s| ==> r[i] == s[|s| - 1 - i]
  {
    seq(|s|, i requires 0 <= i < |s| => s[|s| - 1 - i])
  }

  function RegisterRedirection(d: Decider, redir: Endpoint): Decider {
    d.(resolved := [], redirection := Some(redir))
  }

  function GetNext(d: Decider): (r: (Decider, Endpoint))
    requires d.Valid() && d.Bound() > 0
    ensures r.0.Valid() && r.0.members == d.members
  {
    match d.redirection
    case Some(e) => (d.(resolved := [], redirection := None), e)
    case None => (d.(resolved := [], nextMember := (d.nextMember + 1) % |d.members|), d.members[d.nextMember])
  }

  /** The addresses are kept in reverse, so that the first is at the back. */
  function Fetch(d: Decider): (Decider, Option<ServiceEndpoint>)
    requires d.resolved != []
  {
    var last := |d.resolved| - 1;
    (d.(resolved := d.resolved[..last], handed := d.handed + [d.resolved[last]]), Some(d.resolved[last]))
  }

  function OnlyOneLeft(d: Decider): Decider {
    if |d.resolved| == 1 && d.nextMember == 0 then d.(fullCircle := true) else d
  }

  /** One resolution. */
  function Ask(d: Decider, answers: Answers): (r: Decider)
    requires d.Valid() && d.Bound() > 0
    ensures r.Valid() && r.members == d.members
  {
    var g := GetNext(d);
    OnlyOneLeft(g.0.(resolved := Reverse(answers(|d.asked|)), asked := d.asked + [g.1]))
  }

  /** The bound is looked at anew in every round, and a redirection is gone after the first. */
  function Search(d: Decider, answers: Answers, attempt: nat): (r: (Decider, Option<ServiceEndpoint>))
    requires d.Valid()
    ensures r.0.Valid() && r.0.members == d.members
    decreases d.Bound() - attempt
  {
    if attempt >= d.Bound() then (d.(fullCircle := true), None)
    else
      var u := Ask(d, answers);
      if u.resolved != [] then Fetch(u) else Search(u, answers, attempt + 1)
  }

  function GetNextEndpoint(d: Decider, answers: Answers): (r: (Decider, Option<ServiceEndpoint>))
    requires d.Valid()
    ensures r.0.Valid() && r.0.members == d.members
  {
    var e := OnlyOneLeft(d);
    if e.resolved != [] then Fetch(e) else Search(e, answers, 0)
  }

  // ---- runs ----

  /** What a client does with the decider: ask for the next endpoint, or report a redirection. */
  datatype Operation = Call | Redirect(to: Endpoint)

  function Apply(d: Decider, answers: Answers, op: Operation): (r: Decider)
    requires d.Valid()
    ensures r.Valid() && r.members == d.members
  {
    match op
    case Call => GetNextEndpoint(d, answers).0
    case Redirect(to) => RegisterRedirection(d, to)
  }

  function Run(members: seq<Endpoint>, answers: Answers, ops: seq<Operation>): (d: Decider)
    ensures d.Valid() && d.members == members
    decreases |ops|
  {
    if ops == [] then Start(members)
    else Apply(Run(members, answers, ops[..|ops| - 1]), answers, ops[|ops| - 1])
  }

  predicate OnlyCalls(ops: seq<Operation>) { forall i :: 0 <= i < |ops| ==> ops[i].Call? }

  /** Everything the resolver has returned to its first n questions, in order. */
  function Returned(answers: Answers, n: nat): seq<ServiceEndpoint> {
    if n == 0 then [] else Returned(answers, n - 1) + answers(n - 1)
  }

  /** The place in a circle of n after k steps. */
  function Turn(k: nat, n: nat): (t: nat)
    requires 0 < n
    ensures t < n
  {
    if k == 0 then 0 else if Turn(k - 1, n) + 1 == n then 0 else Turn(k - 1, n) + 1
  }

  predicate InTurn(d: Decider)
    requires d.members != []
  {
    && d.nextMember == Turn(|d.asked|, |d.members|)
    && forall k :: 0 <= k < |d.asked| ==> d.asked[k] == d.members[Turn(k, |d.members|)]
  }

  predicate Inv(d: Decider, answers: Answers)
    requires d.members != []
  {
    && d.redirection.None? && InTurn(d)
    && Returned(answers, |d.asked|) == d.handed + Reverse(d.resolved)
    && (d.fullCircle ==> |d.members| <= |d.asked|)
  }

  lemma {:induction false} FirstTurn(k: nat, n: nat)
    requires k < n
    ensures Turn(k, n) == k
  {
    if k > 0 { FirstTurn(k - 1, n); }
  }

  lemma NextIsTurn(t: nat, n: nat)
    requires t < n
    ensures (t + 1) % n == if t + 1 == n then 0 else t + 1
  {
    if t + 1 < n { DividesAs(t + 1, n, 0, t + 1); } else { DividesAs(t + 1, n, 1, 0); }
  }

  lemma Multiples(n: nat, d: int)
    ensures 0 < d ==> n <= n * d
    ensures d < 0 ==> n * d + n <= 0
  {}

  lemma DividesAs(k: nat, n: nat, q: nat, r: nat)
    requires 0 < n && k == n * q + r && r < n
    ensures k / n == q && k % n == r
  {
    var d := k / n - q;
    assert n * d == r - k % n;
    Multiples(n, d);
    assert d == 0;
  }

  lemma FetchKeepsInv(d: Decider, answers: Answers)
    requires d.members != [] && Inv(d, answers) && d.resolved != []
    ensures Inv(Fetch(d).0, answers)
  {
    var last := |d.resolved| - 1;
    assert Reverse(d.resolved) == [d.resolved[last]] + Reverse(d.resolved[..last]);
  }

  lemma GetNextInTurn(d: Decider)
    requires d.members != [] && d.Valid() && d.redirection.None? && InTurn(d)
    ensures
      var g := GetNext(d);
      InTurn(g.0.(asked := d.asked + [g.1]))
      && g.0 == d.(resolved := [], nextMember := Turn(|d.asked| + 1, |d.members|))
  {
    NextIsTurn(d.nextMember, |d.members|);
  }

  lemma AskKeepsInv(d: Decider, answers: Answers)
    requires d.members != [] && d.Valid() && Inv(d, answers) && d.resolved == []
    ensures Inv(Ask(d, answers), answers) && |Ask(d, answers).asked| == |d.asked| + 1
  {
    GetNextInTurn(d);
    hide GetNext, InTurn, Turn;
    var g, answer := GetNext(d), answers(|d.asked|);
    var u := g.0.(resolved := Reverse(answer), asked := d.asked + [g.1]);
    assert Reverse(Reverse(answer)) == answer && Reverse(d.resolved) == [];
    assert d.handed + [] + answer == d.handed + answer;
    InTurnIgnoresStock(g.0.(asked := d.asked + [g.1]), u);
    OnlyOneLeftKeepsInv(u, answers);
  }

  lemma InTurnIgnoresStock(d: Decider, u: Decider)
    requires d.members != [] && InTurn(d) && u == d.(resolved := u.resolved)
    ensures InTurn(u)
  {}

  lemma {:induction false} SearchKeepsInv(d: Decider, answers: Answers, attempt: nat)
    requires d.members != [] && d.Valid() && Inv(d, answers) && d.resolved == [] && attempt <= |d.asked|
    ensures Inv(Search(d, answers, attempt).0, answers)
    ensures !d.fullCircle && Search(d, answers, attempt).0.fullCircle ==> Search(d, answers, attempt).0.resolved == []
    decreases d.Bound() - attempt
  {
    hide Inv, Ask;
    if attempt >= d.Bound() {
      CircleOfFailures(d, answers);
    } else {
      var u := Ask(d, answers);
      AskKeepsInv(d, answers);
      AskMayClose(d, answers);
      if u.resolved != [] {
        FetchKeepsInv(u, answers);
      } else {
        SearchKeepsInv(u, answers, attempt + 1);
      }
    }
  }

  lemma CircleOfFailures(d: Decider, answers: Answers)
    requires d.members != [] && Inv(d, answers) && |d.members| <= |d.asked|
    ensures Inv(d.(fullCircle := true), answers)
  {}

  lemma AskMayClose(d: Decider, answers: Answers)
    requires d.members != [] && d.Valid() && Inv(d, answers)
    ensures
      var u := Ask(d, answers);
      && u.redirection.None? && (u.fullCircle && !d.fullCircle ==> |u.resolved| == 1)
  {}

  lemma OnlyOneLeftKeepsInv(d: Decider, answers: Answers)
    requires d.members != [] && Inv(d, answers)
    ensures Inv(OnlyOneLeft(d), answers)
  {
    if |d.resolved| == 1 && d.nextMember == 0 {
      assert |d.asked| > 0;
      if |d.asked| < |d.members| { FirstTurn(|d.asked|, |d.members|); }
    }
  }

  lemma CallKeepsInv(d: Decider, answers: Answers)
    requires d.members != [] && d.Valid() && Inv(d, answers)
    ensures Inv(GetNextEndpoint(d, answers).0, answers)
    ensures !d.fullCircle && GetNextEndpoint(d, answers).0.fullCircle ==> GetNextEndpoint(d, answers).0.resolved == []
  {
    hide Inv, Search;
    var e := OnlyOneLeft(d);
    OnlyOneLeftKeepsInv(d, answers);
    if e.resolved != [] {
      FetchKeepsInv(e, answers);
    } else {
      SearchKeepsInv(e, answers, 0);
    }
  }

  lemma {:induction false} RunKeepsInv(members: seq<Endpoint>, answers: Answers, ops: seq<Operation>)
    requires members != [] && OnlyCalls(ops)
    ensures Inv(Run(members, answers, ops), answers)
    decreases |ops|
  {
    if ops != [] {
      var before := ops[..|ops| - 1];
      RunKeepsInv(members, answers, before);
      hide Inv, GetNextEndpoint;
      CallKeepsInv(Run(members, answers, before), answers);
    }
  }

  lemma LastCall(members: seq<Endpoint>, answers: Answers, ops: seq<Operation>)
    ensures Run(members, answers, ops + [Call]) == GetNextEndpoint(Run(members, answers, ops), answers).0
  {
    hide GetNextEndpoint;
    assert (ops + [Call])[..|ops|] == ops;
  }

  // ---- what calls alone hand out ----

  /** Whatever the resolver returns: addresses are handed out in its order, none twice, and those not
      handed out yet are exactly the ones in stock. */
  lemma HandedInOrder(members: seq<Endpoint>, answers: Answers, ops: seq<Operation>)
    requires members != [] && OnlyCalls(ops)
    ensures
      var d := Run(members, answers, ops);
      Returned(answers, |d.asked|) == d.handed + Reverse(d.resolved)
  {
    RunKeepsInv(members, answers, ops);
  }

  /** In the call that completes the circle everything ever returned has been handed out. */
  lemma CircleClosesWithNothingLeft(members: seq<Endpoint>, answers: Answers, ops: seq<Operation>)
    requires members != [] && OnlyCalls(ops)
    requires !Run(members, answers, ops).fullCircle && Run(members, answers, ops + [Call]).fullCircle
    ensures
      var d := Run(members, answers, ops + [Call]);
      d.handed == Returned(answers, |d.asked|)
  {
    RunKeepsInv(members, answers, ops);
    RunKeepsInv(members, answers, ops + [Call]);
    LastCall(members, answers, ops);
    CallKeepsInv(Run(members, answers, ops), answers);
  }

  /** Later the circle stays closed, though new addresses come in: everything has been handed out if
      and only if the stock is empty. */
  lemma AllHandedIffStockEmpty(members: seq<Endpoint>, answers: Answers, ops: seq<Operation>)
    requires members != [] && OnlyCalls(ops)
    ensures
      var d := Run(members, answers, ops);
      d.handed == Returned(answers, |d.asked|) <==> d.resolved == []
  {
    RunKeepsInv(members, answers, ops);
    var d := Run(members, answers, ops);
    if d.handed == Returned(answers, |d.asked|) {
      assert |d.handed| == |d.handed + Reverse(d.resolved)|;
    }
  }

  lemma CallWithOneMember(d: Decider, answers: Answers)
    requires |d.members| == 1 && d.nextMember == 0 && d.redirection.None? && d.resolved == []
    requires answers(|d.asked|) != []
    ensures
      var answer := answers(|d.asked|);
      GetNextEndpoint(d, answers).0
        == d.(asked := d.asked + [d.members[0]], handed := d.handed + [answer[0]],
              resolved := Reverse(answer)[..|answer| - 1], fullCircle := d.fullCircle || |answer| == 1)
  {
    var answer := answers(|d.asked|);
    var u := d.(asked := d.asked + [d.members[0]], resolved := Reverse(answer), fullCircle := d.fullCircle || |answer| == 1);
    assert Ask(d, answers) == u;
    hide Ask;
    assert Search(d, answers, 0) == Fetch(u);
  }

  lemma StockAfterCircle(member: Endpoint, answers: Answers, a: ServiceEndpoint, b: ServiceEndpoint, c: ServiceEndpoint)
    requires answers(0) == [a] && answers(1) == [b, c]
    ensures
      var d := Run([member], answers, [Call, Call]);
      d.fullCircle && d.handed != Returned(answers, |d.asked|)
  {
    var d0, d1 := Run([member], answers, []), Run([member], answers, [Call]);
    assert [] + [Call] == [Call] && [Call] + [Call] == [Call, Call];
    LastCall([member], answers, []);
    LastCall([member], answers, [Call]);
    hide GetNextEndpoint, Reverse, Returned, Run;
    CallWithOneMember(d0, answers);
    assert d1.fullCircle && d1.resolved == [] && |d1.asked| == 1;
    CallWithOneMember(d1, answers);
    AllHandedIffStockEmpty([member], answers, [Call, Call]);
  }

  // ---- the full circle, whatever redirections come in between ----

  /** Members were asked about so many times, in turn; and the circle is closed only if that was often
      enough for all of them. */
  predicate Circled(d: Decider, count: nat)
    requires d.members != []
  {
    && d.nextMember == Turn(count, |d.members|)
    && (forall k :: 0 <= k < count ==> d.members[Turn(k, |d.members|)] in d.asked)
    && (d.fullCircle ==> |d.members| <= count)
  }

  lemma LastOneKeepsCircled(d: Decider, count: nat)
    requires d.members != [] && Circled(d, count) && 0 < count
    ensures Circled(OnlyOneLeft(d), count)
  {
    if |d.resolved| == 1 && d.nextMember == 0 && count < |d.members| { FirstTurn(count, |d.members|); }
  }

  /** A redirection is asked about in place of a member, but not in place of the first one. */
  lemma AskKeepsCircled(d: Decider, answers: Answers, count: nat) returns (more: nat)
    requires d.members != [] && d.Valid() && Circled(d, count) && (d.redirection.Some? ==> 0 < count)
    ensures Circled(Ask(d, answers), more) && more == (if d.redirection.None? then count + 1 else count)
    ensures Ask(d, answers).redirection.None?
  {
    var n, g := |d.members|, GetNext(d);
    NextIsTurn(d.nextMember, n);
    more := if d.redirection.None? then count + 1 else count;
    var u := g.0.(resolved := Reverse(answers(|d.asked|)), asked := d.asked + [g.1]);
    forall k | 0 <= k < more ensures d.members[Turn(k, n)] in u.asked {
      if k < count { assert d.members[Turn(k, n)] in d.asked; }
    }
    hide Turn;
    LastOneKeepsCircled(u, more);
  }

  lemma {:induction false} SearchKeepsCircled(d: Decider, answers: Answers, attempt: nat, count: nat) returns (more: nat)
    requires d.members != [] && d.Valid() && Circled(d, count)
    requires attempt <= count && (d.redirection.Some? ==> attempt < count)
    ensures Circled(Search(d, answers, attempt).0, more) && count <= more && (attempt < |d.members| ==> 0 < more)
    decreases d.Bound() - attempt
  {
    hide Ask, Turn;
    if attempt >= d.Bound() {
      more := count;
    } else {
      more := AskKeepsCircled(d, answers, count);
      var u := Ask(d, answers);
      if u.resolved == [] { more := SearchKeepsCircled(u, answers, attempt + 1, more); }
    }
  }

  /** Every call asks, or has asked before. */
  lemma CallKeepsCircled(d: Decider, answers: Answers, count: nat) returns (more: nat)
    requires d.members != [] && d.Valid() && Circled(d, count)
    requires count == 0 ==> d.redirection.None? && d.resolved == []
    ensures Circled(GetNextEndpoint(d, answers).0, more) && 0 < more
  {
    hide Search, Turn;
    var e := OnlyOneLeft(d);
    if count > 0 { LastOneKeepsCircled(d, count); }
    if e.resolved != [] { more := count; } else { more := SearchKeepsCircled(e, answers, 0, count); }
  }

  lemma {:induction false} RunKeepsCircled(members: seq<Endpoint>, answers: Answers, ops: seq<Operation>) returns (count: nat)
    requires members != [] && ops != [] && ops[0].Call?
    ensures Circled(Run(members, answers, ops), count) && 0 < count
    decreases |ops|
  {
    hide Circled, GetNextEndpoint;
    var before, last := ops[..|ops| - 1], ops[|ops| - 1];
    if |ops| == 1 {
      StartIsCircled(members);
      count := CallKeepsCircled(Start(members), answers, 0);
    } else {
      count := RunKeepsCircled(members, answers, before);
      var d := Run(members, answers, before);
      match last
      case Call => count := CallKeepsCircled(d, answers, count);
      case Redirect(to) => RedirectKeepsCircled(d, to, count);
    }
  }

  lemma StartIsCircled(members: seq<Endpoint>)
    requires members != []
    ensures Circled(Start(members), 0)
  {}

  lemma RedirectKeepsCircled(d: Decider, to: Endpoint, count: nat)
    requires d.members != [] && Circled(d, count)
    ensures Circled(RegisterRedirection(d, to), count)
  {}

  predicate EveryoneAsked(d: Decider) {
    forall i :: 0 <= i < |d.members| ==> d.members[i] in d.asked
  }

  /** After a full circle the resolver has been asked about every member, whatever it answers and
      whatever redirections come, if the first operation is a call. A client has no connection, and
      so no redirection, before its first call. */
  lemma FullCircleAsksEveryone(members: seq<Endpoint>, answers: Answers, ops: seq<Operation>)
    requires members != [] && ops != [] && ops[0].Call?
    ensures var d := Run(members, answers, ops); d.fullCircle ==> EveryoneAsked(d)
  {
    var d := Run(members, answers, ops);
    var count := RunKeepsCircled(members, answers, ops);
    if d.fullCircle {
      forall i | 0 <= i < |members| ensures members[i] in d.asked { FirstTurn(i, |members|); }
    }
  }

  lemma RunOfTwo(members: seq<Endpoint>, answers: Answers, a: Operation, b: Operation)
    ensures Run(members, answers, [a, b]) == Apply(Apply(Start(members), answers, a), answers, b)
  {
    hide Apply;
    assert [a, b][..1] == [a] && [a][..0] == [];
    assert Run(members, answers, []) == Start(members);
    assert Run(members, answers, [a]) == Apply(Start(members), answers, a);
  }

  lemma RunOfThree(members: seq<Endpoint>, answers: Answers, a: Operation, b: Operation, c: Operation)
    ensures Run(members, answers, [a, b, c]) == Apply(Run(members, answers, [a, b]), answers, c)
  {
    hide Apply;
    assert [a, b, c][..2] == [a, b];
  }

  lemma CallAfterRedirection(members: seq<Endpoint>, answers: Answers, to: Endpoint)
    requires members != [] && answers(0) != []
    ensures
      var answer := answers(0);
      Apply(RegisterRedirection(Start(members), to), answers, Call)
        == Start(members).(asked := [to], handed := [answer[0]], resolved := Reverse(answer)[..|answer| - 1],
                           fullCircle := |answer| == 1)
  {
    var d := RegisterRedirection(Start(members), to);
    var u := d.(redirection := None, asked := [to], resolved := Reverse(answers(0)), fullCircle := |answers(0)| == 1);
    assert d.asked + [to] == [to];
    assert Ask(d, answers) == u;
    hide Ask;
    assert Search(d, answers, 0) == Fetch(u);
  }

  /** A redirection before the first call: its only address closes the circle, and nobody but the
      redirection was asked about. */
  lemma EarlyRedirectionCloses(members: seq<Endpoint>, answers: Answers, to: Endpoint)
    requires members != [] && |answers(0)| == 1
    ensures var d := Run(members, answers, [Redirect(to), Call]); d.fullCircle && d.asked == [to]
  {
    RunOfTwo(members, answers, Redirect(to), Call);
    CallAfterRedirection(members, answers, to);
  }

  /** Of two addresses the last one closes it, when the redirection is long gone. */
  lemma EarlyRedirectionClosesLater(members: seq<Endpoint>, answers: Answers, to: Endpoint)
    requires members != [] && |answers(0)| == 2
    ensures
      var d := Run(members, answers, [Redirect(to), Call]);
      d.redirection.None? && !d.fullCircle && d.asked == [to]
    ensures var d := Run(members, answers, [Redirect(to), Call, Call]); d.fullCircle && d.asked == [to]
  {
    RunOfTwo(members, answers, Redirect(to), Call);
    RunOfThree(members, answers, Redirect(to), Call, Call);
    CallAfterRedirection(members, answers, to);
  }

  /** Of two redirections before the first call the second one counts. */
  lemma StrangerClosesCircle(members: seq<Endpoint>, answers: Answers, first: Operation, stranger: Endpoint)
    requires members != [] && first.Redirect? && |answers(0)| == 1 && stranger != members[0]
    ensures
      var d := Run(members, answers, [first, Redirect(stranger), Call]);
      d.fullCircle && !EveryoneAsked(d)
  {
    RunOfThree(members, answers, first, Redirect(stranger), Call);
    RunOfTwo(members, answers, first, Redirect(stranger));
    CallAfterRedirection(members, answers, stranger);
    var d := Run(members, answers, [first, Redirect(stranger), Call]);
    assert d.members[0] !in d.asked;
  }

  /** The first operation decides: every full circle, whatever comes after it and whatever the resolver
      answers, has asked about everyone, if and only if it is a call. */
  lemma CircleIsFullIffCallFirst(members: seq<Endpoint>, first: Operation)
    requires members != []
    ensures
      (forall answers: Answers, rest ::
        var d := Run(members, answers, [first] + rest); d.fullCircle ==> EveryoneAsked(d))
      <==> first.Call?
  {
    hide Run, EveryoneAsked;
    if first.Call? {
      forall answers: Answers, rest
        ensures var d := Run(members, answers, [first] + rest); d.fullCircle ==> EveryoneAsked(d)
      {
        FullCircleAsksEveryone(members, answers, [first] + rest);
      }
    } else {
      var stranger, answers: Answers := members[0] + "x", _ => ["address"];
      assert |stranger| == |members[0]| + 1;
      StrangerClosesCircle(members, answers, first, stranger);
      assert [first] + [Redirect(stranger), Call] == [first, Redirect(stranger), Call];
    }
  }

  // ---- calls in which the resolver knows nothing ----

  predicate AllEmpty(answers: Answers, from: nat, count: nat) {
    forall k :: from <= k < from + count ==> answers(k) == []
  }

  /** Where the turn is k members after the given one. */
  function Place(from: nat, k: nat, n: nat): (p: nat)
    requires from < n && k < n
    ensures p < n
  {
    if from + k < n then from + k else from + k - n
  }

  function MembersFrom(members: seq<Endpoint>, from: nat, count: nat): (r: seq<Endpoint>)
    requires count <= |members| && (count > 0 ==> from < |members|)
    ensures |r| == count && forall k :: 0 <= k < count ==> r[k] == members[Place(from, k, |members|)]
  {
    if count == 0 then []
    else seq(count, k requires 0 <= k < count => members[Place(from, k, |members|)])
  }

  /** How many members a call asks about before it gives up: a redirection takes the place of one. */
  function MembersAsked(d: Decider): nat {
    if d.redirection.Some? && d.members != [] then |d.members| - 1 else |d.members|
  }

  /** What a call asks about, in order, before it gives up. */
  function Questions(d: Decider): seq<Endpoint>
    requires d.Valid()
  {
    (if d.redirection.Some? then [d.redirection.value] else []) + MembersFrom(d.members, d.nextMember, MembersAsked(d))
  }

  lemma MembersFromNext(members: seq<Endpoint>, from: nat, count: nat)
    requires 0 < count <= |members| && from < |members|
    ensures
      var next := if from + 1 == |members| then 0 else from + 1;
      MembersFrom(members, from, count) == [members[from]] + MembersFrom(members, next, count - 1)
  {}

  lemma AllEmptyNext(answers: Answers, from: nat, count: nat)
    requires 0 < count
    ensures AllEmpty(answers, from, count) <==> answers(from) == [] && AllEmpty(answers, from + 1, count - 1)
  {
    if answers(from) == [] && AllEmpty(answers, from + 1, count - 1) {
      forall k | from <= k < from + count ensures answers(k) == [] {}
    }
  }

  lemma AskEffect(d: Decider, answers: Answers)
    requires d.Valid() && d.Bound() > 0
    ensures
      var u := Ask(d, answers);
      && u.redirection.None? && u.members == d.members
      && u.asked == d.asked + [d.redirection.GetOr(if d.members == [] then "" else d.members[d.nextMember])]
      && u.nextMember == (if d.redirection.Some? then d.nextMember
                          else if d.nextMember + 1 == |d.members| then 0 else d.nextMember + 1)
      && (u.resolved == [] <==> answers(|d.asked|) == [])
  {
    if d.redirection.None? { NextIsTurn(d.nextMember, |d.members|); }
  }

  /** A search fails if and only if the questions in its way have empty answers; then it asks all of
      them and takes this for a full circle. */
  predicate FailsAsking(r: (Decider, Option<ServiceEndpoint>), d: Decider, answers: Answers, questions: seq<Endpoint>) {
    && (r.1.None? <==> AllEmpty(answers, |d.asked|, |questions|))
    && (r.1.None? ==> r.0.fullCircle && r.0.asked == d.asked + questions)
  }

  lemma NothingToAsk(d: Decider, answers: Answers)
    ensures FailsAsking((d.(fullCircle := true), None), d, answers, [])
  {
    assert d.asked + [] == d.asked;
  }

  lemma OneMoreQuestion(r: (Decider, Option<ServiceEndpoint>), d: Decider, u: Decider, answers: Answers,
                        q: Endpoint, rest: seq<Endpoint>)
    requires u.asked == d.asked + [q] && (u.resolved == [] <==> answers(|d.asked|) == [])
    requires if u.resolved == [] then FailsAsking(r, u, answers, rest) else r.1.Some?
    ensures FailsAsking(r, d, answers, [q] + rest)
  {
    AllEmptyNext(answers, |d.asked|, |rest| + 1);
    hide AllEmpty;
    assert (d.asked + [q]) + rest == d.asked + ([q] + rest);
  }

  lemma {:induction false} SearchAsks(d: Decider, answers: Answers, attempt: nat)
    requires d.Valid() && d.redirection.None? && attempt <= |d.members|
    ensures FailsAsking(Search(d, answers, attempt), d, answers, MembersFrom(d.members, d.nextMember, |d.members| - attempt))
    decreases |d.members| - attempt
  {
    hide FailsAsking, Ask;
    if attempt == |d.members| {
      NothingToAsk(d, answers);
    } else {
      AskEffect(d, answers);
      MembersFromNext(d.members, d.nextMember, |d.members| - attempt);
      hide MembersFrom;
      var u := Ask(d, answers);
      if u.resolved == [] { SearchAsks(u, answers, attempt + 1); }
      var rest := MembersFrom(d.members, u.nextMember, |d.members| - attempt - 1);
      OneMoreQuestion(Search(d, answers, attempt), d, u, answers, d.members[d.nextMember], rest);
    }
  }

  lemma RedirectionAsks(d: Decider, answers: Answers)
    requires d.Valid() && d.redirection.Some?
    ensures FailsAsking(Search(d, answers, 0), d, answers, Questions(d))
  {
    hide FailsAsking, Ask;
    AskEffect(d, answers);
    var u, rest := Ask(d, answers), MembersFrom(d.members, d.nextMember, MembersAsked(d));
    assert Search(d, answers, 0) == if u.resolved != [] then Fetch(u) else Search(u, answers, 1);
    if u.resolved == [] {
      if d.members == [] {
        assert Search(u, answers, 1) == (u.(fullCircle := true), None);
        NothingToAsk(u, answers);
        assert rest == [];
      } else {
        SearchAsks(u, answers, 1);
      }
      assert FailsAsking(Search(u, answers, 1), u, answers, rest);
    }
    hide MembersFrom;
    OneMoreQuestion(Search(d, answers, 0), d, u, answers, d.redirection.value, rest);
  }

  /** With nothing in stock, a call fails if and only if all of its questions have an empty answer; it
      has then asked exactly those questions, and takes this for a full circle. */
  lemma FailsIffAllEmpty(d: Decider, answers: Answers)
    requires d.Valid() && d.resolved == []
    ensures
      var r := GetNextEndpoint(d, answers);
      && (r.1.None? <==> AllEmpty(answers, |d.asked|, |Questions(d)|))
      && (r.1.None? ==> r.0.fullCircle && r.0.asked == d.asked + Questions(d))
  {
    if d.redirection.None? {
      SearchAsks(d, answers, 0);
      assert [] + MembersFrom(d.members, d.nextMember, |d.members|) == Questions(d);
    } else {
      RedirectionAsks(d, answers);
    }
  }

  predicate Distinct(members: seq<Endpoint>) {
    forall i, j :: 0 <= i < j < |members| ==> members[i] != members[j]
  }

  /** The questions of one such call, by themselves, are about every member if and only if there is no
      redirection, or one that happens to name the very member whose place it takes. */
  lemma EveryoneAskedIff(d: Decider)
    requires d.Valid() && d.members != [] && Distinct(d.members)
    ensures
      (forall m :: 0 <= m < |d.members| ==> d.members[m] in Questions(d))
      <==> (d.redirection.None? || d.redirection.value == d.members[Place(d.nextMember, |d.members| - 1, |d.members|)])
  {
    var n, asked := |d.members|, MembersFrom(d.members, d.nextMember, MembersAsked(d));
    var skipped := Place(d.nextMember, n - 1, n);
    forall m | 0 <= m < n && (d.redirection.None? || m != skipped) ensures d.members[m] in Questions(d) {
      var k := if d.nextMember <= m then m - d.nextMember else m + n - d.nextMember;
      assert asked[k] == d.members[m];
    }
    if d.redirection.Some? {
      assert d.members[skipped] !in asked;
    }
  }

  /** A call that fails, too, may close the circle too early after a redirection before all calls. */
  lemma FullCircleSkipsMember(a: Endpoint, b: Endpoint, r: Endpoint, answers: Answers)
    requires a != b && r != b && answers(0) == [] && answers(1) == []
    ensures
      var d := Run([a, b], answers, [Redirect(r), Call]);
      d.fullCircle && d.asked == [r, a] && b !in d.asked
  {
    RunOfTwo([a, b], answers, Redirect(r), Call);
    var d := RegisterRedirection(Start([a, b]), r);
    assert Questions(d) == [r, a];
    FailsIffAllEmpty(d, answers);
  }

  // ---- the decider as it works ----

  class HostResolver {
    const answers: Answers
    var asked: seq<Endpoint>

    constructor (answers: Answers)
      ensures this.answers == answers && asked == []
    {
      this.answers := answers;
      asked := [];
    }

    method Resolve(endpoint: Endpoint) returns (r: seq<ServiceEndpoint>)
      modifies this
      ensures r == answers(|old(asked)|) && asked == old(asked) + [endpoint]
    {
      r := answers(|asked|);
      asked := asked + [endpoint];
    }
  }

  class EndpointDecider {
    const resolver: HostResolver
    const members: seq<Endpoint>
    var nextMember: nat
    var fullCircle: bool
    var redirection: Option<Endpoint>
    var resolvedEndpoints: seq<ServiceEndpoint>
    ghost var handed: seq<ServiceEndpoint>

    ghost function Model(): Decider
      reads this, resolver
    {
      Decider(members, nextMember, fullCircle, redirection, resolvedEndpoints, resolver.asked, handed)
    }

    ghost predicate Valid()
      reads this, resolver
    {
      Model().Valid()
    }

    constructor (resolver: HostResolver, members: seq<Endpoint>)
      requires resolver.asked == []
      ensures Valid() && Model() == Start(members) && this.resolver == resolver
    {
      this.resolver, this.members := resolver, members;
      nextMember, fullCircle, redirection := 0, false, None;
      resolvedEndpoints, handed := [], [];
    }

    method Redirect(redir: Endpoint)
      requires Valid()
      modifies this
      ensures Valid() && Model() == RegisterRedirection(old(Model()), redir)
    {
      resolvedEndpoints := [];
      redirection := Some(redir);
    }

    method Next() returns (endpoint: Endpoint)
      requires Valid() && Model().Bound() > 0
      modifies this
      ensures Valid() && (Model(), endpoint) == GetNext(old(Model()))
    {
      resolvedEndpoints := [];
      if redirection.Some? {
        endpoint := redirection.value;
        redirection := None;
        return;
      }
      endpoint := members[nextMember];
      nextMember := (nextMember + 1) % |members|;
    }

    method FetchServiceEndpoint() returns (out: ServiceEndpoint)
      requires Valid() && resolvedEndpoints != []
      modifies this
      ensures Valid() && (Model(), Some(out)) == Fetch(old(Model()))
    {
      out := resolvedEndpoints[|resolvedEndpoints| - 1];
      handed := handed + [out];
      resolvedEndpoints := resolvedEndpoints[..|resolvedEndpoints| - 1];
    }

    method NoteLastOne()
      requires Valid()
      modifies this
      ensures Valid() && Model() == OnlyOneLeft(old(Model()))
    {
      if |resolvedEndpoints| == 1 && nextMember == 0 { fullCircle := true; }
    }

    method ResolveNext()
      requires Valid() && Model().Bound() > 0
      modifies this, resolver
      ensures Valid() && Model() == Ask(old(Model()), resolver.answers)
    {
      var endpoint := Next();
      var resolved := resolver.Resolve(endpoint);
      resolvedEndpoints := Reverse(resolved);
      NoteLastOne();
    }

    /** None means that all resolutions failed. */
    method NextEndpoint() returns (endpoint: Option<ServiceEndpoint>)
      requires Valid()
      modifies this, resolver
      ensures Valid() && (Model(), endpoint) == GetNextEndpoint(old(Model()), resolver.answers)
    {
      hide Ask, Fetch;
      NoteLastOne();
      if resolvedEndpoints != [] {
        var e := FetchServiceEndpoint();
        return Some(e);
      }
      ghost var goal := Search(Model(), resolver.answers, 0);
      var attempt := 0;
      while attempt < |members| + (if redirection.Some? then 1 else 0)
        invariant Valid() && Search(Model(), resolver.answers, attempt) == goal
        decreases Model().Bound() - attempt
      {
        ghost var d := Model();
        ResolveNext();
        if resolvedEndpoints != [] {
          var e := FetchServiceEndpoint();
          return Some(e);
        }
        attempt := attempt + 1;
        AskShrinksBound(d, resolver.answers);
      }
      fullCircle := true;
      return None;
    }
  }

  /** After a redirection the next call asks about its target, whatever addresses were still in stock; they are
      gone. The first address of the answer is handed out, and the others follow it. */
  lemma RedirectionIsNext(d: Decider, to: Endpoint, answers: Answers)
    requires d.Valid()
    ensures
      var r := GetNextEndpoint(RegisterRedirection(d, to), answers);
      var answer := answers(|d.asked|);
      && d.asked + [to] <= r.0.asked
      && (answer != [] ==>
          && r.1 == Some(answer[0]) && r.0.asked == d.asked + [to]
          && r.0.resolved == Reverse(answer[1..]) && r.0.redirection == None)
  {
    var u := RegisterRedirection(d, to);
    assert OnlyOneLeft(u) == u;
    var v := Ask(u, answers);
    assert v.asked == d.asked + [to];
    if v.resolved == [] { SearchOnlyAsks(v, answers, 1); }
    hide Search, Ask;
    assert Search(u, answers, 0) == if v.resolved != [] then Fetch(v) else Search(v, answers, 1);
  }

  lemma {:induction false} SearchOnlyAsks(d: Decider, answers: Answers, attempt: nat)
    requires d.Valid()
    ensures d.asked <= Search(d, answers, attempt).0.asked
    decreases d.Bound() - attempt
  {
    if attempt < d.Bound() {
      var u := Ask(d, answers);
      if u.resolved == [] {
        AskShrinksBound(d, answers);
        SearchOnlyAsks(u, answers, attempt + 1);
      }
    }
  }

  lemma AskShrinksBound(d: Decider, answers: Answers)
    requires d.Valid() && d.Bound() > 0
    ensures Ask(d, answers).Bound() <= d.Bound()
  {}
}
