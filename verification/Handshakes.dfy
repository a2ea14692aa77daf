/** Handshakes and their chaining. A handshake provides requests and judges replies; a chainer runs
    its first handshake to completion and then its second. */
module Handshakes {
  import opened Common
  import opened Resp

  datatype Verdict = INVALID | VALID_INCOMPLETE | VALID_COMPLETE

  datatype Handshake =
    | Auth(password: string)
    | HmacAuth(password: string, initiated: bool, receivedChallenge: bool, randomBytes: string, stringToSign: string)
    | Ping(text: string)
    | ActivatePushTypes
    | SetClientName(name: string, ignoreFailures: bool)
    | Chainer(firstDone: bool, first: Handshake, second: Handshake)

  /** HMAC is a parameter: a signature for a key and a text. */
  type Signer = (string, string) -> string

  function NewPing(text: string): Handshake {
    Ping(if text == "" then "qclient-connection-initialization" else text)
  }

  function NewHmacAuth(password: string): Handshake {
    HmacAuth(password, false, false, "", "")
  }

  predicate IsStatusOk(reply: Reply) {
    reply.Status? && reply.text == "OK"
  }

  /** The next request of a single handshake. Fresh random bytes are a parameter. */
  function ProvideLeaf(h: Handshake, random: string, sign: Signer): (r: (Handshake, seq<string>))
    requires !h.Chainer?
    ensures !r.0.Chainer? && (h.Ping? || r.0.Ping? ==> r.0 == h)
  {
    match h
    case Auth(password) => (h, ["AUTH", password])
    case HmacAuth(password, initiated, _, _, stringToSign) =>
      if !initiated then (h.(initiated := true, randomBytes := random), ["HMAC-AUTH-GENERATE-CHALLENGE", random])
      else (h, ["HMAC-AUTH-VALIDATE-CHALLENGE", sign(password, stringToSign)])
    case Ping(text) => (h, ["PING", text])
    case ActivatePushTypes => (h, ["ACTIVATE-PUSH-TYPES"])
    case SetClientName(name, _) => (h, ["CLIENT", "SETNAME", name])
  }

  function Provide(h: Handshake, random: string, sign: Signer): (Handshake, seq<string>) {
    if !h.Chainer? then ProvideLeaf(h, random, sign)
    else if !h.firstDone then
      var r := Provide(h.first, random, sign);
      (Chainer(false, r.0, h.second), r.1)
    else
      var r := Provide(h.second, random, sign);
      (Chainer(true, h.first, r.0), r.1)
  }

  function Judge(ok: bool): Verdict { if ok then VALID_COMPLETE else INVALID }

  function ValidateLeaf(h: Handshake, reply: Reply): (r: (Handshake, Verdict))
    requires !h.Chainer?
    ensures !r.0.Chainer? && (h.Ping? || r.0.Ping? ==> r.0 == h)
  {
    match h
    case Auth(_) => (h, Judge(IsStatusOk(reply)))
    case HmacAuth(_, _, receivedChallenge, randomBytes, _) =>
      if reply.Error? then (h, INVALID)
      else if !receivedChallenge then
        if !reply.Str? then (h, INVALID)
        else
          (h.(stringToSign := reply.text, receivedChallenge := true),
           if randomBytes <= reply.text then VALID_INCOMPLETE else INVALID)
      else (h, Judge(IsStatusOk(reply)))
    case Ping(text) => (h, Judge(reply.Str? && reply.text == text))
    case ActivatePushTypes => (h, Judge(IsStatusOk(reply)))
    case SetClientName(_, ignoreFailures) => (h, Judge(ignoreFailures || IsStatusOk(reply)))
  }

  function Validate(h: Handshake, reply: Reply): (Handshake, Verdict) {
    if !h.Chainer? then ValidateLeaf(h, reply)
    else if !h.firstDone then
      var r := Validate(h.first, reply);
      if r.1 == VALID_COMPLETE then (Chainer(true, r.0, h.second), VALID_INCOMPLETE)
      else (Chainer(false, r.0, h.second), r.1)
    else
      var r := Validate(h.second, reply);
      (Chainer(true, h.first, r.0), r.1)
  }

  /** The leaf being run takes any reply for its own: a client name that may fail to be set. */
  predicate Lenient(h: Handshake) {
    match h
    case SetClientName(_, ignoreFailures) => ignoreFailures
    case Chainer(firstDone, first, second) => Lenient(if firstDone then second else first)
    case _ => false
  }

  /** A push is refused by a handshake if and only if the leaf being run is not lenient. */
  lemma {:induction false} PushIsRefused(h: Handshake, reply: Reply)
    requires reply.Aggregate? && reply.push
    ensures Validate(h, reply).1 == INVALID <==> !Lenient(h)
  {
    match h
    case Chainer(firstDone, first, second) => PushIsRefused(if firstDone then second else first, reply);
    case _ =>
  }

  /** An error never completes a handshake, nor any part of it, unless the leaf being run is lenient. */
  lemma {:induction false} ErrorIsRefused(h: Handshake, reply: Reply)
    requires reply.Error?
    ensures Validate(h, reply).1 == INVALID <==> !Lenient(h)
  {
    match h
    case Chainer(firstDone, first, second) => ErrorIsRefused(if firstDone then second else first, reply);
    case _ =>
  }

  /** Some leaf is lenient, wherever the run is. */
  predicate HasLenient(h: Handshake) {
    match h
    case SetClientName(_, ignoreFailures) => ignoreFailures
    case Chainer(_, first, second) => HasLenient(first) || HasLenient(second)
    case _ => false
  }

  lemma {:induction false} LeavesStayLenient(h: Handshake, reply: Reply, random: string, sign: Signer)
    ensures Lenient(h) ==> HasLenient(h)
    ensures HasLenient(Validate(h, reply).0) == HasLenient(Provide(h, random, sign).0) == HasLenient(h)
  {
    if h.Chainer? {
      LeavesStayLenient(h.first, reply, random, sign);
      LeavesStayLenient(h.second, reply, random, sign);
    }
  }

  function Restart(h: Handshake): (r: Handshake)
    ensures r.Chainer? == h.Chainer?
  {
    match h
    case HmacAuth(password, _, _, _, _) => HmacAuth(password, false, false, "", "")
    case Chainer(_, first, second) => Chainer(false, Restart(first), Restart(second))
    case _ => h
  }

  function Clone(h: Handshake): Handshake {
    match h
    case Auth(password) => Auth(password)
    case HmacAuth(password, _, _, _, _) => NewHmacAuth(password)
    case Ping(text) => NewPing(text)
    case ActivatePushTypes => ActivatePushTypes
    case SetClientName(name, ignoreFailures) => SetClientName(name, ignoreFailures)
    case Chainer(_, first, second) => Chainer(false, Clone(first), Clone(second))
  }

  // ---- a chain is its leaves, run from left to right ----

  /** The leaves in order, and which of them is being run. */
  datatype Line = Line(leaves: seq<Handshake>, cur: nat) {
    predicate Valid() {
      cur < |leaves| && forall i :: 0 <= i < |leaves| ==> !leaves[i].Chainer?
    }
  }

  function Leaves(h: Handshake): (leaves: seq<Handshake>)
    ensures 0 < |leaves| && forall i :: 0 <= i < |leaves| ==> !leaves[i].Chainer?
  {
    if h.Chainer? then Leaves(h.first) + Leaves(h.second) else [h]
  }

  function Position(h: Handshake): (i: nat)
    ensures i < |Leaves(h)|
  {
    if !h.Chainer? then 0
    else if !h.firstDone then Position(h.first)
    else |Leaves(h.first)| + Position(h.second)
  }

  function LineOf(h: Handshake): (l: Line)
    ensures l.Valid()
  { Line(Leaves(h), Position(h)) }

  function LineProvide(l: Line, random: string, sign: Signer): (r: (Line, seq<string>))
    requires l.Valid()
    ensures r.0.Valid()
  {
    var r := ProvideLeaf(l.leaves[l.cur], random, sign);
    (l.(leaves := l.leaves[l.cur := r.0]), r.1)
  }

  /** A completed leaf hands over to the next one; only the last one completes the line. */
  function LineValidate(l: Line, reply: Reply): (r: (Line, Verdict))
    requires l.Valid()
    ensures r.0.Valid()
  {
    var r := ValidateLeaf(l.leaves[l.cur], reply);
    var leaves := l.leaves[l.cur := r.0];
    if r.1 == VALID_COMPLETE && l.cur + 1 < |leaves| then (Line(leaves, l.cur + 1), VALID_INCOMPLETE)
    else (Line(leaves, l.cur), r.1)
  }

  function RestartAll(leaves: seq<Handshake>): (r: seq<Handshake>)
    requires forall i :: 0 <= i < |leaves| ==> !leaves[i].Chainer?
    ensures |r| == |leaves| && forall i :: 0 <= i < |r| ==> !r[i].Chainer?
  {
    seq(|leaves|, i requires 0 <= i < |leaves| => Restart(leaves[i]))
  }

  /** What every handshake satisfies that was built by the constructors and then used: a chainer's
      second part is untouched until its first part is done, and a ping has a text. */
  predicate InUse(h: Handshake) {
    match h
    case Chainer(firstDone, first, second) => InUse(first) && InUse(second) && (!firstDone ==> Position(second) == 0)
    case Ping(text) => text != ""
    case _ => true
  }

  lemma UpdateInFront(a: seq<Handshake>, b: seq<Handshake>, i: nat, x: Handshake)
    requires i < |a|
    ensures (a + b)[i] == a[i] && (a + b)[i := x] == a[i := x] + b
  {}

  lemma UpdateBehind(a: seq<Handshake>, b: seq<Handshake>, i: nat, x: Handshake)
    requires i < |b|
    ensures (a + b)[|a| + i] == b[i] && (a + b)[|a| + i := x] == a + b[i := x]
  {}

  lemma {:induction false} ProvideFollowsLine(h: Handshake, random: string, sign: Signer)
    requires InUse(h)
    ensures
      var r, l := Provide(h, random, sign), LineProvide(LineOf(h), random, sign);
      InUse(r.0) && LineOf(r.0) == l.0 && r.1 == l.1
  {
    hide ProvideLeaf;
    if h.Chainer? {
      var a, b := Leaves(h.first), Leaves(h.second);
      if !h.firstDone {
        ProvideFollowsLine(h.first, random, sign);
        UpdateInFront(a, b, Position(h.first), ProvideLeaf(a[Position(h.first)], random, sign).0);
      } else {
        ProvideFollowsLine(h.second, random, sign);
        UpdateBehind(a, b, Position(h.second), ProvideLeaf(b[Position(h.second)], random, sign).0);
      }
    }
  }

  /** A line that goes on behind its front part: completing the front hands over to what follows. */
  lemma LineValidateInFront(a: Line, b: seq<Handshake>, reply: Reply)
    requires a.Valid() && Line(a.leaves + b, a.cur).Valid() && b != []
    ensures
      var r := LineValidate(a, reply);
      LineValidate(Line(a.leaves + b, a.cur), reply) ==
        if r.1 == VALID_COMPLETE then (Line(r.0.leaves + b, |a.leaves|), VALID_INCOMPLETE)
        else (Line(r.0.leaves + b, r.0.cur), r.1)
  {
    hide ValidateLeaf;
    UpdateInFront(a.leaves, b, a.cur, ValidateLeaf(a.leaves[a.cur], reply).0);
  }

  lemma LineValidateBehind(a: seq<Handshake>, b: Line, reply: Reply)
    requires b.Valid() && Line(a + b.leaves, |a| + b.cur).Valid()
    ensures
      var r := LineValidate(b, reply);
      LineValidate(Line(a + b.leaves, |a| + b.cur), reply) == (Line(a + r.0.leaves, |a| + r.0.cur), r.1)
  {
    hide ValidateLeaf;
    UpdateBehind(a, b.leaves, b.cur, ValidateLeaf(b.leaves[b.cur], reply).0);
  }

  lemma ChainedLine(first: Handshake, second: Handshake)
    ensures LineOf(Chainer(true, first, second)) == Line(Leaves(first) + Leaves(second), |Leaves(first)| + Position(second))
    ensures LineOf(Chainer(false, first, second)) == Line(Leaves(first) + Leaves(second), Position(first))
  {}

  ghost predicate ValidateFollows(h: Handshake, reply: Reply) {
    var r, l := Validate(h, reply), LineValidate(LineOf(h), reply);
    InUse(r.0) && LineOf(r.0) == l.0 && r.1 == l.1
  }

  lemma ValidateInFront(first: Handshake, second: Handshake, reply: Reply)
    requires InUse(first) && InUse(second) && Position(second) == 0 && ValidateFollows(first, reply)
    ensures ValidateFollows(Chainer(false, first, second), reply)
  {
    var r, l, b := Validate(first, reply), LineOf(first), Leaves(second);
    ChainedLine(first, second);
    ChainedLine(r.0, second);
    LineIsLeaves(first);
    LineIsLeaves(r.0);
    LineValidateKeepsLength(l, reply);
    hide LineOf, Leaves, LineValidate;
    var h := Chainer(false, first, second);
    assert LineOf(h) == Line(l.leaves + b, l.cur);
    LineValidateInFront(l, b, reply);
    if r.1 == VALID_COMPLETE {
      assert Validate(h, reply) == (Chainer(true, r.0, second), VALID_INCOMPLETE);
    } else {
      assert Validate(h, reply) == (Chainer(false, r.0, second), r.1);
    }
  }

  lemma ValidateBehind(first: Handshake, second: Handshake, reply: Reply)
    requires InUse(first) && InUse(second) && ValidateFollows(second, reply)
    ensures ValidateFollows(Chainer(true, first, second), reply)
  {
    var r, l, a := Validate(second, reply), LineOf(second), Leaves(first);
    ChainedLine(first, second);
    ChainedLine(first, r.0);
    LineIsLeaves(second);
    LineIsLeaves(r.0);
    hide LineOf, Leaves, LineValidate;
    var h := Chainer(true, first, second);
    assert LineOf(h) == Line(a + l.leaves, |a| + l.cur);
    LineValidateBehind(a, l, reply);
    assert Validate(h, reply) == (Chainer(true, first, r.0), r.1);
  }

  lemma {:induction false} ValidateFollowsLine(h: Handshake, reply: Reply)
    requires InUse(h)
    ensures ValidateFollows(h, reply)
  {
    match h
    case Chainer(firstDone, first, second) =>
      hide ValidateFollows;
      if firstDone {
        ValidateFollowsLine(second, reply);
        ValidateBehind(first, second, reply);
      } else {
        ValidateFollowsLine(first, reply);
        ValidateInFront(first, second, reply);
      }
    case _ =>
  }

  lemma LineIsLeaves(h: Handshake)
    ensures LineOf(h) == Line(Leaves(h), Position(h))
  {}

  lemma LineValidateKeepsLength(l: Line, reply: Reply)
    requires l.Valid()
    ensures |LineValidate(l, reply).0.leaves| == |l.leaves|
  {
    hide ValidateLeaf;
  }

  lemma {:induction false} RestartFollowsLine(h: Handshake)
    requires InUse(h)
    ensures InUse(Restart(h)) && LineOf(Restart(h)) == Line(RestartAll(Leaves(h)), 0)
  {
    if h.Chainer? {
      RestartFollowsLine(h.first);
      RestartFollowsLine(h.second);
    }
  }

  datatype Op = DoProvide(random: string) | DoValidate(reply: Reply) | DoRestart

  datatype Observed = Sent(request: seq<string>) | Judged(verdict: Verdict) | Restarted

  function TreeTrace(h: Handshake, ops: seq<Op>, sign: Signer): seq<Observed>
    decreases |ops|
  {
    if ops == [] then []
    else
      match ops[0]
      case DoProvide(random) =>
        var r := Provide(h, random, sign);
        [Sent(r.1)] + TreeTrace(r.0, ops[1..], sign)
      case DoValidate(reply) =>
        var r := Validate(h, reply);
        [Judged(r.1)] + TreeTrace(r.0, ops[1..], sign)
      case DoRestart => [Restarted] + TreeTrace(Restart(h), ops[1..], sign)
  }

  function LineTrace(l: Line, ops: seq<Op>, sign: Signer): seq<Observed>
    requires l.Valid()
    decreases |ops|
  {
    if ops == [] then []
    else
      match ops[0]
      case DoProvide(random) =>
        var r := LineProvide(l, random, sign);
        [Sent(r.1)] + LineTrace(r.0, ops[1..], sign)
      case DoValidate(reply) =>
        var r := LineValidate(l, reply);
        [Judged(r.1)] + LineTrace(r.0, ops[1..], sign)
      case DoRestart => [Restarted] + LineTrace(Line(RestartAll(l.leaves), 0), ops[1..], sign)
  }

  /** Any tree of chainers behaves as its leaves run from left to right. */
  lemma {:induction false} TreeIsItsLine(h: Handshake, ops: seq<Op>, sign: Signer)
    requires InUse(h)
    ensures TreeTrace(h, ops, sign) == LineTrace(LineOf(h), ops, sign)
    decreases |ops|
  {
    if ops != [] {
      match ops[0]
      case DoProvide(random) =>
        ProvideFollowsLine(h, random, sign);
        TreeIsItsLine(Provide(h, random, sign).0, ops[1..], sign);
      case DoValidate(reply) =>
        ValidateFollowsLine(h, reply);
        TreeIsItsLine(Validate(h, reply).0, ops[1..], sign);
      case DoRestart =>
        RestartFollowsLine(h);
        TreeIsItsLine(Restart(h), ops[1..], sign);
    }
  }

  /** Options::chainHandshake: the new handshake goes behind everything chained so far. */
  function ChainHandshake(chained: Option<Handshake>, chain: Option<Handshake>): Option<Handshake> {
    match chain
    case None => chained
    case Some(c) =>
      match chained
      case None => chain
      case Some(h) => Some(Chainer(false, h, c))
  }

  /** As it is before it is run. */
  predicate Fresh(h: Option<Handshake>) {
    h.Some? ==> InUse(h.value) && Position(h.value) == 0
  }

  /** Chaining is associative: chaining fresh handshakes one by one, or some of them beforehand, gives
      the same traces; and a missing one changes nothing. */
  lemma ChainingIsAssociative(a: Option<Handshake>, b: Option<Handshake>, c: Option<Handshake>, ops: seq<Op>, sign: Signer)
    requires Fresh(a) && Fresh(b) && Fresh(c)
    ensures
      var left, right := ChainHandshake(ChainHandshake(a, b), c), ChainHandshake(a, ChainHandshake(b, c));
      && (left.None? <==> a.None? && b.None? && c.None?) && (right.None? <==> left.None?)
      && (left.Some? ==> TreeTrace(left.value, ops, sign) == TreeTrace(right.value, ops, sign))
  {
    if a.Some? && b.Some? && c.Some? {
      RegroupingIsUnseen(a.value, b.value, c.value, ops, sign);
    }
  }

  lemma RegroupingIsUnseen(a: Handshake, b: Handshake, c: Handshake, ops: seq<Op>, sign: Signer)
    requires InUse(a) && InUse(b) && InUse(c) && Position(b) == 0 && Position(c) == 0
    ensures TreeTrace(Chainer(false, Chainer(false, a, b), c), ops, sign)
      == TreeTrace(Chainer(false, a, Chainer(false, b, c)), ops, sign)
  {
    var left, right := Chainer(false, Chainer(false, a, b), c), Chainer(false, a, Chainer(false, b, c));
    assert Leaves(left) == (Leaves(a) + Leaves(b)) + Leaves(c);
    assert Leaves(right) == Leaves(a) + (Leaves(b) + Leaves(c));
    assert Position(left) == Position(Chainer(false, a, b)) == Position(a);
    assert InUse(Chainer(false, a, b)) && InUse(Chainer(false, b, c));
    assert LineOf(left) == LineOf(right);
    TreeIsItsLine(left, ops, sign);
    TreeIsItsLine(right, ops, sign);
  }

  /** The verdict VALID_COMPLETE is the last leaf's. */
  lemma CompleteIsLastLeaf(h: Handshake, reply: Reply)
    requires InUse(h) && Validate(h, reply).1 == VALID_COMPLETE
    ensures Position(h) == |Leaves(h)| - 1
    ensures ValidateLeaf(Leaves(h)[|Leaves(h)| - 1], reply).1 == VALID_COMPLETE
  {
    ValidateFollowsLine(h, reply);
  }

  /** A restarted handshake, from whatever state, is a fresh clone. */
  lemma {:induction false} RestartIsClone(h: Handshake)
    requires InUse(h)
    ensures Restart(h) == Clone(h) && Restart(Restart(h)) == Restart(h)
  {
    if h.Chainer? {
      RestartIsClone(h.first);
      RestartIsClone(h.second);
    }
  }

  /** A handshake as an object: a chainer owns its two parts, and an HMAC authentication its four
      fields, and both update them in place. What a leaf is made with never changes. */
  class HandshakeObject {
    const leaf: Handshake
    var initiated: bool
    var receivedChallenge: bool
    var randomBytes: string
    var stringToSign: string
    var firstDone: bool
    const first: HandshakeObject?
    const second: HandshakeObject?
    ghost const Repr: set<object>

    ghost predicate Valid()
      reads this, Repr
      decreases Repr
      ensures Valid() ==> this in Repr
    {
      && this in Repr
      && (first == null <==> second == null)
      && (first == null ==> !leaf.Chainer?)
      && (first != null ==>
        && first in Repr && first.Repr < Repr && this !in first.Repr && first.Valid()
        && second in Repr && second.Repr < Repr && this !in second.Repr && second.Valid()
        && first.Repr !! second.Repr)
    }

    ghost function LeafModel(): Handshake
      reads this
    {
      if leaf.HmacAuth? then HmacAuth(leaf.password, initiated, receivedChallenge, randomBytes, stringToSign) else leaf
    }

    ghost function Model(): Handshake
      reads this, Repr
      requires Valid()
      decreases Repr
    {
      if first == null then LeafModel() else Chainer(firstDone, first.Model(), second.Model())
    }

    constructor Leaf(h: Handshake)
      requires !h.Chainer?
      ensures Valid() && fresh(Repr) && Model() == h
    {
      leaf, firstDone, first, second := h, false, null, null;
      initiated, receivedChallenge, randomBytes, stringToSign := false, false, "", "";
      if h.HmacAuth? {
        initiated, receivedChallenge, randomBytes, stringToSign :=
          h.initiated, h.receivedChallenge, h.randomBytes, h.stringToSign;
      }
      Repr := {this};
    }

    constructor Chain(h1: HandshakeObject, h2: HandshakeObject)
      requires h1.Valid() && h2.Valid() && h1.Repr !! h2.Repr
      ensures Valid() && fresh(Repr - h1.Repr - h2.Repr)
      ensures Model() == Chainer(false, h1.Model(), h2.Model())
    {
      leaf, firstDone, first, second := ActivatePushTypes, false, h1, h2;
      initiated, receivedChallenge, randomBytes, stringToSign := false, false, "", "";
      Repr := {this} + h1.Repr + h2.Repr;
    }

    method ProvideAsLeaf(random: string, sign: Signer) returns (request: seq<string>)
      requires !leaf.Chainer?
      modifies this`initiated, this`randomBytes
      ensures (LeafModel(), request) == ProvideLeaf(old(LeafModel()), random, sign)
    {
      match leaf
      case Auth(password) => return ["AUTH", password];
      case HmacAuth(password, _, _, _, _) =>
        if !initiated {
          initiated := true;
          randomBytes := random;
          return ["HMAC-AUTH-GENERATE-CHALLENGE", randomBytes];
        }
        return ["HMAC-AUTH-VALIDATE-CHALLENGE", sign(password, stringToSign)];
      case Ping(text) => return ["PING", text];
      case ActivatePushTypes => return ["ACTIVATE-PUSH-TYPES"];
      case SetClientName(name, _) => return ["CLIENT", "SETNAME", name];
    }

    method ProvideHandshake(random: string, sign: Signer) returns (request: seq<string>)
      requires Valid()
      modifies Repr
      decreases Repr
      ensures Valid() && (Model(), request) == Provide(old(Model()), random, sign)
    {
      if first == null {
        request := ProvideAsLeaf(random, sign);
      } else if !firstDone {
        request := first.ProvideHandshake(random, sign);
      } else {
        request := second.ProvideHandshake(random, sign);
      }
    }

    method ValidateAsLeaf(reply: Reply) returns (verdict: Verdict)
      requires !leaf.Chainer?
      modifies this`stringToSign, this`receivedChallenge
      ensures (LeafModel(), verdict) == ValidateLeaf(old(LeafModel()), reply)
      ensures leaf.Auth? || leaf.ActivatePushTypes? ==> verdict == if reply == Status("OK") then VALID_COMPLETE else INVALID
      ensures leaf.Ping? ==> verdict == if reply == Str(leaf.text) then VALID_COMPLETE else INVALID
      ensures leaf.SetClientName? ==>
        verdict == if leaf.ignoreFailures || reply == Status("OK") then VALID_COMPLETE else INVALID
      ensures leaf.HmacAuth? && !old(receivedChallenge) ==>
        verdict == if reply.Str? && old(randomBytes) <= reply.text then VALID_INCOMPLETE else INVALID
      ensures leaf.HmacAuth? && old(receivedChallenge) ==>
        verdict == if reply == Status("OK") then VALID_COMPLETE else INVALID
    {
      match leaf
      case Auth(_) =>
        if !IsStatusOk(reply) { return INVALID; }
        return VALID_COMPLETE;
      case HmacAuth(_, _, _, _, _) =>
        if reply.Error? { return INVALID; }
        if !receivedChallenge {
          if !reply.Str? { return INVALID; }
          stringToSign := reply.text;
          receivedChallenge := true;
          if !(randomBytes <= stringToSign) { return INVALID; }
          return VALID_INCOMPLETE;
        }
        if !IsStatusOk(reply) { return INVALID; }
        return VALID_COMPLETE;
      case Ping(text) =>
        if !reply.Str? || reply.text != text { return INVALID; }
        return VALID_COMPLETE;
      case ActivatePushTypes =>
        if !IsStatusOk(reply) { return INVALID; }
        return VALID_COMPLETE;
      case SetClientName(_, ignoreFailures) =>
        if ignoreFailures { return VALID_COMPLETE; }
        if !IsStatusOk(reply) { return INVALID; }
        return VALID_COMPLETE;
    }

    method ValidateResponse(reply: Reply) returns (verdict: Verdict)
      requires Valid()
      modifies Repr
      decreases Repr
      ensures Valid() && (Model(), verdict) == Validate(old(Model()), reply)
      ensures reply.Error? ==> (verdict == INVALID <==> !Lenient(old(Model())))
    {
      if reply.Error? { ErrorIsRefused(Model(), reply); }
      if first == null {
        verdict := ValidateAsLeaf(reply);
        return;
      }
      if !firstDone {
        verdict := first.ValidateResponse(reply);
        if verdict == VALID_COMPLETE {
          firstDone := true;
          return VALID_INCOMPLETE;
        }
        return verdict;
      }
      verdict := second.ValidateResponse(reply);
    }

    method RestartInPlace()
      requires Valid()
      modifies Repr
      decreases Repr
      ensures Valid() && Model() == Restart(old(Model()))
    {
      if first == null {
        initiated := false;
        receivedChallenge := false;
        randomBytes := "";
        stringToSign := "";
      } else {
        firstDone := false;
        first.RestartInPlace();
        second.RestartInPlace();
      }
    }
  }
}
