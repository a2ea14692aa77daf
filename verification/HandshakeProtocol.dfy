/** The exchanges that complete a handshake, written down as requests and replies; and that a connection
    leaves its handshake after exactly these. */
module HandshakeProtocol {
  import opened Common
  import opened Resp
  import opened Handshakes
  import opened ConnectionModel
  import opened Client

  datatype Exchange = Exchange(random: string, request: seq<string>, reply: Reply)

  const OK := Status("OK")

  /** How many exchanges a single handshake takes. */
  function Length(leaf: Handshake): nat { if leaf.HmacAuth? then 2 else 1 }

  /** The first exchange with an HMAC-authenticating server: its challenge begins with the random bytes. */
  predicate Challenged(x: Exchange) {
    x.request == ["HMAC-AUTH-GENERATE-CHALLENGE", x.random] && x.reply.Str? && x.random <= x.reply.text
  }

  /** The exchanges that complete a single handshake. */
  predicate Completes(leaf: Handshake, talk: seq<Exchange>, sign: Signer) {
    && !leaf.Chainer? && |talk| == Length(leaf)
    && match leaf
       case Auth(password) => talk[0].request == ["AUTH", password] && talk[0].reply == OK
       case HmacAuth(password, _, _, _, _) =>
         && Challenged(talk[0])
         && talk[1].request == ["HMAC-AUTH-VALIDATE-CHALLENGE", sign(password, talk[0].reply.text)]
         && talk[1].reply == OK
       case Ping(text) => talk[0].request == ["PING", text] && talk[0].reply == Str(text)
       case ActivatePushTypes => talk[0].request == ["ACTIVATE-PUSH-TYPES"] && talk[0].reply == OK
       case SetClientName(name, ignoreFailures) =>
         talk[0].request == ["CLIENT", "SETNAME", name] && (ignoreFailures || talk[0].reply == OK)
  }

  /** The exchanges that complete all of these handshakes, one after the other. */
  predicate Protocol(leaves: seq<Handshake>, talk: seq<Exchange>, sign: Signer)
    decreases |leaves|
  {
    if leaves == [] then talk == []
    else
      var n := Length(leaves[0]);
      n <= |talk| && Completes(leaves[0], talk[..n], sign) && Protocol(leaves[1..], talk[n..], sign)
  }

  /** Exchanges that are right so far, with more to come. */
  predicate Begins(leaves: seq<Handshake>, talk: seq<Exchange>, sign: Signer)
    decreases |leaves|
  {
    && leaves != []
    && var n := Length(leaves[0]);
       if |talk| < n then talk == [] || Challenged(talk[0])
       else Completes(leaves[0], talk[..n], sign) && Begins(leaves[1..], talk[n..], sign)
  }

  /** What the connection has to give and gets, exchange by exchange, until the handshake is over. */
  datatype Input = Input(random: string, reply: Reply)

  datatype Talk = Talk(exchanges: seq<Exchange>, verdict: Verdict)

  function Before(x: Exchange, t: Talk): Talk { Talk([x] + t.exchanges, t.verdict) }

  function Converse(h: Handshake, inputs: seq<Input>, sign: Signer): (t: Talk)
    ensures |t.exchanges| <= |inputs| && (t.verdict == VALID_INCOMPLETE ==> |t.exchanges| == |inputs|)
    ensures
      forall i :: 0 <= i < |t.exchanges| ==>
        t.exchanges[i].random == inputs[i].random && t.exchanges[i].reply == inputs[i].reply
    decreases |inputs|
  {
    if inputs == [] then Talk([], VALID_INCOMPLETE)
    else
      var p := Provide(h, inputs[0].random, sign);
      var v := Validate(p.0, inputs[0].reply);
      Before(Exchange(inputs[0].random, p.1, inputs[0].reply),
             if v.1 == VALID_INCOMPLETE then Converse(v.0, inputs[1..], sign) else Talk([], v.1))
  }

  /** The same over the leaves that are left. */
  function ConverseInLine(leaves: seq<Handshake>, inputs: seq<Input>, sign: Signer): Talk
    requires leaves != [] && forall i :: 0 <= i < |leaves| ==> !leaves[i].Chainer?
    decreases |inputs|
  {
    if inputs == [] then Talk([], VALID_INCOMPLETE)
    else
      var p := ProvideLeaf(leaves[0], inputs[0].random, sign);
      var v := ValidateLeaf(p.0, inputs[0].reply);
      Before(Exchange(inputs[0].random, p.1, inputs[0].reply),
             if v.1 == VALID_INCOMPLETE then ConverseInLine([v.0] + leaves[1..], inputs[1..], sign)
             else if v.1 == VALID_COMPLETE && |leaves| > 1 then ConverseInLine(leaves[1..], inputs[1..], sign)
             else Talk([], v.1))
  }

  /** One exchange, as the leaves that are left see it. */
  ghost predicate ExchangedInLine(h: Handshake, random: string, reply: Reply, sign: Signer) {
    var left := Leaves(h)[Position(h)..];
    var p := Provide(h, random, sign);
    var v := Validate(p.0, reply);
    var leaf := ProvideLeaf(left[0], random, sign);
    var judged := ValidateLeaf(leaf.0, reply);
    && p.1 == leaf.1 && InUse(v.0)
    && v.1 == (if judged.1 == VALID_COMPLETE && |left| > 1 then VALID_INCOMPLETE else judged.1)
    && (v.1 == VALID_INCOMPLETE ==>
          Leaves(v.0)[Position(v.0)..] == if judged.1 == VALID_COMPLETE then left[1..] else [judged.0] + left[1..])
  }

  lemma LineGoesOn(l: Line, random: string, reply: Reply, sign: Signer)
    requires l.Valid()
    ensures
      var p := LineProvide(l, random, sign);
      var v := LineValidate(p.0, reply);
      var left := l.leaves[l.cur..];
      var leaf := ProvideLeaf(left[0], random, sign);
      var judged := ValidateLeaf(leaf.0, reply);
      && p.1 == leaf.1
      && v.1 == (if judged.1 == VALID_COMPLETE && |left| > 1 then VALID_INCOMPLETE else judged.1)
      && (v.1 == VALID_INCOMPLETE ==>
            v.0.leaves[v.0.cur..] == if judged.1 == VALID_COMPLETE then left[1..] else [judged.0] + left[1..])
  {
    hide ProvideLeaf, ValidateLeaf;
  }

  lemma OneInLine(h: Handshake, random: string, reply: Reply, sign: Signer)
    requires InUse(h)
    ensures ExchangedInLine(h, random, reply, sign)
  {
    ProvideFollowsLine(h, random, sign);
    ValidateFollowsLine(Provide(h, random, sign).0, reply);
    hide Provide, Validate, ProvideLeaf, ValidateLeaf, LineProvide, LineValidate, InUse, Leaves, Position;
    LineGoesOn(LineOf(h), random, reply, sign);
    LineIsLeaves(h);
    LineIsLeaves(Validate(Provide(h, random, sign).0, reply).0);
  }

  lemma {:induction false} TalkIsInLine(h: Handshake, inputs: seq<Input>, sign: Signer)
    requires InUse(h)
    ensures Converse(h, inputs, sign) == ConverseInLine(Leaves(h)[Position(h)..], inputs, sign)
    decreases |inputs|
  {
    hide Provide, Validate, ProvideLeaf, ValidateLeaf, InUse, Leaves, Position;
    if inputs != [] {
      OneInLine(h, inputs[0].random, inputs[0].reply, sign);
      var v := Validate(Provide(h, inputs[0].random, sign).0, inputs[0].reply);
      if v.1 == VALID_INCOMPLETE { TalkIsInLine(v.0, inputs[1..], sign); }
    }
  }

  predicate FreshLeaf(leaf: Handshake) { !leaf.Chainer? && Restart(leaf) == leaf }

  predicate AllFresh(leaves: seq<Handshake>) { forall i :: 0 <= i < |leaves| ==> FreshLeaf(leaves[i]) }

  /** The verdict tells how the exchanges relate to the protocol. */
  ghost predicate TellsProtocol(leaves: seq<Handshake>, t: Talk, sign: Signer) {
    && (t.verdict == VALID_COMPLETE <==> Protocol(leaves, t.exchanges, sign))
    && (t.verdict == VALID_INCOMPLETE <==> Begins(leaves, t.exchanges, sign))
  }

  /** Behind the exchanges of the first handshake come those of the others. */
  lemma ProtocolGoesOn(leaves: seq<Handshake>, head: seq<Exchange>, rest: seq<Exchange>, sign: Signer)
    requires leaves != [] && |head| == Length(leaves[0])
    ensures
      Protocol(leaves, head + rest, sign)
      <==> Completes(leaves[0], head, sign) && Protocol(leaves[1..], rest, sign)
    ensures Begins(leaves, head + rest, sign) <==> Completes(leaves[0], head, sign) && Begins(leaves[1..], rest, sign)
  {
    hide Completes;
    assert (head + rest)[..|head|] == head && (head + rest)[|head|..] == rest;
  }

  lemma TooFewExchanges(leaves: seq<Handshake>, talk: seq<Exchange>, sign: Signer)
    requires leaves != [] && |talk| < Length(leaves[0])
    ensures !Protocol(leaves, talk, sign) && (Begins(leaves, talk, sign) <==> talk == [] || Challenged(talk[0]))
  {
    hide Completes;
  }

  /** The last exchange of the first handshake: completed or refused, and then the others' turn. */
  lemma OthersFollow(leaves: seq<Handshake>, head: seq<Exchange>, t: Talk, sign: Signer)
    requires leaves != [] && |head| == Length(leaves[0])
    requires Completes(leaves[0], head, sign) ==>
      if |leaves| > 1 then TellsProtocol(leaves[1..], t, sign) else t == Talk([], VALID_COMPLETE)
    requires !Completes(leaves[0], head, sign) ==> t == Talk([], INVALID)
    ensures TellsProtocol(leaves, Talk(head + t.exchanges, t.verdict), sign)
  {
    hide Completes;
    ProtocolGoesOn(leaves, head, t.exchanges, sign);
  }

  /** A handshake of one exchange judges exactly that exchange. */
  lemma OneExchange(leaf: Handshake, input: Input, sign: Signer)
    requires FreshLeaf(leaf) && !leaf.HmacAuth?
    ensures
      var p := ProvideLeaf(leaf, input.random, sign);
      var v := ValidateLeaf(p.0, input.reply);
      v.1 == if Completes(leaf, [Exchange(input.random, p.1, input.reply)], sign) then VALID_COMPLETE else INVALID
  {}

  /** The HMAC handshake's first exchange; the challenge is what it signs in the second. */
  lemma HmacExchanges(leaf: Handshake, one: Input, two: Input, sign: Signer)
    requires FreshLeaf(leaf) && leaf.HmacAuth?
    ensures
      var p := ProvideLeaf(leaf, one.random, sign);
      var v, x := ValidateLeaf(p.0, one.reply), Exchange(one.random, p.1, one.reply);
      && v.1 == (if Challenged(x) then VALID_INCOMPLETE else INVALID)
      && var q := ProvideLeaf(v.0, two.random, sign);
         var y := Exchange(two.random, q.1, two.reply);
         Challenged(x) ==>
           ValidateLeaf(q.0, two.reply).1 == if Completes(leaf, [x, y], sign) then VALID_COMPLETE else INVALID
  {}

  lemma {:induction false} LineTellsProtocol(leaves: seq<Handshake>, inputs: seq<Input>, sign: Signer)
    requires leaves != [] && AllFresh(leaves)
    ensures TellsProtocol(leaves, ConverseInLine(leaves, inputs, sign), sign)
    decreases |leaves|
  {
    hide Completes, Challenged, TellsProtocol, ProvideLeaf, ValidateLeaf;
    var leaf, t := leaves[0], ConverseInLine(leaves, inputs, sign);
    if inputs == [] {
      Nothing(leaves, sign);
    } else if !leaf.HmacAuth? {
      OneExchange(leaf, inputs[0], sign);
      var x := t.exchanges[0];
      var rest := Talk(t.exchanges[1..], t.verdict);
      assert t.exchanges == [x] + rest.exchanges;
      if Completes(leaf, [x], sign) && |leaves| > 1 { LineTellsProtocol(leaves[1..], inputs[1..], sign); }
      OthersFollow(leaves, [x], rest, sign);
    } else {
      HmacTellsProtocol(leaves, inputs, sign);
    }
  }

  lemma Nothing(leaves: seq<Handshake>, sign: Signer)
    requires leaves != []
    ensures TellsProtocol(leaves, Talk([], VALID_INCOMPLETE), sign)
  {
    TooFewExchanges(leaves, [], sign);
  }

  lemma {:induction false} HmacTellsProtocol(leaves: seq<Handshake>, inputs: seq<Input>, sign: Signer)
    requires leaves != [] && AllFresh(leaves) && leaves[0].HmacAuth? && inputs != []
    ensures TellsProtocol(leaves, ConverseInLine(leaves, inputs, sign), sign)
    decreases |leaves|, 0
  {
    hide Completes, Challenged, TellsProtocol, ProvideLeaf, ValidateLeaf;
    var leaf, t := leaves[0], ConverseInLine(leaves, inputs, sign);
    var p := ProvideLeaf(leaf, inputs[0].random, sign);
    var v, x := ValidateLeaf(p.0, inputs[0].reply), Exchange(inputs[0].random, p.1, inputs[0].reply);
    var left := [v.0] + leaves[1..];
    assert left[1..] == leaves[1..];
    HmacExchanges(leaf, inputs[0], if |inputs| > 1 then inputs[1] else inputs[0], sign);
    assert Challenged(x) ==> t == Before(x, ConverseInLine(left, inputs[1..], sign));
    if !Challenged(x) || |inputs| == 1 {
      assert t.exchanges == [x];
      OneOfTwo(leaves, x, sign);
    } else {
      assert inputs[1..][0] == inputs[1] && inputs[1..][1..] == inputs[2..];
      var q := ProvideLeaf(v.0, inputs[1].random, sign);
      var y := Exchange(inputs[1].random, q.1, inputs[1].reply);
      var done := Completes(leaf, [x, y], sign);
      var rest := if done && |leaves| > 1 then ConverseInLine(leaves[1..], inputs[2..], sign)
                  else Talk([], if done then VALID_COMPLETE else INVALID);
      assert ConverseInLine(left, inputs[1..], sign) == Before(y, rest);
      assert t == Talk([x, y] + rest.exchanges, rest.verdict);
      if done && |leaves| > 1 { LineTellsProtocol(leaves[1..], inputs[2..], sign); }
      OthersFollow(leaves, [x, y], rest, sign);
    }
  }

  lemma OneOfTwo(leaves: seq<Handshake>, x: Exchange, sign: Signer)
    requires leaves != [] && leaves[0].HmacAuth?
    ensures TellsProtocol(leaves, Talk([x], if Challenged(x) then VALID_INCOMPLETE else INVALID), sign)
  {
    TooFewExchanges(leaves, [x], sign);
  }

  /** A handshake run from fresh completes if and only if its requests and their replies are those of the
      protocol, handshake by handshake; it waits for more if and only if they are the beginning of them. */
  lemma CompletesIffProtocol(h: Handshake, inputs: seq<Input>, sign: Signer)
    requires InUse(h)
    ensures
      var t := Converse(Restart(h), inputs, sign);
      && (t.verdict == VALID_COMPLETE <==> Protocol(Leaves(h), t.exchanges, sign))
      && (t.verdict == VALID_INCOMPLETE <==> Begins(Leaves(h), t.exchanges, sign))
  {
    RestartFollowsLine(h);
    TalkIsInLine(Restart(h), inputs, sign);
    hide Restart, InUse, Leaves, Position, Protocol, Begins, ConverseInLine, Converse;
    var leaves := RestartAll(Leaves(h));
    assert LineOf(Restart(h)) == Line(Leaves(Restart(h)), Position(Restart(h)));
    assert leaves[0..] == leaves;
    RestartedAreFresh(Leaves(h));
    LineTellsProtocol(leaves, inputs, sign);
    RestartedSpeakTheSame(Leaves(h), Converse(Restart(h), inputs, sign).exchanges, sign);
  }

  lemma RestartedAreFresh(leaves: seq<Handshake>)
    requires forall i :: 0 <= i < |leaves| ==> !leaves[i].Chainer?
    ensures AllFresh(RestartAll(leaves))
  {}

  lemma {:induction false} RestartedSpeakTheSame(leaves: seq<Handshake>, talk: seq<Exchange>, sign: Signer)
    requires forall i :: 0 <= i < |leaves| ==> !leaves[i].Chainer?
    ensures Protocol(RestartAll(leaves), talk, sign) <==> Protocol(leaves, talk, sign)
    ensures Begins(RestartAll(leaves), talk, sign) <==> Begins(leaves, talk, sign)
    decreases |leaves|
  {
    if leaves != [] {
      var n := Length(leaves[0]);
      assert RestartAll(leaves)[1..] == RestartAll(leaves[1..]);
      assert RestartAll(leaves)[0] == Restart(leaves[0]);
      if n <= |talk| {
        SameCompletion(leaves[0], talk[..n], sign);
        RestartedSpeakTheSame(leaves[1..], talk[n..], sign);
      }
      hide Completes, Challenged, RestartAll;
    }
  }

  lemma SameCompletion(leaf: Handshake, talk: seq<Exchange>, sign: Signer)
    requires !leaf.Chainer?
    ensures Completes(Restart(leaf), talk, sign) <==> Completes(leaf, talk, sign)
  {}

  function TotalLength(leaves: seq<Handshake>): nat {
    if leaves == [] then 0 else Length(leaves[0]) + TotalLength(leaves[1..])
  }

  lemma {:induction false} ProtocolSplits(a: seq<Handshake>, b: seq<Handshake>, talk: seq<Exchange>, sign: Signer)
    ensures Protocol(a, talk, sign) ==> |talk| == TotalLength(a)
    ensures
      var n := TotalLength(a);
      Protocol(a + b, talk, sign) <==> n <= |talk| && Protocol(a, talk[..n], sign) && Protocol(b, talk[n..], sign)
    decreases |a|
  {
    hide Completes;
    if a == [] {
      assert a + b == b && talk[0..] == talk;
    } else {
      var k, n := Length(a[0]), TotalLength(a);
      assert (a + b)[1..] == a[1..] + b && (a + b)[0] == a[0];
      if k <= |talk| {
        ProtocolSplits(a[1..], b, talk[k..], sign);
        if n <= |talk| {
          assert talk[..n][..k] == talk[..k] && talk[..n][k..] == talk[k..][..n - k] && talk[k..][n - k..] == talk[n..];
        }
      }
    }
  }

  /** The first n exchanges complete a, the others b. */
  predicate Divides(a: seq<Handshake>, b: seq<Handshake>, talk: seq<Exchange>, n: int, sign: Signer) {
    0 <= n <= |talk| && Protocol(a, talk[..n], sign) && Protocol(b, talk[n..], sign)
  }

  lemma DividesIff(a: seq<Handshake>, b: seq<Handshake>, talk: seq<Exchange>, sign: Signer)
    ensures Protocol(a + b, talk, sign) <==> exists n :: Divides(a, b, talk, n, sign)
  {
    ProtocolSplits(a, b, talk, sign);
    hide Protocol, TotalLength;
    if Protocol(a + b, talk, sign) { assert Divides(a, b, talk, TotalLength(a), sign); }
    if exists n :: Divides(a, b, talk, n, sign) {
      var n :| Divides(a, b, talk, n, sign);
      ProtocolSplits(a, b, talk[..n], sign);
    }
  }

  /** A chain's protocol is that of what was chained first, and then that of what was chained behind it. */
  lemma ChainedProtocol(a: Handshake, b: Handshake, talk: seq<Exchange>, sign: Signer)
    ensures ChainHandshake(None, Some(a)) == ChainHandshake(Some(a), None) == Some(a)
    ensures ChainHandshake(Some(a), Some(b)).Some?
    ensures
      Protocol(Leaves(ChainHandshake(Some(a), Some(b)).value), talk, sign)
      <==> exists n :: Divides(Leaves(a), Leaves(b), talk, n, sign)
  {
    hide Protocol, Divides;
    var chain := ChainHandshake(Some(a), Some(b)).value;
    assert Leaves(chain) == Leaves(a) + Leaves(b);
    DividesIff(Leaves(a), Leaves(b), talk, sign);
  }

  // ---- on a connection ----

  function InputsOf(replies: seq<Reply>, random: string): (inputs: seq<Input>)
    ensures |inputs| == |replies|
  {
    seq(|replies|, i requires 0 <= i < |replies| => Input(random, replies[i]))
  }

  function RequestsOf(talk: seq<Exchange>): (requests: seq<string>)
    ensures |requests| == |talk|
  {
    seq(|talk|, i requires 0 <= i < |talk| => EncodedHandshake(talk[i].request))
  }

  /** The connection is at the beginning of g, whose request it has queued behind those that came before. */
  predicate AtStartOf(c: Core, cfg: Config, g: Handshake, past: seq<string>, random: string) {
    var p := Provide(g, random, cfg.sign);
    && c.Sane() && c.inHandshake && c.handshake == Some(p.0)
    && c.handshakeRequests == past + [EncodedHandshake(p.1)]
  }

  /** None of these replies is taken for news about the connection itself. */
  predicate OnlyReplies(replies: seq<Reply>, cfg: Config, o: Oracle) {
    forall i :: 0 <= i < |replies| ==>
      !o.redirects(replies[i]) && !(cfg.transparentUnavailable && IsUnavailable(replies[i]))
  }

  /** Only the place in the handshake differs. */
  predicate OnlyHandshakeMoved(c: Core, d: Core) {
    d == c.(inHandshake := d.inHandshake, handshake := d.handshake, handshakeRequests := d.handshakeRequests)
  }

  lemma ReplyInHandshake(c: Core, cfg: Config, g: Handshake, past: seq<string>, reply: Reply, parsed: bool,
                         random: string)
    requires AtStartOf(c, cfg, g, past, random) && !(cfg.transparentUnavailable && IsUnavailable(reply))
    ensures
      var v := Validate(Provide(g, random, cfg.sign).0, reply);
      var r := ConsumeResponse(c, cfg, reply, parsed, random);
      && OnlyHandshakeMoved(c, r.0)
      && r.1 == (v.1 != INVALID) && r.0.inHandshake == (v.1 != VALID_COMPLETE) && r.0.handshake.Some?
      && (v.1 == VALID_INCOMPLETE ==> AtStartOf(r.0, cfg, v.0, c.handshakeRequests, random))
      && (v.1 != VALID_INCOMPLETE ==> r.0.handshakeRequests == c.handshakeRequests)
  {
    hide Validate, Provide, IsUnavailable, EncodedHandshake;
  }

  /** Once over, a handshake stays over, and asks for nothing more. */
  lemma {:induction false} StaysOver(c: Core, cfg: Config, replies: seq<Reply>, o: Oracle)
    requires c.Sane() && !c.inHandshake
    ensures
      var d := ConsumeAll(c, cfg, replies, o).0;
      !d.inHandshake && d.handshakeRequests == c.handshakeRequests
    decreases |replies|
  {
    hide IsUnavailable, IsPush, IsOK, IsQueued;
    if replies != [] && !o.redirects(replies[0]) {
      var r := ConsumeResponse(c, cfg, replies[0], o.parses(replies[0]), o.random);
      hide ConsumeResponse;
      if r.1 { StaysOver(r.0, cfg, replies[1..], o); }
    }
  }

  /** How the connection stands after these exchanges. */
  predicate StandsBy(c: Core, r: (Core, bool), past: seq<string>, t: Talk) {
    && (r.0.inHandshake <==> t.verdict != VALID_COMPLETE)
    && (r.0.inHandshake ==> OnlyHandshakeMoved(c, r.0) && (r.1 <==> t.verdict == VALID_INCOMPLETE))
    && past + RequestsOf(t.exchanges) <= r.0.handshakeRequests
    && |r.0.handshakeRequests| == |past| + |t.exchanges| + (if t.verdict == VALID_INCOMPLETE then 1 else 0)
  }

  lemma OneMoreExchange(c: Core, d: Core, r: (Core, bool), past: seq<string>, x: Exchange, t: Talk)
    requires OnlyHandshakeMoved(c, d) && StandsBy(d, r, past + [EncodedHandshake(x.request)], t)
    ensures StandsBy(c, r, past, Before(x, t))
  {
    hide EncodedHandshake;
    assert RequestsOf(Before(x, t).exchanges) == [EncodedHandshake(x.request)] + RequestsOf(t.exchanges);
  }

  lemma {:induction false} ConnectionConverses(c: Core, cfg: Config, g: Handshake, past: seq<string>,
                                               replies: seq<Reply>, o: Oracle)
    requires AtStartOf(c, cfg, g, past, o.random) && OnlyReplies(replies, cfg, o)
    ensures StandsBy(c, ConsumeAll(c, cfg, replies, o), past, Converse(g, InputsOf(replies, o.random), cfg.sign))
    decreases |replies|
  {
    hide Provide, Validate, EncodedHandshake, IsUnavailable, ConsumeResponse, Core.Sane;
    if replies != [] {
      var p := Provide(g, o.random, cfg.sign);
      var v, x := Validate(p.0, replies[0]), Exchange(o.random, p.1, replies[0]);
      ReplyInHandshake(c, cfg, g, past, replies[0], o.parses(replies[0]), o.random);
      var r := ConsumeResponse(c, cfg, replies[0], o.parses(replies[0]), o.random);
      assert InputsOf(replies, o.random)[1..] == InputsOf(replies[1..], o.random);
      var t := if v.1 == VALID_INCOMPLETE then Converse(v.0, InputsOf(replies[1..], o.random), cfg.sign)
               else Talk([], v.1);
      if v.1 == VALID_INCOMPLETE {
        ConnectionConverses(r.0, cfg, v.0, c.handshakeRequests, replies[1..], o);
      } else if v.1 == VALID_COMPLETE {
        StaysOver(r.0, cfg, replies[1..], o);
      }
      hide AtStartOf, StandsBy, OnlyHandshakeMoved;
      OneMoreExchange(c, r.0, ConsumeAll(c, cfg, replies, o), past, x, t);
    }
  }

  lemma ReconnectionStartsOver(c: Core, cfg: Config, h: Handshake, random: string)
    requires c.Sane() && c.handshake == Some(h)
    ensures
      var d := Reconnection(c, cfg, random);
      AtStartOf(d, cfg, Restart(h), [], random) && d.write == c.front + 1 && d.executed == c.executed
  {
    hide Provide, Restart, EncodedHandshake;
    var requests := [EncodedHandshake(Provide(Restart(h), random, cfg.sign).1)];
    assert [] + requests == requests;
  }

  /** A new connection is out of its handshake if and only if what was asked and answered on it is the
      whole protocol. Until then it survives if and only if that is the protocol's beginning, no request is
      acknowledged or handed to the writer, and what it has queued are the protocol's requests. */
  lemma ConnectionFollowsProtocol(c: Core, cfg: Config, h: Handshake, replies: seq<Reply>, o: Oracle)
    requires c.Sane() && c.handshake == Some(h) && InUse(h) && OnlyReplies(replies, cfg, o)
    ensures
      var r := ConsumeAll(Reconnection(c, cfg, o.random), cfg, replies, o);
      var talk := Converse(Restart(h), InputsOf(replies, o.random), cfg.sign).exchanges;
      && (!r.0.inHandshake <==> Protocol(Leaves(h), talk, cfg.sign))
      && (r.0.inHandshake ==>
          && (r.1 <==> Begins(Leaves(h), talk, cfg.sign))
          && r.0.executed == c.executed && r.0.write == c.front + 1)
      && RequestsOf(talk) <= r.0.handshakeRequests
      && |r.0.handshakeRequests| == |talk| + (if Begins(Leaves(h), talk, cfg.sign) then 1 else 0)
  {
    hide AtStartOf, Reconnection, ConsumeAll, Converse, InUse, OnlyReplies, Restart, Leaves, Protocol, Begins;
    hide EncodedHandshake;
    ReconnectionStartsOver(c, cfg, h, o.random);
    ConnectionConverses(Reconnection(c, cfg, o.random), cfg, Restart(h), [], replies, o);
    CompletesIffProtocol(h, InputsOf(replies, o.random), cfg.sign);
    var talk := Converse(Restart(h), InputsOf(replies, o.random), cfg.sign).exchanges;
    assert [] + RequestsOf(talk) == RequestsOf(talk);
  }
}
