/** Which replies a connection survives, in the letters of the protocol; and what a MULTI block has to
    hear before its own reply. */
module BlockReplies {
  import opened Common
  import opened Resp
  import opened ConnectionModel
  import opened Handshakes
  import opened Client
  import RespRoundTrip
  import Printers

  /** The text is this word, each letter in upper or lower case. */
  predicate Spells(text: string, upper: string, lower: string)
    requires |upper| == |lower|
  {
    |text| == |upper| && forall i :: 0 <= i < |text| ==> text[i] == upper[i] || text[i] == lower[i]
  }

  /** What a server says to part k of a block in front of the last: OK to MULTI, then QUEUED. */
  predicate RightPart(k: nat, t: Reply) {
    t.Status? && if k == 0 then Spells(t.text, "OK", "ok") else Spells(t.text, "QUEUED", "queued")
  }

  predicate SaysUnavailable(t: Reply) {
    && t.Error?
    && (|| (15 <= |t.text| && t.text[..15] == "ERR unavailable")
        || (11 <= |t.text| && t.text[..11] == "UNAVAILABLE"))
  }

  predicate IsPushed(t: Reply) { t.Aggregate? && t.push }

  lemma LowerIs(c: char, upper: char, lower: char)
    requires 'A' <= upper <= 'Z' && lower as int == upper as int + 32
    ensures Lower(c) == Lower(upper) <==> c == upper || c == lower
  {}

  lemma IsOKSpells(t: Reply)
    ensures IsOK(t) <==> t.Status? && Spells(t.text, "OK", "ok")
  {
    hide Lower;
    if t.Status? && |t.text| == 2 {
      LowerIs(t.text[0], 'O', 'o');
      LowerIs(t.text[1], 'K', 'k');
    }
  }

  lemma IsQueuedSpells(t: Reply)
    ensures IsQueued(t) <==> t.Status? && Spells(t.text, "QUEUED", "queued")
  {
    hide Lower;
    if t.Status? && |t.text| == 6 {
      LowerIs(t.text[0], 'Q', 'q');
      LowerIs(t.text[1], 'U', 'u');
      LowerIs(t.text[2], 'E', 'e');
      LowerIs(t.text[3], 'U', 'u');
      LowerIs(t.text[4], 'E', 'e');
      LowerIs(t.text[5], 'D', 'd');
    }
  }

  lemma UnavailableSays(t: Reply)
    ensures IsUnavailable(t) <==> SaysUnavailable(t)
  {
    if t.Error? {
      assert "ERR unavailable" <= t.text <==> 15 <= |t.text| && t.text[..15] == "ERR unavailable";
      assert "UNAVAILABLE" <= t.text <==> 11 <= |t.text| && t.text[..11] == "UNAVAILABLE";
    }
  }

  /** How many parts the oldest pending request still has to hear before its own reply. */
  function PartsLeft(c: Core): nat
    requires c.Sane() && c.ItemHasArrived()
  {
    if c.ignored < c.Item(c.ack).multiSize then c.Item(c.ack).multiSize - c.ignored else 0
  }

  /** A reply ends the connection exactly when it announces that the backend is unavailable and the client
      is to hide that, when the handshake refuses it, when it is a message that cannot be parsed, when
      nothing is pending, or when it is the wrong part of a block. */
  lemma SurvivesIff(c: Core, cfg: Config, t: Reply, parsed: bool, random: string)
    requires c.Sane()
    ensures ConsumeResponse(c, cfg, t, parsed, random).1 <==>
      && !(cfg.transparentUnavailable && SaysUnavailable(t))
      && (c.inHandshake ==> Validate(c.handshake.value, t).1 != INVALID)
      && (!c.inHandshake && IsPushed(t) && cfg.hasListener ==> parsed)
      && (!c.inHandshake && !IsPushed(t) ==>
            if cfg.hasListener && cfg.exclusivePubsub then parsed
            else c.ItemHasArrived() && (0 < PartsLeft(c) ==> RightPart(c.ignored, t)))
  {
    hide Validate, Provide, IsOK, IsQueued, IsUnavailable, SaysUnavailable, Spells, Printers.Encoded;
    IsOKSpells(t);
    IsQueuedSpells(t);
    UnavailableSays(t);
  }

  /** The oldest pending request gets this reply: it is handed over with the request's own callback, the
      request leaves the queue, and the next one starts with its first part. */
  function Answered(c: Core, cfg: Config, t: Reply): Core
    requires c.Sane() && c.ItemHasArrived() && 1 <= c.ack
  {
    var callback := c.staged[c.base + c.ack - 1].callback;
    c.(executed := c.executed + [Response(callback, Some(t))], ack := c.ack + 1, front := c.front + 1, ignored := 0,
       slots := c.slots + if cfg.limited then 1 else 0)
  }

  /** What a reply does once the handshake is over: one that the oldest request still has to hear in front
      of its own is counted, the next one is its own; and what is no reply to it changes nothing. */
  lemma ReplyEffect(c: Core, cfg: Config, t: Reply, parsed: bool, random: string)
    requires c.Sane() && !c.inHandshake && (c.ItemHasArrived() ==> c.ignored <= c.Item(c.ack).multiSize)
    ensures ConsumeResponse(c, cfg, t, parsed, random).0 ==
      if (cfg.transparentUnavailable && SaysUnavailable(t)) || IsPushed(t) then c
      else if (cfg.hasListener && cfg.exclusivePubsub) || !c.ItemHasArrived() then c
      else if 0 < PartsLeft(c) then c.(ignored := c.ignored + 1)
      else Answered(c, cfg, t)
  {
    hide IsOK, IsQueued, IsUnavailable, SaysUnavailable;
    UnavailableSays(t);
  }

  /** A request is pending, and replies are taken for it. */
  predicate AwaitsReply(c: Core, cfg: Config) {
    && c.Sane() && !c.inHandshake && !(cfg.hasListener && cfg.exclusivePubsub)
    && c.ItemHasArrived() && c.ignored <= c.Item(c.ack).multiSize
  }

  /** None of these replies is about the connection itself, and the messages among them can be parsed. */
  predicate NothingElse(replies: seq<Reply>, cfg: Config, o: Oracle) {
    forall i :: 0 <= i < |replies| ==>
      && !o.redirects(replies[i]) && !(cfg.transparentUnavailable && SaysUnavailable(replies[i]))
      && (IsPushed(replies[i]) && cfg.hasListener ==> o.parses(replies[i]))
  }

  /** The replies that are no messages. */
  function Proper(replies: seq<Reply>): seq<Reply> {
    if replies == [] then []
    else (if IsPushed(replies[0]) then [] else [replies[0]]) + Proper(replies[1..])
  }

  lemma FirstIsNothingElse(replies: seq<Reply>, cfg: Config, o: Oracle)
    requires replies != [] && NothingElse(replies, cfg, o)
    ensures !o.redirects(replies[0]) && !(cfg.transparentUnavailable && SaysUnavailable(replies[0]))
    ensures IsPushed(replies[0]) && cfg.hasListener ==> o.parses(replies[0])
    ensures NothingElse(replies[1..], cfg, o)
  {
    hide SaysUnavailable, IsPushed;
  }

  lemma {:induction false} MessagesChangeNothing(c: Core, cfg: Config, replies: seq<Reply>, o: Oracle)
    requires c.Sane() && !c.inHandshake && (c.ItemHasArrived() ==> c.ignored <= c.Item(c.ack).multiSize)
    requires NothingElse(replies, cfg, o) && Proper(replies) == []
    ensures ConsumeAll(c, cfg, replies, o) == (c, true)
    decreases |replies|
  {
    hide ConsumeResponse, SaysUnavailable, NothingElse;
    if replies != [] {
      FirstIsNothingElse(replies, cfg, o);
      assert IsPushed(replies[0]);
      SurvivesIff(c, cfg, replies[0], o.parses(replies[0]), o.random);
      ReplyEffect(c, cfg, replies[0], o.parses(replies[0]), o.random);
      MessagesChangeNothing(c, cfg, replies[1..], o);
    }
  }

  /** All parts in front of the request's own reply are right. */
  predicate PartsAreRight(from: nat, parts: seq<Reply>) {
    forall k :: 0 <= k < |parts| ==> RightPart(from + k, parts[k])
  }

  lemma FirstPart(from: nat, parts: seq<Reply>)
    requires parts != []
    ensures PartsAreRight(from, parts) <==> RightPart(from, parts[0]) && PartsAreRight(from + 1, parts[1..])
  {
    hide RightPart;
    if RightPart(from, parts[0]) && PartsAreRight(from + 1, parts[1..]) {
      forall k | 0 <= k < |parts| ensures RightPart(from + k, parts[k]) {
        if k > 0 { assert RightPart(from + 1 + (k - 1), parts[1..][k - 1]); }
      }
    }
    if PartsAreRight(from, parts) {
      assert RightPart(from + 0, parts[0]);
      forall k | 0 <= k < |parts[1..]| ensures RightPart(from + 1 + k, parts[1..][k]) {
        assert RightPart(from + (k + 1), parts[k + 1]);
      }
    }
  }

  lemma NoPartsAreRight(from: nat, parts: seq<Reply>)
    requires parts == []
    ensures PartsAreRight(from, parts)
  {}

  lemma AnsweredIsSane(c: Core, cfg: Config, t: Reply)
    requires AwaitsReply(c, cfg) && 1 <= c.ack
    ensures Answered(c, cfg, t).Sane() && !Answered(c, cfg, t).inHandshake && Answered(c, cfg, t).ignored == 0
  {}

  ghost predicate BlockOutcome(c: Core, cfg: Config, own: seq<Reply>, r: (Core, bool))
    requires AwaitsReply(c, cfg) && 1 <= c.ack && |own| == PartsLeft(c) + 1
  {
    && (r.1 <==> PartsAreRight(c.ignored, own[..PartsLeft(c)]))
    && (if r.1 then r.0 == Answered(c, cfg, own[PartsLeft(c)]) else r.0 == c.(ignored := r.0.ignored))
  }

  lemma ProperStep(replies: seq<Reply>)
    requires replies != []
    ensures IsPushed(replies[0]) ==> Proper(replies) == Proper(replies[1..])
    ensures !IsPushed(replies[0]) ==>
      Proper(replies) != [] && Proper(replies)[0] == replies[0] && Proper(replies)[1..] == Proper(replies[1..])
  {}

  /** The oldest pending request and the replies from its next part on, among messages at any place: the
      connection goes on if and only if every part in front of the last is the right one; then the request
      has been handed its last reply, and otherwise nothing was handed over. */
  lemma {:induction false} BlockIsAnsweredIff(c: Core, cfg: Config, replies: seq<Reply>, o: Oracle)
    requires AwaitsReply(c, cfg) && 1 <= c.ack && NothingElse(replies, cfg, o) && |Proper(replies)| == PartsLeft(c) + 1
    ensures BlockOutcome(c, cfg, Proper(replies), ConsumeAll(c, cfg, replies, o))
    decreases |replies|
  {
    hide ConsumeResponse, SaysUnavailable, NothingElse, RightPart, PartsAreRight, IsPushed;
    var t, own, n := replies[0], Proper(replies), PartsLeft(c);
    FirstIsNothingElse(replies, cfg, o);
    ProperStep(replies);
    SurvivesIff(c, cfg, t, o.parses(t), o.random);
    ReplyEffect(c, cfg, t, o.parses(t), o.random);
    if IsPushed(t) {
      BlockIsAnsweredIff(c, cfg, replies[1..], o);
    } else if n == 0 {
      NoPartsAreRight(c.ignored, own[..0]);
      AnsweredIsSane(c, cfg, t);
      MessagesChangeNothing(Answered(c, cfg, t), cfg, replies[1..], o);
    } else {
      FirstPart(c.ignored, own[..n]);
      assert own[..n][1..] == own[1..][..n - 1];
      if RightPart(c.ignored, t) { BlockIsAnsweredIff(c.(ignored := c.ignored + 1), cfg, replies[1..], o); }
    }
  }

  /** What a server sends to a block of n requests: OK to MULTI, QUEUED to each of them, and the reply. */
  function RepliesToBlock(n: nat, last: Reply): (replies: seq<Reply>)
    ensures |replies| == n + 2 && replies[0] == Status("OK") && replies[n + 1] == last
    ensures forall i :: 1 <= i <= n ==> replies[i] == Status("QUEUED")
  {
    [Status("OK")] + seq(n, _ => Status("QUEUED")) + [last]
  }

  lemma {:induction false} NoMessageIsLeftOut(replies: seq<Reply>)
    requires forall i :: 0 <= i < |replies| ==> !IsPushed(replies[i])
    ensures Proper(replies) == replies
  {
    if replies != [] { NoMessageIsLeftOut(replies[1..]); }
  }

  lemma BlockPartsAreRight(n: nat, last: Reply)
    ensures PartsAreRight(0, RepliesToBlock(n, last)[..n + 1])
  {
    var replies := RepliesToBlock(n, last);
    var parts := replies[..n + 1];
    forall k | 0 <= k < |parts| ensures RightPart(0 + k, parts[k]) {
      assert parts[k] == if k == 0 then Status("OK") else Status("QUEUED");
    }
  }

  lemma BlockIsHeard(c: Core, cfg: Config, n: nat, last: Reply, o: Oracle)
    requires AwaitsReply(c, cfg) && 1 <= c.ack && c.ignored == 0 && c.Item(c.ack).multiSize == n + 1
    requires !IsPushed(last) && NothingElse(RepliesToBlock(n, last), cfg, o)
    ensures ConsumeAll(c, cfg, RepliesToBlock(n, last), o) == (Answered(c, cfg, last), true)
  {
    var replies := RepliesToBlock(n, last);
    hide ConsumeAll, NothingElse, PartsAreRight, Answered;
    NoMessageIsLeftOut(replies);
    BlockPartsAreRight(n, last);
    BlockIsAnsweredIff(c, cfg, replies, o);
  }

  lemma BlockIsPrintable(n: nat, last: Reply)
    requires RespRoundTrip.Printable(last)
    ensures forall i :: 0 <= i < n + 2 ==> RespRoundTrip.Printable(RepliesToBlock(n, last)[i])
  {
    forall i | 0 <= i < n + 2 ensures RespRoundTrip.Printable(RepliesToBlock(n, last)[i]) {
      assert i <= n ==> RepliesToBlock(n, last)[i] == if i == 0 then Status("OK") else Status("QUEUED");
    }
  }

  /** A block of n requests, staged with n + 1 replies to ignore: in every cut of the bytes that such a server
      sends, the connection goes on, and the block's callback is handed the reply behind them, whatever it is. */
  lemma BlockIsServed(c: Core, cfg: Config, n: nat, last: Reply, chunks: seq<string>, o: Oracle)
    requires AwaitsReply(c, cfg) && 1 <= c.ack && c.ignored == 0 && c.Item(c.ack).multiSize == n + 1
    requires !IsPushed(last) && NothingElse(RepliesToBlock(n, last), cfg, o)
    requires RespRoundTrip.Printable(last) && Flatten(chunks) == PrintAll(RepliesToBlock(n, last))
    ensures FeedChunks(c, cfg, INITIAL, chunks, o) == (Answered(c, cfg, last), true)
  {
    BlockIsHeard(c, cfg, n, last, o);
    BlockIsPrintable(n, last);
    AwaitsIsSane(c, cfg);
    hide *;
    RespRoundTrip.PrintedStreamParses(RepliesToBlock(n, last), chunks);
    ChunksAreTheirStream(c, cfg, INITIAL, chunks, o);
  }

  lemma AwaitsIsSane(c: Core, cfg: Config)
    requires AwaitsReply(c, cfg)
    ensures c.Sane() && INITIAL.Valid()
  {}
}
