/** Which bytes a reader refuses: a protocol error ends a stream exactly at a malformed item. */
module RespErrors {
  import opened Common
  import opened Decimal
  import opened Resp
  import opened RespRoundTrip

  /** The first line of s, without its line break. */
  predicate FirstLine(s: string, line: string) {
    |line| + 2 <= |s| && s[..|line|] == line && s[|line|..|line| + 2] == "\r\n" && !HasNewline(s[..|line| + 1])
  }

  /** The canonical text of a 64-bit integer in this range. */
  ghost predicate NumberBetween(line: string, low: int, high: int) {
    exists n :: IsInt64(n) && low <= n <= high && line == Text(n)
  }

  /** An aggregate may not be a child of a push, unless it is nil. */
  ghost predicate AggregateHeader(frames: seq<Frame>, line: string) {
    line == "-1" || (NumberBetween(line, 0, MAX_ELEMENTS) && !ParentIsPush(frames))
  }

  /** An item that cannot be the beginning of any reply, inside these open aggregates: an unknown type, a
      number that is not canonical or does not fit, a length that is too small or too large, an aggregate
      inside a push, and a ninth level. */
  ghost predicate Malformed(frames: seq<Frame>, rest: string) {
    && rest != ""
    && match rest[0]
       case '+' => false
       case '-' => false
       case ':' => exists line :: FirstLine(rest[1..], line) && !NumberBetween(line, INT64_MIN, INT64_MAX)
       case '$' => exists line :: FirstLine(rest[1..], line) && !NumberBetween(line, -1, INT64_MAX)
       case '*' => |frames| == 8 || exists line :: FirstLine(rest[1..], line) && !AggregateHeader(frames, line)
       case '>' => |frames| == 8 || exists line :: FirstLine(rest[1..], line) && !AggregateHeader(frames, line)
       case _ => true
  }

  lemma NewlineInPrefix(s: string, i: nat, n: nat)
    requires n <= |s|
    ensures i + 1 < n && s[i] == '\r' && s[i + 1] == '\n' ==> HasNewline(s[..n])
  {
    if i + 1 < n { assert s[..n][i] == s[i] && s[..n][i + 1] == s[i + 1]; }
  }

  lemma FirstLineIsCut(s: string, line: string)
    ensures FirstLine(s, line) <==> NewlineAt(s).Some? && line == s[..NewlineAt(s).value]
  {
    var r, k := NewlineAt(s), |line|;
    if k + 2 <= |s| {
      assert s[k..k + 2] == "\r\n" <==> s[k] == '\r' && s[k + 1] == '\n';
      if r.Some? {
        NewlineInPrefix(s, r.value, k + 1);
        NewlineInPrefix(s, k, r.value + 1);
        assert s[r.value..r.value + 2] == "\r\n";
      }
    }
    hide HasNewline;
    assert FirstLine(s, line) ==> r.Some? by { hide NewlineAt; NewlineInPrefix(s, k, |s|); assert s[..|s|] == s; }
  }

  lemma NumberIsParsed(line: string, low: int, high: int)
    ensures NumberBetween(line, low, high) <==> Int64Of(line).Some? && low <= Int64Of(line).value <= high
  {
    hide Int64Of, Text;
    if NumberBetween(line, low, high) {
      var n :| IsInt64(n) && low <= n <= high && line == Text(n);
      Int64OfIffText(line, n);
    }
    if Int64Of(line).Some? { Int64OfIffText(line, Int64Of(line).value); }
  }

  lemma MinusOne(line: string)
    ensures line == "-1" <==> Int64Of(line) == Some(-1)
  {
    Int64OfIffText(line, -1);
    assert Digits(1) == "1";
    assert Text(-1) == "-1";
  }

  lemma LineFailsIff(frames: seq<Frame>, s: string)
    requires Open(frames) && |frames| <= 8
    ensures
      LineItem(frames, KInteger, s).Fail?
      <==> exists line :: FirstLine(s, line) && !NumberBetween(line, INT64_MIN, INT64_MAX)
    ensures !LineItem(frames, KStatus, s).Fail? && !LineItem(frames, KError, s).Fail?
  {
    FirstLineOnly(s);
    if NewlineAt(s).Some? { NumberIsParsed(s[..NewlineAt(s).value], INT64_MIN, INT64_MAX); }
    if NewlineAt(s).Some? { InRange(s[..NewlineAt(s).value]); }
    hide FirstLine, NumberBetween, NewlineAt, Int64Of, Finish;
  }

  lemma BulkFailsIff(frames: seq<Frame>, s: string)
    requires Open(frames) && |frames| <= 8
    ensures
      BulkItem(frames, s).Fail? <==> exists line :: FirstLine(s, line) && !NumberBetween(line, -1, INT64_MAX)
  {
    FirstLineOnly(s);
    if NewlineAt(s).Some? { NumberIsParsed(s[..NewlineAt(s).value], -1, INT64_MAX); }
    if NewlineAt(s).Some? { InRange(s[..NewlineAt(s).value]); }
    hide FirstLine, NumberBetween, NewlineAt, Int64Of, Finish;
  }

  lemma AggregateFailsIff(frames: seq<Frame>, push: bool, s: string)
    requires Open(frames) && |frames| <= 8
    ensures
      MultiBulkItem(frames, push, s).Fail?
      <==> |frames| == 8 || exists line :: FirstLine(s, line) && !AggregateHeader(frames, line)
  {
    FirstLineOnly(s);
    if NewlineAt(s).Some? {
      NumberIsParsed(s[..NewlineAt(s).value], 0, MAX_ELEMENTS);
      MinusOne(s[..NewlineAt(s).value]);
    }
    hide FirstLine, NumberBetween, NewlineAt, Int64Of, Finish;
  }

  lemma FirstLineOnly(s: string)
    ensures forall line :: FirstLine(s, line) ==> NewlineAt(s).Some? && line == s[..NewlineAt(s).value]
    ensures NewlineAt(s).Some? ==> FirstLine(s, s[..NewlineAt(s).value])
  {
    forall line | FirstLine(s, line) ensures NewlineAt(s).Some? && line == s[..NewlineAt(s).value] {
      FirstLineIsCut(s, line);
    }
    if NewlineAt(s).Some? { FirstLineIsCut(s, s[..NewlineAt(s).value]); }
  }

  lemma InRange(line: string)
    ensures Int64Of(line).Some? ==> IsInt64(Int64Of(line).value)
  {}

  /** An item is refused exactly when it is malformed; else it is read, or waits for more bytes. */
  lemma ItemFailsIff(frames: seq<Frame>, rest: string)
    requires Open(frames) && |frames| <= 8
    ensures ProcessItem(frames, None, rest).Fail? <==> Malformed(frames, rest)
  {
    hide FirstLine, NumberBetween, AggregateHeader, LineItem, BulkItem, MultiBulkItem, Progress, Open;
    if rest != "" {
      var c, s := rest[0], rest[1..];
      if c == '$' {
        BulkFailsIff(frames, s);
      } else if c == '*' || c == '>' {
        AggregateFailsIff(frames, c == '>', s);
      } else {
        LineFailsIff(frames, s);
      }
    }
  }

  lemma {:induction false} RepliesThenMore(ts: seq<Reply>, rest: string)
    requires forall i :: 0 <= i < |ts| ==> Printable(ts[i])
    ensures var more := Run([], None, rest); Run([], None, PrintAll(ts) + rest) == (ts + more.0, more.1)
  {
    hide Print, Printable, Run;
    if ts == [] {
      assert PrintAll(ts) + rest == rest;
      assert ts + Run([], None, rest).0 == Run([], None, rest).0;
    } else {
      PrintedTreeThenMore(ts[0], PrintAll(ts[1..]) + rest);
      RepliesThenMore(ts[1..], rest);
      assert Print(ts[0]) + PrintAll(ts[1..]) + rest == Print(ts[0]) + (PrintAll(ts[1..]) + rest);
      var more := Run([], None, rest).0;
      assert [ts[0]] + (ts[1..] + more) == ts + more;
    }
  }

  lemma FailEndsRun(rest: string)
    ensures ProcessItem([], None, rest).Fail? ==> Run([], None, rest).0 == [] && Run([], None, rest).1.Broken?
  {
    hide ProcessItem;
  }

  /** A stream of whole replies followed by a malformed item gives exactly those replies and then a protocol
      error, however it is cut and whatever comes behind. */
  lemma MalformedEndsStream(ts: seq<Reply>, bad: string, more: string, chunks: seq<string>)
    requires forall i :: 0 <= i < |ts| ==> Printable(ts[i])
    requires Malformed([], bad) && Flatten(chunks) == PrintAll(ts) + (bad + more)
    ensures FeedAll(INITIAL, chunks).0 == ts && FeedAll(INITIAL, chunks).1.Broken?
  {
    ItemFailsIff([], bad);
    ProcessItemResumes([], None, bad, more);
    FailEndsRun(bad + more);
    RepliesThenMore(ts, bad + more);
    InitialIsExhausted();
    ChunkingIsIrrelevant(INITIAL, chunks);
    hide Run, PrintAll, FeedAll, Flatten, Malformed, ProcessItem;
    assert "" + Flatten(chunks) == Flatten(chunks);
  }
}
