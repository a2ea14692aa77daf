/** Quoting byte strings and splitting a line into arguments again: sdscatrepr and sdssplitargs. */
module Quoting {
  import opened Common

  // ---- characters, in the "C" locale ----

  predicate IsPrint(c: Byte) { 32 <= c as int <= 126 }

  predicate IsSpace(c: Byte) { c == ' ' || 9 <= c as int <= 13 }

  predicate IsHexDigit(c: Byte) { '0' <= c <= '9' || 'a' <= c <= 'f' || 'A' <= c <= 'F' }

  function HexDigitToInt(c: Byte): (n: nat)
    ensures n < 16
  {
    if '0' <= c <= '9' then c as int - '0' as int
    else if 'a' <= c <= 'f' then c as int - 'a' as int + 10
    else if 'A' <= c <= 'F' then c as int - 'A' as int + 10
    else 0
  }

  function HexDigit(n: nat): (c: Byte)
    requires n < 16
    ensures IsHexDigit(c) && HexDigitToInt(c) == n
  {
    if n < 10 then ('0' as int + n) as char else ('a' as int + n - 10) as char
  }

  const BELL: Byte := 7 as char
  const BACKSPACE: Byte := 8 as char

  // ---- quoting ----

  function Escape(c: Byte): Bytes {
    if c == '\\' || c == '"' then ['\\', c]
    else if c == '\n' then "\\n"
    else if c == '\r' then "\\r"
    else if c == '\t' then "\\t"
    else if c == BELL then "\\a"
    else if c == BACKSPACE then "\\b"
    else if IsPrint(c) then [c]
    else ['\\', 'x', HexDigit(c as int / 16), HexDigit(c as int % 16)]
  }

  function Escaped(s: Bytes): Bytes {
    if s == [] then [] else Escape(s[0]) + Escaped(s[1..])
  }

  function Quoted(s: Bytes): Bytes { "\"" + Escaped(s) + "\"" }

  // ---- splitting, as a function of what is left of the line ----

  datatype Mode = Plain | InQuotes | InSingleQuotes

  /** The line ends with a NUL. */
  function At(left: Bytes, i: nat): Byte {
    if i < |left| then left[i] else '\0'
  }

  function Unescape(c: Byte): Byte {
    if c == 'n' then '\n'
    else if c == 'r' then '\r'
    else if c == 't' then '\t'
    else if c == 'b' then BACKSPACE
    else if c == 'a' then BELL
    else c
  }

  predicate HexEscape(left: Bytes) {
    At(left, 0) == '\\' && At(left, 1) == 'x' && IsHexDigit(At(left, 2)) && IsHexDigit(At(left, 3))
  }

  function HexByte(left: Bytes): Byte {
    (HexDigitToInt(At(left, 2)) * 16 + HexDigitToInt(At(left, 3))) as char
  }

  predicate TokenMayEnd(next: Byte) { next == '\0' || IsSpace(next) }

  predicate EndsPlain(c: Byte) { c == ' ' || c == '\n' || c == '\r' || c == '\t' || c == '\0' }

  /** The rest of a token, and what is left after it. */
  function Token(left: Bytes, mode: Mode, current: Bytes): (r: Option<(Bytes, Bytes)>)
    ensures r.Some? ==> |r.value.1| <= |left| && (At(left, 0) != '\0' ==> |r.value.1| < |left|)
    decreases |left|
  {
    var c, next := At(left, 0), At(left, 1);
    match mode
    case InQuotes =>
      if HexEscape(left) then Token(left[4..], InQuotes, current + [HexByte(left)])
      else if c == '\\' && next != '\0' then Token(left[2..], InQuotes, current + [Unescape(next)])
      else if c == '"' then if TokenMayEnd(next) then Some((current, left[1..])) else None
      else if c == '\0' then None
      else Token(left[1..], InQuotes, current + [c])
    case InSingleQuotes =>
      if c == '\\' && next == '\'' then Token(left[2..], InSingleQuotes, current + ['\''])
      else if c == '\'' then if TokenMayEnd(next) then Some((current, left[1..])) else None
      else if c == '\0' then None
      else Token(left[1..], InSingleQuotes, current + [c])
    case Plain =>
      if EndsPlain(c) then Some((current, if c == '\0' then left else left[1..]))
      else if c == '"' then Token(left[1..], InQuotes, current)
      else if c == '\'' then Token(left[1..], InSingleQuotes, current)
      else Token(left[1..], Plain, current + [c])
  }

  function SkipBlanks(left: Bytes): (r: Bytes)
    ensures |r| <= |left|
  {
    if left != [] && IsSpace(left[0]) then SkipBlanks(left[1..]) else left
  }

  /** All arguments, or none when quotes are unbalanced or run into the next argument. */
  function Split(left: Bytes): Option<seq<Bytes>>
    decreases |left|
  {
    var start := SkipBlanks(left);
    if At(start, 0) == '\0' then Some([])
    else
      match Token(start, Plain, [])
      case None => None
      case Some((token, rest)) => Prepended([token], Split(rest))
  }

  function Prepended(first: seq<Bytes>, r: Option<seq<Bytes>>): Option<seq<Bytes>> {
    match r
    case None => None
    case Some(args) => Some(first + args)
  }

  // ---- the round trip ----

  lemma EscapeIsRead(c: Byte, rest: Bytes, current: Bytes)
    ensures Token(Escape(c) + rest, InQuotes, current) == Token(rest, InQuotes, current + [c])
  {
    var left := Escape(c) + rest;
    if |Escape(c)| == 4 {
      assert HexEscape(left) && left[4..] == rest;
      assert HexByte(left) == c;
    } else if |Escape(c)| == 2 {
      assert !HexEscape(left) && left[0] == '\\' && left[2..] == rest;
      assert Unescape(left[1]) == c;
    } else {
      assert left[0] == c && left[1..] == rest;
    }
  }

  /** A closing quote ends the token, but only in front of a blank or at the end of the line. */
  lemma {:induction false} EscapedIsRead(s: Bytes, rest: Bytes, current: Bytes)
    ensures
      Token(Escaped(s) + "\"" + rest, InQuotes, current)
        == if TokenMayEnd(At(rest, 0)) then Some((current + s, rest)) else None
    decreases |s|
  {
    var closing: Bytes := "\"";
    if s == [] {
      assert Escaped(s) + closing + rest == closing + rest;
      assert (closing + rest)[1..] == rest && At(closing + rest, 1) == At(rest, 0);
      assert current + s == current;
    } else {
      var e, more := Escape(s[0]), Escaped(s[1..]) + closing + rest;
      assert Escaped(s) + closing + rest == e + more;
      hide Token, Escape, Escaped;
      EscapeIsRead(s[0], more, current);
      EscapedIsRead(s[1..], rest, current + [s[0]]);
      assert current + [s[0]] + s[1..] == current + s;
    }
  }

  lemma QuotedIsRead(s: Bytes, rest: Bytes)
    ensures Token(Quoted(s) + rest, Plain, []) == if TokenMayEnd(At(rest, 0)) then Some((s, rest)) else None
  {
    var left, inner := Quoted(s) + rest, Escaped(s) + "\"" + rest;
    assert left[0] == '"' && left[1..] == inner;
    EscapedIsRead(s, rest, []);
    hide Escaped;
    assert Token(left, Plain, []) == Token(inner, InQuotes, []);
    assert [] + s == s;
  }

  /** Without the closing quote there is no token. */
  lemma {:induction false} UnclosedIsRefused(s: Bytes, current: Bytes)
    ensures Token(Escaped(s), InQuotes, current) == None
    decreases |s|
  {
    if s != [] {
      hide Token, Escape, Escaped;
      EscapedFirst(s);
      EscapeIsRead(s[0], Escaped(s[1..]), current);
      UnclosedIsRefused(s[1..], current + [s[0]]);
    }
  }

  lemma EscapedFirst(s: Bytes)
    requires s != []
    ensures Escaped(s) == Escape(s[0]) + Escaped(s[1..])
  {}

  /** Within single quotes only a single quote is escaped. */
  function SingleEscaped(s: Bytes): Bytes {
    if s == [] then [] else (if s[0] == '\'' then "\\'" else [s[0]]) + SingleEscaped(s[1..])
  }

  /** A text in single quotes is read as it is, unless it has a NUL, or ends in a backslash, which would escape
      the closing quote. */
  lemma {:induction false} SingleQuotedIsRead(s: Bytes, rest: Bytes, current: Bytes)
    requires '\0' !in s && (s != [] ==> s[|s| - 1] != '\\')
    ensures
      Token(SingleEscaped(s) + "'" + rest, InSingleQuotes, current)
        == if TokenMayEnd(At(rest, 0)) then Some((current + s, rest)) else None
    decreases |s|
  {
    var closing: Bytes := "'";
    var left := SingleEscaped(s) + closing + rest;
    if s == [] {
      assert left == closing + rest && left[1..] == rest && At(left, 1) == At(rest, 0);
      assert current + s == current;
    } else {
      var e: Bytes := if s[0] == '\'' then "\\'" else [s[0]];
      var more := SingleEscaped(s[1..]) + closing + rest;
      assert left == e + more && left[|e|..] == more;
      SingleQuotedIsRead(s[1..], rest, current + [s[0]]);
      assert current + [s[0]] + s[1..] == current + s;
      assert s[0] == '\\' ==> s[1..] != [] && At(left, 1) == At(more, 0) != '\'';
    }
  }

  /** Bytes of which none ends a word or opens a quote. */
  predicate IsWord(s: Bytes) {
    forall i :: 0 <= i < |s| ==> !EndsPlain(s[i]) && s[i] != '"' && s[i] != '\''
  }

  /** A word without quotes goes as far as the next blank or the end of the line. */
  lemma {:induction false} WordIsRead(s: Bytes, rest: Bytes, current: Bytes)
    requires IsWord(s) && EndsPlain(At(rest, 0))
    ensures
      Token(s + rest, Plain, current) == Some((current + s, if At(rest, 0) == '\0' then rest else rest[1..]))
    decreases |s|
  {
    if s == [] {
      assert s + rest == rest && current + s == current;
    } else {
      assert (s + rest)[1..] == s[1..] + rest;
      WordIsRead(s[1..], rest, current + [s[0]]);
      assert current + [s[0]] + s[1..] == current + s;
    }
  }

  predicate Blank(s: Bytes) { forall i :: 0 <= i < |s| ==> IsSpace(s[i]) }

  lemma {:induction false} BlanksAreSkipped(gap: Bytes, rest: Bytes)
    requires Blank(gap) && !IsSpace(At(rest, 0))
    ensures SkipBlanks(gap + rest) == rest
  {
    if gap == [] {
      assert gap + rest == rest;
    } else {
      assert (gap + rest)[1..] == gap[1..] + rest;
      BlanksAreSkipped(gap[1..], rest);
    }
  }

  /** Quoted arguments with blanks between and around them. */
  function Spread(args: seq<Bytes>, gaps: seq<Bytes>): Bytes
    requires |gaps| == |args| + 1
  {
    gaps[0] + if args == [] then [] else Quoted(args[0]) + Spread(args[1..], gaps[1..])
  }

  /** Blanks everywhere, and at least one between two arguments. */
  predicate Separates(gaps: seq<Bytes>) {
    && (forall i :: 0 <= i < |gaps| ==> Blank(gaps[i]))
    && forall i :: 0 < i < |gaps| - 1 ==> gaps[i] != []
  }

  lemma SpreadBegins(args: seq<Bytes>, gaps: seq<Bytes>)
    requires |gaps| == |args| + 1 && Separates(gaps) && (args != [] ==> gaps[0] != [])
    ensures TokenMayEnd(At(Spread(args, gaps), 0))
  {
    if gaps[0] != [] {
      assert Spread(args, gaps)[0] == gaps[0][0];
    } else {
      assert Spread(args, gaps) == [];
    }
  }

  /** Splitting gives back exactly the arguments that were quoted, whatever bytes they hold. */
  lemma {:induction false} QuoteSplitRoundTrip(args: seq<Bytes>, gaps: seq<Bytes>)
    requires |gaps| == |args| + 1 && Separates(gaps)
    ensures Split(Spread(args, gaps)) == Some(args)
    decreases |args|
  {
    if args == [] {
      assert gaps[0] + [] == gaps[0];
      BlanksAreSkipped(gaps[0], []);
    } else {
      var rest := Spread(args[1..], gaps[1..]);
      var start := Quoted(args[0]) + rest;
      assert start[0] == '"';
      BlanksAreSkipped(gaps[0], start);
      forall i | 0 <= i < |gaps[1..]| ensures Blank(gaps[1..][i]) && (0 < i < |gaps[1..]| - 1 ==> gaps[1..][i] != []) {
        assert gaps[1..][i] == gaps[i + 1];
      }
      SpreadBegins(args[1..], gaps[1..]);
      QuotedIsRead(args[0], rest);
      QuoteSplitRoundTrip(args[1..], gaps[1..]);
      hide Token, Quoted, Spread, Blank;
      assert Spread(args, gaps) == gaps[0] + start;
      assert [args[0]] + args[1..] == args;
    }
  }

  /** Quotes that are not closed, or that run into what follows, spoil the whole line. */
  lemma BadQuotesAreRefused(gap: Bytes, s: Bytes, rest: Bytes)
    requires Blank(gap)
    ensures Split(gap + ("\"" + Escaped(s))) == None
    ensures !TokenMayEnd(At(rest, 0)) ==> Split(gap + (Quoted(s) + rest)) == None
  {
    var open: Bytes := "\"" + Escaped(s);
    assert open[0] == '"' && open[1..] == Escaped(s);
    assert (Quoted(s) + rest)[0] == '"';
    BlanksAreSkipped(gap, open);
    BlanksAreSkipped(gap, Quoted(s) + rest);
    UnclosedIsRefused(s, []);
    QuotedIsRead(s, rest);
    hide Escaped, Quoted, Blank, SkipBlanks;
    assert Token(open, Plain, []) == Token(open[1..], InQuotes, []);
  }

  function Joined(args: seq<Bytes>): Bytes {
    if args == [] then [] else if |args| == 1 then Quoted(args[0]) else Quoted(args[0]) + " " + Joined(args[1..])
  }

  function Gaps(n: nat, first: Bytes): (gaps: seq<Bytes>)
    ensures |gaps| == n + 1 && gaps[0] == first
    ensures forall i :: 0 < i <= n ==> gaps[i] == if i < n then " " else ""
  {
    [first] + if n == 0 then [] else Gaps(n - 1, if n == 1 then "" else " ")
  }

  lemma SpreadFirst(args: seq<Bytes>, gaps: seq<Bytes>, rest: Bytes)
    requires |gaps| == |args| + 1 && args != [] && rest == Spread(args[1..], gaps[1..])
    ensures Spread(args, gaps) == gaps[0] + (Quoted(args[0]) + rest)
  {
    hide Quoted;
  }

  lemma {:induction false} JoinedIsSpread(args: seq<Bytes>, first: Bytes)
    ensures Spread(args, Gaps(|args|, first)) == first + Joined(args)
    decreases |args|
  {
    if args != [] {
      var next: Bytes := if |args| == 1 then "" else " ";
      JoinedIsSpread(args[1..], next);
      assert Gaps(|args|, first)[1..] == Gaps(|args| - 1, next);
      SpreadFirst(args, Gaps(|args|, first), next + Joined(args[1..]));
      JoinedFirst(args, next);
      hide Spread, Quoted, Joined, Gaps;
    }
  }

  lemma JoinedFirst(args: seq<Bytes>, next: Bytes)
    requires args != [] && next == if |args| == 1 then "" else " "
    ensures Quoted(args[0]) + (next + Joined(args[1..])) == Joined(args)
  {
    hide Quoted;
    var q, more := Quoted(args[0]), Joined(args[1..]);
    if |args| == 1 { assert args[1..] == [] && q + (next + more) == q; } else { assert q + (next + more) == q + next + more; }
  }

  /** In particular with single spaces between them. */
  lemma JoinedRoundTrip(args: seq<Bytes>)
    ensures Split(Joined(args)) == Some(args)
  {
    JoinedIsSpread(args, []);
    assert [] + Joined(args) == Joined(args);
    hide Split, Spread, Joined;
    QuoteSplitRoundTrip(args, Gaps(|args|, []));
  }

  // ---- as it works ----

  method Sdscatrepr(s: Bytes, p: Bytes) returns (r: Bytes)
    ensures r == s + Quoted(p)
  {
    hide Escape;
    r := s + "\"";
    var i := 0;
    while i < |p|
      invariant i <= |p| && r + Escaped(p[i..]) == s + "\"" + Escaped(p)
    {
      assert p[i..][0] == p[i] && p[i..][1..] == p[i + 1..];
      assert r + Escaped(p[i..]) == (r + Escape(p[i])) + Escaped(p[i + 1..]);
      r := r + Escape(p[i]);
      i := i + 1;
    }
    assert r == s + "\"" + Escaped(p);
    r := r + "\"";
    assert s + "\"" + Escaped(p) + "\"" == s + Quoted(p);
  }

  function ModeOf(inq: bool, insq: bool): Mode {
    if inq then InQuotes else if insq then InSingleQuotes else Plain
  }

  lemma AtOffset(line: Bytes, p: nat, i: nat)
    requires p <= |line|
    ensures At(line[p..], i) == At(line, p + i)
    ensures p + i <= |line| ==> line[p..][i..] == line[p + i..]
  {}

  /** One token from p on: what it is and where it ends. None if the quotes are wrong. */
  method ScanToken(line: Bytes, start: nat) returns (token: Option<Bytes>, p: nat)
    requires start <= |line|
    ensures p <= |line|
    ensures
      match Token(line[start..], Plain, [])
      case None => token.None?
      case Some((t, rest)) => token == Some(t) && line[p..] == rest
  {
    hide IsSpace, IsHexDigit, HexDigitToInt, Unescape, At;
    var inq, insq, done := false, false, false;
    var current: Bytes := [];
    p := start;
    ghost var goal := Token(line[start..], Plain, []);
    while !done
      invariant p <= |line|
      invariant if done then goal == Some((current, line[p..])) else Token(line[p..], ModeOf(inq, insq), current) == goal
      decreases !done, |line| - p
    {
      AtOffset(line, p, 0); AtOffset(line, p, 1); AtOffset(line, p, 2); AtOffset(line, p, 3);
      AtOffset(line, p, 4);
      Beyond(line, p);
      var c, next := At(line, p), At(line, p + 1);
      if inq {
        if c == '\\' && next == 'x' && IsHexDigit(At(line, p + 2)) && IsHexDigit(At(line, p + 3)) {
          current := current + [(HexDigitToInt(At(line, p + 2)) * 16 + HexDigitToInt(At(line, p + 3))) as char];
          p := p + 3;
        } else if c == '\\' && next != '\0' {
          p := p + 1;
          current := current + [Unescape(next)];
        } else if c == '"' {
          if next != '\0' && !IsSpace(next) { return None, p; }
          done := true;
        } else if c == '\0' {
          return None, p;
        } else {
          current := current + [c];
        }
      } else if insq {
        if c == '\\' && next == '\'' {
          p := p + 1;
          current := current + ['\''];
        } else if c == '\'' {
          if next != '\0' && !IsSpace(next) { return None, p; }
          done := true;
        } else if c == '\0' {
          return None, p;
        } else {
          current := current + [c];
        }
      } else {
        if c == ' ' || c == '\n' || c == '\r' || c == '\t' || c == '\0' {
          done := true;
        } else if c == '"' {
          inq := true;
        } else if c == '\'' {
          insq := true;
        } else {
          current := current + [c];
        }
      }
      if c != '\0' { p := p + 1; }
    }
    return Some(current), p;
  }

  /** What is not a NUL lies within the line. */
  lemma Beyond(line: Bytes, p: nat)
    ensures At(line, p) != '\0' ==> p < |line|
    ensures At(line, p + 1) != '\0' ==> p + 1 < |line|
    ensures IsHexDigit(At(line, p + 3)) ==> p + 3 < |line|
  {}

  method Sdssplitargs(line: Bytes) returns (vector: Option<seq<Bytes>>)
    ensures vector == Split(line)
  {
    hide IsSpace, Token;
    var args: seq<Bytes> := [];
    var p := 0;
    assert line[0..] == line;
    assert Prepended([], Split(line)) == Split(line) by { if Split(line).Some? { assert [] + Split(line).value == Split(line).value; } }
    while true
      invariant p <= |line| && Prepended(args, Split(line[p..])) == Split(line)
      decreases |line| - p
    {
      ghost var before := line[p..];
      while p < |line| && IsSpace(line[p])
        invariant p <= |line| && |line[p..]| <= |before| && SkipBlanks(line[p..]) == SkipBlanks(before)
        decreases |line| - p
      {
        assert line[p..][1..] == line[p + 1..];
        p := p + 1;
      }
      assert SkipBlanks(before) == line[p..];
      if p == |line| || line[p] == '\0' {
        assert args + [] == args;
        return Some(args);
      }
      ghost var start := line[p..];
      var token: Option<Bytes>;
      token, p := ScanToken(line, p);
      if token.None? { return None; }
      PrependedTwice(args, token.value, Split(line[p..]));
      args := args + [token.value];
    }
  }

  lemma PrependedTwice(args: seq<Bytes>, token: Bytes, r: Option<seq<Bytes>>)
    ensures Prepended(args, Prepended([token], r)) == Prepended(args + [token], r)
  {
    if r.Some? { assert args + ([token] + r.value) == args + [token] + r.value; }
  }
}
