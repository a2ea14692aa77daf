/** Decimal text of 64-bit integers: string2ll of the reader, and its inverse sdsll2str. */
module Decimal {
  import opened Common

  predicate IsDigit(c: char) { '0' <= c <= '9' }

  predicate AllDigits(s: string) { forall i :: 0 <= i < |s| ==> IsDigit(s[i]) }

  function DigitOf(c: char): (d: nat)
    requires IsDigit(c)
    ensures d < 10
  { c as int - '0' as int }

  function CharOf(d: nat): (c: char)
    requires d < 10
    ensures IsDigit(c) && DigitOf(c) == d
  { (d + '0' as int) as char }

  /** The number that a run of digits denotes. */
  function Value(s: string): nat
    requires AllDigits(s)
  {
    if s == [] then 0 else 10 * Value(s[..|s|-1]) + DigitOf(s[|s|-1])
  }

  /** The digits of n, most significant first, without leading zeros. */
  function Digits(n: nat): (s: string)
    ensures |s| > 0 && AllDigits(s)
    ensures s[0] == '0' <==> n == 0
  {
    if n < 10 then [CharOf(n)] else Digits(n / 10) + [CharOf(n % 10)]
  }

  /** The canonical decimal text of n. */
  function Text(n: int): string {
    if n < 0 then "-" + Digits(-n) else Digits(n)
  }

  lemma {:induction false} ValueOfDigits(n: nat)
    ensures Value(Digits(n)) == n
  {
    if n >= 10 {
      ValueOfDigits(n / 10);
      assert Digits(n)[..|Digits(n)|-1] == Digits(n / 10);
    }
  }

  /** Digits are the only text without a leading zero that denotes their value. */
  lemma {:induction false} DigitsOfValue(s: string)
    requires |s| > 0 && AllDigits(s) && (s[0] == '0' ==> |s| == 1)
    ensures Digits(Value(s)) == s
  {
    if |s| == 1 {
      assert Value(s[..0]) == 0;
    } else {
      var t := s[..|s|-1];
      DigitsOfValue(t);
      ValuePositive(t);
      assert Value(s) / 10 == Value(t) && Value(s) % 10 == DigitOf(s[|s|-1]);
      assert s == t + [s[|s|-1]];
    }
  }

  lemma {:induction false} ValuePositive(s: string)
    requires |s| > 0 && AllDigits(s) && s[0] != '0'
    ensures Value(s) > 0
  {
    if |s| > 1 { ValuePositive(s[..|s|-1]); } else { assert s[..0] == []; }
  }

  lemma {:induction false} ValueMonotone(s: string, k: nat)
    requires k <= |s| && AllDigits(s)
    ensures Value(s[..k]) <= Value(s)
    decreases |s|
  {
    if k == |s| {
      assert s[..k] == s;
    } else {
      ValueMonotone(s[..|s|-1], k);
      assert s[..|s|-1][..k] == s[..k];
    }
  }

  function Body(s: string): string {
    if s != "" && s[0] == '-' then s[1..] else s
  }

  predicate Canonical(s: string) {
    var b := Body(s);
    b != "" && AllDigits(b) && (b[0] == '0' ==> s == "0")
  }

  function SignedValue(s: string): int
    requires AllDigits(Body(s))
  {
    var v: int := Value(Body(s));
    if Body(s) != s then -v else v
  }

  lemma {:induction false} TextIsCanonical(n: int)
    ensures Canonical(Text(n)) && SignedValue(Text(n)) == n
  {
    ValueOfDigits(if n < 0 then -n else n);
    if n < 0 {
      assert Text(n)[1..] == Digits(-n);
    } else {
      assert IsDigit(Digits(n)[0]);
      if n == 0 { assert Digits(0) == "0"; }
    }
  }

  lemma {:induction false} CanonicalIsText(s: string)
    requires Canonical(s)
    ensures Text(SignedValue(s)) == s
  {
    var b := Body(s);
    DigitsOfValue(b);
    if b != s {
      ValuePositive(b);
      assert s == "-" + b;
    }
  }

  /** The 64-bit integer whose canonical text is s, if there is one. */
  function Int64Of(s: string): Option<int> {
    if Canonical(s) && IsInt64(SignedValue(s)) then Some(SignedValue(s)) else None
  }

  /** string2ll accepts exactly the canonical texts of 64-bit integers. */
  lemma {:induction false} Int64OfIffText(s: string, n: int)
    ensures Int64Of(s) == Some(n) <==> IsInt64(n) && s == Text(n)
  {
    if IsInt64(n) && s == Text(n) { TextIsCanonical(n); }
    if Int64Of(s) == Some(n) { CanonicalIsText(s); }
  }

  /** The reader's string2ll. The accumulator is an unsigned 64-bit integer: both guards of the
      loop keep it within range, so no step wraps. */
  method String2ll(s: string) returns (r: Option<int>)
    ensures r == Int64Of(s)
  {
    if |s| == 0 { return None; }
    if |s| == 1 && s[0] == '0' {
      assert Value(s[..0]) == 0;
      return Some(0);
    }
    var negative, plen := false, 0;
    if s[0] == '-' {
      negative, plen := true, 1;
      if plen == |s| { return None; }
    }
    ghost var b := Body(s);
    ghost var start := plen;
    assert b == s[start..];
    if !('1' <= s[plen] <= '9') {
      return None;
    }
    var v: int := DigitOf(s[plen]);
    plen := plen + 1;
    FirstDigit(b);
    while plen < |s| && IsDigit(s[plen])
      invariant start < plen <= |s|
      invariant AllDigits(b[..plen - start]) && v == Value(b[..plen - start])
      invariant 0 <= v <= UINT64_MAX
    {
      NextDigit(b, plen - start);
      var d := DigitOf(s[plen]);
      if v > UINT64_MAX / 10 { return None; }
      v := v * 10;
      if v > UINT64_MAX - d { return None; }
      v := v + d;
      plen := plen + 1;
    }
    if plen < |s| {
      assert !IsDigit(b[plen - start]);
      return None;
    }
    assert b[..plen - start] == b;
    if negative {
      if v > -INT64_MIN { return None; }
      return Some(-v);
    }
    if v > INT64_MAX { return None; }
    return Some(v);
  }

  lemma FirstDigit(b: string)
    requires |b| > 0 && IsDigit(b[0])
    ensures AllDigits(b[..1]) && Value(b[..1]) == DigitOf(b[0])
  {
    assert b[..1] == [b[0]] && [b[0]][..0] == [];
  }

  /** One more digit: the value of the longer prefix, and a bound by the value of the whole. */
  lemma NextDigit(b: string, k: nat)
    requires k < |b| && AllDigits(b[..k]) && IsDigit(b[k])
    ensures AllDigits(b[..k + 1]) && Value(b[..k + 1]) == 10 * Value(b[..k]) + DigitOf(b[k])
    ensures AllDigits(b) ==> Value(b[..k + 1]) <= Value(b)
  {
    assert b[..k + 1][..k] == b[..k];
    assert b[..k + 1] == b[..k] + [b[k]];
    if AllDigits(b) { ValueMonotone(b, k + 1); }
  }

  function Mirror(t: string): (m: string)
    ensures |m| == |t| && forall i :: 0 <= i < |t| ==> m[i] == t[|t| - 1 - i]
  {
    seq(|t|, i requires 0 <= i < |t| => t[|t| - 1 - i])
  }

  function Pow10(k: nat): nat { if k == 0 then 1 else 10 * Pow10(k - 1) }

  lemma {:induction false} DigitsLength(n: nat, k: nat)
    requires 1 <= k && n < Pow10(k)
    ensures |Digits(n)| <= k
  {
    if n >= 10 { DigitsLength(n / 10, k - 1); }
  }

  lemma Int64HasAtMost19Digits(n: nat)
    requires n <= INT64_MAX
    ensures |Digits(n)| <= 19
  {
    assert Pow10(3) == 1_000 && Pow10(6) == 1_000_000 && Pow10(9) == 1_000_000_000;
    assert Pow10(12) == 1_000_000_000_000 && Pow10(15) == 1_000_000_000_000_000;
    assert Pow10(18) == 1_000_000_000_000_000_000;
    DigitsLength(n, 19);
  }

  /** What is still to be written before the already written (reversed) low digits. */
  function DigitsOrEmpty(v: nat): string { if v == 0 then "" else Digits(v) }

  /** sdsll2str writes the digits and the sign backwards, then reverses the buffer in place. */
  method Sdsll2str(s: array<char>, value: int) returns (l: nat)
    requires INT64_MIN < value <= INT64_MAX
    requires s.Length >= 21
    modifies s
    ensures l < s.Length && s[..l] == Text(value) && s[l] == '\0'
    ensures s[l + 1..] == old(s[l + 1..])
  {
    var p := WriteBackwards(s, if value < 0 then -value else value);
    ghost var low := s[..p];
    if value < 0 {
      s[p] := '-';
      p := p + 1;
      assert s[..p] == low + "-";
      assert Mirror(s[..p]) == "-" + Mirror(low);
    }
    l := p;
    s[p] := '\0';
    ReverseInPlace(s, l);
  }

  lemma MirrorSnoc(written: string, c: char)
    ensures Mirror(written + [c]) == [c] + Mirror(written)
  {}

  lemma LastDigit(v: nat)
    ensures Digits(v) == DigitsOrEmpty(v / 10) + [CharOf(v % 10)]
  {}

  /** Writing the last digit of v takes it from what is still to be written. */
  lemma DigitMoves(v: nat, written: string)
    ensures v != 0 ==> DigitsOrEmpty(v) + Mirror(written) == DigitsOrEmpty(v / 10) + Mirror(written + [CharOf(v % 10)])
    ensures v != 0 ==> |DigitsOrEmpty(v / 10)| + 1 == |DigitsOrEmpty(v)|
    ensures written == [] ==> Digits(v) == DigitsOrEmpty(v / 10) + Mirror(written + [CharOf(v % 10)])
    ensures DigitsOrEmpty(0) == ""
  {
    LastDigit(v);
    MirrorSnoc(written, CharOf(v % 10));
    hide Digits, Mirror, CharOf;
    var a, c := DigitsOrEmpty(v / 10), CharOf(v % 10);
    assert a + [c] + Mirror(written) == a + ([c] + Mirror(written));
    if written == [] { assert [c] + Mirror(written) == [c]; }
  }

  method WriteBackwards(s: array<char>, n: nat) returns (p: nat)
    requires n <= INT64_MAX && s.Length >= 21
    modifies s
    ensures 1 <= p <= 19 && Mirror(s[..p]) == Digits(n)
    ensures forall i :: p <= i < s.Length ==> s[i] == old(s[i])
  {
    Int64HasAtMost19Digits(n);
    DigitMoves(n, []);
    hide Digits, DigitsOrEmpty, Mirror;
    s[0] := CharOf(n % 10);
    var v: nat := n / 10;
    p := 1;
    assert s[..p] == [] + [s[0]];
    while v != 0
      invariant 1 <= p
      invariant p + |DigitsOrEmpty(v)| <= 19
      invariant Digits(n) == DigitsOrEmpty(v) + Mirror(s[..p])
      invariant forall i :: p <= i < s.Length ==> s[i] == old(s[i])
    {
      ghost var before, c := s[..p], CharOf(v % 10);
      DigitMoves(v, before);
      s[p] := CharOf(v % 10);
      assert s[..p + 1] == before + [c];
      v := v / 10;
      p := p + 1;
    }
  }

  method ReverseInPlace(a: array<char>, l: nat)
    requires l <= a.Length
    modifies a
    ensures a[..l] == Mirror(old(a[..l])) && a[l..] == old(a[l..])
  {
    var s, p := 0, l - 1;
    while s < p
      invariant 0 <= s && s + p == l - 1 && s <= p + 2
      invariant forall i :: 0 <= i < a.Length ==>
        a[i] == if i < s || p < i < l then old(a[l - 1 - i]) else old(a[i])
    {
      var aux := a[s];
      a[s] := a[p];
      a[p] := aux;
      s, p := s + 1, p - 1;
    }
  }
}
