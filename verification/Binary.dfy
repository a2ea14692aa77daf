/** Big-endian 64-bit integers and length-prefixed strings: the cursor that writes them into a buffer
    of known size, and the one that reads them back. */
module Binary {
  import opened Common

  function Pow256(n: nat): (p: nat)
    ensures 0 < p
  {
    if n == 0 then 1 else 256 * Pow256(n - 1)
  }

  lemma EightBytesAreEnough()
    ensures Pow256(8) == TWO_64
  {
    assert Pow256(4) == 0x1_0000_0000;
    assert Pow256(8) == 256 * 256 * 256 * 256 * Pow256(4);
  }

  /** The n low bytes of u, most significant first. */
  function BigEndian(u: nat, n: nat): (b: Bytes)
    ensures |b| == n
    decreases n
  {
    if n == 0 then [] else BigEndian(u / 256, n - 1) + [(u % 256) as char]
  }

  function Number(b: Bytes): nat {
    if b == [] then 0 else 256 * Number(b[..|b| - 1]) + b[|b| - 1] as nat
  }

  lemma {:induction false} NumberOfBigEndian(u: nat, n: nat)
    requires u < Pow256(n)
    ensures Number(BigEndian(u, n)) == u
    decreases n
  {
    if n > 0 {
      NumberOfBigEndian(u / 256, n - 1);
      assert BigEndian(u, n)[..n - 1] == BigEndian(u / 256, n - 1);
    }
  }

  lemma {:induction false} BigEndianOfNumber(b: Bytes)
    ensures Number(b) < Pow256(|b|) && BigEndian(Number(b), |b|) == b
  {
    if b != [] {
      var init := b[..|b| - 1];
      BigEndianOfNumber(init);
      assert Number(b) / 256 == Number(init) && Number(b) % 256 == b[|b| - 1] as nat;
      assert b == init + [b[|b| - 1]];
    }
  }

  /** Two's complement. */
  function Signed(u: nat): int {
    if u <= INT64_MAX then u else u - TWO_64
  }

  lemma SignedIsModulo(u: nat)
    requires u < TWO_64
    ensures IsInt64(Signed(u)) && Signed(u) % TWO_64 == u % TWO_64 == u
  {
    if u > INT64_MAX { assert Signed(u) == -1 * TWO_64 + u; }
  }

  function Int64Bytes(num: int): (b: Bytes)
    ensures |b| == 8
  {
    BigEndian(num % TWO_64, 8)
  }

  function Int64From(b: Bytes): int {
    Signed(Number(b))
  }

  lemma Int64ThereAndBack(num: int)
    requires IsInt64(num)
    ensures Int64From(Int64Bytes(num)) == num
  {
    EightBytesAreEnough();
    NumberOfBigEndian(num % TWO_64, 8);
  }

  lemma Int64BackAndThere(b: Bytes)
    requires |b| == 8
    ensures IsInt64(Int64From(b)) && Int64Bytes(Int64From(b)) == b && Int64From(b) % TWO_64 == Number(b)
  {
    EightBytesAreEnough();
    BigEndianOfNumber(b);
    hide Pow256, BigEndian, Number, Signed;
    SignedIsModulo(Number(b));
  }

  function StringBytes(s: Bytes): (b: Bytes)
    ensures |b| == 8 + |s|
  {
    Int64Bytes(|s|) + s
  }

  // ---- reading, as a function of the bytes that are left ----

  function TakeInt64(left: Bytes): Option<(int, Bytes)> {
    if |left| < 8 then None else Some((Int64From(left[..8]), left[8..]))
  }

  function TakeRaw(left: Bytes, size: nat): Option<(Bytes, Bytes)> {
    if |left| < size then None else Some((left[..size], left[size..]))
  }

  /** The length is read as a signed number but used as an unsigned one. */
  function TakeString(left: Bytes): (r: Option<(Bytes, Bytes)>)
    ensures r.Some? ==> |r.value.1| < |left|
  {
    match TakeInt64(left)
    case None => None
    case Some((size, rest)) => TakeRaw(rest, size % TWO_64)
  }

  lemma TakeInt64Iff(left: Bytes, num: int, rest: Bytes)
    ensures TakeInt64(left) == Some((num, rest)) <==> IsInt64(num) && left == Int64Bytes(num) + rest
  {
    if TakeInt64(left) == Some((num, rest)) {
      Int64BackAndThere(left[..8]);
      assert left == left[..8] + left[8..];
    }
    if IsInt64(num) && left == Int64Bytes(num) + rest {
      Int64ThereAndBack(num);
      assert left[..8] == Int64Bytes(num) && left[8..] == rest;
    }
  }

  lemma TakeStringIff(left: Bytes, s: Bytes, rest: Bytes)
    ensures TakeString(left) == Some((s, rest)) <==> |s| < TWO_64 && left == StringBytes(s) + rest
  {
    hide BigEndian, Number;
    if TakeString(left) == Some((s, rest)) {
      Int64BackAndThere(left[..8]);
      assert left[8..] == s + rest;
      LengthIsItsNumber(left[..8], |s|);
      assert left == left[..8] + left[8..] == Int64Bytes(|s|) + (s + rest) == StringBytes(s) + rest;
    }
    if |s| < TWO_64 && left == StringBytes(s) + rest {
      assert left[..8] == Int64Bytes(|s|) && left[8..] == s + rest;
      LengthIsRead(|s|);
      assert (s + rest)[..|s|] == s && (s + rest)[|s|..] == rest;
    }
  }

  lemma LengthIsItsNumber(b: Bytes, n: nat)
    requires |b| == 8 && Int64From(b) % TWO_64 == n
    ensures n < TWO_64 && b == Int64Bytes(n)
  {
    hide Int64Bytes, Int64From;
    Int64BackAndThere(b);
    EightBytesAreEnough();
    BigEndianOfNumber(b);
    SignedIsModulo(Number(b));
    NumberIsLength(b, n);
  }

  lemma NumberIsLength(b: Bytes, n: nat)
    requires |b| == 8 && Number(b) == n < TWO_64
    ensures b == Int64Bytes(n)
  {
    hide Number;
    BigEndianOfNumber(b);
    SignedIsModulo(n);
  }

  lemma LengthIsRead(n: nat)
    requires n < TWO_64
    ensures Int64From(Int64Bytes(n)) % TWO_64 == n
  {
    EightBytesAreEnough();
    NumberOfBigEndian(n, 8);
    hide Pow256, BigEndian, Number, Signed;
    SignedIsModulo(n);
  }

  // ---- the cursors ----

  class BinarySerializer {
    const target: array<Byte>
    var currentPosition: nat

    ghost predicate Valid()
      reads this
    {
      currentPosition <= target.Length
    }

    ghost function Written(): Bytes
      reads this, target
      requires Valid()
    {
      target[..currentPosition]
    }

    constructor (size: nat)
      ensures Valid() && fresh(target) && target.Length == size && Written() == [] && currentPosition == 0
    {
      target := new Byte[size];
      currentPosition := 0;
    }

    method AppendBytes(source: Bytes)
      requires Valid() && currentPosition + |source| <= target.Length
      modifies this, target
      ensures Valid() && Written() == old(Written()) + source && currentPosition == old(currentPosition) + |source|
    {
      forall i | 0 <= i < |source| { target[currentPosition + i] := source[i]; }
      currentPosition := currentPosition + |source|;
    }

    method AppendInt64(num: int)
      requires Valid() && currentPosition + 8 <= target.Length
      modifies this, target
      ensures Valid() && Written() == old(Written()) + Int64Bytes(num) && currentPosition == old(currentPosition) + 8
    {
      AppendBytes(Int64Bytes(num));
    }

    method AppendString(s: Bytes)
      requires Valid() && currentPosition + 8 + |s| <= target.Length
      modifies this, target
      ensures Valid() && Written() == old(Written()) + StringBytes(s) && currentPosition == old(currentPosition) + 8 + |s|
    {
      AppendInt64(|s|);
      AppendBytes(s);
    }

    function GetRemaining(): int
      reads this
    {
      target.Length - currentPosition
    }
  }

  class BinaryDeserializer {
    const source: Bytes
    var currentPosition: nat

    ghost predicate Valid()
      reads this
    {
      currentPosition <= |source|
    }

    ghost function Left(): Bytes
      reads this
      requires Valid()
    {
      source[currentPosition..]
    }

    constructor (source: Bytes)
      ensures Valid() && Left() == source && this.source == source
    {
      this.source := source;
      currentPosition := 0;
    }

    predicate CanConsume(b: nat)
      reads this
    {
      |source| - currentPosition >= b
    }

    function BytesLeft(): int
      reads this
    {
      |source| - currentPosition
    }

    method ConsumeInt64() returns (num: Option<int>)
      requires Valid()
      modifies this
      ensures Valid()
      ensures
        match TakeInt64(old(Left()))
        case None => num == None && Left() == old(Left())
        case Some((n, rest)) => num == Some(n) && Left() == rest
    {
      if !CanConsume(8) { return None; }
      assert Left()[..8] == source[currentPosition..currentPosition + 8];
      num := Some(Int64From(source[currentPosition..currentPosition + 8]));
      currentPosition := currentPosition + 8;
    }

    method ConsumeRawBytes(size: nat) returns (bytes: Option<Bytes>)
      requires Valid()
      modifies this
      ensures Valid()
      ensures
        match TakeRaw(old(Left()), size)
        case None => bytes == None && Left() == old(Left())
        case Some((b, rest)) => bytes == Some(b) && Left() == rest
    {
      if !CanConsume(size) { return None; }
      assert Left()[..size] == source[currentPosition..currentPosition + size];
      bytes := Some(source[currentPosition..currentPosition + size]);
      currentPosition := currentPosition + size;
    }

    /** After a failure the length may have been consumed all the same. */
    method ConsumeString() returns (bytes: Option<Bytes>)
      requires Valid()
      modifies this
      ensures Valid()
      ensures
        match TakeString(old(Left()))
        case None => bytes == None
        case Some((b, rest)) => bytes == Some(b) && Left() == rest
    {
      var size := ConsumeInt64();
      if size.None? { return None; }
      bytes := ConsumeRawBytes(size.value % TWO_64);
    }
  }
}
