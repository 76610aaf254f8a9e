/**
 Bytes, big-endian fields, and the two failure-carrying datatypes the other modules share.
 */
module Bytes {

  type byte = x: int | 0 <= x < 0x100

  datatype Option<+T> = None | Some(value: T)

  datatype Result<+T, +E> = Ok(value: T) | Err(error: E) {
    predicate IsFailure() { Err? }
    function PropagateFailure<U>(): Result<U, E> requires Err? { Err(error) }
    function Extract(): T requires Ok? { value }
  }

  const U32 := 0x1_0000_0000
  const U64 := 0x1_0000_0000_0000_0000

  function Min(a: nat, b: nat): nat { if a < b then a else b }

  function Zeros(n: nat): (r: seq<byte>)
    ensures |r| == n && forall i :: 0 <= i < n ==> r[i] == 0
  {
    seq(n, _ => 0)
  }

  /** Re-associate two concatenations; sequences are otherwise compared element by element. */
  lemma Assoc(a: seq<byte>, b: seq<byte>, c: seq<byte>)
    ensures (a + b) + c == a + (b + c)
  {
  }

  /** 256^n, the number of values an n-byte field can hold. */
  function Pow256(n: nat): (r: nat)
    ensures r > 0
  {
    if n == 0 then 1 else 0x100 * Pow256(n - 1)
  }

  lemma Pow256Values()
    ensures Pow256(1) == 0x100 && Pow256(2) == 0x1_0000 && Pow256(3) == 0x100_0000
    ensures Pow256(4) == 0x1_0000_0000 && Pow256(7) == 0x100_0000_0000_0000
    ensures Pow256(8) == 0x1_0000_0000_0000_0000
  {
    assert Pow256(3) == 0x100 * Pow256(2);
    assert Pow256(5) == 0x100 * Pow256(4);
    assert Pow256(7) == 0x100 * Pow256(6);
  }

  /** The low n bytes of v, most significant first (a truncating cast followed by `to_be_bytes`). */
  function BigEndian(v: nat, n: nat): (r: seq<byte>)
    ensures |r| == n
  {
    if n == 0 then [] else BigEndian(v / 0x100, n - 1) + [v % 0x100]
  }

  /** The value of a big-endian field: every byte shifts the accumulator left by eight bits. */
  function FromBigEndian(s: seq<byte>): nat {
    if s == [] then 0 else FromBigEndian(s[..|s| - 1]) * 0x100 + s[|s| - 1]
  }

  /** An n-byte field keeps exactly the value modulo 256^n. */
  lemma {:induction false} BigEndianValue(v: nat, n: nat)
    ensures FromBigEndian(BigEndian(v, n)) == v % Pow256(n)
  {
    if n > 0 {
      BigEndianValue(v / 0x100, n - 1);
      assert BigEndian(v, n)[..n - 1] == BigEndian(v / 0x100, n - 1);
      ModuloStep(v, Pow256(n - 1));
    }
  }

  lemma ModuloStep(v: nat, m: nat)
    requires m > 0
    ensures v % (0x100 * m) == (v / 0x100) % m * 0x100 + v % 0x100
  {
    var q, r := v / 0x100 / m, (v / 0x100) % m * 0x100 + v % 0x100;
    assert v / 0x100 == q * m + (v / 0x100) % m;
    assert v == 0x100 * (v / 0x100) + v % 0x100;
    assert v == q * (0x100 * m) + r;
    assert r < 0x100 * m;
    UniqueRemainder(v, 0x100 * m, q, r);
  }

  lemma UniqueRemainder(v: nat, m: nat, q: nat, r: nat)
    requires r < m && v == q * m + r
    ensures v % m == r
  {
    var d := v / m - q;
    assert v == (v / m) * m + v % m;
    assert d * m == r - v % m;
  }

  lemma BigEndianRoundTrip(v: nat, n: nat)
    requires v < Pow256(n)
    ensures FromBigEndian(BigEndian(v, n)) == v
  {
    BigEndianValue(v, n);
  }

  lemma {:induction false} FromBigEndianBound(s: seq<byte>)
    ensures FromBigEndian(s) < Pow256(|s|)
  {
    if s != [] {
      FromBigEndianBound(s[..|s| - 1]);
    }
  }

  /** Exclusive-or of the low n bits of two numbers. */
  function XorBits(a: nat, b: nat, n: nat): (r: nat) {
    if n == 0 then 0 else (if a % 2 == b % 2 then 0 else 1) + 2 * XorBits(a / 2, b / 2, n - 1)
  }

  function Pow2(n: nat): (r: nat)
    ensures r > 0
  {
    if n == 0 then 1 else 2 * Pow2(n - 1)
  }

  lemma {:induction false} XorBitsBound(a: nat, b: nat, n: nat)
    ensures XorBits(a, b, n) < Pow2(n)
  {
    if n > 0 { XorBitsBound(a / 2, b / 2, n - 1); }
  }

  /** Halving drops the last bit of both operands. */
  lemma {:induction false} XorBitsHalf(a: nat, b: nat, n: nat)
    requires n > 0
    ensures XorBits(a, b, n) / 2 == XorBits(a / 2, b / 2, n - 1)
    ensures XorBits(a, b, n) % 2 == (if a % 2 == b % 2 then 0 else 1)
  {
  }

  lemma {:induction false} XorBitsInvolutive(a: nat, b: nat, n: nat)
    requires a < Pow2(n)
    ensures XorBits(XorBits(a, b, n), b, n) == a
  {
    if n > 0 {
      XorBitsInvolutive(a / 2, b / 2, n - 1);
      XorBitsHalf(a, b, n);
      XorBitsHalf(XorBits(a, b, n), b, n);
    }
  }

  /** The low k bits of the result depend on the low k bits of the operands alone. */
  lemma {:induction false} XorBitsLow(a: nat, b: nat, n: nat, k: nat)
    requires k <= n
    ensures XorBits(a, b, n) % Pow2(k) == XorBits(a, b % Pow2(k), k)
  {
    if k > 0 {
      XorBitsLow(a / 2, b / 2, n - 1, k - 1);
      EvenModulus(b, Pow2(k - 1));
      EvenModulus(XorBits(a, b, n), Pow2(k - 1));
      XorBitsHalf(a, b, n);
    }
  }

  lemma EvenModulus(v: nat, m: nat)
    requires m > 0
    ensures (v % (2 * m)) / 2 == v / 2 % m && (v % (2 * m)) % 2 == v % 2
  {
    var q, r := v / 2 / m, v / 2 % m * 2 + v % 2;
    assert v / 2 == q * m + v / 2 % m;
    assert v == q * (2 * m) + r;
    UniqueRemainder(v, 2 * m, q, r);
  }

  lemma Pow2Of8()
    ensures Pow2(7) == 0x80 && Pow2(8) == 0x100
  {
    assert Pow2(4) == 16;
    assert Pow2(6) == 4 * Pow2(4);
  }

  /** `a ^ b` on bytes. */
  function Xor(a: byte, b: byte): (r: byte) {
    XorBitsBound(a, b, 8);
    Pow2Of8();
    XorBits(a, b, 8)
  }

  lemma XorInvolutive(a: byte, b: byte)
    ensures Xor(Xor(a, b), b) == a
  {
    Pow2Of8();
    XorBitsInvolutive(a, b, 8);
  }

  lemma {:induction false} XorBitsZero(a: nat, n: nat)
    requires a < Pow2(n)
    ensures XorBits(a, 0, n) == a
  {
    if n > 0 { XorBitsZero(a / 2, n - 1); }
  }

  lemma {:induction false} XorHighNibble(a: byte, m: byte)
    ensures XorBits(a, m, 8) / 0x10 == XorBits(a / 0x10, m / 0x10, 4)
  {
    XorBitsHalf(a, m, 8);
    XorBitsHalf(a / 2, m / 2, 7);
    XorBitsHalf(a / 2 / 2, m / 2 / 2, 6);
    XorBitsHalf(a / 2 / 2 / 2, m / 2 / 2 / 2, 5);
    assert a / 2 / 2 / 2 / 2 == a / 0x10 && m / 2 / 2 / 2 / 2 == m / 0x10;
  }

  /** A mask confined to the low nibble leaves the high nibble alone. */
  lemma {:induction false} XorLowNibble(a: byte, m: byte)
    requires m < 0x10
    ensures Xor(a, m) / 0x10 == a / 0x10
  {
    XorHighNibble(a, m);
    assert Pow2(4) == 16;
    XorBitsZero(a / 0x10, 4);
  }

  /** A mask confined to the low five bits leaves the high three alone. */
  lemma {:induction false} XorLowFive(a: byte, m: byte)
    requires m < 0x20
    ensures Xor(a, m) / 0x20 == a / 0x20
  {
    XorHighNibble(a, m);
    XorLowBit(a / 0x10, m / 0x10);
    SameHighBits(XorBits(a, m, 8), a);
  }

  lemma SameHighBits(x: nat, y: nat)
    requires x / 0x10 / 2 == y / 0x10 / 2
    ensures x / 0x20 == y / 0x20
  {
    HalfOfSixteenths(x);
    HalfOfSixteenths(y);
  }

  lemma HalfOfSixteenths(x: nat)
    ensures x / 0x20 == x / 0x10 / 2
  {
    var q, r := x / 0x20, x % 0x20;
    assert x / 0x10 == 2 * q + r / 0x10;
  }

  lemma {:induction false} XorLowBit(h: nat, m: nat)
    requires h < 0x10 && m < 2
    ensures XorBits(h, m, 4) / 2 == h / 2
  {
    XorBitsHalf(h, m, 4);
    assert Pow2(3) == 8;
    XorBitsZero(h / 2, 3);
  }
}
