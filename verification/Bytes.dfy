/** Machine integers as ranges of `int`, with the saturating operators, the byte orders and the
    bitwise operators the firmware uses. */
module Bytes {

  type u8 = x: int | 0 <= x < 0x100
  type i8 = x: int | -0x80 <= x < 0x80
  type u16 = x: int | 0 <= x < 0x1_0000
  type i16 = x: int | -0x8000 <= x < 0x8000
  type u32 = x: int | 0 <= x < 0x1_0000_0000
  type i32 = x: int | -0x8000_0000 <= x < 0x8000_0000
  type u64 = x: int | 0 <= x < 0x1_0000_0000_0000_0000
  type i64 = x: int | -0x8000_0000_0000_0000 <= x < 0x8000_0000_0000_0000

  const U32_MAX: u32 := 0xFFFF_FFFF
  const U64_MAX: u64 := 0xFFFF_FFFF_FFFF_FFFF
  const I64_MAX: i64 := 0x7FFF_FFFF_FFFF_FFFF
  const I64_MIN: i64 := -0x8000_0000_0000_0000

  function Min(a: int, b: int): int {
    if a <= b then a else b
  }

  function Max(a: int, b: int): int {
    if a <= b then b else a
  }

  function SatAdd(a: u64, b: u64): u64 {
    if a + b > U64_MAX then U64_MAX else a + b
  }

  function SatSub(a: u64, b: u64): u64 {
    if a < b then 0 else a - b
  }

  function SatMul(a: u64, b: u64): u64 {
    if a * b > U64_MAX then U64_MAX else assert 0 <= a * b; a * b
  }

  function ClampI64(x: int): i64 {
    if x < I64_MIN then I64_MIN else if x > I64_MAX then I64_MAX else x
  }

  /** Little-endian value of a byte string, and the `n` bytes that carry a value. */
  function FromLe(b: seq<u8>): (v: nat) {
    if b == [] then 0 else b[0] + 0x100 * FromLe(b[1..])
  }

  function ToLe(v: nat, n: nat): (b: seq<u8>)
    ensures |b| == n
  {
    if n == 0 then [] else [v % 0x100] + ToLe(v / 0x100, n - 1)
  }

  function Pow256(n: nat): (p: nat)
    ensures p > 0
  {
    if n == 0 then 1 else 0x100 * Pow256(n - 1)
  }

  lemma {:induction false} FromToLe(v: nat, n: nat)
    requires v < Pow256(n)
    ensures FromLe(ToLe(v, n)) == v
  {
    if n == 0 {
    } else {
      assert ToLe(v, n)[1..] == ToLe(v / 0x100, n - 1);
      FromToLe(v / 0x100, n - 1);
    }
  }

  lemma LowByte(low: u8, high: nat)
    ensures (low + 0x100 * high) % 0x100 == low && (low + 0x100 * high) / 0x100 == high
  {
  }

  lemma {:induction false} ToFromLe(b: seq<u8>)
    ensures FromLe(b) < Pow256(|b|)
    ensures ToLe(FromLe(b), |b|) == b
  {
    if b == [] {
    } else {
      ToFromLe(b[1..]);
      LowByte(b[0], FromLe(b[1..]));
      assert b == [b[0]] + b[1..];
    }
  }

  /** A stretch of the tail of a sequence is a stretch of the sequence. */
  lemma TailSlice<T>(s: seq<T>, at: nat, from: nat, to: nat)
    requires from <= to && at + to <= |s|
    ensures s[at..][from..to] == s[at + from..at + to] && s[at..][from..] == s[at + from..]
  {
  }

  function Reverse<T>(s: seq<T>): (r: seq<T>)
    ensures |r| == |s|
  {
    if s == [] then [] else Reverse(s[1..]) + [s[0]]
  }

  lemma {:induction false} ReverseAppend<T>(s: seq<T>, x: T)
    ensures Reverse(s + [x]) == [x] + Reverse(s)
  {
    if s == [] {
    } else {
      assert (s + [x])[1..] == s[1..] + [x];
      ReverseAppend(s[1..], x);
    }
  }

  lemma {:induction false} ReverseTwice<T>(s: seq<T>)
    ensures Reverse(Reverse(s)) == s
  {
    if s == [] {
    } else {
      ReverseAppend(Reverse(s[1..]), s[0]);
      ReverseTwice(s[1..]);
    }
  }

  /** Bitwise operators on the low `n` bits, one bit at a time. */
  function XorBits(a: nat, b: nat, n: nat): (r: nat)
    ensures r < Pow2(n)
  {
    if n == 0 then 0 else (a + b) % 2 + 2 * XorBits(a / 2, b / 2, n - 1)
  }

  function AndBits(a: nat, b: nat, n: nat): (r: nat)
    ensures r < Pow2(n)
  {
    if n == 0 then 0 else (a % 2) * (b % 2) + 2 * AndBits(a / 2, b / 2, n - 1)
  }

  function Pow2(n: nat): (p: nat)
    ensures p > 0
  {
    if n == 0 then 1 else 2 * Pow2(n - 1)
  }

  function Xor(a: u8, b: u8): u8 {
    assert Pow2(8) == 0x100;
    XorBits(a, b, 8)
  }

  function And(a: u8, b: u8): u8 {
    assert Pow2(8) == 0x100;
    AndBits(a, b, 8)
  }

  function BitOf(v: nat, i: nat): nat {
    if i == 0 then v % 2 else BitOf(v / 2, i - 1)
  }

  lemma XorStep(a: nat, b: nat, n: nat)
    requires n > 0
    ensures XorBits(a, b, n) % 2 == (a + b) % 2 && XorBits(a, b, n) / 2 == XorBits(a / 2, b / 2, n - 1)
  {
    LowBit((a + b) % 2, XorBits(a / 2, b / 2, n - 1));
  }

  /** A bit of the exclusive or is set exactly where the bits differ. */
  lemma {:induction false} BitsOfXor(a: nat, b: nat, n: nat, i: nat)
    requires i < n
    ensures BitOf(XorBits(a, b, n), i) == if BitOf(a, i) != BitOf(b, i) then 1 else 0
  {
    hide XorBits;
    XorStep(a, b, n);
    if i == 0 {
    } else {
      BitsOfXor(a / 2, b / 2, n - 1, i - 1);
    }
  }

  /** A bit of the conjunction is set exactly where both are. */
  lemma {:induction false} BitsOfAnd(a: nat, b: nat, n: nat, i: nat)
    requires i < n
    ensures BitOf(AndBits(a, b, n), i) == if BitOf(a, i) == 1 && BitOf(b, i) == 1 then 1 else 0
  {
    LowBit(a % 2 * (b % 2), AndBits(a / 2, b / 2, n - 1));
    if i == 0 {
    } else {
      BitsOfAnd(a / 2, b / 2, n - 1, i - 1);
    }
  }

  lemma LowBit(bit: nat, rest: nat)
    requires bit < 2
    ensures (bit + 2 * rest) % 2 == bit && (bit + 2 * rest) / 2 == rest
  {
  }

  /** The two operators on bytes, bit for bit. */
  lemma Bitwise(a: u8, b: u8, i: nat)
    requires i < 8
    ensures BitOf(Xor(a, b), i) == if BitOf(a, i) != BitOf(b, i) then 1 else 0
    ensures BitOf(And(a, b), i) == if BitOf(a, i) == 1 && BitOf(b, i) == 1 then 1 else 0
  {
    BitsOfXor(a, b, 8, i);
    BitsOfAnd(a, b, 8, i);
  }

  lemma XorLowBit(a: nat, b: nat, rest: nat)
    ensures var x := (a + b) % 2 + 2 * rest;
            x / 2 == rest && (x + b) % 2 + 2 * (a / 2) == a
  {
    var x := (a + b) % 2 + 2 * rest;
    assert a == 2 * (a / 2) + a % 2 && b == 2 * (b / 2) + b % 2;
  }

  lemma {:induction false} XorBitsTwice(a: nat, b: nat, n: nat)
    requires a < Pow2(n)
    ensures XorBits(XorBits(a, b, n), b, n) == a
  {
    if n == 0 {
    } else {
      XorBitsTwice(a / 2, b / 2, n - 1);
      XorLowBit(a, b, XorBits(a / 2, b / 2, n - 1));
    }
  }

  /** Masking twice with the same byte gives the byte back. */
  lemma XorTwice(a: u8, b: u8)
    ensures Xor(Xor(a, b), b) == a
  {
    assert Pow2(8) == 0x100;
    XorBitsTwice(a, b, 8);
  }

  lemma {:induction false} XorBitsCommute(a: nat, b: nat, n: nat)
    ensures XorBits(a, b, n) == XorBits(b, a, n)
  {
    if n == 0 {
    } else {
      XorBitsCommute(a / 2, b / 2, n - 1);
    }
  }

  lemma {:induction false} XorBitsAssociate(a: nat, b: nat, c: nat, n: nat)
    ensures XorBits(XorBits(a, b, n), c, n) == XorBits(a, XorBits(b, c, n), n)
  {
    if n == 0 {
    } else {
      XorBitsAssociate(a / 2, b / 2, c / 2, n - 1);
      AssociateStep(a, b, c, n);
    }
  }

  lemma AssociateStep(a: nat, b: nat, c: nat, n: nat)
    requires n > 0
    requires XorBits(XorBits(a / 2, b / 2, n - 1), c / 2, n - 1) == XorBits(a / 2, XorBits(b / 2, c / 2, n - 1), n - 1)
    ensures XorBits(XorBits(a, b, n), c, n) == XorBits(a, XorBits(b, c, n), n)
  {
    hide XorBits;
    var ab, bc := XorBits(a, b, n), XorBits(b, c, n);
    XorStep(a, b, n);
    XorStep(b, c, n);
    XorStep(ab, c, n);
    XorStep(a, bc, n);
    Parity(a, b, c, ab, bc);
    Halves(XorBits(ab, c, n), XorBits(a, bc, n));
  }

  lemma Parity(a: nat, b: nat, c: nat, ab: nat, bc: nat)
    requires ab % 2 == (a + b) % 2 && bc % 2 == (b + c) % 2
    ensures (ab + c) % 2 == (a + bc) % 2
  {
  }

  lemma Halves(x: nat, y: nat)
    requires x % 2 == y % 2 && x / 2 == y / 2
    ensures x == y
  {
  }

  /** Different bytes stay different under the same mask, on either side. */
  lemma XorInjective(a: u8, b: u8, c: u8)
    requires a != b
    ensures Xor(a, c) != Xor(b, c) && Xor(c, a) != Xor(c, b)
  {
    XorTwice(a, c);
    XorTwice(b, c);
    XorBitsCommute(a, c, 8);
    XorBitsCommute(b, c, 8);
  }

  lemma {:induction false} AndBitsOnes(b: nat, n: nat)
    requires b < Pow2(n)
    ensures AndBits(Pow2(n) - 1, b, n) == b
  {
    if n == 0 {
    } else {
      AndBitsOnes(b / 2, n - 1);
      assert (Pow2(n) - 1) / 2 == Pow2(n - 1) - 1 && (Pow2(n) - 1) % 2 == 1;
    }
  }

  /** Programming an erased byte stores the byte. */
  lemma AndErased(b: u8)
    ensures And(0xFF, b) == b
  {
    assert Pow2(8) == 0x100;
    AndBitsOnes(b, 8);
  }
}
