/** Unsigned 8- and 16-bit values and the C bit operations the link layer
    applies to them: `|`, `<<` with truncation to `uint8_t`, and the test of
    bit 7. Bytes are assembled and serialised most-significant bit first. */
module Bits {

  /** A `uint8_t`. */
  type Byte = x: int | 0 <= x < 0x100

  /** A `uint16_t`. */
  type Word = x: int | 0 <= x < 0x1_0000

  function Pow2(n: nat): (p: nat)
    ensures p >= 1
  {
    if n == 0 then 1 else 2 * Pow2(n - 1)
  }

  lemma {:induction false} Pow2Monotone(m: nat, n: nat)
    requires m <= n
    ensures Pow2(m) <= Pow2(n)
  {
    if m < n {
      Pow2Monotone(m, n - 1);
    }
  }

  /** C's bitwise `|` on non-negative integers, one bit at a time from the
      least significant end. */
  function BitOr(a: nat, b: nat): (r: nat)
    decreases a + b
  {
    if a == 0 then b
    else if b == 0 then a
    else 2 * BitOr(a / 2, b / 2) + (if a % 2 == 1 || b % 2 == 1 then 1 else 0)
  }

  /** When `l` fits below bit `k`, or-ing it with a multiple of `2^k` is addition:
      the two operands have no bit in common. */
  lemma {:induction false} BitOrDisjoint(l: nat, k: nat, h: nat)
    requires l < Pow2(k)
    ensures BitOr(l, Pow2(k) * h) == l + Pow2(k) * h
  {
    if l != 0 && h != 0 {
      assert k > 0;
      assert Pow2(k) * h == 2 * (Pow2(k - 1) * h);
      BitOrDisjoint(l / 2, k - 1, h);
    }
  }

  /** `x |= bit ? 1 : 0` on a `uint8_t`. */
  function OrBit(x: Byte, bit: bool): (r: Byte)
    ensures r == (if bit && x % 2 == 0 then x + 1 else x)
  {
    var r := BitOr(x, if bit then 1 else 0);
    assert x != 0 ==> BitOr(x / 2, 0) == x / 2;
    r
  }

  /** `x <<= 1` on a `uint8_t`: the shifted-out bit 7 is lost. */
  function Shl1(x: Byte): (r: Byte)
    ensures x < 0x80 ==> r == 2 * x
    ensures x >= 0x80 ==> r == 2 * x - 0x100
  {
    (x * 2) % 0x100
  }

  /** `x & 0x80` taken as a truth value. */
  function Bit7(x: Byte): (r: bool)
    ensures r <==> x >= 0x80
  {
    (x / 0x80) % 2 == 1
  }

  /** `x` shifted left `n` times as a `uint8_t`. */
  function ShlN(x: Byte, n: nat): (r: Byte)
  {
    if n == 0 then x else Shl1(ShlN(x, n - 1))
  }

  /** The number whose binary digits, most significant first, are `bs`. */
  function FromBits(bs: seq<bool>): (n: nat)
  {
    if bs == [] then 0 else 2 * FromBits(bs[..|bs| - 1]) + (if bs[|bs| - 1] then 1 else 0)
  }

  lemma {:induction false} FromBitsBound(bs: seq<bool>)
    ensures FromBits(bs) < Pow2(|bs|)
  {
    if bs != [] {
      FromBitsBound(bs[..|bs| - 1]);
    }
  }

  /** At most seven bits never reach bit 7. */
  lemma ShortBitsBound(bs: seq<bool>)
    requires |bs| <= 7
    ensures FromBits(bs) < 0x80
  {
    FromBitsBound(bs);
    Pow2Monotone(|bs|, 7);
  }

  /** Appending a bit shifts what was there one place up. */
  lemma FromBitsSnoc(bs: seq<bool>, b: bool)
    ensures FromBits(bs + [b]) == 2 * FromBits(bs) + (if b then 1 else 0)
  {
    assert (bs + [b])[..|bs|] == bs;
  }

  /** Two bit strings of one length with the same value are the same string. */
  lemma {:induction false} FromBitsInjective(a: seq<bool>, b: seq<bool>)
    requires |a| == |b| && FromBits(a) == FromBits(b)
    ensures a == b
  {
    if a != [] {
      var n := |a| - 1;
      assert a[n] == b[n];
      FromBitsInjective(a[..n], b[..n]);
      assert a == a[..n] + [a[n]];
      assert b == b[..n] + [b[n]];
    }
  }

  /** The first `n` levels a shift register loaded with `x` presents on its
      output when it shows bit 7 and then shifts left, `n` times. */
  function Serialize(x: Byte, n: nat): (r: seq<bool>)
    ensures |r| == n
  {
    if n == 0 then [] else Serialize(x, n - 1) + [Bit7(ShlN(x, n - 1))]
  }

  lemma DoubleMul(a: int, x: int)
    ensures (2 * a) * x == 2 * (a * x)
  {
  }

  /** What is left in the register is `x` shifted up, minus the bits already
      presented, which have left through the top. */
  lemma {:induction false} SerializeShift(x: Byte, n: nat)
    ensures ShlN(x, n) == Pow2(n) * x - 0x100 * FromBits(Serialize(x, n))
  {
    if n > 0 {
      var s := ShlN(x, n - 1);
      var p := Pow2(n - 1) * x;
      var f := FromBits(Serialize(x, n - 1));
      SerializeShift(x, n - 1);
      assert s == p - 0x100 * f;
      FromBitsSnoc(Serialize(x, n - 1), Bit7(s));
      assert FromBits(Serialize(x, n)) == 2 * f + (if Bit7(s) then 1 else 0);
      DoubleMul(Pow2(n - 1), x);
      assert ShlN(x, n) == Shl1(s);
    }
  }

  /** Read back most-significant bit first, the eight presented levels are `x`. */
  lemma SerializeRoundTrip(x: Byte)
    ensures FromBits(Serialize(x, 8)) == x
  {
    SerializeShift(x, 8);
    assert Pow2(8) == 0x100;
  }

  /** Eight sampled bits, reassembled and presented again, are the same bits. */
  lemma ParseRoundTrip(bs: seq<bool>)
    requires |bs| == 8
    ensures FromBits(bs) < 0x100
    ensures Serialize(FromBits(bs), 8) == bs
  {
    FromBitsBound(bs);
    assert Pow2(8) == 0x100;
    var x: Byte := FromBits(bs);
    SerializeRoundTrip(x);
    FromBitsInjective(Serialize(x, 8), bs);
  }
}
