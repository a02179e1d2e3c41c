// Bytes, 8-byte blocks and the two bit orders used by the prover: little-endian
// bits (bit j of byte i at index 8*i + j) and DES bits (most significant first).
module Bits {

  type Byte = x: int | 0 <= x < 256
  type Bytes = seq<Byte>
  type Block = s: seq<Byte> | |s| == 8 witness [0, 0, 0, 0, 0, 0, 0, 0]
  type BitVec = seq<bool>

  function Pow2(n: nat): (p: nat)
    ensures p > 0
  {
    if n == 0 then 1 else 2 * Pow2(n - 1)
  }

  /** The n low bits of v, least significant first: bit j is `(v >> j) & 1`. */
  function LowBits(v: nat, n: nat): (bits: BitVec)
    ensures |bits| == n
  {
    if n == 0 then [] else [v % 2 == 1] + LowBits(v / 2, n - 1)
  }

  /** The number whose bits are the given ones, least significant first. */
  function Value(bits: BitVec): (v: nat)
    ensures v < Pow2(|bits|)
  {
    if bits == [] then 0 else (if bits[0] then 1 else 0) + 2 * Value(bits[1..])
  }

  lemma {:induction false} ValueOfLowBits(v: nat, n: nat)
    requires v < Pow2(n)
    ensures Value(LowBits(v, n)) == v
  {
    if n > 0 {
      ValueOfLowBits(v / 2, n - 1);
      assert LowBits(v, n)[1..] == LowBits(v / 2, n - 1);
    }
  }

  lemma {:induction false} LowBitsOfValue(bits: BitVec)
    ensures LowBits(Value(bits), |bits|) == bits
  {
    if bits != [] {
      LowBitsOfValue(bits[1..]);
    }
  }

  lemma {:induction false} PowAdd(m: nat, n: nat)
    ensures Pow2(m + n) == Pow2(m) * Pow2(n)
  {
    if m > 0 { PowAdd(m - 1, n); }
  }

  lemma SmallPowers()
    ensures Pow2(8) == 0x100 && Pow2(16) == 0x1_0000 && Pow2(32) == 0x1_0000_0000
  {
    assert Pow2(8) == 256 by { assert Pow2(4) == 16; }
    hide Pow2;
    PowAdd(8, 8);
    PowAdd(16, 16);
  }

  lemma BigPowers()
    ensures Pow2(64) == 0x1_0000_0000_0000_0000
    ensures Pow2(256) == 0x1_0000000000000000_0000000000000000_0000000000000000_0000000000000000
  {
    SmallPowers();
    hide Pow2;
    PowAdd(32, 32);
    PowAdd(64, 64);
    PowAdd(128, 128);
  }

  lemma ByteRange(bits: BitVec)
    requires |bits| == 8
    ensures 0 <= Value(bits) < 256
  {
    assert Pow2(8) == 256 by { assert Pow2(4) == 16; }
  }

  lemma ByteRoundTrip(b: Byte)
    ensures Value(LowBits(b, 8)) == b
  {
    assert Pow2(8) == 256 by { assert Pow2(4) == 16; }
    ValueOfLowBits(b, 8);
  }

  // ----------------------------------------------------------------- bit orders

  /** The position that swaps the two bit orders inside each byte. */
  function FlipIndex(k: nat): nat {
    k / 8 * 8 + 7 - k % 8
  }

  lemma FlipIndexTwice(k: nat, n: nat)
    requires k < n && n % 8 == 0
    ensures FlipIndex(k) < n && FlipIndex(FlipIndex(k)) == k
  {
  }

  /** Reorders every group of eight; it turns one bit order into the other. */
  function Flip<T>(s: seq<T>): (r: seq<T>)
    requires |s| % 8 == 0
    ensures |r| == |s|
    ensures forall k :: 0 <= k < |s| ==> r[k] == s[FlipIndex(k)]
  {
    seq(|s|, k requires 0 <= k < |s| => s[FlipIndex(k)])
  }

  lemma FlipTwice<T>(s: seq<T>)
    requires |s| % 8 == 0
    ensures Flip(Flip(s)) == s
  {
    forall k | 0 <= k < |s| ensures Flip(Flip(s))[k] == s[k] {
      FlipIndexTwice(k, |s|);
    }
  }

  function LeBits(bytes: Bytes): (bits: BitVec)
    ensures |bits| == 8 * |bytes|
  {
    seq(8 * |bytes|, k requires 0 <= k < 8 * |bytes| => LowBits(bytes[k / 8], 8)[k % 8])
  }

  /** The number the bytes spell, least significant byte first. */
  function LeValue(bytes: Bytes): nat {
    Value(LeBits(bytes))
  }

  /** A little-endian 16-bit number. */
  function U16(low: Byte, high: Byte): (v: nat)
    ensures v < 0x1_0000
  {
    var l: int, h: int := low, high;
    l + 256 * h
  }

  function DesBits(bytes: Bytes): (bits: BitVec)
    ensures |bits| == 8 * |bytes|
  {
    seq(8 * |bytes|, k requires 0 <= k < 8 * |bytes| => LowBits(bytes[k / 8], 8)[7 - k % 8])
  }

  function BytesOfLe(bits: BitVec): (bytes: Bytes)
    requires |bits| % 8 == 0
    ensures |bytes| == |bits| / 8
  {
    seq(|bits| / 8, i requires 0 <= i < |bits| / 8 =>
      ByteRange(bits[8 * i..8 * i + 8]); Value(bits[8 * i..8 * i + 8]))
  }

  function BytesOfDes(bits: BitVec): (bytes: Bytes)
    requires |bits| % 8 == 0
    ensures |bytes| == |bits| / 8
  {
    BytesOfLe(Flip(bits))
  }

  lemma DesBitsIsFlip(bytes: Bytes)
    ensures DesBits(bytes) == Flip(LeBits(bytes))
    ensures LeBits(bytes) == Flip(DesBits(bytes))
  {
    assert DesBits(bytes) == Flip(LeBits(bytes));
    FlipTwice(LeBits(bytes));
  }

  lemma LeRoundTrip(bytes: Bytes)
    ensures BytesOfLe(LeBits(bytes)) == bytes
  {
    hide Value, LowBits;
    forall i | 0 <= i < |bytes| ensures BytesOfLe(LeBits(bytes))[i] == bytes[i] {
      assert LeBits(bytes)[8 * i..8 * i + 8] == LowBits(bytes[i], 8);
      ByteRoundTrip(bytes[i]);
    }
  }

  lemma LeBitsOfBytes(bits: BitVec)
    requires |bits| % 8 == 0
    ensures LeBits(BytesOfLe(bits)) == bits
  {
    hide Value, LowBits;
    forall k | 0 <= k < |bits| ensures LeBits(BytesOfLe(bits))[k] == bits[k] {
      var i := k / 8;
      LowBitsOfValue(bits[8 * i..8 * i + 8]);
      assert bits[8 * i..8 * i + 8][k % 8] == bits[k];
    }
  }

  lemma DesRoundTrip(bytes: Bytes)
    ensures BytesOfDes(DesBits(bytes)) == bytes
  {
    DesBitsIsFlip(bytes);
    LeRoundTrip(bytes);
  }

  lemma DesBitsOfBytes(bits: BitVec)
    requires |bits| % 8 == 0
    ensures DesBits(BytesOfDes(bits)) == bits
  {
    LeBitsOfBytes(Flip(bits));
    DesBitsIsFlip(BytesOfDes(bits));
    FlipTwice(bits);
  }

  lemma LeBitsInjective(a: Bytes, b: Bytes)
    requires LeBits(a) == LeBits(b)
    ensures a == b
  {
    LeRoundTrip(a);
    LeRoundTrip(b);
  }

  lemma LeValueInjective(a: Bytes, b: Bytes)
    requires |a| == |b| && LeValue(a) == LeValue(b)
    ensures a == b
  {
    LowBitsOfValue(LeBits(a));
    LowBitsOfValue(LeBits(b));
    LeBitsInjective(a, b);
  }

  lemma LeBitsSlice(bytes: Bytes, i: nat, j: nat)
    requires i <= j <= |bytes|
    ensures LeBits(bytes)[8 * i..8 * j] == LeBits(bytes[i..j])
  {
  }

  lemma LeBitsConcat(a: Bytes, b: Bytes)
    ensures LeBits(a + b) == LeBits(a) + LeBits(b)
  {
  }

  // ------------------------------------------------------------------------ xor

  function Xor(a: BitVec, b: BitVec): (r: BitVec)
    requires |a| == |b|
    ensures |r| == |a|
    ensures forall i :: 0 <= i < |a| ==> r[i] == (a[i] != b[i])
  {
    seq(|a|, i requires 0 <= i < |a| => a[i] != b[i])
  }

  function Complement(a: BitVec): (r: BitVec)
    ensures |r| == |a|
    ensures forall i :: 0 <= i < |a| ==> r[i] == !a[i]
  {
    seq(|a|, i requires 0 <= i < |a| => !a[i])
  }

  function XorByte(a: Byte, b: Byte): (r: Byte) {
    ByteRange(Xor(LowBits(a, 8), LowBits(b, 8)));
    Value(Xor(LowBits(a, 8), LowBits(b, 8)))
  }

  function XorBytes(a: Bytes, b: Bytes): (r: Bytes)
    requires |a| == |b|
    ensures |r| == |a|
  {
    seq(|a|, i requires 0 <= i < |a| => XorByte(a[i], b[i]))
  }

  lemma LeBitsOfXor(a: Bytes, b: Bytes)
    requires |a| == |b|
    ensures LeBits(XorBytes(a, b)) == Xor(LeBits(a), LeBits(b))
  {
    forall k | 0 <= k < 8 * |a| ensures LeBits(XorBytes(a, b))[k] == Xor(LeBits(a), LeBits(b))[k] {
      LowBitsOfValue(Xor(LowBits(a[k / 8], 8), LowBits(b[k / 8], 8)));
    }
  }

  lemma DesBitsOfXor(a: Bytes, b: Bytes)
    requires |a| == |b|
    ensures DesBits(XorBytes(a, b)) == Xor(DesBits(a), DesBits(b))
  {
    forall k | 0 <= k < 8 * |a| ensures DesBits(XorBytes(a, b))[k] == Xor(DesBits(a), DesBits(b))[k] {
      LowBitsOfValue(Xor(LowBits(a[k / 8], 8), LowBits(b[k / 8], 8)));
    }
  }

  /** Xoring the same bytes twice gives back the original. */
  lemma XorTwice(a: Bytes, b: Bytes)
    requires |a| == |b|
    ensures XorBytes(XorBytes(a, b), b) == a
  {
    LeBitsOfXor(a, b);
    LeBitsOfXor(XorBytes(a, b), b);
    assert Xor(Xor(LeBits(a), LeBits(b)), LeBits(b)) == LeBits(a);
    LeBitsInjective(XorBytes(XorBytes(a, b), b), a);
  }

  /** The bitwise complement of every byte. */
  function Invert(a: Bytes): (r: Bytes)
    ensures |r| == |a|
  {
    seq(|a|, i requires 0 <= i < |a| => 255 - a[i])
  }

  lemma {:induction false} LowBitsComplement(v: nat, n: nat)
    requires v < Pow2(n)
    ensures LowBits(Pow2(n) - 1 - v, n) == Complement(LowBits(v, n))
  {
    if n > 0 {
      LowBitsComplement(v / 2, n - 1);
      assert (Pow2(n) - 1 - v) / 2 == Pow2(n - 1) - 1 - v / 2;
    }
  }

  lemma DesBitsOfInvert(a: Bytes)
    ensures DesBits(Invert(a)) == Complement(DesBits(a))
  {
    assert Pow2(8) == 256 by { assert Pow2(4) == 16; }
    forall k | 0 <= k < 8 * |a| ensures DesBits(Invert(a))[k] == !DesBits(a)[k] {
      LowBitsComplement(a[k / 8], 8);
    }
  }

  // ----------------------------------------------------------------- arithmetic

  lemma SmallMultiple(k: int, d: int)
    requires d > 0 && -d < k * d < d
    ensures k == 0
  {
    assert k > 0 ==> (k - 1) * d >= 0;
    assert k < 0 ==> (-k - 1) * d >= 0;
  }

  /** Quotient and remainder are unique. */
  lemma DivisionIs(v: int, d: int, q: int, m: int)
    requires 0 <= m < d && v == q * d + m
    ensures v / d == q && v % d == m
  {
    var q', m' := v / d, v % d;
    assert q' * d + m' == v;
    assert (q' - q) * d == m - m';
    SmallMultiple(q' - q, d);
  }
}
