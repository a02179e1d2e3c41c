// The one mapping between bytes and field elements: eight-byte limbs, little-endian,
// canonical in both directions, and the 32-byte wire form of a scalar.
module Abi {
  import opened Bits
  import opened Results

  const TWO_64: nat := 0x1_0000_0000_0000_0000
  const TWO_253: nat := 0x2000000000000000000000000000000000000000000000000000000000000000
  const TWO_254: nat := 0x4000000000000000000000000000000000000000000000000000000000000000

  /** The field order lies between 2^253 and 2^254. */
  ghost predicate IsOrder(r: nat) {
    TWO_253 < r < TWO_254
  }

  /** The scalar field of BN254 is one. */
  lemma Bn254Order()
    ensures IsOrder(0x30644e72e131a029b85045b68181585d2833e84879b9709143e1f593f0000001)
  {
  }

  datatype PublicInputs = PublicInputs(idi: Block, r1: Block, attestedAt: nat)
  {
    ghost predicate Valid() { attestedAt < TWO_64 }
  }

  // -------------------------------------------------------------------- numbers

  /** The 32-byte little-endian encoding of a scalar. */
  function FrBytes(f: nat): (bytes: Bytes)
    ensures |bytes| == 32
  {
    BytesOfLe(LowBits(f, 256))
  }

  lemma FrBytesValue(f: nat)
    requires f < TWO_254
    ensures LeValue(FrBytes(f)) == f
  {
    BigPowers();
    LeBitsOfBytes(LowBits(f, 256));
    ValueOfLowBits(f, 256);
  }

  lemma DoubleProduct(p: nat, v: nat)
    ensures 2 * (p * v) == (2 * p) * v
  {
  }

  lemma {:induction false} ValueConcat(a: BitVec, b: BitVec)
    ensures Value(a + b) == Value(a) + Pow2(|a|) * Value(b)
  {
    if a == [] {
      assert a + b == b;
    } else {
      ValueConcat(a[1..], b);
      assert (a + b)[1..] == a[1..] + b;
      DoubleProduct(Pow2(|a| - 1), Value(b));
    }
  }

  lemma LeValueConcat(a: Bytes, b: Bytes)
    ensures LeValue(a + b) == LeValue(a) + Pow2(8 * |a|) * LeValue(b)
  {
    LeBitsConcat(a, b);
    ValueConcat(LeBits(a), LeBits(b));
  }

  lemma SingleByte(b: Byte)
    ensures LeValue([b]) == b
  {
    assert LeBits([b]) == LowBits(b, 8);
    ByteRoundTrip(b);
  }

  lemma EmptyLeValue(bytes: Bytes)
    requires bytes == []
    ensures LeValue(bytes) == 0
  {
    assert LeBits(bytes) == [];
  }

  /** The value of bytes is that of their base-256 digits, the first byte being the lowest. */
  lemma LeValueMeans(bytes: Bytes)
    ensures bytes == [] ==> LeValue(bytes) == 0
    ensures bytes != [] ==> LeValue(bytes) == bytes[0] as int + 256 * LeValue(bytes[1..])
  {
    hide LeValue, Pow2;
    if bytes == [] {
      EmptyLeValue(bytes);
    } else {
      SmallPowers();
      SingleByte(bytes[0]);
      LeValueConcat([bytes[0]], bytes[1..]);
      assert bytes == [bytes[0]] + bytes[1..];
    }
  }

  function Zeros(n: nat): (z: Bytes)
    ensures |z| == n
  {
    seq(n, i => 0)
  }

  lemma {:induction false} ZeroBits(n: nat)
    ensures Value(seq(n, i => false)) == 0
    ensures LowBits(0, n) == seq(n, i => false)
  {
    if n > 0 {
      ZeroBits(n - 1);
      assert seq(n, i => false)[1..] == seq(n - 1, i => false);
      assert seq(n, i => false) == [false] + seq(n - 1, i => false);
    }
  }

  lemma ZerosValue(n: nat)
    ensures LeValue(Zeros(n)) == 0
  {
    ZeroBits(8);
    ZeroBits(8 * n);
    assert LeBits(Zeros(n)) == seq(8 * n, i => false);
  }

  /** A narrow limb is the low end of its scalar; the rest is zero. */
  lemma FrBytesOfLimb(limb: Bytes)
    requires |limb| <= 32 && LeValue(limb) < TWO_254
    ensures FrBytes(LeValue(limb)) == limb + Zeros(32 - |limb|)
  {
    hide Pow2, FrBytes, LeValue;
    var padded := limb + Zeros(32 - |limb|);
    LeValueConcat(limb, Zeros(32 - |limb|));
    ZerosValue(32 - |limb|);
    FrBytesValue(LeValue(limb));
    LeValueInjective(FrBytes(LeValue(limb)), padded);
  }

  // --------------------------------------------------------------- the two directions

  /** The field element of a number. */
  function Reduce(r: nat, v: nat): (f: nat)
    requires r > 0
    ensures f < r
    ensures v < r ==> f == v
  {
    v % r
  }

  /** Round-trips through the wire encoding instead of comparing with the order. */
  function CanonicalFr(r: nat, bytes: Bytes): Option<nat>
    requires r > 0
  {
    if |bytes| > 32 then None
    else
      var f := Reduce(r, LeValue(bytes));
      if FrBytes(f)[..|bytes|] != bytes then None else Some(f)
  }

  /** The low n bytes of the scalar, if the others are zero. */
  function FrToLe(f: nat, n: nat): (limb: Option<Bytes>)
    requires n <= 32
    ensures limb.Some? ==> |limb.value| == n
  {
    var le := FrBytes(f);
    if exists i :: n <= i < 32 && le[i] != 0 then None else Some(le[..n])
  }

  function ToFr(r: nat, pi: PublicInputs): Option<seq<nat>>
    requires r > 0
  {
    match (CanonicalFr(r, pi.idi), CanonicalFr(r, pi.r1))
    case (Some(a), Some(b)) => Some([a, b, Reduce(r, pi.attestedAt)])
    case _ => None
  }

  function FromFr(pis: seq<nat>): (pi: Option<PublicInputs>)
    ensures pi.Some? ==> pi.value.Valid()
  {
    if |pis| != 3 then None
    else
      match (FrToLe(pis[0], 8), FrToLe(pis[1], 8), FrToLe(pis[2], 8))
      case (Some(a), Some(b), Some(t)) => LimbBound(t); Some(PublicInputs(a, b, LeValue(t)))
      case _ => None
  }

  lemma LimbBound(b: Bytes)
    requires |b| == 8
    ensures LeValue(b) < TWO_64
  {
    BigPowers();
  }

  /** canonical_fr accepts exactly the byte strings of at most 32 bytes below the order. */
  lemma CanonicalExactly(r: nat, bytes: Bytes)
    requires IsOrder(r)
    ensures CanonicalFr(r, bytes) ==
            if |bytes| <= 32 && LeValue(bytes) < r then Some(LeValue(bytes)) else None
  {
    hide Pow2, FrBytes, LeValue, Reduce;
    if |bytes| <= 32 {
      var f := Reduce(r, LeValue(bytes));
      if LeValue(bytes) < r {
        FrBytesOfLimb(bytes);
      } else if FrBytes(f)[..|bytes|] == bytes {
        PrefixIsSmaller(f, bytes);
        assert false;
      }
    }
  }

  lemma PrefixIsSmaller(f: nat, bytes: Bytes)
    requires f < TWO_254 && |bytes| <= 32 && FrBytes(f)[..|bytes|] == bytes
    ensures LeValue(bytes) <= f
  {
    hide Pow2, FrBytes, LeValue;
    FrBytesValue(f);
    var rest := FrBytes(f)[|bytes|..];
    assert FrBytes(f) == bytes + rest;
    LeValueConcat(bytes, rest);
    assert Pow2(8 * |bytes|) * LeValue(rest) >= 0;
  }

  lemma LimbIsCanonical(r: nat, limb: Bytes)
    requires IsOrder(r) && |limb| == 8
    ensures CanonicalFr(r, limb) == Some(LeValue(limb)) && LeValue(limb) < TWO_64 < r
  {
    LimbBound(limb);
    CanonicalExactly(r, limb);
  }

  /** Reading a scalar as a limb succeeds exactly when it is below 2^64, and gives its bytes. */
  lemma LimbOfScalar(f: nat)
    requires f < TWO_254
    ensures FrToLe(f, 8).Some? <==> f < TWO_64
    ensures f < TWO_64 ==> LeValue(FrToLe(f, 8).value) == f
  {
    hide Pow2, FrBytes, LeValue;
    var le := FrBytes(f);
    var low, high := le[..8], le[8..];
    FrBytesValue(f);
    assert le == low + high;
    LeValueConcat(low, high);
    BigPowers();
    LimbBound(low);
    ZerosValue(24);
    if high == Zeros(24) {
      assert forall i :: 8 <= i < 32 ==> le[i] == high[i - 8];
    } else {
      if LeValue(high) == 0 { LeValueInjective(high, Zeros(24)); }
      var i :| 0 <= i < 24 && high[i] != 0;
      assert le[8 + i] != 0;
    }
  }

  /** Encoding then decoding gives back every claim. */
  lemma DecodeEncode(r: nat, pi: PublicInputs)
    requires IsOrder(r) && pi.Valid()
    ensures ToFr(r, pi) == Some([LeValue(pi.idi), LeValue(pi.r1), pi.attestedAt])
    ensures FromFr(ToFr(r, pi).value) == Some(pi)
  {
    hide FrToLe, CanonicalFr, LeValue, Reduce;
    LimbIsCanonical(r, pi.idi);
    LimbIsCanonical(r, pi.r1);
    LimbOfScalar(LeValue(pi.idi));
    LimbOfScalar(LeValue(pi.r1));
    LimbOfScalar(pi.attestedAt);
    LeValueInjective(FrToLe(LeValue(pi.idi), 8).value, pi.idi);
    LeValueInjective(FrToLe(LeValue(pi.r1), 8).value, pi.r1);
  }

  /** Decoding then encoding gives back every vector of scalars that decodes. */
  lemma EncodeDecode(r: nat, pis: seq<nat>)
    requires IsOrder(r) && forall i :: 0 <= i < |pis| ==> pis[i] < r
    requires FromFr(pis).Some?
    ensures ToFr(r, FromFr(pis).value) == Some(pis)
  {
    hide FrToLe, CanonicalFr, LeValue, Reduce;
    var pi := FromFr(pis).value;
    assert pis == [pis[0], pis[1], pis[2]];
    LimbOfScalar(pis[0]);
    LimbOfScalar(pis[1]);
    LimbOfScalar(pis[2]);
    LimbIsCanonical(r, pi.idi);
    LimbIsCanonical(r, pi.r1);
  }

  // ------------------------------------------------------------------ wire scalars

  /** A decoded wire scalar: the first 32 bytes, if they spell a number below the order. */
  function ParseFr(r: nat, raw: Bytes): Option<nat> {
    if |raw| < 32 then None
    else
      var v := LeValue(raw[..32]);
      if v < r then Some(v) else None
  }

  /** The scalars of the wire list, or nothing if the count or any entry is wrong. */
  function ParsedPrefix(r: nat, raws: seq<Bytes>, n: nat): (pis: Option<seq<nat>>)
    requires n <= |raws|
    ensures pis.Some? ==> |pis.value| == n && forall i :: 0 <= i < n ==> ParseFr(r, raws[i]) == Some(pis.value[i])
    ensures pis.None? ==> exists i :: 0 <= i < n && ParseFr(r, raws[i]).None?
  {
    if n == 0 then Some([])
    else
      match ParsedPrefix(r, raws, n - 1)
      case None => None
      case Some(pis) =>
        match ParseFr(r, raws[n - 1])
        case None => None
        case Some(f) => Some(pis + [f])
  }

  function ParsePublicInputs(r: nat, raws: seq<Bytes>): Option<seq<nat>> {
    if |raws| != 3 then None else ParsedPrefix(r, raws, 3)
  }

  function Pack(pis: seq<nat>, n: nat): (blob: Bytes)
    requires n <= |pis|
    ensures |blob| == 32 * n
  {
    if n == 0 then [] else Pack(pis, n - 1) + FrBytes(pis[n - 1])
  }

  lemma PackedScalar(pis: seq<nat>, i: nat)
    requires |pis| == 3 && i < 3
    ensures Pack(pis, 3)[32 * i..32 * i + 32] == FrBytes(pis[i])
  {
    hide FrBytes;
    var a, b, c := FrBytes(pis[0]), FrBytes(pis[1]), FrBytes(pis[2]);
    assert Pack(pis, 1) == a;
    assert Pack(pis, 2) == a + b;
    assert Pack(pis, 3) == a + b + c;
  }

  /** Packing what was read from 32 bytes gives the bytes back. */
  lemma EncodedWire(raw: Bytes)
    requires |raw| == 32 && LeValue(raw) < TWO_254
    ensures FrBytes(LeValue(raw)) == raw
  {
    hide FrBytes, LeValue;
    FrBytesOfLimb(raw);
    assert raw + Zeros(0) == raw;
  }

  /** The packed scalars, 32 bytes each. */
  function PublicInputsBytes(r: nat, raws: seq<Bytes>): Option<Bytes> {
    match ParsePublicInputs(r, raws)
    case None => None
    case Some(pis) => Some(Pack(pis, |pis|))
  }

  /** The loop that decodes the wire list, with its early return. */
  method ParseInputs(r: nat, raws: seq<Bytes>) returns (res: Option<seq<nat>>)
    ensures res == ParsePublicInputs(r, raws)
    ensures res.Some? <==> |raws| == 3 && forall i :: 0 <= i < 3 ==> |raws[i]| >= 32 && LeValue(raws[i][..32]) < r
    ensures res.Some? ==> |res.value| == 3 && forall i :: 0 <= i < 3 ==> res.value[i] == LeValue(raws[i][..32])
  {
    hide LeValue;
    if |raws| != 3 {
      return None;
    }
    var pis: seq<nat> := [];
    for i := 0 to |raws|
      invariant ParsedPrefix(r, raws, i) == Some(pis)
    {
      match ParseFr(r, raws[i]) {
        case Some(f) => pis := pis + [f];
        case None =>
          ParsedNone(r, raws, i + 1, 3);
          return None;
      }
    }
    return Some(pis);
  }

  lemma {:induction false} ParsedNone(r: nat, raws: seq<Bytes>, i: nat, n: nat)
    requires i <= n <= |raws| && ParsedPrefix(r, raws, i).None?
    ensures ParsedPrefix(r, raws, n).None?
  {
    if i < n { ParsedNone(r, raws, i, n - 1); }
  }

  /** The loop that appends the 32-byte encodings. */
  method PackInputs(r: nat, raws: seq<Bytes>) returns (res: Option<Bytes>)
    ensures res == PublicInputsBytes(r, raws)
    ensures res.Some? <==> |raws| == 3 && forall i :: 0 <= i < 3 ==> |raws[i]| >= 32 && LeValue(raws[i][..32]) < r
    ensures res.Some? && r < TWO_254 ==>
              |res.value| == 96
              && forall i :: 0 <= i < 3 ==> res.value[32 * i..32 * i + 32] == raws[i][..32]
  {
    hide LeValue, FrBytes;
    var parsed := ParseInputs(r, raws);
    match parsed {
      case None => return None;
      case Some(pis) =>
        var out: Bytes := [];
        for i := 0 to |pis|
          invariant out == Pack(pis, i)
        {
          out := out + FrBytes(pis[i]);
        }
        if r < TWO_254 {
          forall i | 0 <= i < 3 ensures out[32 * i..32 * i + 32] == raws[i][..32] {
            PackedScalar(pis, i);
            EncodedWire(raws[i][..32]);
          }
        }
        return Some(out);
    }
  }
}
