// The on-chain decoding of an attestation (felica_auth.move) and its agreement with the
// prover's packing: the blob the prover emits is the only one that is accepted for a claim.
module FelicaAuth {
  import opened Bits
  import opened Results
  import opened Abi

  const LIMB_BYTES: nat := 8
  const SCALAR_BYTES: nat := 32
  const SUPPORTED_ALG: string := "groth16-bn254"

  datatype Abort =
    | Malformed | UnsupportedAlg | EnvelopeInconsistent | ChallengeMismatch | ClockDrift
    | ProofInvalid | LibraryAbort
    | NotAllowed | Replay | UnknownIdi
    | InsufficientBalance

  /** A Move call returns or aborts, and an abort undoes the whole transaction. */
  datatype Outcome<+T> = Done(value: T) | Aborted(code: Abort)

  datatype Attestation = Attestation(alg: string, idi: Bytes, attestedAt: nat, proof: Bytes, publicInputs: Bytes)
  {
    /** What `make` checks. */
    ghost predicate Valid() {
      alg == SUPPORTED_ALG && |idi| == LIMB_BYTES && |publicInputs| == 96 && attestedAt < TWO_64
    }
  }

  function Make(alg: string, idi: Bytes, attestedAt: nat, proof: Bytes, publicInputs: Bytes): (a: Outcome<Attestation>)
    ensures a.Done? <==> alg == "groth16-bn254" && |idi| == 8 && |publicInputs| == 96
    ensures a.Aborted? ==> a.code == if alg != "groth16-bn254" then UnsupportedAlg else Malformed
    ensures a.Done? ==>
              && a.value.alg == alg && a.value.idi == idi && a.value.attestedAt == attestedAt
              && a.value.proof == proof && a.value.publicInputs == publicInputs
              && (attestedAt < TWO_64 ==> a.value.Valid())
  {
    if alg != SUPPORTED_ALG then Aborted(UnsupportedAlg)
    else if |idi| != LIMB_BYTES then Aborted(Malformed)
    else if |publicInputs| != 3 * SCALAR_BYTES then Aborted(Malformed)
    else Done(Attestation(alg, idi, attestedAt, proof, publicInputs))
  }

  // ------------------------------------------------------------- scalars and limbs

  function Scalar(blob: Bytes, index: nat): (s: Bytes)
    requires |blob| == 96 && index < 3
    ensures |s| == 32
  {
    blob[32 * index..32 * index + 32]
  }

  ghost predicate IsCanonicalLimb(s: Bytes) {
    |s| == SCALAR_BYTES && forall i :: LIMB_BYTES <= i < SCALAR_BYTES ==> s[i] == 0
  }

  /** The first eight bytes of a canonical scalar. */
  ghost function Limb(blob: Bytes, index: nat): (l: Outcome<Bytes>)
    requires |blob| == 96 && index < 3
    ensures l.Done? ==> |l.value| == 8
  {
    if IsCanonicalLimb(Scalar(blob, index)) then Done(Scalar(blob, index)[..8]) else Aborted(EnvelopeInconsistent)
  }

  ghost function ScalarU64(blob: Bytes, index: nat): Outcome<nat>
    requires |blob| == 96 && index < 3
  {
    match Limb(blob, index)
    case Aborted(code) => Aborted(code)
    case Done(l) => Done(LeValue(l))
  }

  method CopyScalar(blob: Bytes, index: nat) returns (out: Outcome<Bytes>)
    requires |blob| == 96
    ensures out == if index < 3 then Done(Scalar(blob, index)) else Aborted(Malformed)
  {
    if index >= 3 {
      return Aborted(Malformed);
    }
    var bytes: Bytes := [];
    var i := 0;
    while i < SCALAR_BYTES
      invariant 0 <= i <= 32 && bytes == blob[32 * index..32 * index + i]
    {
      bytes := bytes + [blob[index * SCALAR_BYTES + i]];
      i := i + 1;
    }
    return Done(bytes);
  }

  method CheckCanonicalLimb(s: Bytes) returns (ok: bool)
    ensures ok <==> IsCanonicalLimb(s)
  {
    if |s| != SCALAR_BYTES {
      return false;
    }
    var i := LIMB_BYTES;
    while i < SCALAR_BYTES
      invariant 8 <= i <= 32
      invariant forall j :: 8 <= j < i ==> s[j] == 0
    {
      if s[i] != 0 {
        return false;
      }
      i := i + 1;
    }
    return true;
  }

  method ReadLimb(blob: Bytes, index: nat) returns (out: Outcome<Bytes>)
    requires |blob| == 96
    ensures out == if index < 3 then Limb(blob, index) else Aborted(Malformed)
  {
    var scalar := CopyScalar(blob, index);
    match scalar {
      case Aborted(code) => return Aborted(code);
      case Done(bytes) =>
        var ok := CheckCanonicalLimb(bytes);
        if !ok {
          return Aborted(EnvelopeInconsistent);
        }
        var limb: Bytes := [];
        var i := 0;
        while i < LIMB_BYTES
          invariant 0 <= i <= 8 && limb == bytes[..i]
        {
          limb := limb + [bytes[i]];
          i := i + 1;
        }
        return Done(limb);
    }
  }

  /** Bitwise or on the n low bits. */
  function Or(a: nat, b: nat, n: nat): nat {
    if n == 0 then 0
    else (if a % 2 == 1 || b % 2 == 1 then 1 else 0) + 2 * Or(a / 2, b / 2, n - 1)
  }

  lemma {:induction false} OrZero(b: nat, n: nat)
    requires b < Pow2(n)
    ensures Or(0, b, n) == b
  {
    if n > 0 { OrZero(b / 2, n - 1); }
  }

  /** Or-ing a number into the bits above it is adding it. */
  lemma {:induction false} OrShifted(a: nat, b: nat, k: nat, n: nat)
    requires a < Pow2(k) && k <= n && b * Pow2(k) < Pow2(n)
    ensures Or(a, b * Pow2(k), n) == a + b * Pow2(k)
  {
    if k == 0 {
      OrZero(b, n);
    } else {
      assert b * Pow2(k) == 2 * (b * Pow2(k - 1));
      OrShifted(a / 2, b, k - 1, n - 1);
    }
  }

  lemma LeValueSnoc(bytes: Bytes, b: Byte)
    ensures LeValue(bytes + [b]) == LeValue(bytes) + b * Pow2(8 * |bytes|)
  {
    hide LeValue, Pow2;
    LeValueConcat(bytes, [b]);
    SingleByte(b);
  }

  lemma LeValueSize(bytes: Bytes)
    ensures LeValue(bytes) < Pow2(8 * |bytes|)
  {
  }

  lemma {:induction false} PowGrows(m: nat, n: nat)
    requires m <= n
    ensures Pow2(m) <= Pow2(n)
  {
    if m < n { PowGrows(m, n - 1); }
  }

  lemma ReadStep(bytes: Bytes, i: nat)
    requires |bytes| == 8 && i < 8
    ensures Or(LeValue(bytes[..i]), bytes[i] * Pow2(8 * i), 64) == LeValue(bytes[..i + 1])
  {
    hide LeValue, Pow2, Or;
    assert bytes[..i + 1] == bytes[..i] + [bytes[i]];
    LeValueSnoc(bytes[..i], bytes[i]);
    LeValueSize(bytes[..i]);
    LeValueSize(bytes[..i + 1]);
    PowGrows(8 * i + 8, 64);
    OrShifted(LeValue(bytes[..i]), bytes[i], 8 * i, 64);
  }

  lemma EightDigits(bytes: Bytes)
    requires |bytes| == 8
    ensures LeValue(bytes) == bytes[0] as int + 0x100 * (bytes[1] as int + 0x100 * (bytes[2] as int
                              + 0x100 * (bytes[3] as int + 0x100 * (bytes[4] as int + 0x100 * (bytes[5] as int
                              + 0x100 * (bytes[6] as int + 0x100 * bytes[7] as int))))))
  {
    hide LeValue;
    LeValueMeans(bytes);
    LeValueMeans(bytes[1..]);
    LeValueMeans(bytes[2..]);
    LeValueMeans(bytes[3..]);
    LeValueMeans(bytes[4..]);
    LeValueMeans(bytes[5..]);
    LeValueMeans(bytes[6..]);
    LeValueMeans(bytes[7..]);
    LeValueMeans(bytes[8..]);
    Tails(bytes);
  }

  lemma Tails(bytes: Bytes)
    requires |bytes| == 8
    ensures bytes[1..][1..] == bytes[2..] && bytes[2..][1..] == bytes[3..] && bytes[3..][1..] == bytes[4..]
    ensures bytes[4..][1..] == bytes[5..] && bytes[5..][1..] == bytes[6..] && bytes[6..][1..] == bytes[7..]
    ensures bytes[7..][1..] == bytes[8..] == []
  {
  }

  /** The hand-written little-endian read: value | (byte << shift), eight times, in 64 bits. */
  method ReadLittleEndian(bytes: Bytes) returns (value: nat)
    requires |bytes| == 8
    ensures value == LeValue(bytes)
    ensures value == bytes[0] as int + 0x100 * (bytes[1] as int + 0x100 * (bytes[2] as int + 0x100 * (bytes[3] as int
                     + 0x100 * (bytes[4] as int + 0x100 * (bytes[5] as int + 0x100 * (bytes[6] as int
                     + 0x100 * bytes[7] as int))))))
  {
    hide Or, Pow2, LeValue;
    LeValueMeans(bytes[..0]);
    value := 0;
    var shift, i := 0, 0;
    while i < LIMB_BYTES
      invariant 0 <= i <= 8 && shift == 8 * i && value == LeValue(bytes[..i])
    {
      ReadStep(bytes, i);
      value := Or(value, bytes[i] * Pow2(shift), 64);
      shift := shift + 8;
      i := i + 1;
    }
    assert bytes[..8] == bytes;
    EightDigits(bytes);
  }

  method ReadU64(blob: Bytes, index: nat) returns (out: Outcome<nat>)
    requires |blob| == 96
    ensures out == if index < 3 then ScalarU64(blob, index) else Aborted(Malformed)
  {
    hide LeValue;
    var limb := ReadLimb(blob, index);
    match limb {
      case Aborted(code) => return Aborted(code);
      case Done(bytes) =>
        var value := ReadLittleEndian(bytes);
        return Done(value);
    }
  }

  // ----------------------------------------------------------------- the assertions

  ghost predicate EnvelopeConsistent(a: Attestation)
    requires |a.publicInputs| == 96
  {
    && (forall i :: 0 <= i < 3 ==> IsCanonicalLimb(Scalar(a.publicInputs, i)))
    && Scalar(a.publicInputs, 0)[..8] == a.idi
    && LeValue(Scalar(a.publicInputs, 2)[..8]) == a.attestedAt
  }

  method AssertEnvelopeConsistent(a: Attestation) returns (out: Outcome<()>)
    requires |a.publicInputs| == 96
    ensures out == if EnvelopeConsistent(a) then Done(()) else Aborted(EnvelopeInconsistent)
  {
    var i := 0;
    while i < 3
      invariant 0 <= i <= 3
      invariant forall j :: 0 <= j < i ==> IsCanonicalLimb(Scalar(a.publicInputs, j))
    {
      var s := CopyScalar(a.publicInputs, i);
      var ok := CheckCanonicalLimb(s.value);
      if !ok {
        return Aborted(EnvelopeInconsistent);
      }
      i := i + 1;
    }
    var idi := ReadLimb(a.publicInputs, 0);
    if idi.value != a.idi {
      return Aborted(EnvelopeInconsistent);
    }
    var at := ReadU64(a.publicInputs, 2);
    if at.value != a.attestedAt {
      return Aborted(EnvelopeInconsistent);
    }
    return Done(());
  }

  ghost function ChallengeMatches(a: Attestation, presented: Bytes): Outcome<()>
    requires |a.publicInputs| == 96
  {
    if |presented| != 8 then Aborted(Malformed)
    else
      match Limb(a.publicInputs, 1)
      case Aborted(code) => Aborted(code)
      case Done(l) => if l == presented then Done(()) else Aborted(ChallengeMismatch)
  }

  method AssertChallengeMatches(a: Attestation, presented: Bytes) returns (out: Outcome<()>)
    requires |a.publicInputs| == 96
    ensures out == ChallengeMatches(a, presented)
  {
    if |presented| != LIMB_BYTES {
      return Aborted(Malformed);
    }
    var limb := ReadLimb(a.publicInputs, 1);
    match limb {
      case Aborted(code) => return Aborted(code);
      case Done(l) => return if l == presented then Done(()) else Aborted(ChallengeMismatch);
    }
  }

  /** The envelope is consistent exactly when the zeros, the IDi and the time are where the three scalars have them. */
  lemma EnvelopeMeans(a: Attestation)
    requires |a.publicInputs| == 96
    ensures var blob := a.publicInputs;
            EnvelopeConsistent(a) <==>
              && (forall k :: 8 <= k < 32 || 40 <= k < 64 || 72 <= k < 96 ==> blob[k] == 0)
              && blob[..8] == a.idi && LeValue(blob[64..72]) == a.attestedAt
  {
    hide LeValue;
    var blob := a.publicInputs;
    ScalarBytes(blob, 0);
    ScalarBytes(blob, 1);
    ScalarBytes(blob, 2);
    assert forall k :: 8 <= k < 32 ==> blob[k] == Scalar(blob, 0)[k];
    assert forall k :: 40 <= k < 64 ==> blob[k] == Scalar(blob, 1)[k - 32];
    assert forall k :: 72 <= k < 96 ==> blob[k] == Scalar(blob, 2)[k - 64];
    assert (forall i :: 0 <= i < 3 ==> IsCanonicalLimb(Scalar(blob, i))) <==>
           IsCanonicalLimb(Scalar(blob, 0)) && IsCanonicalLimb(Scalar(blob, 1)) && IsCanonicalLimb(Scalar(blob, 2));
  }

  lemma ScalarBytes(blob: Bytes, i: nat)
    requires |blob| == 96 && i < 3
    ensures forall k :: 0 <= k < 32 ==> Scalar(blob, i)[k] == blob[32 * i + k]
    ensures Scalar(blob, i)[..8] == blob[32 * i..32 * i + 8]
  {
  }

  /** The order in which a presented challenge is refused: its length, the padding of the scalar, then the bytes. */
  lemma ChallengeMeans(a: Attestation, presented: Bytes)
    requires |a.publicInputs| == 96
    ensures var blob := a.publicInputs;
            ChallengeMatches(a, presented) ==
              if |presented| != 8 then Aborted(Malformed)
              else if exists k :: 40 <= k < 64 && blob[k] != 0 then Aborted(EnvelopeInconsistent)
              else if blob[32..40] != presented then Aborted(ChallengeMismatch)
              else Done(())
  {
    ScalarBytes(a.publicInputs, 1);
    assert forall k :: 40 <= k < 64 ==> a.publicInputs[k] == Scalar(a.publicInputs, 1)[k - 32];
    assert forall k :: 8 <= k < 32 ==> Scalar(a.publicInputs, 1)[k] == a.publicInputs[k + 32];
  }

  function Drift(attestedAt: nat, now: nat): (d: nat)
    ensures d == attestedAt - now || d == now - attestedAt
  {
    if attestedAt > now then attestedAt - now else now - attestedAt
  }

  // -------------------------------------------------- agreement with the prover's packing

  /** The blob of a claim: three scalars of 32 bytes each. */
  function Blob(pi: PublicInputs): (blob: Bytes)
    ensures |blob| == 96
  {
    (pi.idi + Zeros(24)) + (pi.r1 + Zeros(24)) + FrBytes(pi.attestedAt)
  }

  lemma U64Bytes(v: nat)
    requires v < TWO_64
    ensures FrBytes(v) == FrBytes(v)[..8] + Zeros(24) && LeValue(FrBytes(v)[..8]) == v
  {
    hide FrBytes, LeValue, Pow2;
    LimbOfScalar(v);
    assert FrBytes(v)[8..] == Zeros(24);
    assert FrBytes(v) == FrBytes(v)[..8] + FrBytes(v)[8..];
  }

  /** What public_inputs_bytes emits for the wire form of a claim is the claim's blob. */
  lemma ProverEmitsBlob(r: nat, pi: PublicInputs, pis: seq<nat>, raws: seq<Bytes>)
    requires IsOrder(r) && pi.Valid() && ToFr(r, pi) == Some(pis)
    requires |raws| == |pis| && forall i :: 0 <= i < |pis| ==> raws[i] == FrBytes(pis[i])
    ensures PublicInputsBytes(r, raws) == Some(Blob(pi))
  {
    hide FrBytes, LeValue, ToFr, ParseFr;
    DecodeEncode(r, pi);
    LimbIsCanonical(r, pi.idi);
    LimbIsCanonical(r, pi.r1);
    forall i | 0 <= i < 3 ensures ParseFr(r, raws[i]) == Some(pis[i]) {
      ParseOfEncoding(r, pis[i], raws[i]);
    }
    ParsedAll(r, raws, pis, 3);
    assert pis[..3] == pis;
    FrBytesOfLimb(pi.idi);
    FrBytesOfLimb(pi.r1);
    assert Pack(pis, 1) == FrBytes(pis[0]);
    assert Pack(pis, 2) == FrBytes(pis[0]) + FrBytes(pis[1]);
    assert Pack(pis, 3) == FrBytes(pis[0]) + FrBytes(pis[1]) + FrBytes(pis[2]);
    assert pis == [pis[0], pis[1], pis[2]];
  }

  lemma {:induction false} ParsedAll(r: nat, raws: seq<Bytes>, pis: seq<nat>, n: nat)
    requires |raws| == |pis| && n <= |pis|
    requires forall i :: 0 <= i < |pis| ==> ParseFr(r, raws[i]) == Some(pis[i])
    ensures ParsedPrefix(r, raws, n) == Some(pis[..n])
  {
    if n > 0 {
      ParsedAll(r, raws, pis, n - 1);
      assert pis[..n] == pis[..n - 1] + [pis[n - 1]];
    }
  }

  lemma ParseOfEncoding(r: nat, f: nat, raw: Bytes)
    requires IsOrder(r) && f < r && raw == FrBytes(f)
    ensures ParseFr(r, raw) == Some(f)
  {
    FrBytesValue(f);
    assert raw[..32] == raw;
  }

  lemma BlobScalars(pi: PublicInputs)
    requires pi.Valid()
    ensures forall i :: 0 <= i < 3 ==> IsCanonicalLimb(Scalar(Blob(pi), i))
    ensures Scalar(Blob(pi), 0)[..8] == pi.idi && Scalar(Blob(pi), 1)[..8] == pi.r1
    ensures LeValue(Scalar(Blob(pi), 2)[..8]) == pi.attestedAt
  {
    hide FrBytes, LeValue;
    U64Bytes(pi.attestedAt);
    assert Scalar(Blob(pi), 0) == pi.idi + Zeros(24);
    assert Scalar(Blob(pi), 1) == pi.r1 + Zeros(24);
    assert Scalar(Blob(pi), 2) == FrBytes(pi.attestedAt);
  }

  /** The on-chain checks accept (idi, attested_at, r1) with a blob exactly when it is the prover's blob. */
  lemma AcceptedBlobIsUnique(a: Attestation, r1: Block)
    requires a.Valid()
    ensures EnvelopeConsistent(a) && ChallengeMatches(a, r1) == Done(()) <==>
            a.publicInputs == Blob(PublicInputs(a.idi, r1, a.attestedAt))
  {
    hide FrBytes, LeValue, ChallengeMatches;
    var pi, blob := PublicInputs(a.idi, r1, a.attestedAt), a.publicInputs;
    BlobScalars(pi);
    ChallengeMeaning(a, r1);
    if EnvelopeConsistent(a) && ChallengeMatches(a, r1) == Done(()) {
      U64Bytes(a.attestedAt);
      LeValueInjective(Scalar(blob, 2)[..8], FrBytes(a.attestedAt)[..8]);
      CanonicalScalar(Scalar(blob, 0));
      CanonicalScalar(Scalar(blob, 1));
      CanonicalScalar(Scalar(blob, 2));
      assert blob == Scalar(blob, 0) + Scalar(blob, 1) + Scalar(blob, 2);
    }
  }

  /** The blob of a claim byte by byte: IDi, r1 and the time at 0, 32 and 64, zeros elsewhere. */
  lemma BlobMeans(pi: PublicInputs, blob: Bytes)
    requires pi.Valid()
    ensures blob == Blob(pi) <==>
            && |blob| == 96 && blob[..8] == pi.idi && blob[32..40] == pi.r1
            && LeValue(blob[64..72]) == pi.attestedAt
            && forall k :: 8 <= k < 32 || 40 <= k < 64 || 72 <= k < 96 ==> blob[k] == 0
  {
    if |blob| == 96 {
      hide Blob, LeValue, ChallengeMatches, EnvelopeConsistent;
      var a := Attestation(SUPPORTED_ALG, pi.idi, pi.attestedAt, [], blob);
      AcceptedBlobIsUnique(a, pi.r1);
      EnvelopeMeans(a);
      ChallengeMeans(a, pi.r1);
    }
  }

  lemma ChallengeMeaning(a: Attestation, r1: Block)
    requires |a.publicInputs| == 96
    ensures ChallengeMatches(a, r1) == Done(()) <==>
            IsCanonicalLimb(Scalar(a.publicInputs, 1)) && Scalar(a.publicInputs, 1)[..8] == r1
  {
  }

  lemma CanonicalScalar(s: Bytes)
    requires IsCanonicalLimb(s)
    ensures s == s[..8] + Zeros(24)
  {
  }
}
