// The prover's native pre-checks, proof generation with an opaque Groth16, and the
// verification of an attestation's whole envelope.
module Prover {
  import opened Bits
  import opened Results
  import opened Modes
  import opened Abi
  import opened Session
  import opened DesLaws
  import opened Field
  import opened R1cs
  import opened Interpolation
  import opened Gadgets
  import opened DesCircuit
  import opened SessionCircuit
  import opened CircuitTheorem

  datatype ProverError = MacMismatch | TidMismatch | C1bMismatch | ProveFailed

  datatype ProveRequest = ProveRequest(idm: Block, c1b: Block, c2a: Block, auth2: Auth2, gsk: Block, usk: Block,
                                       attestedAt: nat)

  /** The session recovered from a request, or the typed error of the first check that fails. */
  function PreChecks(c: BlockCipher, req: ProveRequest): Result<FelicaCircuit, ProverError> {
    var k := DeriveKeys(c, req.gsk, req.usk, req.idm);
    var r1 := c.TdesDecrypt(req.c1b, k.l, k.beta);
    if c.TdesEncrypt(r1, k.l, k.beta) != req.c1b then Err(C1bMismatch)
    else
      var r2 := c.TdesDecrypt(req.c2a, k.l, k.beta);
      if c.TdesEncrypt(r2, k.l, k.beta) != req.c2a then Err(C1bMismatch)
      else
        match c.CbcDecrypt(req.auth2, r2)
        case None => Err(MacMismatch)
        case Some(pt) =>
          if |pt| != 32 then Err(MacMismatch)
          else if c.CommandMac(MAC_CODE, pt[..24]) != pt[24..32] then Err(MacMismatch)
          else if pt[2..8] != r1[2..8] then Err(TidMismatch)
          else Ok(FelicaCircuit(pt[8..16], r1, req.attestedAt, req.gsk, req.usk, req.idm, req.c1b, req.c2a, r2,
                                req.auth2))
  }

  /** f is a session with the request's bytes; only idi, r1 and r2 are free. */
  ghost predicate ForRequest(f: FelicaCircuit, req: ProveRequest) {
    && f.gsk == req.gsk && f.usk == req.usk && f.idm == req.idm && f.c1b == req.c1b && f.c2a == req.c2a
    && f.auth2 == req.auth2 && f.attestedAt == req.attestedAt
  }

  /** The re-encryption checks are tautological: C1bMismatch is never returned. */
  lemma NeverC1bMismatch(c: BlockCipher, req: ProveRequest)
    requires c.Invertible()
    ensures PreChecks(c, req) != Err(C1bMismatch)
  {
    var k := DeriveKeys(c, req.gsk, req.usk, req.idm);
    TdesInverse(c, req.c1b, k.l, k.beta);
    TdesInverse(c, req.c2a, k.l, k.beta);
  }

  /** What the pre-checks return: the MAC is compared first, then the TID; the session is read off the plaintext. */
  lemma PreChecksMean(c: BlockCipher, req: ProveRequest, k: SessionKeys, r1: Block, r2: Block, pt: Bytes)
    requires c.Invertible() && |pt| == 32
    requires k.l == XorBytes(req.gsk, req.idm) && c.dec(k.alpha, k.l) == req.usk && c.dec(k.beta, k.alpha) == k.l
    requires c.enc(c.dec(req.c1b, k.l), k.beta) == c.enc(r1, k.l)
    requires c.enc(c.dec(req.c2a, k.l), k.beta) == c.enc(r2, k.l)
    requires XorBytes(pt[..8], [0, 0, 0, 0, 0, 0, 0, 0]) == c.dec(req.auth2[..8], r2)
    requires XorBytes(pt[8..16], req.auth2[..8]) == c.dec(req.auth2[8..16], r2)
    requires XorBytes(pt[16..24], req.auth2[8..16]) == c.dec(req.auth2[16..24], r2)
    requires XorBytes(pt[24..32], req.auth2[16..24]) == c.dec(req.auth2[24..32], r2)
    ensures var mac := c.enc(c.enc(c.enc([34, 0x13, 0, 0, 0, 0, 0, 0], pt[..8]), pt[8..16]), pt[16..24]);
            PreChecks(c, req) ==
              if mac != pt[24..32] then Err(MacMismatch)
              else if pt[2..8] != r1[2..8] then Err(TidMismatch)
              else Ok(FelicaCircuit(idi := pt[8..16], r1 := r1, attestedAt := req.attestedAt, gsk := req.gsk,
                                    usk := req.usk, idm := req.idm, c1b := req.c1b, c2a := req.c2a, r2 := r2,
                                    auth2 := req.auth2))
  {
    hide XorBytes, DeriveKeys, BlockCipher.CommandMac, BlockCipher.CbcDecryptFrom, BlockCipher.TdesEncrypt,
         BlockCipher.TdesDecrypt;
    KeysMean(c, req.gsk, req.usk, req.idm, k);
    TdesMeans(c, r1, req.c1b, k.l, k.beta);
    TdesMeans(c, r2, req.c2a, k.l, k.beta);
    PlaintextMeans(c, req.auth2, r2, pt);
    MacMeans(c, pt);
  }

  /** A session that meets the relations is the one the pre-checks recover. */
  lemma RelationsAreRecovered(c: BlockCipher, req: ProveRequest, f: FelicaCircuit)
    requires c.Invertible() && ForRequest(f, req) && Relations(c, f)
    ensures PreChecks(c, req) == Ok(f)
  {
    var k := DeriveKeys(c, req.gsk, req.usk, req.idm);
    TdesInverse(c, f.r1, k.l, k.beta);
    TdesInverse(c, f.r2, k.l, k.beta);
  }

  lemma RecoveredMeetsRelations(c: BlockCipher, req: ProveRequest)
    requires PreChecks(c, req).Ok?
    ensures ForRequest(PreChecks(c, req).value, req) && Relations(c, PreChecks(c, req).value)
  {
  }

  /** The pre-checks pass exactly when some (idi, r1, r2) meets the relations for the request's bytes. */
  lemma PreChecksExact(c: BlockCipher, req: ProveRequest)
    requires c.Invertible()
    ensures PreChecks(c, req).Ok? <==> exists f: FelicaCircuit :: ForRequest(f, req) && Relations(c, f)
    ensures forall f: FelicaCircuit :: ForRequest(f, req) && Relations(c, f) ==> PreChecks(c, req) == Ok(f)
  {
    hide PreChecks, Relations;
    forall f: FelicaCircuit | ForRequest(f, req) && Relations(c, f) ensures PreChecks(c, req) == Ok(f) {
      RelationsAreRecovered(c, req, f);
    }
    if PreChecks(c, req).Ok? {
      RecoveredMeetsRelations(c, req);
      assert ForRequest(PreChecks(c, req).value, req);
    }
  }

  /** They pass exactly when the hint-built assignment of some session for the request satisfies the circuit. */
  lemma PreChecksDecideHints(c: BlockCipher, p: Setup, req: ProveRequest)
    requires p.Valid() && IsDes(c, p.t) && req.attestedAt < TWO_64
    ensures PreChecks(c, req).Ok? <==>
            exists f: FelicaCircuit :: ForRequest(f, req) && HintsSatisfy(c, p, f)
    ensures forall f: FelicaCircuit ::
              ForRequest(f, req) && HintsSatisfy(c, p, f) ==> PreChecks(c, req) == Ok(f)
  {
    hide PreChecks, Relations, HintsSatisfy, IsDes;
    DesIsInvertible(c, p.t);
    PreChecksExact(c, req);
    forall f: FelicaCircuit | ForRequest(f, req)
      ensures HintsSatisfy(c, p, f) <==> Relations(c, f)
    {
      HintsSatisfyIff(c, p, f);
    }
    if PreChecks(c, req).Ok? {
      var f: FelicaCircuit :| ForRequest(f, req) && Relations(c, f);
      assert ForRequest(f, req) && HintsSatisfy(c, p, f);
    }
  }

  /** The assignment satisfies the published circuit, and its witness wires carry what the request fixes. */
  ghost predicate AnswersRequest(c: BlockCipher, p: Setup, asg: Assignment, req: ProveRequest)
    requires p.Shaped() && p.r > 0
  {
    var w := WitnessStage(BLANK).1;
    && |asg.inputs| == 3 && asg.inputs[2] == req.attestedAt
    && Satisfies(p.r, asg, Synthesize(c, p, BLANK).cons)
    && Carries(asg, w.gsk, req.gsk) && Carries(asg, w.usk, req.usk) && Carries(asg, w.idm, req.idm)
    && Carries(asg, w.c1b, req.c1b) && Carries(asg, w.c2a, req.c2a) && Carries(asg, w.auth2, req.auth2)
  }

  lemma CarriedOnce(asg: Assignment, bits: seq<Bit>, a: Bytes, b: Bytes)
    requires Carries(asg, bits, a) && Carries(asg, bits, b)
    ensures a == b
  {
    LeBitsInjective(a, b);
  }

  /** Whatever its other wires hold, the assignment is about the one session that the pre-checks recover. */
  lemma AnswerIsRecovered(c: BlockCipher, p: Setup, asg: Assignment, req: ProveRequest)
    requires p.Valid() && IsDes(c, p.t) && AnswersRequest(c, p, asg, req)
    ensures PreChecks(c, req).Ok?
    ensures var f := PreChecks(c, req).value;
            asg.inputs == SessionCircuit.PublicInputs(f.idi, f.r1, f.attestedAt) && WitnessStage(BLANK).1.Carry(asg, f)
  {
    hide PreChecks, Relations, IsDes, IsPrime, Interpolates, Synthesize, Satisfies, WitnessStage, Carries, LeValue;
    var w := WitnessStage(BLANK).1;
    var f, _ := CircuitSound(c, p, BLANK, asg);
    CarriedOnce(asg, w.gsk, f.gsk, req.gsk);
    CarriedOnce(asg, w.usk, f.usk, req.usk);
    CarriedOnce(asg, w.idm, f.idm, req.idm);
    CarriedOnce(asg, w.c1b, f.c1b, req.c1b);
    CarriedOnce(asg, w.c2a, f.c2a, req.c2a);
    CarriedOnce(asg, w.auth2, f.auth2, req.auth2);
    DesIsInvertible(c, p.t);
    RelationsAreRecovered(c, req, f);
  }

  lemma RecoveredAnswers(c: BlockCipher, p: Setup, req: ProveRequest)
    requires p.Valid() && IsDes(c, p.t) && req.attestedAt < TWO_64 && PreChecks(c, req).Ok?
    ensures AnswersRequest(c, p, Synthesize(c, p, PreChecks(c, req).value).Asg(), req)
  {
    hide PreChecks, Relations, IsDes, IsPrime, Interpolates, Synthesize, Satisfies, WitnessStage, Carries, LeValue;
    var f := PreChecks(c, req).value;
    RecoveredMeetsRelations(c, req);
    CircuitComplete(c, p, f);
    ConstraintsAreFixed(c, p, f, BLANK);
    HintsCarry(c, p, f, BLANK);
  }

  /**
   * They pass exactly when any values at all of the remaining wires satisfy the published circuit with the request's
   * bytes, and every such assignment has the public inputs of the session they recover.
   */
  lemma PreChecksDecideCircuit(c: BlockCipher, p: Setup, req: ProveRequest)
    requires p.Valid() && IsDes(c, p.t) && req.attestedAt < TWO_64
    ensures PreChecks(c, req).Ok? <==> exists asg: Assignment :: AnswersRequest(c, p, asg, req)
    ensures forall asg: Assignment :: AnswersRequest(c, p, asg, req) ==>
              PreChecks(c, req).Ok? && asg.inputs == SessionCircuit.PublicInputs(
                PreChecks(c, req).value.idi, PreChecks(c, req).value.r1, req.attestedAt)
  {
    hide PreChecks, IsDes, IsPrime, Interpolates, Synthesize, AnswersRequest, LeValue;
    forall asg: Assignment | AnswersRequest(c, p, asg, req)
      ensures PreChecks(c, req).Ok?
      ensures asg.inputs == SessionCircuit.PublicInputs(
                PreChecks(c, req).value.idi, PreChecks(c, req).value.r1, req.attestedAt)
    {
      AnswerIsRecovered(c, p, asg, req);
      RecoveredMeetsRelations(c, req);
    }
    if PreChecks(c, req).Ok? {
      RecoveredAnswers(c, p, req);
    }
  }

  // ------------------------------------------------------------ proving and verifying

  type Proof = Bytes

  /** Groth16 with a fixed key: proof generation, point decoding and the pairing check are opaque. */
  datatype Groth16 = Groth16(
    prove: FelicaCircuit -> Option<Proof>,
    decodes: Proof -> bool,
    verify: (seq<nat>, Proof) -> bool)
  {
    /** Completeness: a session whose wire values satisfy the constraints gets a proof that decodes and verifies. */
    ghost predicate CompleteFor(c: BlockCipher, p: Setup)
      requires p.Shaped() && p.r > 0
    {
      forall f: FelicaCircuit :: f.attestedAt < TWO_64 && HintsSatisfy(c, p, f) ==>
        && prove(f).Some?
        && decodes(prove(f).value)
        && verify(SessionCircuit.PublicInputs(f.idi, f.r1, f.attestedAt), prove(f).value)
    }
  }

  const ALG: string := "groth16-bn254"

  /** The attestation with its wire proof: scalars in their 32-byte form. */
  datatype Attestation = Attestation(idi: Block, attestedAt: nat, alg: string, proof: Proof, publicInputs: seq<Bytes>)

  function WireInputs(pis: seq<nat>): (raws: seq<Bytes>)
    ensures |raws| == |pis| && forall i :: 0 <= i < |pis| ==> raws[i] == FrBytes(pis[i])
  {
    seq(|pis|, i requires 0 <= i < |pis| => FrBytes(pis[i]))
  }

  /** The wire form of the public inputs of a claim. */
  function ClaimInputs(idi: Block, r1: Block, attestedAt: nat): seq<Bytes> {
    WireInputs(SessionCircuit.PublicInputs(idi, r1, attestedAt))
  }

  /** IDi, r1 and the time, in that order, each as 32 bytes with the lowest first. */
  lemma ClaimInputsMean(idi: Block, r1: Block, attestedAt: nat)
    requires attestedAt < TWO_64
    ensures var raws := ClaimInputs(idi, r1, attestedAt);
            && |raws| == 3 && raws[0] == idi + Zeros(24) && raws[1] == r1 + Zeros(24)
            && |raws[2]| == 32 && LeValue(raws[2]) == attestedAt
  {
    hide LeValue, FrBytes;
    LimbBound(idi);
    LimbBound(r1);
    FrBytesOfLimb(idi);
    FrBytesOfLimb(r1);
    FrBytesValue(attestedAt);
  }

  function Prove(c: BlockCipher, g: Groth16, r: nat, req: ProveRequest): Result<Attestation, ProverError>
    requires r > 0
  {
    match PreChecks(c, req)
    case Err(e) => Err(e)
    case Ok(f) =>
      match g.prove(f)
      case None => Err(ProveFailed)
      case Some(proof) =>
        match ToFr(r, Abi.PublicInputs(f.idi, f.r1, req.attestedAt))
        case None => Err(ProveFailed)
        case Some(pis) =>
          if !g.verify(pis, proof) then Err(ProveFailed)
          else Ok(Attestation(f.idi, req.attestedAt, ALG, proof, WireInputs(pis)))
  }

  datatype VerifyError = ProofInvalid | EnvelopeInconsistent | MalformedAttestation

  function VerifyDetailed(g: Groth16, r: nat, att: Attestation): Result<(), VerifyError> {
    if att.alg != ALG || !g.decodes(att.proof) then Err(MalformedAttestation)
    else
      match ParsePublicInputs(r, att.publicInputs)
      case None => Err(MalformedAttestation)
      case Some(pis) =>
        if !g.verify(pis, att.proof) then Err(ProofInvalid)
        else
          match FromFr(pis)
          case None => Err(MalformedAttestation)
          case Some(pi) =>
            if pi.idi != att.idi then Err(EnvelopeInconsistent)
            else if pi.attestedAt != att.attestedAt then Err(EnvelopeInconsistent)
            else Ok(())
  }

  /** The wire scalars are those of the envelope's idi and timestamp and this r1, and the proof verifies for them. */
  ghost predicate ProvesClaim(g: Groth16, r: nat, att: Attestation, r1: Block)
    requires r > 0
  {
    var pis := ToFr(r, Abi.PublicInputs(att.idi, r1, att.attestedAt));
    && att.attestedAt < TWO_64
    && pis.Some? && ParsePublicInputs(r, att.publicInputs) == pis
    && g.verify(pis.value, att.proof)
  }

  /** An attestation is accepted exactly when its proof is about the claim its envelope shows. */
  lemma VerifiedExactly(g: Groth16, r: nat, att: Attestation)
    requires IsOrder(r)
    ensures VerifyDetailed(g, r, att) == Ok(()) <==>
            att.alg == ALG && g.decodes(att.proof) && exists r1: Block :: ProvesClaim(g, r, att, r1)
  {
    hide FrToLe, CanonicalFr, ParseFr, ToFr, FromFr, ParsePublicInputs;
    if VerifyDetailed(g, r, att) == Ok(()) {
      var pis := ParsePublicInputs(r, att.publicInputs).value;
      ParsedAreReduced(r, att.publicInputs);
      EncodeDecode(r, pis);
      var pi := FromFr(pis).value;
      assert pi == Abi.PublicInputs(att.idi, pi.r1, att.attestedAt);
      assert ProvesClaim(g, r, att, pi.r1);
    }
    if r1: Block :| ProvesClaim(g, r, att, r1) {
      DecodeEncode(r, Abi.PublicInputs(att.idi, r1, att.attestedAt));
    }
  }

  /** The order in which an attestation is refused: its form, the proof, then what the envelope claims. */
  lemma VerifyOrder(g: Groth16, r: nat, att: Attestation)
    requires r < TWO_254
    ensures var raws, res := att.publicInputs, VerifyDetailed(g, r, att);
            if att.alg != "groth16-bn254" || !g.decodes(att.proof) || |raws| != 3
               || exists i :: 0 <= i < 3 && (|raws[i]| < 32 || LeValue(raws[i][..32]) >= r)
            then res == Err(MalformedAttestation)
            else
              var pis := [LeValue(raws[0][..32]), LeValue(raws[1][..32]), LeValue(raws[2][..32])];
              res == if !g.verify(pis, att.proof) then Err(ProofInvalid)
                     else if exists i :: 0 <= i < 3 && pis[i] >= TWO_64 then Err(MalformedAttestation)
                     else if pis[0] != LeValue(att.idi) || pis[2] != att.attestedAt then Err(EnvelopeInconsistent)
                     else Ok(())
  {
    hide LeValue, FrToLe;
    var parsed := ParsePublicInputs(r, att.publicInputs);
    if parsed.Some? {
      var pis := parsed.value;
      LimbOfScalar(pis[0]);
      LimbOfScalar(pis[1]);
      LimbOfScalar(pis[2]);
      assert pis == [pis[0], pis[1], pis[2]];
      var idi := FrToLe(pis[0], 8);
      if idi.Some? && LeValue(att.idi) == pis[0] {
        LeValueInjective(idi.value, att.idi);
      }
    }
  }

  lemma ParsedAreReduced(r: nat, raws: seq<Bytes>)
    ensures var pis := ParsePublicInputs(r, raws); pis.Some? ==> forall i :: 0 <= i < |pis.value| ==> pis.value[i] < r
  {
    hide ParseFr;
    var pis := ParsePublicInputs(r, raws);
    if pis.Some? {
      forall i | 0 <= i < |pis.value| ensures pis.value[i] < r {
        ParsedIsReduced(r, raws[i]);
      }
    }
  }

  lemma ParsedIsReduced(r: nat, raw: Bytes)
    ensures ParseFr(r, raw).Some? ==> ParseFr(r, raw).value < r
  {
  }

  lemma ParsedEncodings(r: nat, pis: seq<nat>)
    requires IsOrder(r) && |pis| == 3 && forall i :: 0 <= i < 3 ==> pis[i] < r
    ensures ParsePublicInputs(r, WireInputs(pis)) == Some(pis)
  {
    hide ParseFr, FrBytes;
    var raws := WireInputs(pis);
    forall i | 0 <= i < 3 ensures ParseFr(r, raws[i]) == Some(pis[i]) {
      ParsedEncoding(r, pis[i]);
    }
    var parsed := ParsedPrefix(r, raws, 3);
    assert parsed.Some?;
    assert parsed.value == pis;
  }

  lemma ParsedEncoding(r: nat, f: nat)
    requires IsOrder(r) && f < r
    ensures ParseFr(r, FrBytes(f)) == Some(f)
  {
    FrBytesValue(f);
    assert FrBytes(f)[..32] == FrBytes(f);
  }

  /** The attestation of a session verifies if its proof does. */
  lemma OwnAttestationVerifies(g: Groth16, r: nat, idi: Block, r1: Block, attestedAt: nat, proof: Proof)
    requires IsOrder(r) && attestedAt < TWO_64
    requires g.decodes(proof) && g.verify(SessionCircuit.PublicInputs(idi, r1, attestedAt), proof)
    ensures VerifyDetailed(g, r, Attestation(idi, attestedAt, ALG, proof, ClaimInputs(idi, r1, attestedAt))) == Ok(())
    ensures ToFr(r, Abi.PublicInputs(idi, r1, attestedAt)) == Some(SessionCircuit.PublicInputs(idi, r1, attestedAt))
  {
    hide ToFr, FromFr, FrBytes, ParsePublicInputs, LeValue, WireInputs;
    var pi := Abi.PublicInputs(idi, r1, attestedAt);
    DecodeEncode(r, pi);
    LimbIsCanonical(r, idi);
    LimbIsCanonical(r, r1);
    ParsedEncodings(r, SessionCircuit.PublicInputs(idi, r1, attestedAt));
  }

  /** Proving succeeds with the recovered session's claim exactly when the pre-checks pass, and the result verifies. */
  lemma ProveMeansPreChecks(c: BlockCipher, g: Groth16, p: Setup, req: ProveRequest)
    requires p.Valid() && IsDes(c, p.t) && IsOrder(p.r) && g.CompleteFor(c, p) && req.attestedAt < TWO_64
    ensures Prove(c, g, p.r, req).Ok? <==> PreChecks(c, req).Ok?
    ensures Prove(c, g, p.r, req).Ok? ==>
              var att, f := Prove(c, g, p.r, req).value, PreChecks(c, req).value;
              && att.idi == f.idi && att.attestedAt == req.attestedAt
              && att.publicInputs == ClaimInputs(f.idi, f.r1, req.attestedAt) && VerifyDetailed(g, p.r, att) == Ok(())
    ensures Prove(c, g, p.r, req).Err? ==> Prove(c, g, p.r, req) == Err(PreChecks(c, req).error)
  {
    hide PreChecks, Relations, ToFr, VerifyDetailed, WireInputs, SessionCircuit.PublicInputs, HintsSatisfy, IsDes,
         IsPrime,
         Interpolates;
    if PreChecks(c, req).Ok? {
      var f := PreChecks(c, req).value;
      RecoveredMeetsRelations(c, req);
      HintsSatisfyIff(c, p, f);
      OwnAttestationVerifies(g, p.r, f.idi, f.r1, req.attestedAt, g.prove(f).value);
    }
  }
}
