// What the session circuit proves: an assignment satisfies it only if its bytes meet
// the native relations, and the relations are enough for the hints to satisfy it.
module CircuitTheorem {
  import opened Bits
  import opened Modes
  import opened Field
  import opened DesLaws
  import opened R1cs
  import opened Interpolation
  import opened Gadgets
  import opened DesCircuit
  import opened Session
  import opened SessionCircuit
  import opened Shape

  /** The whole circuit as it is synthesised for one session. */
  function Synthesize(c: BlockCipher, p: Setup, f: FelicaCircuit): (s: State)
    requires p.Shaped()
    ensures s.inputs == PublicInputs(f.idi, f.r1, f.attestedAt)
  {
    hide WitnessStage, KeyAndChallengeStage, TranscriptStage;
    var (s1, w) := WitnessStage(f);
    var s2 := KeyAndChallengeStage(c, p, s1, w, f);
    WiresOkAfter(w, |s1.wires|, |s2.wires|);
    TranscriptStage(c, p, s2, w.auth2, w.r2, w.r1, w.idi, f.auth2, f.r2)
  }

  lemma KeyAndChallengeSound(c: BlockCipher, p: Setup, s: State, w: Wires, f0: FelicaCircuit, asg: Assignment,
                             f: FelicaCircuit)
    requires p.Valid() && IsDes(c, p.t) && w.Ok(|s.wires|)
    requires Satisfies(p.r, asg, KeyAndChallengeStage(c, p, s, w, f0).cons) && w.Carry(asg, f)
    ensures ChallengeRelations(c, f, DeriveKeys(c, f.gsk, f.usk, f.idm))
  {
    hide IsPrime, Interpolates, Satisfies, KeyStage, ChallengeStage, DeriveKeys, Carries, IsDes, BitsOk;
    var k0, k := DeriveKeys(c, f0.gsk, f0.usk, f0.idm), DeriveKeys(c, f.gsk, f.usk, f.idm);
    var (s1, l, beta) := KeyStage(p, s, w.gsk, w.usk, w.idm, f0.usk, k0);
    WiresOkAfter(w, |s.wires|, |s1.wires|);
    var s2 := ChallengeStage(c, p, s1, w.r1, l, beta, w.c1b, f0.r1, k0.l, k0.beta);
    WiresOkAfter(w, |s1.wires|, |s2.wires|);
    BitsOkGrow(l, |s1.wires|, |s2.wires|);
    BitsOkGrow(beta, |s1.wires|, |s2.wires|);
    var s3 := ChallengeStage(c, p, s2, w.r2, l, beta, w.c2a, f0.r2, k0.l, k0.beta);
    SatisfiesPrefix(p.r, asg, s2.cons, s3.cons);
    SatisfiesPrefix(p.r, asg, s1.cons, s2.cons);
    KeyStageSound(c, p, s, w.gsk, w.usk, w.idm, f0.usk, k0, asg, f);
    ChallengeStageSound(c, p, s1, w.r1, l, beta, w.c1b, f0.r1, k0.l, k0.beta, asg, f.r1, k, f.c1b);
    ChallengeStageSound(c, p, s2, w.r2, l, beta, w.c2a, f0.r2, k0.l, k0.beta, asg, f.r2, k, f.c2a);
  }

  lemma KeyAndChallengeComplete(c: BlockCipher, p: Setup, s: State, w: Wires, f: FelicaCircuit)
    requires p.Valid() && IsDes(c, p.t) && w.Ok(|s.wires|) && Consistent(p.r, s) && w.Carry(s.Asg(), f)
    requires ChallengeRelations(c, f, DeriveKeys(c, f.gsk, f.usk, f.idm))
    ensures Consistent(p.r, KeyAndChallengeStage(c, p, s, w, f))
  {
    hide IsPrime, Interpolates, Satisfies, KeyStage, ChallengeStage, DeriveKeys, Carries, IsDes, BitsOk;
    var k := DeriveKeys(c, f.gsk, f.usk, f.idm);
    var (s1, l, beta) := KeyStage(p, s, w.gsk, w.usk, w.idm, f.usk, k);
    KeyStageComplete(c, p, s, w.gsk, w.usk, w.idm, f);
    WiresGrow(s, s1, w, f);
    KeyStageSound(c, p, s, w.gsk, w.usk, w.idm, f.usk, k, s1.Asg(), f);
    ChallengeStageComplete(c, p, s1, w.r1, l, beta, w.c1b, f.r1, k, f.c1b);
    var s2 := ChallengeStage(c, p, s1, w.r1, l, beta, w.c1b, f.r1, k.l, k.beta);
    WiresGrow(s1, s2, w, f);
    BitsOkGrow(l, |s1.wires|, |s2.wires|);
    BitsOkGrow(beta, |s1.wires|, |s2.wires|);
    CarriesGrow(s1, s2, l, k.l);
    CarriesGrow(s1, s2, beta, k.beta);
    ChallengeStageComplete(c, p, s2, w.r2, l, beta, w.c2a, f.r2, k, f.c2a);
  }

  /** An assignment whose witness wires carry a session satisfies the circuit only if the relations hold. */
  lemma CircuitSoundFor(c: BlockCipher, p: Setup, f0: FelicaCircuit, asg: Assignment, f: FelicaCircuit)
    requires p.Valid() && IsDes(c, p.t)
    requires Satisfies(p.r, asg, Synthesize(c, p, f0).cons) && WitnessStage(f0).1.Carry(asg, f)
    ensures Relations(c, f)
  {
    hide IsPrime, Interpolates, Satisfies, WitnessStage, KeyAndChallengeStage, TranscriptStage, Carries, IsDes, BitsOk,
         DeriveKeys, Plaintext;
    var (s1, w) := WitnessStage(f0);
    var s2 := KeyAndChallengeStage(c, p, s1, w, f0);
    WiresOkAfter(w, |s1.wires|, |s2.wires|);
    SatisfiesPrefix(p.r, asg, s2.cons, Synthesize(c, p, f0).cons);
    KeyAndChallengeSound(c, p, s1, w, f0, asg, f);
    TranscriptStageSound(c, p, s2, w.auth2, w.r2, w.r1, w.idi, f0.auth2, f0.r2, asg, f);
  }

  /**
   * Soundness: from every satisfying assignment, session bytes that meet D1-D3 and C1-C6 can be read, and the public
   * inputs are the little-endian values of their IDi and r1 and the time.
   */
  lemma CircuitSound(c: BlockCipher, p: Setup, f0: FelicaCircuit, asg: Assignment)
    returns (f: FelicaCircuit, k: SessionKeys)
    requires p.Valid() && IsDes(c, p.t) && |asg.inputs| == 3
    requires Satisfies(p.r, asg, Synthesize(c, p, f0).cons)
    ensures Relations(c, f) && asg.inputs == [LeValue(f.idi), LeValue(f.r1), f.attestedAt]
    ensures WitnessStage(f0).1.Carry(asg, f)
    ensures k.l == XorBytes(f.gsk, f.idm) && c.dec(k.alpha, k.l) == f.usk && c.dec(k.beta, k.alpha) == k.l
    ensures c.enc(c.dec(f.c1b, k.l), k.beta) == c.enc(f.r1, k.l)
    ensures c.enc(c.dec(f.c2a, k.l), k.beta) == c.enc(f.r2, k.l)
  {
    hide IsPrime, Interpolates, Satisfies, WitnessStage, KeyAndChallengeStage, TranscriptStage, Carries, IsDes, BitsOk,
         Relations, LeValue, XorBytes, DeriveKeys, Plaintext;
    var (s1, w) := WitnessStage(f0);
    SatisfiesPrefix(p.r, asg, s1.cons, Synthesize(c, p, f0).cons) by {
      var s2 := KeyAndChallengeStage(c, p, s1, w, f0);
      WiresOkAfter(w, |s1.wires|, |s2.wires|);
      GrowsTrans(s1, s2, Synthesize(c, p, f0));
    }
    f := WitnessStageSound(p, f0, asg);
    CircuitSoundFor(c, p, f0, asg, f);
    DesIsInvertible(c, p.t);
    k := DeriveKeys(c, f.gsk, f.usk, f.idm);
    KeysMean(c, f.gsk, f.usk, f.idm, k);
    ChallengesMean(c, f);
    assert ChallengeRelations(c, f, k);
  }

  /** Completeness: when the bytes meet the relations, the values computed from them satisfy the circuit. */
  lemma CircuitComplete(c: BlockCipher, p: Setup, f: FelicaCircuit)
    requires p.Valid() && IsDes(c, p.t) && f.attestedAt < 0x1_0000_0000_0000_0000
    requires Relations(c, f)
    ensures Consistent(p.r, Synthesize(c, p, f))
  {
    hide IsPrime, Interpolates, Satisfies, WitnessStage, KeyAndChallengeStage, TranscriptStage, Carries, IsDes, BitsOk,
         DeriveKeys, Plaintext;
    var (s1, w) := WitnessStage(f);
    WitnessStageComplete(p, f);
    KeyAndChallengeComplete(c, p, s1, w, f);
    var s2 := KeyAndChallengeStage(c, p, s1, w, f);
    WiresGrow(s1, s2, w, f);
    TranscriptStageComplete(c, p, s2, w.auth2, w.r2, w.r1, w.idi, f);
  }

  /** The values computed from f carry the bytes of f on the published witness wires. */
  lemma HintsCarry(c: BlockCipher, p: Setup, f: FelicaCircuit, f0: FelicaCircuit)
    requires p.Valid() && f.attestedAt < 0x1_0000_0000_0000_0000
    ensures WitnessStage(f0).1.Carry(Synthesize(c, p, f).Asg(), f)
  {
    hide IsPrime, Interpolates, Satisfies, WitnessStage, KeyAndChallengeStage, TranscriptStage, Carries, BitsOk;
    var (s1, w) := WitnessStage(f);
    WitnessStageComplete(p, f);
    var s2 := KeyAndChallengeStage(c, p, s1, w, f);
    WiresOkAfter(w, |s1.wires|, |s2.wires|);
    GrowsTrans(s1, s2, Synthesize(c, p, f));
    WiresGrow(s1, Synthesize(c, p, f), w, f);
    WitnessShape(f0, f);
  }

  /** The values computed from f satisfy the circuit. */
  ghost predicate HintsSatisfy(c: BlockCipher, p: Setup, f: FelicaCircuit)
    requires p.Shaped() && p.r > 0
  {
    Consistent(p.r, Synthesize(c, p, f))
  }

  /** The hint-built assignment satisfies the circuit exactly when the given bytes meet the relations. */
  lemma HintsSatisfyIff(c: BlockCipher, p: Setup, f: FelicaCircuit)
    requires p.Valid() && IsDes(c, p.t) && f.attestedAt < 0x1_0000_0000_0000_0000
    ensures HintsSatisfy(c, p, f) <==> Relations(c, f)
  {
    hide IsPrime, Interpolates, Satisfies, WitnessStage, KeyAndChallengeStage, TranscriptStage, Carries, IsDes, BitsOk,
         Relations;
    if Relations(c, f) {
      CircuitComplete(c, p, f);
    }
    if Consistent(p.r, Synthesize(c, p, f)) {
      HintsCarry(c, p, f, f);
      CircuitSoundFor(c, p, f, Synthesize(c, p, f).Asg(), f);
    }
  }

  /** The circuit of the all-zero session, from which the proving key is generated. */
  const BLANK: FelicaCircuit := FelicaCircuit(ZERO_BLOCK, ZERO_BLOCK, 0, ZERO_BLOCK, ZERO_BLOCK, ZERO_BLOCK,
                                              ZERO_BLOCK, ZERO_BLOCK, ZERO_BLOCK,
                                              ZERO_BLOCK + ZERO_BLOCK + ZERO_BLOCK + ZERO_BLOCK)

  /** The constraints are the same for every session, so one key serves them all. */
  lemma ConstraintsAreFixed(c: BlockCipher, p: Setup, f: FelicaCircuit, f': FelicaCircuit)
    requires p.Shaped()
    ensures Synthesize(c, p, f).cons == Synthesize(c, p, f').cons
    ensures |Synthesize(c, p, f).wires| == |Synthesize(c, p, f').wires|
  {
    hide WitnessStage, KeyAndChallengeStage, TranscriptStage, BitsOk;
    WitnessShape(f, f');
    var (s1, w) := WitnessStage(f);
    var s1' := WitnessStage(f').0;
    KeyAndChallengeShape(c, p, s1, s1', w, f, f');
    var s2 := KeyAndChallengeStage(c, p, s1, w, f);
    WiresOkAfter(w, |s1.wires|, |s2.wires|);
    TranscriptShape(c, p, s2, KeyAndChallengeStage(c, p, s1', w, f'), w.auth2, w.r2, w.r1, w.idi,
                    f.auth2, f.r2, f'.auth2, f'.r2);
  }

  /** Some values of the wires satisfy the published circuit with these public inputs. */
  ghost predicate Satisfiable(c: BlockCipher, p: Setup, inputs: seq<nat>)
    requires p.Shaped() && p.r > 0
  {
    exists wires: seq<nat> :: Satisfies(p.r, Assignment(inputs, wires), Synthesize(c, p, BLANK).cons)
  }

  /** The session bytes f have this public part and meet the relations. */
  ghost predicate Witnesses(c: BlockCipher, f: FelicaCircuit, idi: Block, r1: Block, attestedAt: nat) {
    f.idi == idi && f.r1 == r1 && f.attestedAt == attestedAt && Relations(c, f)
  }

  /** The circuit is satisfiable for (idi, r1, attested_at) exactly when some private bytes meet the relations. */
  lemma SatisfiableIff(c: BlockCipher, p: Setup, idi: Block, r1: Block, attestedAt: nat)
    requires p.Valid() && IsDes(c, p.t) && attestedAt < 0x1_0000_0000_0000_0000
    ensures Satisfiable(c, p, PublicInputs(idi, r1, attestedAt)) <==>
            exists f: FelicaCircuit :: Witnesses(c, f, idi, r1, attestedAt)
  {
    hide IsPrime, Interpolates, Satisfies, Synthesize, IsDes, Relations, LeValue;
    if Satisfiable(c, p, PublicInputs(idi, r1, attestedAt)) {
      var wires: seq<nat> :| Satisfies(p.r, Assignment(PublicInputs(idi, r1, attestedAt), wires),
                                       Synthesize(c, p, BLANK).cons);
      var f, _ := CircuitSound(c, p, BLANK, Assignment(PublicInputs(idi, r1, attestedAt), wires));
      LeValueInjective(f.idi, idi);
      LeValueInjective(f.r1, r1);
      assert Witnesses(c, f, idi, r1, attestedAt);
    }
    if f: FelicaCircuit :| Witnesses(c, f, idi, r1, attestedAt) {
      CircuitComplete(c, p, f);
      ConstraintsAreFixed(c, p, f, BLANK);
      var s := Synthesize(c, p, f);
      assert s.Asg() == Assignment(PublicInputs(idi, r1, attestedAt), s.wires);
    }
  }

  /**
   * The other half in the same words: bytes, keys and plaintext that meet every equation satisfy the published circuit
   * with the public inputs of the session.
   */
  lemma SessionSatisfies(c: BlockCipher, p: Setup, f: FelicaCircuit, k: SessionKeys, pt: Bytes)
    requires k.l == XorBytes(f.gsk, f.idm) && c.dec(k.alpha, k.l) == f.usk && c.dec(k.beta, k.alpha) == k.l
    requires c.enc(c.dec(f.c1b, k.l), k.beta) == c.enc(f.r1, k.l)
    requires c.enc(c.dec(f.c2a, k.l), k.beta) == c.enc(f.r2, k.l)
    requires |pt| == 32 && pt[2..8] == f.r1[2..8] && pt[8..16] == f.idi
    requires XorBytes(pt[..8], [0, 0, 0, 0, 0, 0, 0, 0]) == c.dec(f.auth2[..8], f.r2)
    requires XorBytes(pt[8..16], f.auth2[..8]) == c.dec(f.auth2[8..16], f.r2)
    requires XorBytes(pt[16..24], f.auth2[8..16]) == c.dec(f.auth2[16..24], f.r2)
    requires XorBytes(pt[24..32], f.auth2[16..24]) == c.dec(f.auth2[24..32], f.r2)
    requires c.enc(c.enc(c.enc([34, 0x13, 0, 0, 0, 0, 0, 0], pt[..8]), pt[8..16]), pt[16..24]) == pt[24..32]
    requires p.Valid() && IsDes(c, p.t) && f.attestedAt < 0x1_0000_0000_0000_0000
    ensures exists wires: seq<nat> :: Satisfies(p.r, Assignment([LeValue(f.idi), LeValue(f.r1), f.attestedAt], wires),
                                                Synthesize(c, p, BLANK).cons)
  {
    hide IsPrime, Interpolates, IsDes, Relations, XorBytes, DeriveKeys, Plaintext, Satisfies, Synthesize, LeValue;
    DesIsInvertible(c, p.t);
    RelationsMean(c, f, k, pt);
    CircuitComplete(c, p, f);
    ConstraintsAreFixed(c, p, f, BLANK);
    var s := Synthesize(c, p, f);
    assert s.Asg() == Assignment([LeValue(f.idi), LeValue(f.r1), f.attestedAt], s.wires);
  }
}
