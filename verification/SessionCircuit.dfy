// The session circuit, stage by stage, with soundness and completeness of every stage
// and of the whole: it is satisfiable exactly when the native relations can be met.
module SessionCircuit {
  import opened Bits
  import opened Modes
  import opened Des
  import opened DesLaws
  import opened Field
  import opened Interpolation
  import opened R1cs
  import opened Gadgets
  import opened DesCircuit
  import opened Session

  // --------------------------------------------------------------- equal wires

  function Equalities(a: seq<Bit>, b: seq<Bit>): (cons: seq<Constraint>)
    requires |a| == |b|
  {
    seq(|a|, i requires 0 <= i < |a| => Equal(Pack([a[i]]), Pack([b[i]])))
  }

  function EnforceEqual(s: State, a: seq<Bit>, b: seq<Bit>): (s': State)
    requires |a| == |b| && BitsOk(a, |s.wires|) && BitsOk(b, |s.wires|)
    ensures Grows(s, s') && s'.wires == s.wires
  {
    Extend(s, [], Equalities(a, b))
  }

  lemma OneBitEqual(p: Setup, asg: Assignment, a: Bit, b: Bit)
    requires p.Valid() && IsBit(asg, a) && IsBit(asg, b)
    ensures Holds(p.r, asg, Equal(Pack([a]), Pack([b]))) <==> Val(asg, a) == Val(asg, b)
  {
    hide IsPrime, Interpolates;
    PackIsValue(p.r, asg, [a]);
    PackIsValue(p.r, asg, [b]);
    assert Vals(asg, [a])[1..] == [] && Vals(asg, [b])[1..] == [];
  }

  lemma EnforceEqualSound(p: Setup, s: State, a: seq<Bit>, b: seq<Bit>, asg: Assignment)
    requires p.Valid() && |a| == |b| && BitsOk(a, |s.wires|) && BitsOk(b, |s.wires|)
    requires Satisfies(p.r, asg, EnforceEqual(s, a, b).cons) && AreBits(asg, a) && AreBits(asg, b)
    ensures Vals(asg, a) == Vals(asg, b)
  {
    hide IsPrime, Interpolates, Holds, Val;
    forall i | 0 <= i < |a| ensures Val(asg, a[i]) == Val(asg, b[i]) {
      assert EnforceEqual(s, a, b).cons[|s.cons| + i] == Equal(Pack([a[i]]), Pack([b[i]]));
      OneBitEqual(p, asg, a[i], b[i]);
    }
  }

  lemma EnforceEqualComplete(p: Setup, s: State, a: seq<Bit>, b: seq<Bit>)
    requires p.Valid() && |a| == |b| && BitsOk(a, |s.wires|) && BitsOk(b, |s.wires|)
    requires Consistent(p.r, s) && AreBits(s.Asg(), a) && AreBits(s.Asg(), b)
    requires Vals(s.Asg(), a) == Vals(s.Asg(), b)
    ensures Consistent(p.r, EnforceEqual(s, a, b))
  {
    hide IsPrime, Interpolates, Holds, Val;
    var cons := Equalities(a, b);
    assert Extend(s, [], cons).Asg() == s.Asg();
    forall i | 0 <= i < |cons| ensures Holds(p.r, s.Asg(), cons[i]) {
      OneBitEqual(p, s.Asg(), a[i], b[i]);
    }
    ExtendConsistent(p.r, s, [], cons);
  }

  // ------------------------------------------------------------------ witnesses

  ghost predicate WiresOk(ws: seq<seq<Bit>>, items: seq<Bytes>, n: int) {
    |ws| == |items| && forall i :: 0 <= i < |ws| ==> |ws[i]| == 8 * |items[i]| && BitsOk(ws[i], n)
  }

  lemma WiresOkGrow(ws: seq<seq<Bit>>, items: seq<Bytes>, n: int, m: int)
    requires WiresOk(ws, items, n) && n <= m
    ensures WiresOk(ws, items, m)
  {
    forall i | 0 <= i < |ws| ensures BitsOk(ws[i], m) {
      BitsOkGrow(ws[i], n, m);
    }
  }

  /** Allocates the little-endian bits of every item, in order. */
  function AllocEach(s: State, items: seq<Bytes>): (res: (State, seq<seq<Bit>>))
    ensures Grows(s, res.0)
    ensures WiresOk(res.1, items, |res.0.wires|)
    decreases |items|
  {
    if items == [] then (s, [])
    else
      var n := |items| - 1;
      var (s1, ws) := AllocEach(s, items[..n]);
      var (s2, w) := Alloc(s1, LeBits(items[n]));
      WiresOkGrow(ws, items[..n], |s1.wires|, |s2.wires|);
      GrowsTrans(s, s1, s2);
      (s2, ws + [w])
  }

  lemma {:induction false} AllocEachSound(p: Setup, s: State, items: seq<Bytes>, asg: Assignment)
    requires p.Valid() && Satisfies(p.r, asg, AllocEach(s, items).0.cons)
    ensures forall i :: 0 <= i < |items| ==> AreBits(asg, AllocEach(s, items).1[i])
    decreases |items|
  {
    hide IsPrime, Interpolates, Satisfies, Alloc, AreBits;
    if items != [] {
      var n := |items| - 1;
      var s1 := AllocEach(s, items[..n]).0;
      SatisfiesPrefix(p.r, asg, s1.cons, AllocEach(s, items).0.cons);
      AllocEachSound(p, s, items[..n], asg);
      AllocSound(p, s1, LeBits(items[n]), asg);
    }
  }

  ghost predicate EachCarries(asg: Assignment, ws: seq<seq<Bit>>, items: seq<Bytes>) {
    |ws| == |items| && forall i :: 0 <= i < |ws| ==> Carries(asg, ws[i], items[i])
  }

  lemma EachCarriesGrow(s: RawState, s': RawState, ws: seq<seq<Bit>>, items: seq<Bytes>)
    requires Widens(s, s') && WiresOk(ws, items, |s.wires|) && EachCarries(s.Asg(), ws, items)
    ensures EachCarries(s'.Asg(), ws, items)
  {
    hide Carries;
    forall i | 0 <= i < |ws| ensures Carries(s'.Asg(), ws[i], items[i]) {
      CarriesGrow(s, s', ws[i], items[i]);
    }
  }

  lemma {:induction false} AllocEachComplete(p: Setup, s: State, items: seq<Bytes>)
    requires p.Valid() && Consistent(p.r, s)
    ensures Consistent(p.r, AllocEach(s, items).0)
    ensures EachCarries(AllocEach(s, items).0.Asg(), AllocEach(s, items).1, items)
    decreases |items|
  {
    hide IsPrime, Interpolates, Satisfies, Alloc;
    if items != [] {
      var n := |items| - 1;
      var (s1, ws) := AllocEach(s, items[..n]);
      var (s2, w) := Alloc(s1, LeBits(items[n]));
      AllocEachComplete(p, s, items[..n]);
      AllocComplete(p, s1, LeBits(items[n]));
      AllocSound(p, s1, LeBits(items[n]), s2.Asg());
      EachCarriesGrow(s1, s2, ws, items[..n]);
    }
  }

  /** Public inputs are field elements of the instance, not wires. */
  function AddInputs(s: State, values: seq<nat>): (s': State)
    ensures Widens(s, s') && s'.inputs == s.inputs + values && s'.wires == s.wires && s'.cons == s.cons
  {
    var s' := RawState(s.inputs + values, s.wires, s.cons);
    assert StateOk(s') by {
      forall i | 0 <= i < |s.cons| ensures ConstraintOk(s'.cons[i], |s'.inputs|, |s'.wires|) {
        assert ConstraintOk(s.cons[i], |s.inputs|, |s.wires|);
        if s.cons[i].Equal? {
          FpOkGrow(s.cons[i].x, |s.inputs|, |s.wires|, |s'.inputs|, |s'.wires|);
          FpOkGrow(s.cons[i].y, |s.inputs|, |s.wires|, |s'.inputs|, |s'.wires|);
        }
      }
    }
    s'
  }

  lemma AddInputsConsistent(r: nat, s: State, values: seq<nat>)
    requires r > 0 && Consistent(r, s) && forall i :: 0 <= i < |values| ==> values[i] < r
    ensures Consistent(r, AddInputs(s, values))
  {
    var s' := AddInputs(s, values);
    forall i | 0 <= i < |s.cons| ensures Holds(r, s'.Asg(), s'.cons[i]) {
      assert ConstraintOk(s.cons[i], |s.inputs|, |s.wires|);
      HoldsGrows(r, s, s', s.cons[i]);
    }
  }

  // ------------------------------------------------- stage 1: witnesses and inputs

  datatype Wires = Wires(gsk: seq<Bit>, usk: seq<Bit>, idm: seq<Bit>, c1b: seq<Bit>, c2a: seq<Bit>,
                         r2: seq<Bit>, auth2: seq<Bit>, idi: seq<Bit>, r1: seq<Bit>)
  {
    ghost predicate Ok(n: int) {
      && |gsk| == |usk| == |idm| == |c1b| == |c2a| == |r2| == |idi| == |r1| == 64 && |auth2| == 256
      && BitsOk(gsk, n) && BitsOk(usk, n) && BitsOk(idm, n) && BitsOk(c1b, n) && BitsOk(c2a, n)
      && BitsOk(r2, n) && BitsOk(auth2, n) && BitsOk(idi, n) && BitsOk(r1, n)
    }

    /** The wires carry the bytes of the session. */
    ghost predicate Carry(asg: Assignment, f: FelicaCircuit) {
      && Carries(asg, gsk, f.gsk) && Carries(asg, usk, f.usk) && Carries(asg, idm, f.idm)
      && Carries(asg, c1b, f.c1b) && Carries(asg, c2a, f.c2a) && Carries(asg, r2, f.r2)
      && Carries(asg, auth2, f.auth2) && Carries(asg, idi, f.idi) && Carries(asg, r1, f.r1)
    }
  }

  /** The public inputs as field elements: pi0 = idi, pi1 = r1, pi2 = attested_at. */
  function PublicInputs(idi: Block, r1: Block, attestedAt: nat): (pis: seq<nat>)
    ensures |pis| == 3
  {
    [LeValue(idi), LeValue(r1), attestedAt]
  }

  function Privates(f: FelicaCircuit): seq<Bytes> {
    [f.gsk, f.usk, f.idm, f.c1b, f.c2a, f.r2, f.auth2]
  }

  function Publics(f: FelicaCircuit): seq<Bytes> {
    [f.idi, f.r1]
  }

  function Links2(a: seq<Bit>, b: seq<Bit>): seq<Constraint> {
    [Equal(Pack(a), Input(0)), Equal(Pack(b), Input(1))]
  }

  function WitnessStage(f: FelicaCircuit): (res: (State, Wires))
    ensures res.1.Ok(|res.0.wires|)
    ensures res.0.inputs == PublicInputs(f.idi, f.r1, f.attestedAt)
  {
    var (s1, w) := AllocEach(RawState([], [], []), Privates(f));
    var s2 := AddInputs(s1, PublicInputs(f.idi, f.r1, f.attestedAt));
    var (s3, v) := AllocEach(s2, Publics(f));
    var s4 := Extend(s3, [], Links2(v[0], v[1]));
    WiresOkGrow(w, Privates(f), |s1.wires|, |s3.wires|);
    (s4, Wires(w[0], w[1], w[2], w[3], w[4], w[5], w[6], v[0], v[1]))
  }

  /** The wires carry some session whose public part is the given one. */
  ghost predicate CarryPublic(asg: Assignment, w: Wires, f: FelicaCircuit) {
    w.Carry(asg, f) && |asg.inputs| >= 2 && asg.inputs[0] == LeValue(f.idi) && asg.inputs[1] == LeValue(f.r1)
  }

  lemma PackCarries(p: Setup, asg: Assignment, bits: seq<Bit>, b: Block)
    requires p.Valid() && Carries(asg, bits, b)
    ensures PackFp(p.r, asg, bits) == LeValue(b)
  {
    hide IsPrime, Interpolates;
    BigPowers();
    PackIsValue(p.r, asg, bits);
  }

  lemma WitnessStageSound(p: Setup, f0: FelicaCircuit, asg: Assignment) returns (f: FelicaCircuit)
    requires p.Valid() && Satisfies(p.r, asg, WitnessStage(f0).0.cons) && |asg.inputs| == 3
    ensures CarryPublic(asg, WitnessStage(f0).1, f) && f.attestedAt == asg.inputs[2]
  {
    hide IsPrime, Interpolates, AreBits, Holds, Carries, AllocEach;
    var (s1, w) := AllocEach(RawState([], [], []), Privates(f0));
    var s2 := AddInputs(s1, PublicInputs(f0.idi, f0.r1, f0.attestedAt));
    var (s3, v) := AllocEach(s2, Publics(f0));
    var s4 := WitnessStage(f0).0;
    SatisfiesPrefix(p.r, asg, s1.cons, s4.cons);
    SatisfiesPrefix(p.r, asg, s3.cons, s4.cons);
    AllocEachSound(p, RawState([], [], []), Privates(f0), asg);
    AllocEachSound(p, s2, Publics(f0), asg);
    var gsk := CarriesSome(asg, w[0]);
    var usk := CarriesSome(asg, w[1]);
    var idm := CarriesSome(asg, w[2]);
    var c1b := CarriesSome(asg, w[3]);
    var c2a := CarriesSome(asg, w[4]);
    var r2 := CarriesSome(asg, w[5]);
    var auth2 := CarriesSome(asg, w[6]);
    var idi := CarriesSome(asg, v[0]);
    var r1 := CarriesSome(asg, v[1]);
    f := FelicaCircuit(idi, r1, asg.inputs[2], gsk, usk, idm, c1b, c2a, r2, auth2);
    assert s4.cons[|s3.cons|] == Equal(Pack(v[0]), Input(0));
    assert s4.cons[|s3.cons| + 1] == Equal(Pack(v[1]), Input(1));
    PackCarries(p, asg, v[0], idi);
    PackCarries(p, asg, v[1], r1);
    assert Holds(p.r, asg, Equal(Pack(v[0]), Input(0))) ==> PackFp(p.r, asg, v[0]) == asg.inputs[0]
           by { PackedInput(p.r, asg, v[0], 0); }
    assert Holds(p.r, asg, Equal(Pack(v[1]), Input(1))) ==> PackFp(p.r, asg, v[1]) == asg.inputs[1]
           by { PackedInput(p.r, asg, v[1], 1); }
  }

  lemma PackedInput(r: nat, asg: Assignment, bits: seq<Bit>, i: nat)
    requires r > 0 && i < |asg.inputs|
    ensures Holds(r, asg, Equal(Pack(bits), Input(i))) <==> PackFp(r, asg, bits) == asg.inputs[i]
  {
  }

  lemma LeValueBound(b: Block)
    ensures LeValue(b) < 0x1_0000_0000_0000_0000
  {
    BigPowers();
  }

  lemma PublicInputsInRange(p: Setup, f: FelicaCircuit)
    requires p.Valid() && f.attestedAt < 0x1_0000_0000_0000_0000
    ensures forall i :: 0 <= i < 3 ==> PublicInputs(f.idi, f.r1, f.attestedAt)[i] < p.r
  {
    LeValueBound(f.idi);
    LeValueBound(f.r1);
  }

  lemma LinkingComplete(p: Setup, s: State, f: FelicaCircuit, v: seq<seq<Bit>>)
    requires p.Valid() && Consistent(p.r, s) && WiresOk(v, Publics(f), |s.wires|)
    requires s.inputs == PublicInputs(f.idi, f.r1, f.attestedAt) && EachCarries(s.Asg(), v, Publics(f))
    ensures Consistent(p.r, Extend(s, [], Links2(v[0], v[1])))
  {
    hide IsPrime, Interpolates, Holds, Carries, Satisfies, LeValue;
    var cons := Links2(v[0], v[1]);
    assert Extend(s, [], cons).Asg() == s.Asg();
    PackCarries(p, s.Asg(), v[0], f.idi);
    PackCarries(p, s.Asg(), v[1], f.r1);
    PackedInput(p.r, s.Asg(), v[0], 0);
    PackedInput(p.r, s.Asg(), v[1], 1);
    ExtendConsistent(p.r, s, [], cons);
  }

  lemma WitnessStageComplete(p: Setup, f: FelicaCircuit)
    requires p.Valid() && f.attestedAt < 0x1_0000_0000_0000_0000
    ensures Consistent(p.r, WitnessStage(f).0)
    ensures WitnessStage(f).1.Carry(WitnessStage(f).0.Asg(), f)
  {
    hide IsPrime, Interpolates, AreBits, Holds, Carries, AllocEach, Satisfies, LeValue;
    var s0: State := RawState([], [], []);
    assert Consistent(p.r, s0) by { EmptyConsistent(p.r); }
    var (s1, w) := AllocEach(s0, Privates(f));
    var pis := PublicInputs(f.idi, f.r1, f.attestedAt);
    var s2 := AddInputs(s1, pis);
    var (s3, v) := AllocEach(s2, Publics(f));
    AllocEachComplete(p, s0, Privates(f));
    PublicInputsInRange(p, f);
    AddInputsConsistent(p.r, s1, pis);
    AllocEachComplete(p, s2, Publics(f));
    EachCarriesGrow(s1, s3, w, Privates(f));
    LinkingComplete(p, s3, f, v);
    assert WitnessStage(f).0.Asg() == s3.Asg();
  }

  lemma EmptyConsistent(r: nat)
    requires r > 0
    ensures Consistent(r, RawState([], [], []))
  {
  }

  // ------------------------------------------------------- stage 2: session keys

  lemma FlipOk(bits: seq<Bit>, n: int)
    requires |bits| % 8 == 0 && BitsOk(bits, n)
    ensures BitsOk(Flip(bits), n)
  {
  }

  /** A DES gadget between little-endian wires. */
  function LeDesG(p: Setup, s: State, data: seq<Bit>, key: seq<Bit>, wd: Block, wk: Block): (res: (State, seq<Bit>))
    requires p.Shaped() && |data| == 64 && |key| == 64 && BitsOk(data, |s.wires|) && BitsOk(key, |s.wires|)
    ensures Grows(s, res.0) && |res.1| == 64 && BitsOk(res.1, |res.0.wires|)
  {
    FlipOk(data, |s.wires|);
    var (s1, out) := DesG(p, s, Flip(data), key, true, wd, wk);
    FlipOk(out, |s1.wires|);
    (s1, Flip(out))
  }

  /** 64 existing wires. */
  ghost predicate BlockOk(bits: seq<Bit>, n: int) {
    |bits| == 64 && BitsOk(bits, n)
  }

  /** D1 is plain xor, D2 one DES gadget: l = gsk ^ idm and alpha = DES of usk under l. */
  function AlphaStage(p: Setup, s: State, gsk: seq<Bit>, usk: seq<Bit>, idm: seq<Bit>, wusk: Block, wl: Block)
    : (res: (State, seq<Bit>, seq<Bit>))
    requires p.Shaped() && BlockOk(gsk, |s.wires|) && BlockOk(usk, |s.wires|) && BlockOk(idm, |s.wires|)
    ensures Grows(s, res.0) && BlockOk(res.1, |res.0.wires|) && BlockOk(res.2, |res.0.wires|)
  {
    var (s1, l) := XorBits(s, gsk, idm);
    BitsOkGrow(usk, |s.wires|, |s1.wires|);
    var (s2, alpha) := LeDesG(p, s1, usk, l, wusk, wl);
    BitsOkGrow(l, |s1.wires|, |s2.wires|);
    GrowsTrans(s, s1, s2);
    (s2, l, alpha)
  }

  /** D3 is another one: beta = DES of l under alpha. */
  function KeyStage(p: Setup, s: State, gsk: seq<Bit>, usk: seq<Bit>, idm: seq<Bit>, wusk: Block, k: SessionKeys)
    : (res: (State, seq<Bit>, seq<Bit>))
    requires p.Shaped() && BlockOk(gsk, |s.wires|) && BlockOk(usk, |s.wires|) && BlockOk(idm, |s.wires|)
    ensures Grows(s, res.0) && BlockOk(res.1, |res.0.wires|) && BlockOk(res.2, |res.0.wires|)
  {
    var (s2, l, alpha) := AlphaStage(p, s, gsk, usk, idm, wusk, k.l);
    var (s3, beta) := LeDesG(p, s2, l, alpha, k.l, k.alpha);
    BitsOkGrow(l, |s2.wires|, |s3.wires|);
    GrowsTrans(s, s2, s3);
    (s3, l, beta)
  }

  lemma XorCarries(p: Setup, s: State, a: seq<Bit>, b: seq<Bit>, asg: Assignment, x: Block, y: Block)
    requires p.Valid() && |a| == |b| && BitsOk(a, |s.wires|) && BitsOk(b, |s.wires|)
    requires Satisfies(p.r, asg, XorBits(s, a, b).0.cons)
    ensures Carries(asg, a, x) && Carries(asg, b, y) ==> Carries(asg, XorBits(s, a, b).1, XorBytes(x, y))
    ensures CarriesDes(asg, a, x) && CarriesDes(asg, b, y) ==> CarriesDes(asg, XorBits(s, a, b).1, XorBytes(x, y))
  {
    hide IsPrime, Interpolates, Satisfies, XorBits;
    if AreBits(asg, a) && AreBits(asg, b) {
      XorBitsSound(p, s, a, b, asg);
      LeBitsOfXor(x, y);
      DesBitsOfXor(x, y);
    }
  }

  lemma LeDesGCarries(c: BlockCipher, p: Setup, s: State, data: seq<Bit>, key: seq<Bit>, wd: Block, wk: Block,
                      asg: Assignment, d: Block, k: Block)
    requires p.Valid() && IsDes(c, p.t) && BlockOk(data, |s.wires|) && BlockOk(key, |s.wires|)
    requires Satisfies(p.r, asg, LeDesG(p, s, data, key, wd, wk).0.cons)
    requires Carries(asg, data, d) && Carries(asg, key, k)
    ensures Carries(asg, LeDesG(p, s, data, key, wd, wk).1, c.enc(d, k))
  {
    hide IsPrime, Interpolates, Satisfies, DesG, Carries, CarriesDes, IsDes, BitsOk, Flip;
    FlipOk(data, |s.wires|);
    FlipCarries(asg, data, d);
    DesGCarries(c, p, s, Flip(data), key, true, wd, wk, asg, d, k);
    FlipCarries(asg, DesG(p, s, Flip(data), key, true, wd, wk).1, c.enc(d, k));
  }

  lemma LeDesGComplete(p: Setup, s: State, data: seq<Bit>, key: seq<Bit>, wd: Block, wk: Block)
    requires p.Valid() && Consistent(p.r, s) && BlockOk(data, |s.wires|) && BlockOk(key, |s.wires|)
    requires Carries(s.Asg(), data, wd) && Carries(s.Asg(), key, wk)
    ensures Consistent(p.r, LeDesG(p, s, data, key, wd, wk).0)
  {
    hide IsPrime, Interpolates, Satisfies, DesG, Carries, CarriesDes, BitsOk, Flip;
    FlipOk(data, |s.wires|);
    FlipCarries(s.Asg(), data, wd);
    DesGComplete(p, s, Flip(data), key, true, wd, wk);
  }

  lemma AlphaStageSound(c: BlockCipher, p: Setup, s: State, gsk: seq<Bit>, usk: seq<Bit>, idm: seq<Bit>,
                        wusk: Block, wl: Block, asg: Assignment, f: FelicaCircuit)
    requires p.Valid() && IsDes(c, p.t)
    requires BlockOk(gsk, |s.wires|) && BlockOk(usk, |s.wires|) && BlockOk(idm, |s.wires|)
    requires Satisfies(p.r, asg, AlphaStage(p, s, gsk, usk, idm, wusk, wl).0.cons)
    requires Carries(asg, gsk, f.gsk) && Carries(asg, usk, f.usk) && Carries(asg, idm, f.idm)
    ensures var (_, l, alpha) := AlphaStage(p, s, gsk, usk, idm, wusk, wl);
            var k := DeriveKeys(c, f.gsk, f.usk, f.idm);
            Carries(asg, l, k.l) && Carries(asg, alpha, k.alpha)
  {
    hide IsPrime, Interpolates, Satisfies, XorBits, LeDesG, Carries, IsDes, BitsOk;
    var (s1, l) := XorBits(s, gsk, idm);
    BitsOkGrow(usk, |s.wires|, |s1.wires|);
    SatisfiesPrefix(p.r, asg, s1.cons, LeDesG(p, s1, usk, l, wusk, wl).0.cons);
    XorCarries(p, s, gsk, idm, asg, f.gsk, f.idm);
    LeDesGCarries(c, p, s1, usk, l, wusk, wl, asg, f.usk, XorBytes(f.gsk, f.idm));
  }

  /**
   * D1-D3: if the wires carry the master keys and the IDm, they also carry l and beta, where l is gsk xor idm, alpha
   * decrypts under l to usk and beta decrypts under alpha to l.
   */
  lemma KeyStageSound(c: BlockCipher, p: Setup, s: State, gsk: seq<Bit>, usk: seq<Bit>, idm: seq<Bit>,
                      wusk: Block, wk: SessionKeys, asg: Assignment, f: FelicaCircuit)
    requires p.Valid() && IsDes(c, p.t)
    requires BlockOk(gsk, |s.wires|) && BlockOk(usk, |s.wires|) && BlockOk(idm, |s.wires|)
    requires Satisfies(p.r, asg, KeyStage(p, s, gsk, usk, idm, wusk, wk).0.cons)
    requires Carries(asg, gsk, f.gsk) && Carries(asg, usk, f.usk) && Carries(asg, idm, f.idm)
    ensures var (_, l, beta) := KeyStage(p, s, gsk, usk, idm, wusk, wk);
            var k := DeriveKeys(c, f.gsk, f.usk, f.idm);
            && Carries(asg, l, k.l) && Carries(asg, beta, k.beta)
            && k.l == XorBytes(f.gsk, f.idm) && c.dec(k.alpha, k.l) == f.usk && c.dec(k.beta, k.alpha) == k.l
  {
    hide IsPrime, Interpolates, Satisfies, AlphaStage, LeDesG, Carries, IsDes, BitsOk;
    DesIsInvertible(c, p.t);
    KeysMean(c, f.gsk, f.usk, f.idm, DeriveKeys(c, f.gsk, f.usk, f.idm));
    var (s2, l, alpha) := AlphaStage(p, s, gsk, usk, idm, wusk, wk.l);
    SatisfiesPrefix(p.r, asg, s2.cons, LeDesG(p, s2, l, alpha, wk.l, wk.alpha).0.cons);
    AlphaStageSound(c, p, s, gsk, usk, idm, wusk, wk.l, asg, f);
    var k := DeriveKeys(c, f.gsk, f.usk, f.idm);
    LeDesGCarries(c, p, s2, l, alpha, wk.l, wk.alpha, asg, k.l, k.alpha);
  }

  lemma AreBitsIfCarries(asg: Assignment, bits: seq<Bit>, bytes: Bytes)
    ensures Carries(asg, bits, bytes) ==> AreBits(asg, bits)
    ensures CarriesDes(asg, bits, bytes) ==> AreBits(asg, bits)
  {
  }

  lemma AlphaStageComplete(c: BlockCipher, p: Setup, s: State, gsk: seq<Bit>, usk: seq<Bit>, idm: seq<Bit>,
                           f: FelicaCircuit)
    requires p.Valid() && IsDes(c, p.t) && Consistent(p.r, s)
    requires BlockOk(gsk, |s.wires|) && BlockOk(usk, |s.wires|) && BlockOk(idm, |s.wires|)
    requires Carries(s.Asg(), gsk, f.gsk) && Carries(s.Asg(), usk, f.usk) && Carries(s.Asg(), idm, f.idm)
    ensures Consistent(p.r, AlphaStage(p, s, gsk, usk, idm, f.usk, XorBytes(f.gsk, f.idm)).0)
  {
    hide IsPrime, Interpolates, Satisfies, XorBits, LeDesG, Carries, IsDes, BitsOk;
    var (s1, l) := XorBits(s, gsk, idm);
    AreBitsIfCarries(s.Asg(), gsk, f.gsk);
    AreBitsIfCarries(s.Asg(), idm, f.idm);
    XorBitsComplete(p, s, gsk, idm);
    BitsOkGrow(usk, |s.wires|, |s1.wires|);
    CarriesGrow(s, s1, gsk, f.gsk);
    CarriesGrow(s, s1, usk, f.usk);
    CarriesGrow(s, s1, idm, f.idm);
    XorCarries(p, s, gsk, idm, s1.Asg(), f.gsk, f.idm);
    LeDesGComplete(p, s1, usk, l, f.usk, XorBytes(f.gsk, f.idm));
  }

  lemma KeyStageComplete(c: BlockCipher, p: Setup, s: State, gsk: seq<Bit>, usk: seq<Bit>, idm: seq<Bit>,
                         f: FelicaCircuit)
    requires p.Valid() && IsDes(c, p.t) && Consistent(p.r, s)
    requires BlockOk(gsk, |s.wires|) && BlockOk(usk, |s.wires|) && BlockOk(idm, |s.wires|)
    requires Carries(s.Asg(), gsk, f.gsk) && Carries(s.Asg(), usk, f.usk) && Carries(s.Asg(), idm, f.idm)
    ensures Consistent(p.r, KeyStage(p, s, gsk, usk, idm, f.usk, DeriveKeys(c, f.gsk, f.usk, f.idm)).0)
  {
    hide IsPrime, Interpolates, Satisfies, AlphaStage, LeDesG, Carries, IsDes, BitsOk;
    var k := DeriveKeys(c, f.gsk, f.usk, f.idm);
    var (s2, l, alpha) := AlphaStage(p, s, gsk, usk, idm, f.usk, k.l);
    AlphaStageComplete(c, p, s, gsk, usk, idm, f);
    CarriesGrow(s, s2, gsk, f.gsk);
    CarriesGrow(s, s2, usk, f.usk);
    CarriesGrow(s, s2, idm, f.idm);
    AlphaStageSound(c, p, s, gsk, usk, idm, f.usk, k.l, s2.Asg(), f);
    LeDesGComplete(p, s2, l, alpha, k.l, k.alpha);
  }

  // ------------------------------------------------- stage 3: challenges (C1, C2)

  lemma TdesLinksOk(l: seq<Bit>, wl: Block, beta: seq<Bit>, wbeta: Block, n: int)
    requires BlockOk(l, n) && BlockOk(beta, n)
    ensures LinksOk(TdesLinks(l, wl, beta, wbeta), n)
  {
  }

  /** The 3DES of the data wires under l and beta equals the target wires. */
  function ChallengeStage(c: BlockCipher, p: Setup, s: State, data: seq<Bit>, l: seq<Bit>, beta: seq<Bit>,
                          target: seq<Bit>, wd: Block, wl: Block, wbeta: Block): (s': State)
    requires p.Shaped() && BlockOk(data, |s.wires|) && BlockOk(target, |s.wires|)
    requires BlockOk(l, |s.wires|) && BlockOk(beta, |s.wires|)
    ensures Grows(s, s')
  {
    FlipOk(data, |s.wires|);
    TdesLinksOk(l, wl, beta, wbeta, |s.wires|);
    var (s1, e) := ChainG(c, p, s, Flip(data), wd, TdesLinks(l, wl, beta, wbeta));
    BitsOkGrow(target, |s.wires|, |s1.wires|);
    FlipOk(target, |s1.wires|);
    EnforceEqual(s1, e, Flip(target))
  }

  lemma DesBitsInjective(a: Bytes, b: Bytes)
    requires DesBits(a) == DesBits(b) && |a| == |b|
    ensures a == b
  {
    DesRoundTrip(a);
    DesRoundTrip(b);
  }

  /** On wires that carry bytes, the stage is the equation 3DES(d) = t. */
  lemma ChallengeStageSound(c: BlockCipher, p: Setup, s: State, data: seq<Bit>, l: seq<Bit>, beta: seq<Bit>,
                            target: seq<Bit>, wd: Block, wl: Block, wbeta: Block,
                            asg: Assignment, d: Block, k: SessionKeys, t: Block)
    requires p.Valid() && IsDes(c, p.t) && BlockOk(data, |s.wires|) && BlockOk(target, |s.wires|)
    requires BlockOk(l, |s.wires|) && BlockOk(beta, |s.wires|)
    requires Satisfies(p.r, asg, ChallengeStage(c, p, s, data, l, beta, target, wd, wl, wbeta).cons)
    requires Carries(asg, data, d) && Carries(asg, l, k.l) && Carries(asg, beta, k.beta) && Carries(asg, target, t)
    ensures c.TdesEncrypt(d, k.l, k.beta) == t
  {
    hide IsPrime, Interpolates, Satisfies, ChainG, Carries, IsDes, BitsOk, Flip, Chain, LinksOk, DesBits, Vals, AreBits;
    var links := TdesLinks(l, wl, beta, wbeta);
    FlipOk(data, |s.wires|);
    TdesLinksOk(l, wl, beta, wbeta, |s.wires|);
    var (s1, e) := ChainG(c, p, s, Flip(data), wd, links);
    BitsOkGrow(target, |s.wires|, |s1.wires|);
    FlipOk(target, |s1.wires|);
    SatisfiesPrefix(p.r, asg, s1.cons, EnforceEqual(s1, e, Flip(target)).cons);
    FlipCarries(asg, data, d);
    FlipCarries(asg, target, t);
    assert LinksCarry(asg, links, [k.l, k.beta, k.l]);
    ChainCarries(c, p, s, Flip(data), wd, links, asg, d, [k.l, k.beta, k.l]);
    TdesChain(c, d, l, wl, beta, wbeta, k.l, k.beta);
    EnforceEqualSound(p, s1, e, Flip(target), asg);
    DesBitsInjective(c.TdesEncrypt(d, k.l, k.beta), t);
  }

  lemma ChallengeStageComplete(c: BlockCipher, p: Setup, s: State, data: seq<Bit>, l: seq<Bit>, beta: seq<Bit>,
                               target: seq<Bit>, d: Block, k: SessionKeys, t: Block)
    requires p.Valid() && IsDes(c, p.t) && BlockOk(data, |s.wires|) && BlockOk(target, |s.wires|)
    requires BlockOk(l, |s.wires|) && BlockOk(beta, |s.wires|) && Consistent(p.r, s)
    requires Carries(s.Asg(), data, d) && Carries(s.Asg(), target, t)
    requires Carries(s.Asg(), l, k.l) && Carries(s.Asg(), beta, k.beta)
    requires c.TdesEncrypt(d, k.l, k.beta) == t
    ensures Consistent(p.r, ChallengeStage(c, p, s, data, l, beta, target, d, k.l, k.beta))
  {
    hide IsPrime, Interpolates, Satisfies, ChainG, Carries, IsDes, BitsOk, Flip, Chain, LinksOk, DesBits, Vals, AreBits;
    var links := TdesLinks(l, k.l, beta, k.beta);
    FlipOk(data, |s.wires|);
    TdesLinksOk(l, k.l, beta, k.beta, |s.wires|);
    FlipCarries(s.Asg(), data, d);
    var (s1, e) := ChainG(c, p, s, Flip(data), d, links);
    assert Natives(links) == [k.l, k.beta, k.l];
    ChainComplete(c, p, s, Flip(data), d, links);
    BitsOkGrow(target, |s.wires|, |s1.wires|);
    FlipOk(target, |s1.wires|);
    CarriesGrow(s, s1, target, t);
    CarriesGrow(s, s1, Flip(data), d);
    CarriesGrow(s, s1, l, k.l);
    CarriesGrow(s, s1, beta, k.beta);
    FlipCarries(s1.Asg(), target, t);
    ChainCarries(c, p, s, Flip(data), d, links, s1.Asg(), d, [k.l, k.beta, k.l]);
    TdesChain(c, d, l, k.l, beta, k.beta, k.l, k.beta);
    AreBitsIfCarries(s1.Asg(), e, t);
    EnforceEqualComplete(p, s1, e, Flip(target));
  }

  // ------------------------------------------------------- stage 4: plaintext (C3)

  /** One plaintext block: DES decryption of the ciphertext wires, xored with the previous ones. */
  function BlockStage(p: Setup, s: State, ct: seq<Bit>, prev: seq<Bit>, key: seq<Bit>, wct: Block, wkey: Block)
    : (res: (State, seq<Bit>))
    requires p.Shaped() && BlockOk(ct, |s.wires|) && BlockOk(prev, |s.wires|) && BlockOk(key, |s.wires|)
    ensures Grows(s, res.0) && BlockOk(res.1, |res.0.wires|)
  {
    FlipOk(ct, |s.wires|);
    var (s1, raw) := DesG(p, s, Flip(ct), key, false, wct, wkey);
    BitsOkGrow(prev, |s.wires|, |s1.wires|);
    FlipOk(prev, |s1.wires|);
    var (s2, x) := XorBits(s1, raw, Flip(prev));
    FlipOk(x, |s2.wires|);
    GrowsTrans(s, s1, s2);
    (s2, Flip(x))
  }

  ghost predicate BlocksOk(blocks: seq<seq<Bit>>, n: int) {
    forall i :: 0 <= i < |blocks| ==> BlockOk(blocks[i], n)
  }

  lemma BlocksOkGrow(blocks: seq<seq<Bit>>, n: int, m: int)
    requires BlocksOk(blocks, n) && n <= m
    ensures BlocksOk(blocks, m)
  {
    forall i | 0 <= i < |blocks| ensures BlockOk(blocks[i], m) {
      BitsOkGrow(blocks[i], n, m);
    }
  }

  /** The plaintext blocks of a CBC chain, in order. */
  function PlainStage(p: Setup, s: State, cts: seq<seq<Bit>>, prevs: seq<seq<Bit>>, key: seq<Bit>,
                      wcts: seq<Block>, wkey: Block): (res: (State, seq<Bit>))
    requires p.Shaped() && |cts| == |prevs| == |wcts|
    requires BlocksOk(cts, |s.wires|) && BlocksOk(prevs, |s.wires|) && BlockOk(key, |s.wires|)
    ensures Grows(s, res.0) && |res.1| == 64 * |cts| && BitsOk(res.1, |res.0.wires|)
    decreases |cts|
  {
    hide BlockStage;
    if cts == [] then (s, [])
    else
      var n := |cts| - 1;
      var (s1, pt) := PlainStage(p, s, cts[..n], prevs[..n], key, wcts[..n], wkey);
      BlocksOkGrow(cts, |s.wires|, |s1.wires|);
      BlocksOkGrow(prevs, |s.wires|, |s1.wires|);
      BitsOkGrow(key, |s.wires|, |s1.wires|);
      var (s2, x) := BlockStage(p, s1, cts[n], prevs[n], key, wcts[n], wkey);
      BitsOkGrow(pt, |s1.wires|, |s2.wires|);
      GrowsTrans(s, s1, s2);
      (s2, pt + x)
  }

  lemma ZeroBlockBits()
    ensures LeBits(ZERO_BLOCK) == seq(64, j => false)
  {
    assert LowBits(0, 8) == seq(8, j => false) by {
      assert LowBits(0, 4) == [false, false, false, false];
    }
  }

  lemma SliceCarries(asg: Assignment, data: seq<Bit>, bytes: Bytes, i: nat, j: nat)
    requires Carries(asg, data, bytes) && i <= j <= |bytes|
    ensures Carries(asg, data[8 * i..8 * j], bytes[i..j])
  {
    LeBitsSlice(bytes, i, j);
    assert Vals(asg, data[8 * i..8 * j]) == Vals(asg, data)[8 * i..8 * j];
  }

  lemma EmptyCarries(asg: Assignment)
    ensures Carries(asg, [], [])
  {
    assert LeBits([]) == [];
  }

  lemma CarriesConcat(asg: Assignment, a: seq<Bit>, b: seq<Bit>, x: Bytes, y: Bytes)
    requires Carries(asg, a, x) && Carries(asg, b, y)
    ensures Carries(asg, a + b, x + y)
  {
    LeBitsConcat(x, y);
    assert Vals(asg, a + b) == Vals(asg, a) + Vals(asg, b);
  }

  lemma BlockStageSound(c: BlockCipher, p: Setup, s: State, ct: seq<Bit>, prev: seq<Bit>, key: seq<Bit>,
                        wct: Block, wkey: Block, asg: Assignment, x: Block, y: Block, k: Block)
    requires p.Valid() && IsDes(c, p.t)
    requires BlockOk(ct, |s.wires|) && BlockOk(prev, |s.wires|) && BlockOk(key, |s.wires|)
    requires Satisfies(p.r, asg, BlockStage(p, s, ct, prev, key, wct, wkey).0.cons)
    requires Carries(asg, ct, x) && Carries(asg, prev, y) && Carries(asg, key, k)
    ensures Carries(asg, BlockStage(p, s, ct, prev, key, wct, wkey).1, XorBytes(c.dec(x, k), y))
  {
    hide IsPrime, Interpolates, Satisfies, DesG, XorBits, Carries, CarriesDes, IsDes, BitsOk, Flip;
    FlipOk(ct, |s.wires|);
    var (s1, raw) := DesG(p, s, Flip(ct), key, false, wct, wkey);
    BitsOkGrow(prev, |s.wires|, |s1.wires|);
    FlipOk(prev, |s1.wires|);
    var (s2, out) := XorBits(s1, raw, Flip(prev));
    SatisfiesPrefix(p.r, asg, s1.cons, s2.cons);
    FlipCarries(asg, ct, x);
    FlipCarries(asg, prev, y);
    DesGCarries(c, p, s, Flip(ct), key, false, wct, wkey, asg, x, k);
    XorCarries(p, s1, raw, Flip(prev), asg, c.dec(x, k), y);
    FlipCarries(asg, out, XorBytes(c.dec(x, k), y));
  }

  lemma BlockStageComplete(c: BlockCipher, p: Setup, s: State, ct: seq<Bit>, prev: seq<Bit>, key: seq<Bit>,
                           x: Block, y: Block, k: Block)
    requires p.Valid() && IsDes(c, p.t) && Consistent(p.r, s)
    requires BlockOk(ct, |s.wires|) && BlockOk(prev, |s.wires|) && BlockOk(key, |s.wires|)
    requires Carries(s.Asg(), ct, x) && Carries(s.Asg(), prev, y) && Carries(s.Asg(), key, k)
    ensures Consistent(p.r, BlockStage(p, s, ct, prev, key, x, k).0)
  {
    hide IsPrime, Interpolates, Satisfies, DesG, XorBits, Carries, CarriesDes, IsDes, BitsOk, Flip;
    FlipOk(ct, |s.wires|);
    FlipCarries(s.Asg(), ct, x);
    var (s1, raw) := DesG(p, s, Flip(ct), key, false, x, k);
    DesGComplete(p, s, Flip(ct), key, false, x, k);
    CarriesGrow(s, s1, Flip(ct), x);
    CarriesGrow(s, s1, prev, y);
    CarriesGrow(s, s1, key, k);
    BitsOkGrow(prev, |s.wires|, |s1.wires|);
    FlipOk(prev, |s1.wires|);
    FlipCarries(s1.Asg(), prev, y);
    DesGCarries(c, p, s, Flip(ct), key, false, x, k, s1.Asg(), x, k);
    AreBitsIfCarries(s1.Asg(), raw, c.dec(x, k));
    AreBitsIfCarries(s1.Asg(), Flip(prev), y);
    XorBitsComplete(p, s1, raw, Flip(prev));
  }

  ghost predicate BlocksCarry(asg: Assignment, blocks: seq<seq<Bit>>, bytes: seq<Block>) {
    |blocks| == |bytes| && forall i :: 0 <= i < |blocks| ==> Carries(asg, blocks[i], bytes[i])
  }

  lemma BlocksCarryGrow(s: RawState, s': RawState, blocks: seq<seq<Bit>>, bytes: seq<Block>)
    requires Grows(s, s') && BlocksOk(blocks, |s.wires|) && BlocksCarry(s.Asg(), blocks, bytes)
    ensures BlocksCarry(s'.Asg(), blocks, bytes)
  {
    hide Carries;
    forall i | 0 <= i < |blocks| ensures Carries(s'.Asg(), blocks[i], bytes[i]) {
      CarriesGrow(s, s', blocks[i], bytes[i]);
    }
  }

  /** C3: wires that carry ciphertext blocks and the key yield wires that carry the plaintext. */
  lemma {:induction false} PlainStageSound(c: BlockCipher, p: Setup, s: State, cts: seq<seq<Bit>>, prevs: seq<seq<Bit>>,
                                           key: seq<Bit>, wcts: seq<Block>, wkey: Block,
                                           asg: Assignment, xs: seq<Block>, ys: seq<Block>, k: Block)
    requires p.Valid() && IsDes(c, p.t) && |cts| == |prevs| == |wcts|
    requires BlocksOk(cts, |s.wires|) && BlocksOk(prevs, |s.wires|) && BlockOk(key, |s.wires|)
    requires Satisfies(p.r, asg, PlainStage(p, s, cts, prevs, key, wcts, wkey).0.cons)
    requires BlocksCarry(asg, cts, xs) && BlocksCarry(asg, prevs, ys) && Carries(asg, key, k)
    ensures Carries(asg, PlainStage(p, s, cts, prevs, key, wcts, wkey).1, PlainBlocks(c, xs, ys, k))
    decreases |cts|
  {
    hide IsPrime, Interpolates, Satisfies, BlockStage, IsDes, BitsOk, Carries;
    if cts == [] {
      EmptyCarries(asg);
    } else {
      var n := |cts| - 1;
      var (s1, pt) := PlainStage(p, s, cts[..n], prevs[..n], key, wcts[..n], wkey);
      BlocksOkGrow(cts, |s.wires|, |s1.wires|);
      BlocksOkGrow(prevs, |s.wires|, |s1.wires|);
      BitsOkGrow(key, |s.wires|, |s1.wires|);
      var (s2, x) := BlockStage(p, s1, cts[n], prevs[n], key, wcts[n], wkey);
      SatisfiesPrefix(p.r, asg, s1.cons, s2.cons);
      PlainStageSound(c, p, s, cts[..n], prevs[..n], key, wcts[..n], wkey, asg, xs[..n], ys[..n], k);
      BlockStageSound(c, p, s1, cts[n], prevs[n], key, wcts[n], wkey, asg, xs[n], ys[n], k);
      CarriesConcat(asg, pt, x, PlainBlocks(c, xs[..n], ys[..n], k), XorBytes(c.dec(xs[n], k), ys[n]));
    }
  }

  lemma {:induction false} PlainStageComplete(c: BlockCipher, p: Setup, s: State, cts: seq<seq<Bit>>,
                                              prevs: seq<seq<Bit>>,
                                              key: seq<Bit>, xs: seq<Block>, ys: seq<Block>, k: Block)
    requires p.Valid() && IsDes(c, p.t) && |cts| == |prevs| && Consistent(p.r, s)
    requires BlocksOk(cts, |s.wires|) && BlocksOk(prevs, |s.wires|) && BlockOk(key, |s.wires|)
    requires BlocksCarry(s.Asg(), cts, xs) && BlocksCarry(s.Asg(), prevs, ys) && Carries(s.Asg(), key, k)
    ensures Consistent(p.r, PlainStage(p, s, cts, prevs, key, xs, k).0)
    decreases |cts|
  {
    hide IsPrime, Interpolates, Satisfies, BlockStage, IsDes, BitsOk, Carries;
    if cts != [] {
      var n := |cts| - 1;
      var (s1, pt) := PlainStage(p, s, cts[..n], prevs[..n], key, xs[..n], k);
      PlainStageComplete(c, p, s, cts[..n], prevs[..n], key, xs[..n], ys[..n], k);
      BlocksOkGrow(cts, |s.wires|, |s1.wires|);
      BlocksOkGrow(prevs, |s.wires|, |s1.wires|);
      BitsOkGrow(key, |s.wires|, |s1.wires|);
      BlocksCarryGrow(s, s1, cts, xs);
      BlocksCarryGrow(s, s1, prevs, ys);
      CarriesGrow(s, s1, key, k);
      BlockStageComplete(c, p, s1, cts[n], prevs[n], key, xs[n], ys[n], k);
    }
  }

  // ------------------------------------------------------------ stage 5: MAC (C4)

  function Constants(bits: BitVec): (w: seq<Bit>)
    ensures |w| == |bits|
  {
    seq(|bits|, i requires 0 <= i < |bits| => Const(bits[i]))
  }

  function MacLinks(pt: seq<Bit>, wpt: Bytes): (links: seq<Link>)
    requires |pt| == 256 && |wpt| == 32
    ensures |links| == 3
  {
    [Link(pt[..64], true, wpt[..8]), Link(pt[64..128], true, wpt[8..16]), Link(pt[128..192], true, wpt[16..24])]
  }

  lemma MacWiresOk(pt: seq<Bit>, wpt: Bytes, n: int)
    requires |pt| == 256 && |wpt| == 32 && BitsOk(pt, n)
    ensures LinksOk(MacLinks(pt, wpt), n) && BlockOk(Flip(pt[192..]), n)
    ensures BitsOk(Flip(Constants(LeBits(M0))), n)
  {
    FlipOk(pt[192..], n);
    FlipOk(Constants(LeBits(M0)), n);
  }

  /** The running MAC over the first three plaintext blocks equals the fourth. */
  function MacStage(c: BlockCipher, p: Setup, s: State, pt: seq<Bit>, wpt: Bytes): (s': State)
    requires p.Shaped() && |pt| == 256 && |wpt| == 32 && BitsOk(pt, |s.wires|)
    ensures Grows(s, s')
  {
    MacWiresOk(pt, wpt, |s.wires|);
    var (s1, m) := ChainG(c, p, s, Flip(Constants(LeBits(M0))), M0, MacLinks(pt, wpt));
    BitsOkGrow(pt, |s.wires|, |s1.wires|);
    MacWiresOk(pt, wpt, |s1.wires|);
    EnforceEqual(s1, m, Flip(pt[192..]))
  }

  /** The blocks of the plaintext that the links and the final comparison use. */
  lemma MacCarries(asg: Assignment, pt: seq<Bit>, wpt: Bytes, bytes: Bytes)
    requires |pt| == 256 && |wpt| == 32 && |bytes| == 32 && Carries(asg, pt, bytes)
    ensures LinksCarry(asg, MacLinks(pt, wpt), [bytes[..8], bytes[8..16], bytes[16..24]])
    ensures Carries(asg, pt[192..], bytes[24..])
  {
    hide Carries;
    SliceCarries(asg, pt, bytes, 0, 8);
    SliceCarries(asg, pt, bytes, 8, 16);
    SliceCarries(asg, pt, bytes, 16, 24);
    SliceCarries(asg, pt, bytes, 24, 32);
    assert bytes[24..] == bytes[24..32] && pt[192..] == pt[192..256];
    assert bytes[..8] == bytes[0..8] && pt[..64] == pt[0..64];
  }

  lemma ConstantsCarry(asg: Assignment, b: Bytes)
    ensures Carries(asg, Constants(LeBits(b)), b)
  {
  }

  /** The chain of three DES gadgets computes the command MAC with opcode 0x13. */
  lemma MacIsChain(c: BlockCipher, pt: seq<Bit>, wpt: Bytes, bytes: Bytes)
    requires |pt| == 256 && |wpt| == 32 && |bytes| == 32
    ensures Chain(c, M0, MacLinks(pt, wpt), [bytes[..8], bytes[8..16], bytes[16..24]])
            == c.CommandMac(MAC_CODE, bytes[..24])
  {
    var blocks := bytes[..24];
    assert blocks[..8] == bytes[..8] && blocks[8..16] == bytes[8..16] && blocks[16..24] == bytes[16..24];
    MacChainLinks(c, M0, MacLinks(pt, wpt), blocks);
  }

  lemma MacStageSound(c: BlockCipher, p: Setup, s: State, pt: seq<Bit>, wpt: Bytes, asg: Assignment, bytes: Bytes)
    requires p.Valid() && IsDes(c, p.t) && |pt| == 256 && |wpt| == 32 && BitsOk(pt, |s.wires|)
    requires Satisfies(p.r, asg, MacStage(c, p, s, pt, wpt).cons)
    requires |bytes| == 32 && Carries(asg, pt, bytes)
    ensures MacRelation(c, bytes)
  {
    hide IsPrime, Interpolates, Satisfies, ChainG, Carries, IsDes, BitsOk, Flip, Chain, LinksOk, DesBits, Vals,
         AreBits, MacLinks;
    var links, m0, mac := MacLinks(pt, wpt), Flip(Constants(LeBits(M0))), Flip(pt[192..]);
    var keys := [bytes[..8], bytes[8..16], bytes[16..24]];
    MacWiresOk(pt, wpt, |s.wires|);
    var (s1, m) := ChainG(c, p, s, m0, M0, links);
    BitsOkGrow(pt, |s.wires|, |s1.wires|);
    MacWiresOk(pt, wpt, |s1.wires|);
    SatisfiesPrefix(p.r, asg, s1.cons, EnforceEqual(s1, m, mac).cons);
    ConstantsCarry(asg, M0);
    FlipCarries(asg, Constants(LeBits(M0)), M0);
    MacCarries(asg, pt, wpt, bytes);
    FlipCarries(asg, pt[192..], bytes[24..]);
    ChainCarries(c, p, s, m0, M0, links, asg, M0, keys);
    MacIsChain(c, pt, wpt, bytes);
    EnforceEqualSound(p, s1, m, mac, asg);
    DesBitsInjective(c.CommandMac(MAC_CODE, bytes[..24]), bytes[24..]);
    assert bytes[24..] == bytes[24..32];
  }

  lemma MacStageComplete(c: BlockCipher, p: Setup, s: State, pt: seq<Bit>, bytes: Bytes)
    requires p.Valid() && IsDes(c, p.t) && |pt| == 256 && |bytes| == 32 && BitsOk(pt, |s.wires|)
    requires Consistent(p.r, s) && Carries(s.Asg(), pt, bytes) && MacRelation(c, bytes)
    ensures Consistent(p.r, MacStage(c, p, s, pt, bytes))
  {
    hide IsPrime, Interpolates, Satisfies, ChainG, Carries, IsDes, BitsOk, Flip, Chain, LinksOk, DesBits, Vals, AreBits;
    var links, m0, mac := MacLinks(pt, bytes), Flip(Constants(LeBits(M0))), Flip(pt[192..]);
    var keys := [bytes[..8], bytes[8..16], bytes[16..24]];
    MacWiresOk(pt, bytes, |s.wires|);
    ConstantsCarry(s.Asg(), M0);
    FlipCarries(s.Asg(), Constants(LeBits(M0)), M0);
    MacCarries(s.Asg(), pt, bytes, bytes);
    assert Natives(links) == keys;
    var (s1, m) := ChainG(c, p, s, m0, M0, links);
    ChainComplete(c, p, s, m0, M0, links);
    BitsOkGrow(pt, |s.wires|, |s1.wires|);
    MacWiresOk(pt, bytes, |s1.wires|);
    CarriesGrow(s, s1, pt, bytes);
    CarriesGrow(s, s1, m0, M0);
    MacCarries(s1.Asg(), pt, bytes, bytes);
    FlipCarries(s1.Asg(), pt[192..], bytes[24..]);
    ChainCarries(c, p, s, m0, M0, links, s1.Asg(), M0, keys);
    MacIsChain(c, pt, bytes, bytes);
    assert bytes[24..] == bytes[24..32];
    AreBitsIfCarries(s1.Asg(), m, bytes[24..]);
    EnforceEqualComplete(p, s1, m, mac);
  }

  // ------------------------------------------- stage 6: the whole transcript (C3-C6)

  function Auth2Wires(auth2: seq<Bit>): (blocks: seq<seq<Bit>>)
    requires |auth2| == 256
    ensures |blocks| == 4
  {
    [auth2[..64], auth2[64..128], auth2[128..192], auth2[192..]]
  }

  function Auth2PreviousWires(auth2: seq<Bit>): (blocks: seq<seq<Bit>>)
    requires |auth2| == 256
    ensures |blocks| == 4
  {
    [seq(64, j => Const(false)), auth2[..64], auth2[64..128], auth2[128..192]]
  }

  lemma Auth2WiresOk(auth2: seq<Bit>, n: int)
    requires |auth2| == 256 && BitsOk(auth2, n)
    ensures BlocksOk(Auth2Wires(auth2), n) && BlocksOk(Auth2PreviousWires(auth2), n)
  {
  }

  lemma Auth2WiresCarry(asg: Assignment, auth2: seq<Bit>, bytes: Auth2)
    requires |auth2| == 256 && Carries(asg, auth2, bytes)
    ensures BlocksCarry(asg, Auth2Wires(auth2), Auth2Blocks(bytes))
    ensures BlocksCarry(asg, Auth2PreviousWires(auth2), Auth2Previous(bytes))
  {
    assert Carries(asg, seq(64, j => Const(false)), ZERO_BLOCK) by { ZeroBlockBits(); }
    hide Carries;
    SliceCarries(asg, auth2, bytes, 0, 8);
    SliceCarries(asg, auth2, bytes, 8, 16);
    SliceCarries(asg, auth2, bytes, 16, 24);
    SliceCarries(asg, auth2, bytes, 24, 32);
    assert auth2[..64] == auth2[0..64] && bytes[..8] == bytes[0..8] && auth2[192..] == auth2[192..256];
  }

  /** C5 and C6: bytes 2..8 of the plaintext are those of r1, bytes 8..16 are the IDi. */
  function BindStage(s: State, pt: seq<Bit>, r1: seq<Bit>, idi: seq<Bit>): (s': State)
    requires |pt| == 256 && BitsOk(pt, |s.wires|) && BlockOk(r1, |s.wires|) && BlockOk(idi, |s.wires|)
    ensures Grows(s, s')
  {
    EnforceEqual(EnforceEqual(s, pt[16..64], r1[16..]), pt[64..128], idi)
  }

  lemma BindStageSound(p: Setup, s: State, pt: seq<Bit>, r1: seq<Bit>, idi: seq<Bit>,
                       asg: Assignment, bytes: Bytes, f: FelicaCircuit)
    requires p.Valid() && |pt| == 256 && BitsOk(pt, |s.wires|) && BlockOk(r1, |s.wires|) && BlockOk(idi, |s.wires|)
    requires Satisfies(p.r, asg, BindStage(s, pt, r1, idi).cons)
    requires |bytes| == 32 && Carries(asg, pt, bytes) && Carries(asg, r1, f.r1) && Carries(asg, idi, f.idi)
    ensures BindingRelations(f, bytes)
  {
    var s1 := EnforceEqual(s, pt[16..64], r1[16..]);
    SatisfiesPrefix(p.r, asg, s1.cons, BindStage(s, pt, r1, idi).cons);
    EnforceEqualSound(p, s, pt[16..64], r1[16..], asg);
    EnforceEqualSound(p, s1, pt[64..128], idi, asg);
    SliceCarries(asg, pt, bytes, 2, 8);
    SliceCarries(asg, pt, bytes, 8, 16);
    SliceCarries(asg, r1, f.r1, 2, 8);
    assert r1[16..] == r1[16..64];
    LeBitsInjective(bytes[2..8], f.r1[2..8]);
    LeBitsInjective(bytes[8..16], f.idi);
  }

  lemma BindStageComplete(p: Setup, s: State, pt: seq<Bit>, r1: seq<Bit>, idi: seq<Bit>, bytes: Bytes, f: FelicaCircuit)
    requires p.Valid() && |pt| == 256 && BitsOk(pt, |s.wires|) && BlockOk(r1, |s.wires|) && BlockOk(idi, |s.wires|)
    requires Consistent(p.r, s)
    requires |bytes| == 32 && Carries(s.Asg(), pt, bytes)
    requires Carries(s.Asg(), r1, f.r1) && Carries(s.Asg(), idi, f.idi) && BindingRelations(f, bytes)
    ensures Consistent(p.r, BindStage(s, pt, r1, idi))
  {
    hide IsPrime, Interpolates, Satisfies, LeBits;
    var s1 := EnforceEqual(s, pt[16..64], r1[16..]);
    assert s1.Asg() == s.Asg();
    SliceCarries(s.Asg(), pt, bytes, 2, 8);
    SliceCarries(s.Asg(), pt, bytes, 8, 16);
    SliceCarries(s.Asg(), r1, f.r1, 2, 8);
    assert r1[16..] == r1[16..64];
    EnforceEqualComplete(p, s, pt[16..64], r1[16..]);
    EnforceEqualComplete(p, s1, pt[64..128], idi);
  }

  function TranscriptStage(c: BlockCipher, p: Setup, s: State, auth2: seq<Bit>, r2: seq<Bit>, r1: seq<Bit>,
                           idi: seq<Bit>, wauth2: Auth2, wr2: Block): (s': State)
    requires p.Shaped() && |auth2| == 256 && BitsOk(auth2, |s.wires|)
    requires BlockOk(r2, |s.wires|) && BlockOk(r1, |s.wires|) && BlockOk(idi, |s.wires|)
    ensures Grows(s, s')
  {
    hide PlainStage, MacStage;
    Auth2WiresOk(auth2, |s.wires|);
    var (s1, pt) := PlainStage(p, s, Auth2Wires(auth2), Auth2PreviousWires(auth2), r2, Auth2Blocks(wauth2), wr2);
    var s2 := MacStage(c, p, s1, pt, Plaintext(c, wauth2, wr2));
    GrowsTrans(s, s1, s2);
    BitsOkGrow(pt, |s1.wires|, |s2.wires|);
    BitsOkGrow(r1, |s.wires|, |s2.wires|);
    BitsOkGrow(idi, |s.wires|, |s2.wires|);
    GrowsTrans(s, s2, BindStage(s2, pt, r1, idi));
    BindStage(s2, pt, r1, idi)
  }

  lemma TranscriptStageSound(c: BlockCipher, p: Setup, s: State, auth2: seq<Bit>, r2: seq<Bit>, r1: seq<Bit>,
                             idi: seq<Bit>, wauth2: Auth2, wr2: Block, asg: Assignment, f: FelicaCircuit)
    requires p.Valid() && IsDes(c, p.t) && |auth2| == 256 && BitsOk(auth2, |s.wires|)
    requires BlockOk(r2, |s.wires|) && BlockOk(r1, |s.wires|) && BlockOk(idi, |s.wires|)
    requires Satisfies(p.r, asg, TranscriptStage(c, p, s, auth2, r2, r1, idi, wauth2, wr2).cons)
    requires Carries(asg, auth2, f.auth2) && Carries(asg, r2, f.r2) && Carries(asg, r1, f.r1)
             && Carries(asg, idi, f.idi)
    ensures MacRelation(c, Plaintext(c, f.auth2, f.r2)) && BindingRelations(f, Plaintext(c, f.auth2, f.r2))
  {
    hide IsPrime, Interpolates, Satisfies, PlainStage, MacStage, BindStage, Carries, IsDes, BitsOk, Plaintext,
         PlainBlocks, MacRelation, BindingRelations;
    Auth2WiresOk(auth2, |s.wires|);
    var cts, prevs := Auth2Wires(auth2), Auth2PreviousWires(auth2);
    var (s1, pt) := PlainStage(p, s, cts, prevs, r2, Auth2Blocks(wauth2), wr2);
    var s2 := MacStage(c, p, s1, pt, Plaintext(c, wauth2, wr2));
    BitsOkGrow(pt, |s1.wires|, |s2.wires|);
    BitsOkGrow(r1, |s.wires|, |s2.wires|);
    BitsOkGrow(idi, |s.wires|, |s2.wires|);
    var s3 := BindStage(s2, pt, r1, idi);
    SatisfiesPrefix(p.r, asg, s2.cons, s3.cons);
    SatisfiesPrefix(p.r, asg, s1.cons, s2.cons);
    Auth2WiresCarry(asg, auth2, f.auth2);
    PlainStageSound(c, p, s, cts, prevs, r2, Auth2Blocks(wauth2), wr2, asg, Auth2Blocks(f.auth2),
                    Auth2Previous(f.auth2), f.r2);
    PlaintextIsCbc(c, f.auth2, f.r2);
    MacStageSound(c, p, s1, pt, Plaintext(c, wauth2, wr2), asg, Plaintext(c, f.auth2, f.r2));
    BindStageSound(p, s2, pt, r1, idi, asg, Plaintext(c, f.auth2, f.r2), f);
  }

  lemma TranscriptStageComplete(c: BlockCipher, p: Setup, s: State, auth2: seq<Bit>, r2: seq<Bit>, r1: seq<Bit>,
                                idi: seq<Bit>, f: FelicaCircuit)
    requires p.Valid() && IsDes(c, p.t) && |auth2| == 256 && BitsOk(auth2, |s.wires|) && Consistent(p.r, s)
    requires BlockOk(r2, |s.wires|) && BlockOk(r1, |s.wires|) && BlockOk(idi, |s.wires|)
    requires Carries(s.Asg(), auth2, f.auth2) && Carries(s.Asg(), r2, f.r2)
    requires Carries(s.Asg(), r1, f.r1) && Carries(s.Asg(), idi, f.idi)
    requires MacRelation(c, Plaintext(c, f.auth2, f.r2)) && BindingRelations(f, Plaintext(c, f.auth2, f.r2))
    ensures Consistent(p.r, TranscriptStage(c, p, s, auth2, r2, r1, idi, f.auth2, f.r2))
  {
    hide IsPrime, Interpolates, Satisfies, PlainStage, MacStage, BindStage, Carries, IsDes, BitsOk, Plaintext,
         PlainBlocks, MacRelation, BindingRelations;
    var bytes := Plaintext(c, f.auth2, f.r2);
    Auth2WiresOk(auth2, |s.wires|);
    Auth2WiresCarry(s.Asg(), auth2, f.auth2);
    var cts, prevs := Auth2Wires(auth2), Auth2PreviousWires(auth2);
    var xs, ys := Auth2Blocks(f.auth2), Auth2Previous(f.auth2);
    var (s1, pt) := PlainStage(p, s, cts, prevs, r2, xs, f.r2);
    PlainStageComplete(c, p, s, cts, prevs, r2, xs, ys, f.r2);
    BlocksCarryGrow(s, s1, cts, xs);
    BlocksCarryGrow(s, s1, prevs, ys);
    CarriesGrow(s, s1, r2, f.r2);
    PlainStageSound(c, p, s, cts, prevs, r2, xs, f.r2, s1.Asg(), xs, ys, f.r2);
    PlaintextIsCbc(c, f.auth2, f.r2);
    var s2 := MacStage(c, p, s1, pt, bytes);
    MacStageComplete(c, p, s1, pt, bytes);
    BitsOkGrow(pt, |s1.wires|, |s2.wires|);
    BitsOkGrow(r1, |s.wires|, |s2.wires|);
    BitsOkGrow(idi, |s.wires|, |s2.wires|);
    GrowsTrans(s, s1, s2);
    CarriesGrow(s1, s2, pt, bytes);
    CarriesGrow(s, s2, r1, f.r1);
    CarriesGrow(s, s2, idi, f.idi);
    BindStageComplete(p, s2, pt, r1, idi, bytes, f);
  }

  // ------------------------------------------------------------- the whole circuit

  /** D1-D3, then C1 and C2. */
  function KeyAndChallengeStage(c: BlockCipher, p: Setup, s: State, w: Wires, f: FelicaCircuit): (s': State)
    requires p.Shaped() && w.Ok(|s.wires|)
    ensures Grows(s, s')
  {
    hide KeyStage, ChallengeStage;
    var k := DeriveKeys(c, f.gsk, f.usk, f.idm);
    var (s1, l, beta) := KeyStage(p, s, w.gsk, w.usk, w.idm, f.usk, k);
    WiresOkAfter(w, |s.wires|, |s1.wires|);
    var s2 := ChallengeStage(c, p, s1, w.r1, l, beta, w.c1b, f.r1, k.l, k.beta);
    WiresOkAfter(w, |s1.wires|, |s2.wires|);
    BitsOkGrow(l, |s1.wires|, |s2.wires|);
    BitsOkGrow(beta, |s1.wires|, |s2.wires|);
    GrowsTrans(s, s1, s2);
    var s3 := ChallengeStage(c, p, s2, w.r2, l, beta, w.c2a, f.r2, k.l, k.beta);
    GrowsTrans(s, s2, s3);
    s3
  }

  lemma WiresGrow(s: RawState, s': RawState, w: Wires, f: FelicaCircuit)
    requires Grows(s, s') && w.Ok(|s.wires|)
    ensures w.Ok(|s'.wires|)
    ensures w.Carry(s.Asg(), f) ==> w.Carry(s'.Asg(), f)
  {
    hide Carries, BitsOk;
    WiresOkAfter(w, |s.wires|, |s'.wires|);
    CarriesGrow(s, s', w.gsk, f.gsk);
    CarriesGrow(s, s', w.usk, f.usk);
    CarriesGrow(s, s', w.idm, f.idm);
    CarriesGrow(s, s', w.c1b, f.c1b);
    CarriesGrow(s, s', w.c2a, f.c2a);
    CarriesGrow(s, s', w.r2, f.r2);
    CarriesGrow(s, s', w.auth2, f.auth2);
    CarriesGrow(s, s', w.idi, f.idi);
    CarriesGrow(s, s', w.r1, f.r1);
  }

  lemma WiresOkAfter(w: Wires, n: int, m: int)
    requires w.Ok(n) && n <= m
    ensures w.Ok(m)
  {
    hide BitsOk;
    BitsOkGrow(w.gsk, n, m);
    BitsOkGrow(w.usk, n, m);
    BitsOkGrow(w.idm, n, m);
    BitsOkGrow(w.c1b, n, m);
    BitsOkGrow(w.c2a, n, m);
    BitsOkGrow(w.r2, n, m);
    BitsOkGrow(w.auth2, n, m);
    BitsOkGrow(w.idi, n, m);
    BitsOkGrow(w.r1, n, m);
  }
}
