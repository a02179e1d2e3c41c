// The circuit as it is built: a constraint system that grows step by step, in loops.
// Every method leaves it in the state that the functions of Gadgets, DesCircuit and
// SessionCircuit describe, so their soundness and completeness hold of it.
module CircuitBuilder {
  import opened Bits
  import opened Tables
  import opened Des
  import opened DesLaws
  import opened Modes
  import opened Field
  import opened Interpolation
  import opened R1cs
  import G = Gadgets
  import D = DesCircuit
  import opened Session
  import S = SessionCircuit
  import T = CircuitTheorem
  import N = DesNative

  /** The S-box polynomials, interpolated once from the tables. */
  method BuildSetup(r: nat, t: Tables) returns (p: G.Setup)
    requires IsPrime(r) && 0x2000000000000000000000000000000000000000000000000000000000000000 < r
    ensures p.Valid() && p.r == r && p.t == t
  {
    hide IsPrime, Interpolates;
    var polys: seq<seq<nat>> := [];
    for b := 0 to 8
      invariant |polys| == b
      invariant forall i :: 0 <= i < b ==> polys[i] != [] && Interpolates(r, polys[i], G.MappedTable(t, i))
    {
      var table := N.SBoxMapped(t, b);
      var coeffs := Interpolate(r, table);
      assert coeffs != [] by { NonEmpty(r, coeffs, table); }
      polys := polys + [coeffs];
    }
    p := G.Setup(r, t, polys);
  }

  lemma NonEmpty(r: nat, coeffs: seq<nat>, table: seq<nat>)
    requires r > 1 && Interpolates(r, coeffs, table) && table != []
    ensures coeffs != []
  {
  }

  // ---------------------------------------------------------------- wiring loops

  /** Little-endian wires to DES order. */
  method LeToDes(le: seq<Bit>) returns (out: seq<Bit>)
    requires |le| % 8 == 0
    ensures out == Flip(le)
  {
    out := [];
    for k := 0 to |le|
      invariant |out| == k && forall i :: 0 <= i < k ==> out[i] == Flip(le)[i]
    {
      var byte := k / 8;
      var idx := byte * 8 + (7 - k % 8);
      out := out + [le[idx]];
    }
  }

  /** DES-ordered wires to little-endian: the same positions, written instead of read. */
  method DesToLe(des: seq<Bit>) returns (le: seq<Bit>)
    requires |des| % 8 == 0
    ensures le == Flip(des)
  {
    var out := new Bit[|des|](_ => Const(false));
    for k := 0 to |des|
      invariant forall i :: 0 <= i < |des| && FlipIndex(i) < k ==> out[i] == des[FlipIndex(i)]
    {
      var idx := k / 8 * 8 + (7 - k % 8);
      FlipIndexTwice(k, |des|);
      forall i | 0 <= i < |des| && FlipIndex(i) == k ensures i == idx {
        FlipIndexTwice(i, |des|);
      }
      out[idx] := des[k];
    }
    forall i | 0 <= i < |des| ensures FlipIndex(i) < |des| { FlipIndexTwice(i, |des|); }
    return out[..];
  }

  /** The round keys as wirings of the key's bits. */
  method RoundKeyVars(t: Tables, keyLe: seq<Bit>) returns (keys: seq<seq<Bit>>)
    requires |keyLe| == 64
    ensures keys == RoundKeys(t, Flip(keyLe))
  {
    var keyDes := LeToDes(keyLe);
    var pc1 := Permute(keyDes, t.pc1);
    var c, d := pc1[..28], pc1[28..];
    keys := [];
    hide Permute, RotateLeft;
    for i := 0 to 16
      invariant |c| == 28 && |d| == 28
      invariant keys + Schedule(t, c, d, t.shifts[i..]) == RoundKeys(t, keyDes)
    {
      c := RotateLeft(c, t.shifts[i]);
      d := RotateLeft(d, t.shifts[i]);
      keys := keys + [Permute(c + d, t.pc2)];
      assert t.shifts[i..][1..] == t.shifts[i + 1..];
    }
  }

  /** Horner's rule from the top coefficient down. */
  method EvalPoly(x: Fp, coeffs: seq<nat>) returns (acc: Fp)
    requires coeffs != []
    ensures acc == G.PolyExpr(x, coeffs)
  {
    var i := |coeffs| - 1;
    acc := Lit(coeffs[i]);
    while i > 0
      invariant 0 <= i < |coeffs|
      invariant acc == G.PolyExpr(x, coeffs[i..])
    {
      i := i - 1;
      acc := Sum(Product(acc, x), Lit(coeffs[i]));
      assert coeffs[i..][1..] == coeffs[i + 1..];
    }
    assert coeffs[0..] == coeffs;
  }

  lemma AllocSnoc(s: State, bits: BitVec, b: bool)
    ensures var (s1, w) := G.Alloc(s, bits);
      G.Alloc(s, bits + [b]) == (G.Alloc(s1, [b]).0, w + G.Alloc(s1, [b]).1)
  {
    var (s1, w) := G.Alloc(s, bits);
    var (s2, x) := G.Alloc(s1, [b]);
    var (s', w') := G.Alloc(s, bits + [b]);
    assert s'.wires == s2.wires;
    assert s'.cons == s2.cons;
    assert w' == w + x;
  }

  lemma AllocNothing(s: State)
    ensures G.Alloc(s, []) == (s, [])
  {
    var (s', w) := G.Alloc(s, []);
    assert s'.wires == s.wires && s'.cons == s.cons;
  }

  lemma LeBitAt(bytes: Bytes, k: nat)
    requires k < 8 * |bytes|
    ensures LeBits(bytes)[k] == LowBits(bytes[k / 8], 8)[k % 8]
  {
    hide LowBits;
  }

  lemma LeBitIs(bytes: Bytes, i: nat, j: nat)
    requires i < |bytes| && j < 8
    ensures LeBits(bytes)[8 * i + j] == N.BitOf(bytes[i], j)
  {
    hide LowBits, N.BitOf, LeBits;
    N.LowBitIsBitOf(bytes[i], 8, j);
    var k := 8 * i + j;
    DivisionIs(k, 8, i, j);
    LeBitAt(bytes, k);
  }

  /** Bit j of byte i at 8 * i + j. */
  method LeBitsOf(bytes: Bytes) returns (bits: BitVec)
    ensures bits == LeBits(bytes)
  {
    hide LeBits, N.BitOf;
    bits := [];
    for i := 0 to |bytes|
      invariant bits == LeBits(bytes)[..8 * i]
    {
      for j := 0 to 8
        invariant bits == LeBits(bytes)[..8 * i + j]
      {
        LeBitIs(bytes, i, j);
        bits := bits + [N.BitOf(bytes[i], j)];
      }
    }
  }

  lemma TwoConstraints(s: State, a: Constraint, b: Constraint)
    requires ConstraintOk(a, |s.inputs|, |s.wires|) && ConstraintOk(b, |s.inputs|, |s.wires|)
    ensures Extend(Extend(s, [], [a]), [], [b]) == Extend(s, [], [a, b])
  {
    assert Extend(Extend(s, [], [a]), [], [b]).cons == Extend(s, [], [a, b]).cons;
  }

  class ConstraintSystem {
    var inputs: seq<nat>
    var wires: seq<nat>
    var cons: seq<Constraint>

    ghost function Raw(): RawState
      reads this
    {
      RawState(inputs, wires, cons)
    }

    ghost predicate Valid()
      reads this
    {
      StateOk(Raw())
    }

    constructor ()
      ensures Raw() == RawState([], [], [])
    {
      inputs, wires, cons := [], [], [];
    }

    method NewWitness(value: bool) returns (b: Bit)
      requires Valid()
      modifies this
      ensures Valid() && (Raw(), [b]) == G.Alloc(old(Raw()), [value])
    {
      var w := |wires|;
      ghost var after := G.Alloc(Raw(), [value]).0;
      wires := wires + [BitNum(value)];
      cons := cons + [IsBoolean(w)];
      assert after.cons == cons && after.wires == wires;
      b := Is(w);
      assert [b] == G.Alloc(old(Raw()), [value]).1;
    }

    method AllocBits(bits: BitVec) returns (out: seq<Bit>)
      requires Valid()
      modifies this
      ensures Valid() && (Raw(), out) == G.Alloc(old(Raw()), bits)
    {
      ghost var s := Raw();
      out := [];
      AllocNothing(s);
      hide G.Alloc;
      for i := 0 to |bits|
        invariant Valid() && (Raw(), out) == G.Alloc(s, bits[..i])
      {
        AllocSnoc(s, bits[..i], bits[i]);
        assert bits[..i] + [bits[i]] == bits[..i + 1];
        var b := NewWitness(bits[i]);
        out := out + [b];
      }
      assert bits[..|bits|] == bits;
    }

    method AllocLeBits(bytes: Bytes) returns (out: seq<Bit>)
      requires Valid()
      modifies this
      ensures Valid() && (Raw(), out) == G.Alloc(old(Raw()), LeBits(bytes))
    {
      var bits := LeBitsOf(bytes);
      out := AllocBits(bits);
    }

    /** Xor folds constants, and allocates a wire for two variables. */
    method XorBit(a: Bit, b: Bit) returns (x: Bit)
      requires Valid() && BitOk(a, |wires|) && BitOk(b, |wires|)
      modifies this
      ensures Valid() && (Raw(), x) == G.XorBit(old(Raw()), a, b)
    {
      if a.Const? {
        x := if a.value then G.Negate(b) else b;
      } else if b.Const? {
        x := if b.value then G.Negate(a) else a;
      } else {
        var w := |wires|;
        ghost var after := G.XorBit(Raw(), a, b).0;
        var v := if wires[a.wire] == wires[b.wire] then 0 else 1;
        wires := wires + [v];
        cons := cons + [IsXor(a.wire, b.wire, w)];
        assert Raw() == after;
        x := if a.Is? == b.Is? then Is(w) else Not(w);
      }
    }

    method XorBits(a: seq<Bit>, b: seq<Bit>) returns (out: seq<Bit>)
      requires Valid() && |a| == |b| && BitsOk(a, |wires|) && BitsOk(b, |wires|)
      modifies this
      ensures Valid() && (Raw(), out) == G.XorBits(old(Raw()), a, b)
    {
      ghost var s := Raw();
      out := [];
      hide G.XorBit;
      for i := 0 to |a|
        invariant Valid() && Grows(s, Raw())
        invariant (Raw(), out) == G.XorBits(s, a[..i], b[..i])
      {
        assert a[..i + 1][..i] == a[..i] && b[..i + 1][..i] == b[..i];
        assert BitOk(a[i], |s.wires|) && BitOk(b[i], |s.wires|);
        var x := XorBit(a[i], b[i]);
        out := out + [x];
      }
      assert a[..|a|] == a && b[..|b|] == b;
    }

    method EnforceEqual(x: Fp, y: Fp)
      requires Valid() && ConstraintOk(Equal(x, y), |inputs|, |wires|)
      modifies this
      ensures Valid() && Raw() == Extend(old(Raw()), [], [Equal(x, y)])
    {
      ghost var after := Extend(Raw(), [], [Equal(x, y)]);
      cons := cons + [Equal(x, y)];
      assert Raw() == after;
    }

    /** Pairwise equal bits. */
    method EnforceEqualBits(a: seq<Bit>, b: seq<Bit>)
      requires Valid() && |a| == |b| && BitsOk(a, |wires|) && BitsOk(b, |wires|)
      modifies this
      ensures Valid() && Raw() == S.EnforceEqual(old(Raw()), a, b)
    {
      ghost var s := Raw();
      ghost var after := S.EnforceEqual(s, a, b);
      assert S.Equalities(a, b)[..0] == [];
      for i := 0 to |a|
        invariant Valid() && inputs == s.inputs && wires == s.wires
        invariant cons == s.cons + S.Equalities(a, b)[..i]
      {
        assert BitOk(a[i], |wires|) && BitOk(b[i], |wires|);
        EnforceEqual(Pack([a[i]]), Pack([b[i]]));
      }
      assert Raw() == after;
    }

    /** Four hinted output bits, pinned by out == P(in). */
    method SBoxGadget(p: G.Setup, box: nat, input: seq<Bit>, hint: BitVec) returns (out: seq<Bit>)
      requires Valid() && p.Shaped() && box < 8
      requires |input| == 6 && |hint| == 6 && BitsOk(input, |wires|)
      modifies this
      ensures Valid() && (Raw(), out) == G.SBox(p, old(Raw()), box, input, hint)
    {
      hide SBoxLookup, G.Alloc;
      var v := SBoxLookup(p.t, box, hint);
      var outVal := [v / 8 % 2 == 1, v / 4 % 2 == 1, v / 2 % 2 == 1, v % 2 == 1];
      ghost var n := |wires|;
      out := AllocBits(outVal);
      BitsOkGrow(input, n, |wires|);
      var inFp := Pack([input[5], input[4], input[3], input[2], input[1], input[0]]);
      var outFp := Pack([out[3], out[2], out[1], out[0]]);
      assert inFp.bits == Reverse(input) && outFp.bits == Reverse(out);
      var expected := EvalPoly(inFp, p.polys[box]);
      EnforceEqual(expected, outFp);
    }

    /** The S-boxes of one round, in order. */
    method SBoxLayerGadget(p: G.Setup, x: seq<Bit>, hint: BitVec) returns (out: seq<Bit>)
      requires Valid() && p.Shaped()
      requires |x| == 48 && |hint| == 48 && BitsOk(x, |wires|)
      modifies this
      ensures Valid() && (Raw(), out) == G.SBoxes(p, old(Raw()), x, hint, 8)
    {
      ghost var s := Raw();
      out := [];
      assert G.SBoxes(p, s, x, hint, 0) == (s, []);
      hide G.SBox, G.SBoxes, BitsOk;
      for b := 0 to 8
        invariant Valid() && (Raw(), out) == G.SBoxes(p, s, x, hint, b)
      {
        G.SBoxesStep(p, s, x, hint, b);
        var o := SBoxGadget(p, b, x[6 * b..6 * b + 6], hint[6 * b..6 * b + 6]);
        out := out + o;
      }
    }

    /** One round: expansion and permutation are wiring, the two xors and the S-boxes are constraints. */
    method RoundGadget(p: G.Setup, l: seq<Bit>, r: seq<Bit>, key: seq<Bit>, hr: BitVec, hkey: BitVec)
      returns (newR: seq<Bit>)
      requires Valid() && p.Shaped()
      requires |l| == 32 && |r| == 32 && |key| == 48 && |hr| == 32 && |hkey| == 48
      requires BitsOk(l, |wires|) && BitsOk(r, |wires|) && BitsOk(key, |wires|)
      modifies this
      ensures Valid() && (Raw(), newR) == G.Round(p, old(Raw()), l, r, key, hr, hkey)
    {
      hide G.XorBits, G.SBoxes;
      ghost var s := Raw();
      var expanded := Permute(r, p.t.e);
      var expandedNat := N.PermuteBits(hr, p.t.e);
      assert BitsOk(expanded, |wires|);
      var x := XorBits(expanded, key);
      var xNat := N.XorInto(expandedNat, hkey);
      ghost var s1 := Raw();
      var o := SBoxLayerGadget(p, x, xNat);
      GrowsTrans(s, s1, Raw());
      var f := Permute(o, p.t.p);
      assert BitsOk(f, |wires|);
      BitsOkGrow(l, |s.wires|, |wires|);
      newR := XorBits(l, f);
    }

    /** Sixteen rounds over the wires, with the native halves alongside as hints. */
    method RoundsGadget(p: G.Setup, l0: seq<Bit>, r0: seq<Bit>, keys: seq<seq<Bit>>,
                        hl: BitVec, hr: BitVec, hkeys: seq<BitVec>) returns (l: seq<Bit>, r: seq<Bit>)
      requires Valid() && p.Shaped()
      requires |l0| == 32 && |r0| == 32 && |hl| == 32 && |hr| == 32
      requires |keys| == 16 == |hkeys| && G.KeysOk(keys, |wires|) && AreRoundKeys(hkeys)
      requires BitsOk(l0, |wires|) && BitsOk(r0, |wires|)
      modifies this
      ensures Valid() && (Raw(), l, r) == G.RoundsG(p, old(Raw()), l0, r0, keys, hl, hr, hkeys)
    {
      hide Feistel, G.Round, StateOk;
      ghost var all := G.RoundsG(p, Raw(), l0, r0, keys, hl, hr, hkeys);
      l, r := l0, r0;
      var lNat, rNat := hl, hr;
      assert keys[0..] == keys && hkeys[0..] == hkeys;
      for round := 0 to 16
        invariant Valid()
        invariant |l| == 32 && |r| == 32 && |lNat| == 32 && |rNat| == 32
        invariant BitsOk(l, |wires|) && BitsOk(r, |wires|) && G.KeysOk(keys[round..], |wires|)
        invariant AreRoundKeys(hkeys[round..])
        invariant G.RoundsG(p, Raw(), l, r, keys[round..], lNat, rNat, hkeys[round..]) == all
      {
        ghost var n := |wires|;
        assert keys[round..][0] == keys[round] && keys[round..][1..] == keys[round + 1..];
        assert hkeys[round..][0] == hkeys[round] && hkeys[round..][1..] == hkeys[round + 1..];
        var newR := RoundGadget(p, l, r, keys[round], rNat, hkeys[round]);
        var fNat := N.FeistelOf(p.t, rNat, hkeys[round]);
        var newRNat := N.XorInto(lNat, fNat);
        BitsOkGrow(r, n, |wires|);
        G.KeysOkGrow(keys[round..], n, |wires|);
        l, r := r, newR;
        lNat, rNat := rNat, newRNat;
      }
    }

    /** One DES block. */
    method DesGadget(p: G.Setup, data: seq<Bit>, keyLe: seq<Bit>, encrypt: bool, wd: Block, wk: Block)
      returns (out: seq<Bit>)
      requires Valid() && p.Shaped() && |data| == 64 && |keyLe| == 64
      requires BitsOk(data, |wires|) && BitsOk(keyLe, |wires|)
      modifies this
      ensures Valid() && (Raw(), out) == D.DesG(p, old(Raw()), data, keyLe, encrypt, wd, wk)
    {
      hide RoundKeys, Permute, InverseTable, G.RoundsG, StateOk;
      D.InputsOk(p.t, data, keyLe, encrypt, |wires|);
      var keys := RoundKeyVars(p.t, keyLe);
      var nativeKeys := N.RoundKeysOf(p.t, wk);
      if !encrypt {
        keys, nativeKeys := Reverse(keys), Reverse(nativeKeys);
      }
      var ip := Permute(data, p.t.ip);
      var bits := N.BytesToDesBits(wd);
      var ipNat := N.PermuteBits(bits, p.t.ip);
      var l, r := RoundsGadget(p, ip[..32], ip[32..], keys, ipNat[..32], ipNat[32..], nativeKeys);
      var fp := N.InvertTable(p.t.ip);
      out := Permute(r + l, fp);
    }

    /** A chain of DES gadgets, the native bytes alongside: each output is the data of the next. */
    method ChainGadget(p: G.Setup, data: seq<Bit>, wd: Block, links: seq<D.Link>) returns (out: seq<Bit>)
      requires Valid() && p.Shaped()
      requires |data| == 64 && BitsOk(data, |wires|) && D.LinksOk(links, |wires|)
      modifies this
      ensures Valid() && (Raw(), out) == D.ChainG(DesCipher(p.t), p, old(Raw()), data, wd, links)
    {
      hide D.DesG, StateOk, DesBlock;
      ghost var c := DesCipher(p.t);
      ghost var all := D.ChainG(c, p, Raw(), data, wd, links);
      out := data;
      var native := wd;
      assert links[0..] == links;
      for i := 0 to |links|
        invariant Valid() && |out| == 64 && BitsOk(out, |wires|) && D.LinksOk(links[i..], |wires|)
        invariant D.ChainG(c, p, Raw(), out, native, links[i..]) == all
      {
        ghost var n := |wires|;
        var k := links[i];
        assert links[i..][0] == k && links[i..][1..] == links[i + 1..];
        out := DesGadget(p, out, k.key, k.encrypt, native, k.native);
        native := N.DesBlockOf(p.t, native, k.native, k.encrypt);
        D.LinksOkGrow(links[i..], n, |wires|);
      }
    }

    /** C1 and C2: the 3DES of the data wires equals the target wires. */
    method ChallengeGadget(p: G.Setup, data: seq<Bit>, l: seq<Bit>, beta: seq<Bit>, target: seq<Bit>,
                           wd: Block, wl: Block, wbeta: Block)
      requires Valid() && p.Shaped() && S.BlockOk(data, |wires|) && S.BlockOk(target, |wires|)
      requires S.BlockOk(l, |wires|) && S.BlockOk(beta, |wires|)
      modifies this
      ensures Valid() && Raw() == S.ChallengeStage(DesCipher(p.t), p, old(Raw()), data, l, beta, target, wd, wl, wbeta)
    {
      hide D.ChainG, StateOk, DesBlock, Flip;
      ghost var n := |wires|;
      S.FlipOk(data, n);
      S.TdesLinksOk(l, wl, beta, wbeta, n);
      var dataDes := LeToDes(data);
      var e := ChainGadget(p, dataDes, wd, D.TdesLinks(l, wl, beta, wbeta));
      BitsOkGrow(target, n, |wires|);
      S.FlipOk(target, |wires|);
      var targetDes := LeToDes(target);
      EnforceEqualBits(e, targetDes);
    }

    /** A DES gadget between little-endian wires. */
    method LeDesGadget(p: G.Setup, data: seq<Bit>, key: seq<Bit>, wd: Block, wk: Block) returns (out: seq<Bit>)
      requires Valid() && p.Shaped() && S.BlockOk(data, |wires|) && S.BlockOk(key, |wires|)
      modifies this
      ensures Valid() && (Raw(), out) == S.LeDesG(p, old(Raw()), data, key, wd, wk)
    {
      hide D.DesG, StateOk, Flip;
      S.FlipOk(data, |wires|);
      var dataDes := LeToDes(data);
      var e := DesGadget(p, dataDes, key, true, wd, wk);
      S.FlipOk(e, |wires|);
      out := DesToLe(e);
    }

    /** D1 to D3: the session keys. */
    method KeyGadget(p: G.Setup, gsk: seq<Bit>, usk: seq<Bit>, idm: seq<Bit>, wusk: Block, k: SessionKeys)
      returns (l: seq<Bit>, beta: seq<Bit>)
      requires Valid() && p.Shaped() && S.BlockOk(gsk, |wires|) && S.BlockOk(usk, |wires|) && S.BlockOk(idm, |wires|)
      modifies this
      ensures Valid() && (Raw(), l, beta) == S.KeyStage(p, old(Raw()), gsk, usk, idm, wusk, k)
    {
      hide S.LeDesG, G.XorBits, StateOk, BitsOk;
      ghost var s := Raw();
      l := XorBits(gsk, idm);
      ghost var s1 := Raw();
      BitsOkGrow(usk, |s.wires|, |s1.wires|);
      var alpha := LeDesGadget(p, usk, l, wusk, k.l);
      BitsOkGrow(l, |s1.wires|, |wires|);
      GrowsTrans(s, s1, Raw());
      beta := LeDesGadget(p, l, alpha, k.l, k.alpha);
    }

    /** C3 for one block: decrypted, and xored with the ciphertext before it. */
    method BlockGadget(p: G.Setup, ct: seq<Bit>, prev: seq<Bit>, key: seq<Bit>, wct: Block, wkey: Block)
      returns (pt: seq<Bit>)
      requires Valid() && p.Shaped() && S.BlockOk(ct, |wires|) && S.BlockOk(prev, |wires|) && S.BlockOk(key, |wires|)
      modifies this
      ensures Valid() && (Raw(), pt) == S.BlockStage(p, old(Raw()), ct, prev, key, wct, wkey)
    {
      hide D.DesG, G.XorBits, StateOk, Flip, BitsOk;
      ghost var n := |wires|;
      S.FlipOk(ct, n);
      var ctDes := LeToDes(ct);
      var raw := DesGadget(p, ctDes, key, false, wct, wkey);
      BitsOkGrow(prev, n, |wires|);
      S.FlipOk(prev, |wires|);
      var prevDes := LeToDes(prev);
      var x := XorBits(raw, prevDes);
      S.FlipOk(x, |wires|);
      pt := DesToLe(x);
    }

    /** C3: all blocks of the plaintext. */
    method PlainGadget(p: G.Setup, cts: seq<seq<Bit>>, prevs: seq<seq<Bit>>, key: seq<Bit>, wcts: seq<Block>,
                       wkey: Block)
      returns (pt: seq<Bit>)
      requires Valid() && p.Shaped() && |cts| == |prevs| == |wcts|
      requires S.BlocksOk(cts, |wires|) && S.BlocksOk(prevs, |wires|) && S.BlockOk(key, |wires|)
      modifies this
      ensures Valid() && (Raw(), pt) == S.PlainStage(p, old(Raw()), cts, prevs, key, wcts, wkey)
    {
      hide S.BlockStage, StateOk, BitsOk;
      ghost var s := Raw();
      pt := [];
      for i := 0 to |cts|
        invariant Valid() && Grows(s, Raw())
        invariant (Raw(), pt) == S.PlainStage(p, s, cts[..i], prevs[..i], key, wcts[..i], wkey)
      {
        assert cts[..i + 1][..i] == cts[..i] && prevs[..i + 1][..i] == prevs[..i] && wcts[..i + 1][..i] == wcts[..i];
        S.BlocksOkGrow(cts, |s.wires|, |wires|);
        S.BlocksOkGrow(prevs, |s.wires|, |wires|);
        BitsOkGrow(key, |s.wires|, |wires|);
        ghost var s1 := Raw();
        var x := BlockGadget(p, cts[i], prevs[i], key, wcts[i], wkey);
        GrowsTrans(s, s1, Raw());
        pt := pt + x;
      }
      assert cts[..|cts|] == cts && prevs[..|cts|] == prevs && wcts[..|cts|] == wcts;
    }

    /** C4: the running MAC equals the last plaintext block. */
    method MacGadget(p: G.Setup, pt: seq<Bit>, wpt: Bytes)
      requires Valid() && p.Shaped() && |pt| == 256 && |wpt| == 32 && BitsOk(pt, |wires|)
      modifies this
      ensures Valid() && Raw() == S.MacStage(DesCipher(p.t), p, old(Raw()), pt, wpt)
    {
      hide D.ChainG, StateOk, DesBlock, Flip, BitsOk, LeBits;
      ghost var n := |wires|;
      S.MacWiresOk(pt, wpt, n);
      var m0Bits := LeBitsOf(M0);
      var mDes := LeToDes(S.Constants(m0Bits));
      var m := ChainGadget(p, mDes, M0, S.MacLinks(pt, wpt));
      BitsOkGrow(pt, n, |wires|);
      S.MacWiresOk(pt, wpt, |wires|);
      var macDes := LeToDes(pt[192..]);
      EnforceEqualBits(m, macDes);
    }

    /** The bits of every item, in order. */
    method AllocEach(items: seq<Bytes>) returns (ws: seq<seq<Bit>>)
      requires Valid()
      modifies this
      ensures Valid() && (Raw(), ws) == S.AllocEach(old(Raw()), items)
    {
      hide G.Alloc, StateOk, LeBits;
      ghost var s := Raw();
      ws := [];
      for i := 0 to |items|
        invariant Valid() && (Raw(), ws) == S.AllocEach(s, items[..i])
      {
        assert items[..i + 1][..i] == items[..i];
        var w := AllocLeBits(items[i]);
        ws := ws + [w];
      }
      assert items[..|items|] == items;
    }

    method NewInput(value: nat)
      requires Valid()
      modifies this
      ensures Valid() && Raw() == S.AddInputs(old(Raw()), [value])
    {
      ghost var after := S.AddInputs(Raw(), [value]);
      inputs := inputs + [value];
      assert Raw() == after;
    }

    method NewInputs(pis: seq<nat>)
      requires Valid()
      modifies this
      ensures Valid() && Raw() == S.AddInputs(old(Raw()), pis)
    {
      hide StateOk;
      ghost var s := Raw();
      for i := 0 to |pis|
        invariant Valid() && Raw() == S.AddInputs(s, pis[..i])
      {
        assert pis[..i] + [pis[i]] == pis[..i + 1];
        NewInput(pis[i]);
      }
      assert pis[..|pis|] == pis;
    }

    /** The private bytes, the three public inputs, and the bits of the two that are linked. */
    method WitnessGadget(f: FelicaCircuit) returns (w: S.Wires)
      requires Raw() == RawState([], [], [])
      modifies this
      ensures Valid() && (Raw(), w) == S.WitnessStage(f)
    {
      assert StateOk(RawState([], [], []));
      hide S.AllocEach, StateOk;
      var a := AllocEach(S.Privates(f));
      ghost var s1 := Raw();
      NewInputs(S.PublicInputs(f.idi, f.r1, f.attestedAt));
      var v := AllocEach(S.Publics(f));
      S.WiresOkGrow(a, S.Privates(f), |s1.wires|, |wires|);
      ghost var s3 := Raw();
      EnforceEqual(Pack(v[0]), Input(0));
      EnforceEqual(Pack(v[1]), Input(1));
      TwoConstraints(s3, Equal(Pack(v[0]), Input(0)), Equal(Pack(v[1]), Input(1)));
      w := S.Wires(a[0], a[1], a[2], a[3], a[4], a[5], a[6], v[0], v[1]);
    }

    /** The whole circuit, for one session; with it go the soundness and completeness of CircuitTheorem. */
    method GenerateConstraints(p: G.Setup, f: FelicaCircuit)
      requires p.Shaped() && Raw() == RawState([], [], [])
      modifies this
      ensures Valid() && Raw() == T.Synthesize(DesCipher(p.t), p, f)
    {
      hide S.WitnessStage, S.KeyStage, S.ChallengeStage, S.PlainStage, S.MacStage, StateOk, BitsOk, DesBlock, DesCipher;
      var w := WitnessGadget(f);
      ghost var s0 := Raw();
      var l := N.XorBlocks(f.gsk, f.idm);
      var alpha := N.DesBlockOf(p.t, f.usk, l, true);
      var beta := N.DesBlockOf(p.t, l, alpha, true);
      var k := SessionKeys(l, alpha, beta);
      var lLe, betaLe := KeyGadget(p, w.gsk, w.usk, w.idm, f.usk, k);
      ghost var s1 := Raw();
      S.WiresOkAfter(w, |s0.wires|, |s1.wires|);
      ChallengeGadget(p, w.r1, lLe, betaLe, w.c1b, f.r1, l, beta);
      ghost var s2 := Raw();
      S.WiresOkAfter(w, |s1.wires|, |s2.wires|);
      BitsOkGrow(lLe, |s1.wires|, |s2.wires|);
      BitsOkGrow(betaLe, |s1.wires|, |s2.wires|);
      ChallengeGadget(p, w.r2, lLe, betaLe, w.c2a, f.r2, l, beta);
      ghost var s3 := Raw();
      S.WiresOkAfter(w, |s2.wires|, |s3.wires|);
      S.Auth2WiresOk(w.auth2, |s3.wires|);
      var ptNative := N.DecryptBlocks(p.t, f.auth2, f.r2);
      var pt := PlainGadget(p, S.Auth2Wires(w.auth2), S.Auth2PreviousWires(w.auth2), w.r2, Auth2Blocks(f.auth2), f.r2);
      ghost var s4 := Raw();
      MacGadget(p, pt, ptNative);
      ghost var s5 := Raw();
      BitsOkGrow(pt, |s4.wires|, |s5.wires|);
      GrowsTrans(s3, s4, s5);
      BitsOkGrow(w.r1, |s3.wires|, |s5.wires|);
      BitsOkGrow(w.idi, |s3.wires|, |s5.wires|);
      EnforceEqualBits(pt[16..64], w.r1[16..]);
      EnforceEqualBits(pt[64..128], w.idi);
    }
  }

  /** Building the circuit from a session's bytes satisfies it exactly when the bytes meet the native relations. */
  method SynthesizeSession(p: G.Setup, f: FelicaCircuit) returns (cs: ConstraintSystem)
    requires p.Valid() && f.attestedAt < 0x1_0000_0000_0000_0000
    ensures fresh(cs) && cs.Valid()
    ensures Satisfies(p.r, Assignment(cs.inputs, cs.wires), cs.cons) <==> Relations(DesCipher(p.t), f)
  {
    hide IsPrime, Interpolates, Satisfies, T.Synthesize, Relations;
    cs := new ConstraintSystem();
    cs.GenerateConstraints(p, f);
    T.HintsSatisfyIff(DesCipher(p.t), p, f);
  }
}
