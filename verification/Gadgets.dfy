// The DES gadgets as functions on constraint systems, and the two halves of their
// correctness: every satisfying assignment computes DES, whatever the hints said, and
// hints equal to the real values give a satisfying assignment.
module Gadgets {
  import opened Bits
  import opened Tables
  import opened Des
  import opened DesLaws
  import opened Field
  import opened Polynomials
  import opened Interpolation
  import opened R1cs

  /** The table of an S-box indexed by its six input bits read as a number, first bit highest. */
  function MappedTable(t: Tables, box: nat): (table: seq<nat>)
    requires box < 8
    ensures |table| == 64
    ensures forall v :: 0 <= v < 64 ==> table[v] < 16
  {
    seq(64, v requires 0 <= v < 64 => SBoxLookup(t, box, Reverse(LowBits(v, 6))))
  }

  /** The field order, the DES tables and the interpolated S-box polynomials. */
  datatype Setup = Setup(r: nat, t: Tables, polys: seq<seq<nat>>)
  {
    /** One non-empty polynomial per S-box. */
    ghost predicate Shaped() {
      |polys| == 8 && forall b :: 0 <= b < 8 ==> polys[b] != []
    }

    ghost predicate Valid() {
      && Shaped()
      && IsPrime(r) && 0x2000000000000000000000000000000000000000000000000000000000000000 < r
      && forall b :: 0 <= b < 8 ==> Interpolates(r, polys[b], MappedTable(t, b))
    }
  }

  // ------------------------------------------------------------ alloc and xor

  function BitsToWires(bits: BitVec): (w: seq<nat>)
    ensures |w| == |bits|
    ensures forall i :: 0 <= i < |bits| ==> w[i] == BitNum(bits[i])
  {
    seq(|bits|, i requires 0 <= i < |bits| => BitNum(bits[i]))
  }

  /** Allocates a boolean witness for every given bit. */
  function Alloc(s: State, bits: BitVec): (res: (State, seq<Bit>))
    ensures Grows(s, res.0)
    ensures |res.1| == |bits| && BitsOk(res.1, |res.0.wires|)
    ensures |res.0.wires| == |s.wires| + |bits|
  {
    var n := |s.wires|;
    (Extend(s, BitsToWires(bits), seq(|bits|, i requires 0 <= i < |bits| => IsBoolean(n + i))),
     seq(|bits|, i requires 0 <= i < |bits| => Is(n + i)))
  }

  function Negate(b: Bit): (nb: Bit) {
    match b
    case Const(v) => Const(!v)
    case Is(w) => Not(w)
    case Not(w) => Is(w)
  }

  /** Xor folds constants; on two wires it allocates their xor, negated if one of them was. */
  function XorBit(s: State, a: Bit, b: Bit): (res: (State, Bit))
    requires BitOk(a, |s.wires|) && BitOk(b, |s.wires|)
    ensures Grows(s, res.0)
    ensures BitOk(res.1, |res.0.wires|)
  {
    if a.Const? then (s, if a.value then Negate(b) else b)
    else if b.Const? then (s, if b.value then Negate(a) else a)
    else
      var w := |s.wires|;
      var v := if s.wires[a.wire] == s.wires[b.wire] then 0 else 1;
      (Extend(s, [v], [IsXor(a.wire, b.wire, w)]), if a.Is? == b.Is? then Is(w) else Not(w))
  }

  function XorBits(s: State, a: seq<Bit>, b: seq<Bit>): (res: (State, seq<Bit>))
    requires |a| == |b| && BitsOk(a, |s.wires|) && BitsOk(b, |s.wires|)
    ensures Grows(s, res.0)
    ensures |res.1| == |a| && BitsOk(res.1, |res.0.wires|)
    decreases |a|
  {
    if a == [] then (s, [])
    else
      var n := |a| - 1;
      var (s1, out) := XorBits(s, a[..n], b[..n]);
      assert BitOk(a[n], |s.wires|) && BitOk(b[n], |s.wires|);
      var (s2, x) := XorBit(s1, a[n], b[n]);
      BitsOkGrow(out, |s1.wires|, |s2.wires|);
      GrowsTrans(s, s1, s2);
      (s2, out + [x])
  }

  lemma AllocSound(p: Setup, s: State, bits: BitVec, asg: Assignment)
    requires p.Valid() && Satisfies(p.r, asg, Alloc(s, bits).0.cons)
    ensures AreBits(asg, Alloc(s, bits).1)
  {
    hide IsPrime, Interpolates;
    var (s', out) := Alloc(s, bits);
    forall i | 0 <= i < |bits| ensures IsBit(asg, out[i]) {
      assert s'.cons[|s.cons| + i] == IsBoolean(|s.wires| + i);
      if |s.wires| + i < |asg.wires| {
        BooleanMeaning(p.r, asg.wires[|s.wires| + i]);
      }
    }
  }

  lemma AllocComplete(p: Setup, s: State, bits: BitVec)
    requires p.Valid() && Consistent(p.r, s)
    ensures Consistent(p.r, Alloc(s, bits).0)
    ensures Vals(Alloc(s, bits).0.Asg(), Alloc(s, bits).1) == bits
  {
    hide IsPrime, Interpolates;
    var cons := seq(|bits|, i requires 0 <= i < |bits| => IsBoolean(|s.wires| + i));
    var s' := Extend(s, BitsToWires(bits), cons);
    forall i | 0 <= i < |cons| ensures Holds(p.r, s'.Asg(), cons[i]) {
      BooleanMeaning(p.r, BitNum(bits[i]));
    }
    ExtendConsistent(p.r, s, BitsToWires(bits), cons);
  }

  lemma XorBitSound(p: Setup, s: State, a: Bit, b: Bit, asg: Assignment)
    requires p.Valid() && BitOk(a, |s.wires|) && BitOk(b, |s.wires|)
    requires Satisfies(p.r, asg, XorBit(s, a, b).0.cons)
    requires IsBit(asg, a) && IsBit(asg, b)
    ensures IsBit(asg, XorBit(s, a, b).1)
    ensures Val(asg, XorBit(s, a, b).1) == (Val(asg, a) != Val(asg, b))
  {
    hide IsPrime, Interpolates;
    if !a.Const? && !b.Const? {
      var s', w := XorBit(s, a, b).0, |s.wires|;
      assert s'.cons[|s.cons|] == IsXor(a.wire, b.wire, w);
      XorMeaning(p.r, Wire(asg, a.wire), Wire(asg, b.wire), Wire(asg, w));
    }
  }

  lemma XorBitComplete(p: Setup, s: State, a: Bit, b: Bit)
    requires p.Valid() && BitOk(a, |s.wires|) && BitOk(b, |s.wires|) && Consistent(p.r, s)
    requires IsBit(s.Asg(), a) && IsBit(s.Asg(), b)
    ensures Consistent(p.r, XorBit(s, a, b).0)
  {
    hide IsPrime, Interpolates;
    if !a.Const? && !b.Const? {
      var w := |s.wires|;
      var v := if s.wires[a.wire] == s.wires[b.wire] then 0 else 1;
      var s' := Extend(s, [v], [IsXor(a.wire, b.wire, w)]);
      XorMeaning(p.r, s.wires[a.wire], s.wires[b.wire], v);
      ExtendConsistent(p.r, s, [v], [IsXor(a.wire, b.wire, w)]);
    }
  }

  /** Truth values of a concatenation and of a prefix. */
  lemma ValsConcat(asg: Assignment, a: seq<Bit>, b: seq<Bit>)
    ensures Vals(asg, a + b) == Vals(asg, a) + Vals(asg, b)
    ensures AreBits(asg, a) && AreBits(asg, b) ==> AreBits(asg, a + b)
  {
  }

  lemma ValsSlice(asg: Assignment, a: seq<Bit>, i: nat, j: nat)
    requires i <= j <= |a| && AreBits(asg, a)
    ensures Vals(asg, a[i..j]) == Vals(asg, a)[i..j] && AreBits(asg, a[i..j])
  {
  }

  lemma XorSnoc(u: BitVec, v: BitVec, n: nat)
    requires |u| == |v| == n + 1
    ensures Xor(u, v) == Xor(u[..n], v[..n]) + [u[n] != v[n]]
  {
  }

  lemma {:induction false} XorBitsSound(p: Setup, s: State, a: seq<Bit>, b: seq<Bit>, asg: Assignment)
    requires p.Valid() && |a| == |b| && BitsOk(a, |s.wires|) && BitsOk(b, |s.wires|)
    requires Satisfies(p.r, asg, XorBits(s, a, b).0.cons)
    requires AreBits(asg, a) && AreBits(asg, b)
    ensures AreBits(asg, XorBits(s, a, b).1)
    ensures Vals(asg, XorBits(s, a, b).1) == Xor(Vals(asg, a), Vals(asg, b))
    decreases |a|
  {
    hide IsPrime, Interpolates, XorBit, Holds, Satisfies, Val, IsBit, Vals, Xor;
    if a != [] {
      var n := |a| - 1;
      var (s1, out) := XorBits(s, a[..n], b[..n]);
      assert BitOk(a[n], |s.wires|) && BitOk(b[n], |s.wires|);
      var (s2, x) := XorBit(s1, a[n], b[n]);
      SatisfiesPrefix(p.r, asg, s1.cons, s2.cons);
      ValsSlice(asg, a, 0, n);
      ValsSlice(asg, b, 0, n);
      XorBitsSound(p, s, a[..n], b[..n], asg);
      XorBitSound(p, s1, a[n], b[n], asg);
      ValsConcat(asg, out, [x]);
      XorSnoc(Vals(asg, a), Vals(asg, b), n);
      assert XorBits(s, a, b) == (s2, out + [x]);
      assert a[0..n] == a[..n] && b[0..n] == b[..n];
    }
  }

  lemma {:induction false} XorBitsComplete(p: Setup, s: State, a: seq<Bit>, b: seq<Bit>)
    requires p.Valid() && |a| == |b| && BitsOk(a, |s.wires|) && BitsOk(b, |s.wires|) && Consistent(p.r, s)
    requires AreBits(s.Asg(), a) && AreBits(s.Asg(), b)
    ensures Consistent(p.r, XorBits(s, a, b).0)
    decreases |a|
  {
    hide IsPrime, Interpolates, XorBit, Holds, Satisfies;
    if a != [] {
      var n := |a| - 1;
      var (s1, out) := XorBits(s, a[..n], b[..n]);
      XorBitsComplete(p, s, a[..n], b[..n]);
      assert BitOk(a[n], |s.wires|) && BitOk(b[n], |s.wires|);
      ValsGrow(s, s1, a);
      ValsGrow(s, s1, b);
      XorBitComplete(p, s1, a[n], b[n]);
    }
  }

  // -------------------------------------------------------------------- S-boxes

  /** Horner's rule as a field expression: acc = acc * x + c, from the top coefficient down. */
  function PolyExpr(x: Fp, coeffs: seq<nat>): (e: Fp)
    requires coeffs != []
    ensures forall i, n :: FpOk(x, i, n) ==> FpOk(e, i, n)
  {
    if |coeffs| == 1 then Lit(coeffs[0]) else Sum(Product(PolyExpr(x, coeffs[1..]), x), Lit(coeffs[0]))
  }

  lemma {:induction false} PolyExprValue(r: nat, asg: Assignment, x: Fp, coeffs: seq<nat>)
    requires r > 0 && coeffs != [] && InField(r, coeffs)
    ensures FpValue(r, asg, PolyExpr(x, coeffs)) == Horner(r, coeffs, FpValue(r, asg, x))
  {
    var v := FpValue(r, asg, x);
    if |coeffs| == 1 {
      assert Horner(r, coeffs[1..], v) == 0;
      SmallResidue(r, 0);
      SmallResidue(r, coeffs[0]);
    } else {
      PolyExprValue(r, asg, x, coeffs[1..]);
    }
  }

  /** Four boolean witnesses with the hinted output, pinned by out = P(in). */
  function SBox(p: Setup, s: State, box: nat, input: seq<Bit>, hint: BitVec): (res: (State, seq<Bit>))
    requires p.Shaped() && box < 8
    requires |input| == 6 && |hint| == 6 && BitsOk(input, |s.wires|)
    ensures Grows(s, res.0)
    ensures |res.1| == 4 && BitsOk(res.1, |res.0.wires|)
  {
    var (s1, out) := Alloc(s, Nibble(SBoxLookup(p.t, box, hint)));
    BitsOkGrow(input, |s.wires|, |s1.wires|);
    var eq := Equal(PolyExpr(Pack(Reverse(input)), p.polys[box]), Pack(Reverse(out)));
    (Extend(s1, [], [eq]), out)
  }

  /** Six bits are recovered from the number they spell, and so are the four output bits. */
  lemma SixBits(bits: BitVec)
    requires |bits| == 6
    ensures Value(Reverse(bits)) < 64
    ensures Reverse(LowBits(Value(Reverse(bits)), 6)) == bits
  {
    assert Pow2(6) == 64 by { assert Pow2(3) == 8; }
    LowBitsOfValue(Reverse(bits));
    assert Reverse(Reverse(bits)) == bits;
  }

  lemma ValueOfFour(r: BitVec)
    requires |r| == 4
    ensures Value(r) == BitNum(r[0]) + 2 * BitNum(r[1]) + 4 * BitNum(r[2]) + 8 * BitNum(r[3])
  {
    var r1 := r[1..];
    var r2 := r1[1..];
    var r3 := r2[1..];
    assert Value(r3) == BitNum(r[3]) by { assert r3[1..] == []; }
    assert Value(r2) == BitNum(r[2]) + 2 * Value(r3);
    assert Value(r1) == BitNum(r[1]) + 2 * Value(r2);
  }

  lemma FourBits(bits: BitVec)
    requires |bits| == 4
    ensures Nibble(Value(Reverse(bits))) == bits
  {
    ValueOfFour(Reverse(bits));
  }

  lemma NibbleValue(v: nat)
    requires v < 16
    ensures Value(Reverse(Nibble(v))) == v
  {
    ValueOfFour(Reverse(Nibble(v)));
  }

  lemma ReverseBits(asg: Assignment, bits: seq<Bit>)
    requires AreBits(asg, bits)
    ensures AreBits(asg, Reverse(bits)) && Vals(asg, Reverse(bits)) == Reverse(Vals(asg, bits))
  {
  }

  /** What the S-box constraint says about bits: the output number is the table entry. */
  lemma SBoxEquation(p: Setup, asg: Assignment, box: nat, input: seq<Bit>, out: seq<Bit>)
    requires p.Valid() && box < 8 && |input| == 6 && |out| == 4
    requires AreBits(asg, input) && AreBits(asg, out)
    ensures Holds(p.r, asg, Equal(PolyExpr(Pack(Reverse(input)), p.polys[box]), Pack(Reverse(out)))) <==>
            Value(Reverse(Vals(asg, out))) == SBoxLookup(p.t, box, Vals(asg, input))
  {
    hide IsPrime;
    assert Pow2(6) == 64 by { assert Pow2(3) == 8; }
    assert Pow2(4) == 16;
    ReverseBits(asg, input);
    ReverseBits(asg, out);
    PackIsValue(p.r, asg, Reverse(input));
    PackIsValue(p.r, asg, Reverse(out));
    SixBits(Vals(asg, input));
    var x := Pack(Reverse(input));
    assert Interpolates(p.r, p.polys[box], MappedTable(p.t, box));
    PolyExprValue(p.r, asg, x, p.polys[box]);
    assert MappedTable(p.t, box)[FpValue(p.r, asg, x)] == SBoxLookup(p.t, box, Vals(asg, input));
  }

  lemma SBoxSound(p: Setup, s: State, box: nat, input: seq<Bit>, hint: BitVec, asg: Assignment)
    requires p.Valid() && box < 8 && |input| == 6 && |hint| == 6 && BitsOk(input, |s.wires|)
    requires Satisfies(p.r, asg, SBox(p, s, box, input, hint).0.cons)
    requires AreBits(asg, input)
    ensures AreBits(asg, SBox(p, s, box, input, hint).1)
    ensures Vals(asg, SBox(p, s, box, input, hint).1) == Nibble(SBoxLookup(p.t, box, Vals(asg, input)))
  {
    hide IsPrime, SBoxLookup;
    var (s1, out) := Alloc(s, Nibble(SBoxLookup(p.t, box, hint)));
    var s2 := SBox(p, s, box, input, hint).0;
    SatisfiesPrefix(p.r, asg, s1.cons, s2.cons);
    AllocSound(p, s, Nibble(SBoxLookup(p.t, box, hint)), asg);
    assert Holds(p.r, asg, s2.cons[|s1.cons|]);
    SBoxEquation(p, asg, box, input, out);
    FourBits(Vals(asg, out));
  }

  lemma SBoxComplete(p: Setup, s: State, box: nat, input: seq<Bit>, hint: BitVec)
    requires p.Valid() && box < 8 && |input| == 6 && |hint| == 6 && BitsOk(input, |s.wires|)
    requires Consistent(p.r, s) && AreBits(s.Asg(), input) && Vals(s.Asg(), input) == hint
    ensures Consistent(p.r, SBox(p, s, box, input, hint).0)
  {
    hide IsPrime, SBoxLookup, Holds;
    var v := SBoxLookup(p.t, box, hint);
    var (s1, out) := Alloc(s, Nibble(v));
    AllocComplete(p, s, Nibble(v));
    AllocSound(p, s, Nibble(v), s1.Asg());
    ValsGrow(s, s1, input);
    BitsOkGrow(input, |s.wires|, |s1.wires|);
    var eq := Equal(PolyExpr(Pack(Reverse(input)), p.polys[box]), Pack(Reverse(out)));
    NibbleValue(v);
    SBoxEquation(p, s1.Asg(), box, input, out);
    assert Extend(s1, [], [eq]).Asg() == s1.Asg();
    ExtendConsistent(p.r, s1, [], [eq]);
  }

  // ------------------------------------------------------------ rounds and blocks

  /** The first n S-boxes over the first 6 * n input bits. */
  function SBoxes(p: Setup, s: State, x: seq<Bit>, hint: BitVec, n: nat): (res: (State, seq<Bit>))
    requires p.Shaped() && n <= 8
    requires |x| == 48 && |hint| == 48 && BitsOk(x, |s.wires|)
    ensures Grows(s, res.0)
    ensures |res.1| == 4 * n && BitsOk(res.1, |res.0.wires|)
  {
    if n == 0 then (s, [])
    else
      var (s1, out) := SBoxes(p, s, x, hint, n - 1);
      BitsOkGrow(x, |s.wires|, |s1.wires|);
      var (s2, o) := SBox(p, s1, n - 1, x[6 * n - 6..6 * n], hint[6 * n - 6..6 * n]);
      BitsOkGrow(out, |s1.wires|, |s2.wires|);
      GrowsTrans(s, s1, s2);
      (s2, out + o)
  }

  lemma SBoxesStep(p: Setup, s: State, x: seq<Bit>, hint: BitVec, b: nat)
    requires p.Shaped() && b < 8 && |x| == 48 && |hint| == 48 && BitsOk(x, |s.wires|)
    ensures BitsOk(x[6 * b..6 * b + 6], |SBoxes(p, s, x, hint, b).0.wires|)
    ensures var (s1, out) := SBoxes(p, s, x, hint, b);
            var (s2, o) := SBox(p, s1, b, x[6 * b..6 * b + 6], hint[6 * b..6 * b + 6]);
            SBoxes(p, s, x, hint, b + 1) == (s2, out + o)
  {
    var s1 := SBoxes(p, s, x, hint, b).0;
    BitsOkGrow(x, |s.wires|, |s1.wires|);
    hide SBox;
    assert 6 * (b + 1) - 6 == 6 * b && 6 * (b + 1) == 6 * b + 6;
  }

  lemma SBoxLayerStep(t: Tables, x: BitVec, b: nat)
    requires b < 8 && |x| == 48
    ensures SBoxLayer(t, x, b + 1) == SBoxLayer(t, x, b) + Nibble(SBoxLookup(t, b, x[6 * b..6 * b + 6]))
  {
    hide SBoxLookup, Nibble, RawTables.Valid;
    assert x[6 * (b + 1) - 6..6 * (b + 1)] == x[6 * b..6 * b + 6];
  }

  lemma {:induction false} SBoxesSound(p: Setup, s: State, x: seq<Bit>, hint: BitVec, n: nat, asg: Assignment)
    requires p.Valid() && n <= 8 && |x| == 48 && |hint| == 48 && BitsOk(x, |s.wires|)
    requires Satisfies(p.r, asg, SBoxes(p, s, x, hint, n).0.cons)
    requires AreBits(asg, x)
    ensures AreBits(asg, SBoxes(p, s, x, hint, n).1)
    ensures Vals(asg, SBoxes(p, s, x, hint, n).1) == SBoxLayer(p.t, Vals(asg, x), n)
  {
    assert p.Shaped();
    hide IsPrime, SBoxLookup, SBox, Satisfies, Interpolates, IsBit, Vals, AreBits, BitsOk, Setup.Valid, Setup.Shaped,
         Nibble;
    if n == 0 {
      NoVals(asg);
    } else {
      var b := n - 1;
      SBoxesStep(p, s, x, hint, b);
      SBoxLayerStep(p.t, Vals(asg, x), b);
      hide SBoxes, SBoxLayer;
      var (s1, out) := SBoxes(p, s, x, hint, b);
      var (s2, o) := SBox(p, s1, b, x[6 * b..6 * b + 6], hint[6 * b..6 * b + 6]);
      ValsSlice(asg, x, 6 * b, 6 * b + 6);
      ValsConcat(asg, out, o);
      SatisfiesPrefix(p.r, asg, s1.cons, s2.cons);
      SBoxesSound(p, s, x, hint, b, asg);
      SBoxSound(p, s1, b, x[6 * b..6 * b + 6], hint[6 * b..6 * b + 6], asg);
    }
  }

  lemma NoVals(asg: Assignment)
    ensures AreBits(asg, []) && Vals(asg, []) == []
  {
  }

  lemma {:induction false} SBoxesComplete(p: Setup, s: State, x: seq<Bit>, hint: BitVec, n: nat)
    requires p.Valid() && n <= 8 && |x| == 48 && |hint| == 48 && BitsOk(x, |s.wires|)
    requires Consistent(p.r, s) && AreBits(s.Asg(), x) && Vals(s.Asg(), x) == hint
    ensures Consistent(p.r, SBoxes(p, s, x, hint, n).0)
  {
    hide IsPrime, SBoxLookup, SBox, Holds, Satisfies;
    if n > 0 {
      var b := n - 1;
      var s1 := SBoxes(p, s, x, hint, b).0;
      SBoxesStep(p, s, x, hint, b);
      SBoxesComplete(p, s, x, hint, b);
      ValsGrow(s, s1, x);
      assert Vals(s1.Asg(), x[6 * b..6 * b + 6]) == hint[6 * b..6 * b + 6];
      SBoxComplete(p, s1, b, x[6 * b..6 * b + 6], hint[6 * b..6 * b + 6]);
    }
  }

  /** l ^ f(r, key) as constraints: expansion and permutation are wiring only. */
  function Round(p: Setup, s: State, l: seq<Bit>, r: seq<Bit>, key: seq<Bit>, hr: BitVec, hkey: BitVec)
    : (res: (State, seq<Bit>))
    requires p.Shaped()
    requires |l| == 32 && |r| == 32 && |key| == 48 && |hr| == 32 && |hkey| == 48
    requires BitsOk(l, |s.wires|) && BitsOk(r, |s.wires|) && BitsOk(key, |s.wires|)
    ensures Grows(s, res.0)
    ensures |res.1| == 32 && BitsOk(res.1, |res.0.wires|)
  {
    assert BitsOk(Permute(r, p.t.e), |s.wires|);
    var (s1, x) := XorBits(s, Permute(r, p.t.e), key);
    var (s2, o) := SBoxes(p, s1, x, Xor(Permute(hr, p.t.e), hkey), 8);
    var f := Permute(o, p.t.p);
    assert BitsOk(f, |s2.wires|);
    BitsOkGrow(l, |s.wires|, |s2.wires|);
    GrowsTrans(s, s1, s2);
    GrowsTrans(s, s2, XorBits(s2, l, f).0);
    XorBits(s2, l, f)
  }

  lemma PermuteVals(asg: Assignment, bits: seq<Bit>, table: seq<nat>)
    requires Below(table, |bits|)
    ensures Vals(asg, Permute(bits, table)) == Permute(Vals(asg, bits), table)
    ensures AreBits(asg, bits) ==> AreBits(asg, Permute(bits, table))
    ensures forall n :: BitsOk(bits, n) ==> BitsOk(Permute(bits, table), n)
  {
  }

  lemma RoundSound(p: Setup, s: State, l: seq<Bit>, r: seq<Bit>, key: seq<Bit>, hr: BitVec, hkey: BitVec,
                   asg: Assignment)
    requires p.Valid()
    requires |l| == 32 && |r| == 32 && |key| == 48 && |hr| == 32 && |hkey| == 48
    requires BitsOk(l, |s.wires|) && BitsOk(r, |s.wires|) && BitsOk(key, |s.wires|)
    requires Satisfies(p.r, asg, Round(p, s, l, r, key, hr, hkey).0.cons)
    requires AreBits(asg, l) && AreBits(asg, r) && AreBits(asg, key)
    ensures AreBits(asg, Round(p, s, l, r, key, hr, hkey).1)
    ensures Vals(asg, Round(p, s, l, r, key, hr, hkey).1)
            == Xor(Vals(asg, l), Feistel(p.t, Vals(asg, r), Vals(asg, key)))
  {
    hide IsPrime, XorBits, SBoxes, Satisfies, Permute, SBoxLayer, Interpolates;
    PermuteVals(asg, r, p.t.e);
    var (s1, x) := XorBits(s, Permute(r, p.t.e), key);
    var (s2, o) := SBoxes(p, s1, x, Xor(Permute(hr, p.t.e), hkey), 8);
    var f := Permute(o, p.t.p);
    BitsOkGrow(l, |s.wires|, |s2.wires|);
    PermuteVals(asg, o, p.t.p);
    var s3 := XorBits(s2, l, f).0;
    SatisfiesPrefix(p.r, asg, s2.cons, s3.cons);
    SatisfiesPrefix(p.r, asg, s1.cons, s3.cons);
    XorBitsSound(p, s, Permute(r, p.t.e), key, asg);
    SBoxesSound(p, s1, x, Xor(Permute(hr, p.t.e), hkey), 8, asg);
    XorBitsSound(p, s2, l, f, asg);
  }

  lemma RoundComplete(p: Setup, s: State, l: seq<Bit>, r: seq<Bit>, key: seq<Bit>, hr: BitVec, hkey: BitVec)
    requires p.Valid() && Consistent(p.r, s)
    requires |l| == 32 && |r| == 32 && |key| == 48 && |hr| == 32 && |hkey| == 48
    requires BitsOk(l, |s.wires|) && BitsOk(r, |s.wires|) && BitsOk(key, |s.wires|)
    requires AreBits(s.Asg(), l) && AreBits(s.Asg(), r) && AreBits(s.Asg(), key)
    requires Vals(s.Asg(), r) == hr && Vals(s.Asg(), key) == hkey
    ensures Consistent(p.r, Round(p, s, l, r, key, hr, hkey).0)
  {
    hide IsPrime, XorBits, SBoxes, Satisfies, Permute, SBoxLayer, Interpolates;
    PermuteVals(s.Asg(), r, p.t.e);
    var (s1, x) := XorBits(s, Permute(r, p.t.e), key);
    XorBitsComplete(p, s, Permute(r, p.t.e), key);
    ValsGrow(s, s1, Permute(r, p.t.e));
    ValsGrow(s, s1, key);
    XorBitsSound(p, s, Permute(r, p.t.e), key, s1.Asg());
    var hint := Xor(Permute(hr, p.t.e), hkey);
    var (s2, o) := SBoxes(p, s1, x, hint, 8);
    SBoxesComplete(p, s1, x, hint, 8);
    ValsGrow(s1, s2, x);
    SBoxesSound(p, s1, x, hint, 8, s2.Asg());
    PermuteVals(s2.Asg(), o, p.t.p);
    BitsOkGrow(l, |s.wires|, |s2.wires|);
    ValsGrow(s, s2, l);
    XorBitsComplete(p, s2, l, Permute(o, p.t.p));
  }

  ghost predicate KeysOk(keys: seq<seq<Bit>>, n: int) {
    AreRoundKeys(keys) && forall k :: 0 <= k < |keys| ==> BitsOk(keys[k], n)
  }

  ghost predicate AreKeyBits(asg: Assignment, keys: seq<seq<Bit>>) {
    forall k :: 0 <= k < |keys| ==> AreBits(asg, keys[k])
  }

  function KeyVals(asg: Assignment, keys: seq<seq<Bit>>): (v: seq<BitVec>)
    ensures |v| == |keys|
    ensures forall k :: 0 <= k < |keys| ==> v[k] == Vals(asg, keys[k])
  {
    seq(|keys|, k requires 0 <= k < |keys| => Vals(asg, keys[k]))
  }

  lemma KeysOkGrow(keys: seq<seq<Bit>>, n: int, m: int)
    requires KeysOk(keys, n) && n <= m
    ensures KeysOk(keys, m)
  {
    forall k | 0 <= k < |keys| ensures BitsOk(keys[k], m) {
      BitsOkGrow(keys[k], n, m);
    }
  }

  lemma KeyValsGrow(s: RawState, s': RawState, keys: seq<seq<Bit>>)
    requires Grows(s, s') && KeysOk(keys, |s.wires|)
    ensures KeyVals(s'.Asg(), keys) == KeyVals(s.Asg(), keys)
    ensures AreKeyBits(s.Asg(), keys) <==> AreKeyBits(s'.Asg(), keys)
  {
    forall k | 0 <= k < |keys|
      ensures Vals(s'.Asg(), keys[k]) == Vals(s.Asg(), keys[k])
      ensures AreBits(s.Asg(), keys[k]) <==> AreBits(s'.Asg(), keys[k])
    {
      ValsGrow(s, s', keys[k]);
    }
  }

  /** One round per key; the native halves hl, hr follow along as hints. */
  function RoundsG(p: Setup, s: State, l: seq<Bit>, r: seq<Bit>, keys: seq<seq<Bit>>,
                   hl: BitVec, hr: BitVec, hkeys: seq<BitVec>)
    : (res: (State, seq<Bit>, seq<Bit>))
    requires p.Shaped()
    requires |l| == 32 && |r| == 32 && |hl| == 32 && |hr| == 32
    requires |keys| == |hkeys| && KeysOk(keys, |s.wires|) && AreRoundKeys(hkeys)
    requires BitsOk(l, |s.wires|) && BitsOk(r, |s.wires|)
    ensures Grows(s, res.0)
    ensures |res.1| == 32 && BitsOk(res.1, |res.0.wires|)
    ensures |res.2| == 32 && BitsOk(res.2, |res.0.wires|)
    decreases |keys|
  {
    if keys == [] then (s, l, r)
    else
      var (s1, r') := Round(p, s, l, r, keys[0], hr, hkeys[0]);
      BitsOkGrow(r, |s.wires|, |s1.wires|);
      KeysOkGrow(keys, |s.wires|, |s1.wires|);
      var res := RoundsG(p, s1, r, r', keys[1..], hr, Xor(hl, Feistel(p.t, hr, hkeys[0])), hkeys[1..]);
      GrowsTrans(s, s1, res.0);
      res
  }

  lemma {:induction false} RoundsSound(p: Setup, s: State, l: seq<Bit>, r: seq<Bit>, keys: seq<seq<Bit>>,
                                       hl: BitVec, hr: BitVec, hkeys: seq<BitVec>, asg: Assignment)
    requires p.Valid()
    requires |l| == 32 && |r| == 32 && |hl| == 32 && |hr| == 32
    requires |keys| == |hkeys| && KeysOk(keys, |s.wires|) && AreRoundKeys(hkeys)
    requires BitsOk(l, |s.wires|) && BitsOk(r, |s.wires|)
    requires Satisfies(p.r, asg, RoundsG(p, s, l, r, keys, hl, hr, hkeys).0.cons)
    requires AreBits(asg, l) && AreBits(asg, r) && AreKeyBits(asg, keys)
    ensures var (_, l', r') := RoundsG(p, s, l, r, keys, hl, hr, hkeys);
            && AreBits(asg, l') && AreBits(asg, r')
            && (Vals(asg, l'), Vals(asg, r')) == Rounds(p.t, Vals(asg, l), Vals(asg, r), KeyVals(asg, keys))
    decreases |keys|
  {
    hide IsPrime, Satisfies, Feistel, Round, Interpolates;
    if keys != [] {
      var (s1, r') := Round(p, s, l, r, keys[0], hr, hkeys[0]);
      BitsOkGrow(r, |s.wires|, |s1.wires|);
      KeysOkGrow(keys, |s.wires|, |s1.wires|);
      var hr' := Xor(hl, Feistel(p.t, hr, hkeys[0]));
      SatisfiesPrefix(p.r, asg, s1.cons, RoundsG(p, s1, r, r', keys[1..], hr, hr', hkeys[1..]).0.cons);
      RoundSound(p, s, l, r, keys[0], hr, hkeys[0], asg);
      assert KeyVals(asg, keys)[1..] == KeyVals(asg, keys[1..]);
      RoundsSound(p, s1, r, r', keys[1..], hr, hr', hkeys[1..], asg);
    }
  }

  lemma {:induction false} RoundsComplete(p: Setup, s: State, l: seq<Bit>, r: seq<Bit>, keys: seq<seq<Bit>>,
                                          hl: BitVec, hr: BitVec, hkeys: seq<BitVec>)
    requires p.Valid() && Consistent(p.r, s)
    requires |l| == 32 && |r| == 32 && |hl| == 32 && |hr| == 32
    requires |keys| == |hkeys| && KeysOk(keys, |s.wires|) && AreRoundKeys(hkeys)
    requires BitsOk(l, |s.wires|) && BitsOk(r, |s.wires|)
    requires AreBits(s.Asg(), l) && AreBits(s.Asg(), r) && AreKeyBits(s.Asg(), keys)
    requires Vals(s.Asg(), l) == hl && Vals(s.Asg(), r) == hr && KeyVals(s.Asg(), keys) == hkeys
    ensures Consistent(p.r, RoundsG(p, s, l, r, keys, hl, hr, hkeys).0)
    decreases |keys|
  {
    hide IsPrime, Satisfies, Feistel, Round, Interpolates;
    if keys != [] {
      var (s1, r') := Round(p, s, l, r, keys[0], hr, hkeys[0]);
      RoundComplete(p, s, l, r, keys[0], hr, hkeys[0]);
      BitsOkGrow(r, |s.wires|, |s1.wires|);
      KeysOkGrow(keys, |s.wires|, |s1.wires|);
      ValsGrow(s, s1, l);
      ValsGrow(s, s1, r);
      KeyValsGrow(s, s1, keys);
      RoundSound(p, s, l, r, keys[0], hr, hkeys[0], s1.Asg());
      assert KeyVals(s1.Asg(), keys)[1..] == KeyVals(s1.Asg(), keys[1..]);
      RoundsComplete(p, s1, r, r', keys[1..], hr, Xor(hl, Feistel(p.t, hr, hkeys[0])), hkeys[1..]);
    }
  }
}
