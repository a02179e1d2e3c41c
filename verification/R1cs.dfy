// A constraint system over the prime field: wires hold field elements, a Boolean is a
// constant, a wire or its negation, and xor allocates a wire with its own constraint.
module R1cs {
  import opened Bits
  import opened Field
  import opened Polynomials

  datatype Bit = Const(value: bool) | Is(wire: nat) | Not(wire: nat)

  /** Field expressions: Pack is `le_bits_to_fp`, the weighted sum of some bits. */
  datatype Fp = Lit(c: nat) | Input(index: nat) | Pack(bits: seq<Bit>) | Sum(a: Fp, b: Fp) | Product(a: Fp, b: Fp)

  /** IsBoolean: v * (1 - v) = 0.  IsXor: 2 * a * b = a + b - c.  Equal: both sides agree. */
  datatype Constraint = IsBoolean(wire: nat) | IsXor(a: nat, b: nat, c: nat) | Equal(x: Fp, y: Fp)

  datatype Assignment = Assignment(inputs: seq<nat>, wires: seq<nat>)

  // ------------------------------------------------------------------- meaning

  function Wire(asg: Assignment, w: nat): nat {
    if w < |asg.wires| then asg.wires[w] else 0
  }

  function BitFp(r: nat, asg: Assignment, b: Bit): nat
    requires r > 0
  {
    match b
    case Const(v) => if v then 1 else 0
    case Is(w) => Wire(asg, w)
    case Not(w) => Sub(r, 1, Wire(asg, w))
  }

  function PackFp(r: nat, asg: Assignment, bits: seq<Bit>): nat
    requires r > 0
  {
    if bits == [] then 0 else Add(r, BitFp(r, asg, bits[0]), Mul(r, 2, PackFp(r, asg, bits[1..])))
  }

  function FpValue(r: nat, asg: Assignment, e: Fp): nat
    requires r > 0
  {
    match e
    case Lit(c) => c
    case Input(i) => if i < |asg.inputs| then asg.inputs[i] else 0
    case Pack(bits) => PackFp(r, asg, bits)
    case Sum(a, b) => Add(r, FpValue(r, asg, a), FpValue(r, asg, b))
    case Product(a, b) => Mul(r, FpValue(r, asg, a), FpValue(r, asg, b))
  }

  predicate Holds(r: nat, asg: Assignment, c: Constraint)
    requires r > 0
  {
    match c
    case IsBoolean(w) => Mul(r, Wire(asg, w), Sub(r, 1, Wire(asg, w))) == 0
    case IsXor(a, b, x) =>
      Mul(r, 2 * Wire(asg, a), Wire(asg, b)) == Sub(r, Wire(asg, a) + Wire(asg, b), Wire(asg, x))
    case Equal(x, y) => FpValue(r, asg, x) == FpValue(r, asg, y)
  }

  ghost predicate InRange(r: nat, asg: Assignment) {
    && (forall w :: 0 <= w < |asg.wires| ==> asg.wires[w] < r)
    && (forall i :: 0 <= i < |asg.inputs| ==> asg.inputs[i] < r)
  }

  /** The assignment is made of field elements and meets every constraint. */
  ghost predicate Satisfies(r: nat, asg: Assignment, cons: seq<Constraint>)
    requires r > 0
  {
    InRange(r, asg) && forall i :: 0 <= i < |cons| ==> Holds(r, asg, cons[i])
  }

  /** The truth value a Boolean denotes, and the condition that it denotes one. */
  function Val(asg: Assignment, b: Bit): bool {
    match b
    case Const(v) => v
    case Is(w) => Wire(asg, w) == 1
    case Not(w) => Wire(asg, w) != 1
  }

  ghost predicate IsBit(asg: Assignment, b: Bit) {
    b.Const? || Wire(asg, b.wire) == 0 || Wire(asg, b.wire) == 1
  }

  ghost predicate AreBits(asg: Assignment, bits: seq<Bit>) {
    forall i :: 0 <= i < |bits| ==> IsBit(asg, bits[i])
  }

  function Vals(asg: Assignment, bits: seq<Bit>): (v: BitVec)
    ensures |v| == |bits|
    ensures forall i :: 0 <= i < |bits| ==> v[i] == Val(asg, bits[i])
  {
    seq(|bits|, i requires 0 <= i < |bits| => Val(asg, bits[i]))
  }

  lemma SatisfiesPrefix(r: nat, asg: Assignment, cons: seq<Constraint>, more: seq<Constraint>)
    requires r > 0 && Satisfies(r, asg, more) && cons <= more
    ensures Satisfies(r, asg, cons)
  {
    forall i | 0 <= i < |cons| ensures Holds(r, asg, cons[i]) {
      assert cons[i] == more[i];
    }
  }

  // ---------------------------------------------------------- the three constraints

  lemma MulMeaning(r: nat, a: int, b: int, c: int)
    requires r > 0
    ensures Mul(r, a, b) == c % r <==> Zero(r, a * b - c)
  {
    SameRemainder(r, a * b, c);
  }

  lemma SubMeaning(r: nat, a: int, b: int)
    requires r > 0
    ensures Zero(r, Sub(r, a, b) - (a - b)) && Sub(r, a, b) == (a - b) % r
  {
    Reduced(r, a - b);
  }

  /** The constraint v * (1 - v) = 0 leaves only the values 0 and 1. */
  lemma BooleanMeaning(r: nat, v: nat)
    requires IsPrime(r) && v < r
    ensures Mul(r, v, Sub(r, 1, v)) == 0 <==> v == 0 || v == 1
  {
    hide IsPrime, Zero, Mul, Sub;
    var s := Sub(r, 1, v);
    ProductIsZero(r, v, s);
    SubMeaning(r, 1, v);
    if Zero(r, v * s) {
      FactorIsZero(r, v, s);
    }
    if v == 1 {
      SmallIsZero(r, s);
    }
  }

  lemma ProductIsZero(r: nat, v: int, s: int)
    requires r > 0
    ensures Mul(r, v, s) == 0 <==> Zero(r, v * s)
    ensures v == 0 || s == 0 ==> Zero(r, v * s)
  {
    if v == 0 || s == 0 { assert v * s == 0; SmallResidue(r, 0); }
  }

  lemma SmallIsZero(r: nat, s: nat)
    requires s < r && r > 0 && Zero(r, s)
    ensures s == 0
  {
    SmallResidue(r, s);
  }

  lemma FactorIsZero(r: nat, v: nat, s: nat)
    requires IsPrime(r) && v < r && Zero(r, v * s) && Zero(r, s - (1 - v))
    ensures v == 0 || v == 1
  {
    hide IsPrime, Zero;
    NoZeroDivisors(r, v, s);
    if Zero(r, v) {
      SameResidue(r, v, 0);
    } else {
      ZeroSum(r, s - (1 - v), s);
      SameResidue(r, v, 1);
    }
  }

  /** On bits, the constraint 2ab = a + b - c pins c to the xor of a and b. */
  lemma XorMeaning(r: nat, a: nat, b: nat, c: nat)
    requires r > 2 && a < 2 && b < 2 && c < r
    ensures Mul(r, 2 * a, b) == Sub(r, a + b, c) <==> c == (if a == b then 0 else 1)
  {
    hide Zero, Mul, Sub;
    var x := if a == b then 0 else 1;
    assert 2 * a * b == a + b - x by {
      assert a == 0 || a == 1;
    }
    SubMeaning(r, a + b, c);
    MulMeaning(r, 2 * a, b, a + b - c);
    assert 2 * a * b - (a + b - c) == c - x;
    if Zero(r, c - x) {
      SameResidue(r, c, x);
    }
    ZeroMultiple(r, 0);
  }

  lemma {:induction false} PackIsValue(r: nat, asg: Assignment, bits: seq<Bit>)
    requires AreBits(asg, bits) && Pow2(|bits|) < r
    ensures PackFp(r, asg, bits) == Value(Vals(asg, bits))
  {
    if bits != [] {
      PackIsValue(r, asg, bits[1..]);
      var rest := Value(Vals(asg, bits[1..]));
      assert Vals(asg, bits)[1..] == Vals(asg, bits[1..]);
      SmallResidue(r, 2 * rest);
      SmallResidue(r, Value(Vals(asg, bits)));
      SmallResidue(r, 0);
      SmallResidue(r, 1);
    }
  }

  // -------------------------------------------------------------- well-formedness

  datatype RawState = RawState(inputs: seq<nat>, wires: seq<nat>, cons: seq<Constraint>)
  {
    function Asg(): Assignment { Assignment(inputs, wires) }
  }

  predicate BitOk(b: Bit, n: int) {
    b.Const? || b.wire < n
  }

  ghost predicate BitsOk(bits: seq<Bit>, n: int) {
    forall i :: 0 <= i < |bits| ==> BitOk(bits[i], n)
  }

  ghost predicate FpOk(e: Fp, ins: int, n: int) {
    match e
    case Lit(c) => true
    case Input(i) => i < ins
    case Pack(bits) => BitsOk(bits, n)
    case Sum(a, b) => FpOk(a, ins, n) && FpOk(b, ins, n)
    case Product(a, b) => FpOk(a, ins, n) && FpOk(b, ins, n)
  }

  ghost predicate ConstraintOk(c: Constraint, ins: int, n: int) {
    match c
    case IsBoolean(w) => w < n
    case IsXor(a, b, x) => a < n && b < n && x < n
    case Equal(x, y) => FpOk(x, ins, n) && FpOk(y, ins, n)
  }

  /** Every constraint mentions only inputs and wires that exist. */
  ghost predicate StateOk(s: RawState) {
    forall i :: 0 <= i < |s.cons| ==> ConstraintOk(s.cons[i], |s.inputs|, |s.wires|)
  }

  type State = s: RawState | StateOk(s) witness RawState([], [], [])

  /** The state is s with more inputs, wires and constraints. */
  ghost predicate Widens(s: RawState, s': RawState) {
    s.inputs <= s'.inputs && s.wires <= s'.wires && s.cons <= s'.cons
  }

  /** The state is s with more wires and constraints, and the same inputs. */
  ghost predicate Grows(s: RawState, s': RawState) {
    s.inputs == s'.inputs && s.wires <= s'.wires && s.cons <= s'.cons
  }

  lemma GrowsTrans(s: RawState, s': RawState, s'': RawState)
    requires Grows(s, s') && Grows(s', s'')
    ensures Grows(s, s'')
  {
  }

  /** The values recorded so far meet the constraints recorded so far. */
  ghost predicate Consistent(r: nat, s: State)
    requires r > 0
  {
    Satisfies(r, s.Asg(), s.cons)
  }

  // ----------------------------------- values do not change when the system grows

  lemma {:induction false} PackGrows(r: nat, s: RawState, s': RawState, bits: seq<Bit>)
    requires r > 0 && Widens(s, s') && BitsOk(bits, |s.wires|)
    ensures PackFp(r, s'.Asg(), bits) == PackFp(r, s.Asg(), bits)
  {
    if bits != [] {
      assert BitOk(bits[0], |s.wires|);
      PackGrows(r, s, s', bits[1..]);
    }
  }

  lemma {:induction false} FpGrows(r: nat, s: RawState, s': RawState, e: Fp)
    requires r > 0 && Widens(s, s') && FpOk(e, |s.inputs|, |s.wires|)
    ensures FpValue(r, s'.Asg(), e) == FpValue(r, s.Asg(), e)
  {
    match e
    case Lit(c) =>
    case Input(i) =>
    case Pack(bits) => PackGrows(r, s, s', bits);
    case Sum(a, b) => FpGrows(r, s, s', a); FpGrows(r, s, s', b);
    case Product(a, b) => FpGrows(r, s, s', a); FpGrows(r, s, s', b);
  }

  lemma HoldsGrows(r: nat, s: RawState, s': RawState, c: Constraint)
    requires r > 0 && Widens(s, s') && ConstraintOk(c, |s.inputs|, |s.wires|)
    ensures Holds(r, s'.Asg(), c) <==> Holds(r, s.Asg(), c)
  {
    if c.Equal? {
      FpGrows(r, s, s', c.x);
      FpGrows(r, s, s', c.y);
    }
  }

  lemma ValsGrow(s: RawState, s': RawState, bits: seq<Bit>)
    requires Widens(s, s') && BitsOk(bits, |s.wires|)
    ensures Vals(s'.Asg(), bits) == Vals(s.Asg(), bits)
    ensures AreBits(s.Asg(), bits) <==> AreBits(s'.Asg(), bits)
  {
    forall i | 0 <= i < |bits| ensures IsBit(s'.Asg(), bits[i]) <==> IsBit(s.Asg(), bits[i]) {
      assert BitOk(bits[i], |s.wires|);
    }
    forall i | 0 <= i < |bits| ensures Val(s'.Asg(), bits[i]) == Val(s.Asg(), bits[i]) {
      assert BitOk(bits[i], |s.wires|);
    }
  }

  lemma BitsOkGrow(bits: seq<Bit>, n: int, m: int)
    requires BitsOk(bits, n) && n <= m
    ensures BitsOk(bits, m)
  {
    forall i | 0 <= i < |bits| ensures BitOk(bits[i], m) {
      assert BitOk(bits[i], n);
    }
  }

  lemma {:induction false} FpOkGrow(e: Fp, i: int, n: int, j: int, m: int)
    requires FpOk(e, i, n) && i <= j && n <= m
    ensures FpOk(e, j, m)
  {
    match e
    case Lit(c) =>
    case Input(k) =>
    case Pack(bits) => BitsOkGrow(bits, n, m);
    case Sum(a, b) => FpOkGrow(a, i, n, j, m); FpOkGrow(b, i, n, j, m);
    case Product(a, b) => FpOkGrow(a, i, n, j, m); FpOkGrow(b, i, n, j, m);
  }

  // -------------------------------------------------------------- elementary steps

  /** The state with new wires and new constraints, which may use the new wires. */
  function Extend(s: State, wires: seq<nat>, cons: seq<Constraint>): (s': State)
    requires forall i :: 0 <= i < |cons| ==> ConstraintOk(cons[i], |s.inputs|, |s.wires| + |wires|)
    ensures Grows(s, s')
    ensures s'.inputs == s.inputs && s'.wires == s.wires + wires && s'.cons == s.cons + cons
  {
    var s' := RawState(s.inputs, s.wires + wires, s.cons + cons);
    assert StateOk(s') by {
      forall i | 0 <= i < |s'.cons| ensures ConstraintOk(s'.cons[i], |s'.inputs|, |s'.wires|) {
        if i < |s.cons| {
          assert ConstraintOk(s.cons[i], |s.inputs|, |s.wires|);
          if s.cons[i].Equal? {
            FpOkGrow(s.cons[i].x, |s.inputs|, |s.wires|, |s'.inputs|, |s'.wires|);
            FpOkGrow(s.cons[i].y, |s.inputs|, |s.wires|, |s'.inputs|, |s'.wires|);
          }
        }
      }
    }
    s'
  }

  /** Extending keeps a consistent system consistent if the new parts are. */
  lemma ExtendConsistent(r: nat, s: State, wires: seq<nat>, cons: seq<Constraint>)
    requires r > 0 && Consistent(r, s)
    requires forall i :: 0 <= i < |cons| ==> ConstraintOk(cons[i], |s.inputs|, |s.wires| + |wires|)
    requires forall i :: 0 <= i < |wires| ==> wires[i] < r
    requires forall i :: 0 <= i < |cons| ==> Holds(r, Extend(s, wires, cons).Asg(), cons[i])
    ensures Consistent(r, Extend(s, wires, cons))
  {
    var s' := Extend(s, wires, cons);
    forall i | 0 <= i < |s'.cons| ensures Holds(r, s'.Asg(), s'.cons[i]) {
      if i < |s.cons| {
        assert ConstraintOk(s.cons[i], |s.inputs|, |s.wires|);
        HoldsGrows(r, s, s', s.cons[i]);
      } else {
        assert s'.cons[i] == cons[i - |s.cons|];
      }
    }
  }
}
