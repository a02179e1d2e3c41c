// DES once more, written out bit by bit as FIPS 46-3 prints it: a reference for the tables,
// the S-box selection, the key schedule and the rounds, and the vector of the repository.
module DesReference {
  import opened Bits
  import opened Tables
  import opened Des
  import opened DesLaws
  import G = Gadgets

  datatype Four = Four(a: bool, b: bool, c: bool, d: bool)
  datatype Six = Six(a: bool, b: bool, c: bool, d: bool, e: bool, f: bool)

  /** Half a block, a round key, and one register of the key schedule. */
  datatype Half = Half(h0: Four, h1: Four, h2: Four, h3: Four, h4: Four, h5: Four, h6: Four, h7: Four)
  datatype RoundKey = RoundKey(k0: Six, k1: Six, k2: Six, k3: Six, k4: Six, k5: Six, k6: Six, k7: Six)
  datatype Reg = Reg(r0: Four, r1: Four, r2: Four, r3: Four, r4: Four, r5: Four, r6: Four)

  function FourAt(x: Four, i: nat): bool
    requires i < 4
  {
    if i == 0 then x.a else if i == 1 then x.b else if i == 2 then x.c else x.d
  }

  function SixAt(x: Six, i: nat): bool
    requires i < 6
  {
    if i == 0 then x.a else if i == 1 then x.b else if i == 2 then x.c
    else if i == 3 then x.d else if i == 4 then x.e else x.f
  }

  function FourBits(x: Four): (bits: BitVec)
    ensures |bits| == 4
  {
    seq(4, i requires 0 <= i < 4 => FourAt(x, i))
  }

  function SixBits(x: Six): (bits: BitVec)
    ensures |bits| == 6
  {
    seq(6, i requires 0 <= i < 6 => SixAt(x, i))
  }

  function Part(h: Half, i: nat): Four
    requires i < 8
  {
    match i
    case 0 => h.h0
    case 1 => h.h1
    case 2 => h.h2
    case 3 => h.h3
    case 4 => h.h4
    case 5 => h.h5
    case 6 => h.h6
    case _ => h.h7
  }

  function KeyPart(k: RoundKey, i: nat): Six
    requires i < 8
  {
    match i
    case 0 => k.k0
    case 1 => k.k1
    case 2 => k.k2
    case 3 => k.k3
    case 4 => k.k4
    case 5 => k.k5
    case 6 => k.k6
    case _ => k.k7
  }

  function RegPart(r: Reg, i: nat): Four
    requires i < 7
  {
    match i
    case 0 => r.r0
    case 1 => r.r1
    case 2 => r.r2
    case 3 => r.r3
    case 4 => r.r4
    case 5 => r.r5
    case _ => r.r6
  }

  function HalfBits(h: Half): (bits: BitVec)
    ensures |bits| == 32
  {
    seq(32, i requires 0 <= i < 32 => FourAt(Part(h, i / 4), i % 4))
  }

  function KeyBits(k: RoundKey): (bits: BitVec)
    ensures |bits| == 48
  {
    seq(48, i requires 0 <= i < 48 => SixAt(KeyPart(k, i / 6), i % 6))
  }

  function RegBits(r: Reg): (bits: BitVec)
    ensures |bits| == 28
  {
    seq(28, i requires 0 <= i < 28 => FourAt(RegPart(r, i / 4), i % 4))
  }

  // ------------------------------------------------------------------- one round

  function Num(b: bool): nat {
    if b then 1 else 0
  }

  function FourOf(v: nat): Four {
    Four(v >= 8, v % 8 >= 4, v % 4 >= 2, v % 2 == 1)
  }

  function Box(b: nat): (box: seq<seq<nat>>)
    requires b < 8
    ensures IsSBox(box)
  {
    match b
    case 0 => S1()
    case 1 => S2()
    case 2 => S3()
    case 3 => S4()
    case 4 => S5()
    case 5 => S6()
    case 6 => S7()
    case _ => S8()
  }

  function Cell(b: nat, row: nat, col: nat): (v: nat)
    requires b < 8 && row < 4 && col < 16
    ensures v < 16
  {
    Box(b)[row][col]
  }

  function OuterTwo(a: bool, f: bool): (row: nat)
    ensures row < 4
  {
    2 * Num(a) + Num(f)
  }

  function InnerFour(b: bool, c: bool, d: bool, e: bool): (col: nat)
    ensures col < 16
  {
    8 * Num(b) + 4 * Num(c) + 2 * Num(d) + Num(e)
  }

  /** S-box b of the six bits xored with the key's: the outer two are the row, the inner four the column. */
  function BoxOut(b: nat, x: Six, y: Six): Four
    requires b < 8
  {
    FourOf(Cell(b, OuterTwo(x.a != y.a, x.f != y.f), InnerFour(x.b != y.b, x.c != y.c, x.d != y.d, x.e != y.e)))
  }

  /** Each nibble with the bit before it and the bit behind it. */
  function Expand(before: Four, x: Four, behind: Four): Six {
    Six(before.d, x.a, x.b, x.c, x.d, behind.a)
  }

  function Outs(r: Half, k: RoundKey): Half {
    Half(BoxOut(0, Expand(r.h7, r.h0, r.h1), k.k0), BoxOut(1, Expand(r.h0, r.h1, r.h2), k.k1),
         BoxOut(2, Expand(r.h1, r.h2, r.h3), k.k2), BoxOut(3, Expand(r.h2, r.h3, r.h4), k.k3),
         BoxOut(4, Expand(r.h3, r.h4, r.h5), k.k4), BoxOut(5, Expand(r.h4, r.h5, r.h6), k.k5),
         BoxOut(6, Expand(r.h5, r.h6, r.h7), k.k6), BoxOut(7, Expand(r.h6, r.h7, r.h0), k.k7))
  }

  /** The S-box outputs in the order of P. */
  function Shuffled(s: Half): Half {
    Half(
      Four(s.h3.d, s.h1.c, s.h4.d, s.h5.a), Four(s.h7.a, s.h2.d, s.h6.d, s.h4.a),
      Four(s.h0.a, s.h3.c, s.h5.c, s.h6.b), Four(s.h1.a, s.h4.b, s.h7.c, s.h2.b),
      Four(s.h0.b, s.h1.d, s.h5.d, s.h3.b), Four(s.h7.d, s.h6.c, s.h0.c, s.h2.a),
      Four(s.h4.c, s.h3.a, s.h7.b, s.h1.b), Four(s.h5.b, s.h2.c, s.h0.d, s.h6.a))
  }

  function XorFour(x: Four, y: Four): Four {
    Four(x.a != y.a, x.b != y.b, x.c != y.c, x.d != y.d)
  }

  function XorHalf(x: Half, y: Half): Half {
    Half(XorFour(x.h0, y.h0), XorFour(x.h1, y.h1), XorFour(x.h2, y.h2), XorFour(x.h3, y.h3),
         XorFour(x.h4, y.h4), XorFour(x.h5, y.h5), XorFour(x.h6, y.h6), XorFour(x.h7, y.h7))
  }

  function Next(l: Half, r: Half, k: RoundKey): Half {
    XorHalf(l, Shuffled(Outs(r, k)))
  }

  // ------------------------------------------------------------------- keys and the two orders

  /** PC-1: the halves C and D of the key. */
  function FirstC(x: Half, y: Half): Reg {
    Reg(
      Four(y.h6.a, y.h4.a, y.h2.a, y.h0.a), Four(x.h6.a, x.h4.a, x.h2.a, x.h0.a),
      Four(y.h6.b, y.h4.b, y.h2.b, y.h0.b), Four(x.h6.b, x.h4.b, x.h2.b, x.h0.b),
      Four(y.h6.c, y.h4.c, y.h2.c, y.h0.c), Four(x.h6.c, x.h4.c, x.h2.c, x.h0.c), Four(y.h6.d, y.h4.d, y.h2.d, y.h0.d))
  }

  function FirstD(x: Half, y: Half): Reg {
    Reg(
      Four(y.h7.c, y.h5.c, y.h3.c, y.h1.c), Four(x.h7.c, x.h5.c, x.h3.c, x.h1.c),
      Four(y.h7.b, y.h5.b, y.h3.b, y.h1.b), Four(x.h7.b, x.h5.b, x.h3.b, x.h1.b),
      Four(y.h7.a, y.h5.a, y.h3.a, y.h1.a), Four(x.h7.a, x.h5.a, x.h3.a, x.h1.a), Four(x.h6.d, x.h4.d, x.h2.d, x.h0.d))
  }

  /** PC-2. */
  function Select(c: Reg, d: Reg): RoundKey {
    RoundKey(
      Six(c.r3.b, c.r4.a, c.r2.c, c.r5.d, c.r0.a, c.r1.a), Six(c.r0.c, c.r6.d, c.r3.c, c.r1.b, c.r5.a, c.r2.b),
      Six(c.r5.c, c.r4.c, c.r2.d, c.r0.d, c.r6.b, c.r1.d), Six(c.r3.d, c.r1.c, c.r6.c, c.r4.d, c.r3.a, c.r0.b),
      Six(d.r3.a, d.r5.d, d.r0.c, d.r2.a, d.r4.c, d.r6.c), Six(d.r0.b, d.r2.d, d.r5.c, d.r4.a, d.r1.a, d.r4.d),
      Six(d.r3.d, d.r5.a, d.r2.c, d.r6.d, d.r1.b, d.r6.a), Six(d.r4.b, d.r3.b, d.r5.b, d.r1.d, d.r0.a, d.r0.d))
  }

  function Turn(c: Reg): Reg {
    Reg(
      Four(c.r0.b, c.r0.c, c.r0.d, c.r1.a), Four(c.r1.b, c.r1.c, c.r1.d, c.r2.a),
      Four(c.r2.b, c.r2.c, c.r2.d, c.r3.a), Four(c.r3.b, c.r3.c, c.r3.d, c.r4.a),
      Four(c.r4.b, c.r4.c, c.r4.d, c.r5.a), Four(c.r5.b, c.r5.c, c.r5.d, c.r6.a), Four(c.r6.b, c.r6.c, c.r6.d, c.r0.a))
  }

  /** IP: the two halves of the block that go into the first round. */
  function FirstL(x: Half, y: Half): Half {
    Half(
      Four(y.h6.b, y.h4.b, y.h2.b, y.h0.b), Four(x.h6.b, x.h4.b, x.h2.b, x.h0.b),
      Four(y.h6.d, y.h4.d, y.h2.d, y.h0.d), Four(x.h6.d, x.h4.d, x.h2.d, x.h0.d),
      Four(y.h7.b, y.h5.b, y.h3.b, y.h1.b), Four(x.h7.b, x.h5.b, x.h3.b, x.h1.b),
      Four(y.h7.d, y.h5.d, y.h3.d, y.h1.d), Four(x.h7.d, x.h5.d, x.h3.d, x.h1.d))
  }

  function FirstR(x: Half, y: Half): Half {
    Half(
      Four(y.h6.a, y.h4.a, y.h2.a, y.h0.a), Four(x.h6.a, x.h4.a, x.h2.a, x.h0.a),
      Four(y.h6.c, y.h4.c, y.h2.c, y.h0.c), Four(x.h6.c, x.h4.c, x.h2.c, x.h0.c),
      Four(y.h7.a, y.h5.a, y.h3.a, y.h1.a), Four(x.h7.a, x.h5.a, x.h3.a, x.h1.a),
      Four(y.h7.c, y.h5.c, y.h3.c, y.h1.c), Four(x.h7.c, x.h5.c, x.h3.c, x.h1.c))
  }
  /** The nibbles of a block. */
  function Upper(x: Block): Half {
    Half(FourOf(x[0] / 16), FourOf(x[0] % 16), FourOf(x[1] / 16), FourOf(x[1] % 16),
         FourOf(x[2] / 16), FourOf(x[2] % 16), FourOf(x[3] / 16), FourOf(x[3] % 16))
  }

  function Lower(x: Block): Half {
    Half(FourOf(x[4] / 16), FourOf(x[4] % 16), FourOf(x[5] / 16), FourOf(x[5] % 16),
         FourOf(x[6] / 16), FourOf(x[6] % 16), FourOf(x[7] / 16), FourOf(x[7] % 16))
  }

  function TurnBy(c: Reg, n: nat): Reg {
    if n == 0 then c else Turn(TurnBy(c, n - 1))
  }

  function KeysFrom(c: Reg, d: Reg, shifts: seq<nat>): (keys: seq<RoundKey>)
    ensures |keys| == |shifts|
    decreases |shifts|
  {
    if shifts == [] then []
    else
      var c', d' := TurnBy(c, shifts[0]), TurnBy(d, shifts[0]);
      [Select(c', d')] + KeysFrom(c', d', shifts[1..])
  }

  /** One left shift in rounds 1, 2, 9 and 16, two in the others. */
  const LEFT_SHIFTS: seq<nat> := [1, 1, 2, 2, 2, 2, 2, 2, 1, 2, 2, 2, 2, 2, 2, 1]

  function KeysOf(key: Block): (keys: seq<RoundKey>)
    ensures |keys| == 16
  {
    var x, y := Upper(key), Lower(key);
    KeysFrom(FirstC(x, y), FirstD(x, y), LEFT_SHIFTS)
  }

  function AfterRounds(l: Half, r: Half, keys: seq<RoundKey>): (Half, Half)
    decreases |keys|
  {
    if keys == [] then (l, r) else AfterRounds(r, Next(l, r, keys[0]), keys[1..])
  }

  // ------------------------------------------------------------------- a round agrees

  lemma BoxIs(b: nat, x: Six, y: Six)
    requires b < 8
    ensures Nibble(SBoxLookup(Standard(), b, Xor(SixBits(x), SixBits(y)))) == FourBits(BoxOut(b, x, y))
  {
    hide Standard, SBoxLookup, Cell, OuterTwo, InnerFour, Nibble, FourBits, FourOf;
    var bits := Xor(SixBits(x), SixBits(y));
    LookupIs(b, bits);
    NibbleIs(SBoxLookup(Standard(), b, bits));
  }

  lemma LookupIs(b: nat, bits: BitVec)
    requires b < 8 && |bits| == 6
    ensures SBoxLookup(Standard(), b, bits)
            == Cell(b, OuterTwo(bits[0], bits[5]), InnerFour(bits[1], bits[2], bits[3], bits[4]))
  {
    hide S1, S2, S3, S4, S5, S6, S7, S8, E, P, Ip, Pc1, Pc2;
  }

  lemma NibbleIs(v: nat)
    requires v < 16
    ensures Nibble(v) == FourBits(FourOf(v))
  {
  }

  lemma ExpandIs(r: Half, b: nat)
    requires b < 8
    ensures |E()| == 48 && Below(E(), 32)
    ensures Permute(HalfBits(r), E())[6 * b..6 * b + 6]
            == SixBits(Expand(Part(r, (b + 7) % 8), Part(r, b), Part(r, (b + 1) % 8)))
  {
    hide E, HalfBits, SixAt, Expand, Part;
    EIsExpansion();
    var slice := Permute(HalfBits(r), E())[6 * b..6 * b + 6];
    forall j | 0 <= j < 6
      ensures slice[j] == SixAt(Expand(Part(r, (b + 7) % 8), Part(r, b), Part(r, (b + 1) % 8)), j)
    {
      ExpandAt(r, b, j);
      assert slice[j] == HalfBits(r)[E()[6 * b + j]];
    }
  }

  lemma ExpandAt(r: Half, b: nat, j: nat)
    requires b < 8 && j < 6
    ensures E()[6 * b + j] < 32
    ensures HalfBits(r)[E()[6 * b + j]]
            == SixAt(Expand(Part(r, (b + 7) % 8), Part(r, b), Part(r, (b + 1) % 8)), j)
  {
    hide E, Part, HalfBits, FourAt, SixAt, Expand;
    EAt(b, j);
    HalfBitAt(r, (4 * b + j + 31) % 32);
    ExpandIndex(b, j);
    ExpandBit(Part(r, (b + 7) % 8), Part(r, b), Part(r, (b + 1) % 8), j);
  }

  lemma ExpandIndex(b: nat, j: nat)
    requires b < 8 && j < 6
    ensures var i := (4 * b + j + 31) % 32;
            && i / 4 == (if j == 0 then (b + 7) % 8 else if j < 5 then b else (b + 1) % 8)
            && i % 4 == (if j == 0 then 3 else if j < 5 then j - 1 else 0)
  {
  }

  lemma ExpandBit(p: Four, x: Four, q: Four, j: nat)
    requires j < 6
    ensures SixAt(Expand(p, x, q), j)
            == if j == 0 then FourAt(p, 3) else if j < 5 then FourAt(x, j - 1) else FourAt(q, 0)
  {
  }

  lemma HalfBitAt(r: Half, i: nat)
    requires i < 32
    ensures HalfBits(r)[i] == FourAt(Part(r, i / 4), i % 4)
  {
    hide Part, FourAt;
  }

  lemma EAt(b: nat, j: nat)
    requires b < 8 && j < 6
    ensures |E()| == 48 && E()[6 * b + j] == (4 * b + j + 31) % 32
  {
    ERows(b, j);
    hide E_ROWS;
  }

  lemma ERows(b: nat, j: nat)
    requires b < 8 && j < 6
    ensures |E_ROWS| == 8 && |E_ROWS[b]| == 6 && E_ROWS[b][j] == (4 * b + j + 31) % 32
  {
  }

  lemma KeyPartIs(k: RoundKey, b: nat)
    requires b < 8
    ensures KeyBits(k)[6 * b..6 * b + 6] == SixBits(KeyPart(k, b))
  {
  }

  lemma OutsPart(r: Half, k: RoundKey, b: nat)
    requires b < 8
    ensures Part(Outs(r, k), b) == BoxOut(b, Expand(Part(r, (b + 7) % 8), Part(r, b), Part(r, (b + 1) % 8)),
                                          KeyPart(k, b))
  {
    hide BoxOut, Expand;
  }

  lemma SliceOfXor(x: BitVec, y: BitVec, i: nat, j: nat)
    requires |x| == |y| && i <= j <= |x|
    ensures Xor(x, y)[i..j] == Xor(x[i..j], y[i..j])
  {
  }

  lemma FourMore(s: Half, n: nat)
    requires n < 8
    ensures HalfBits(s)[..4 * n + 4] == HalfBits(s)[..4 * n] + FourBits(Part(s, n))
  {
  }

  lemma {:induction false} LayerIs(r: Half, k: RoundKey, n: nat)
    requires n <= 8
    ensures |E()| == 48 && Below(E(), 32)
    ensures SBoxLayer(Standard(), Xor(Permute(HalfBits(r), E()), KeyBits(k)), n) == HalfBits(Outs(r, k))[..4 * n]
  {
    hide Standard, HalfBits, KeyBits, E, Outs, Permute, SBoxLookup, Nibble, BoxOut, Expand;
    ExpandIs(r, if n == 0 then 0 else n - 1);
    var x := Xor(Permute(HalfBits(r), E()), KeyBits(k));
    if n > 0 {
      var b := n - 1;
      LayerIs(r, k, b);
      KeyPartIs(k, b);
      SliceOfXor(Permute(HalfBits(r), E()), KeyBits(k), 6 * b, 6 * n);
      OutsPart(r, k, b);
      BoxIs(b, Expand(Part(r, (b + 7) % 8), Part(r, b), Part(r, (b + 1) % 8)), KeyPart(k, b));
      FourMore(Outs(r, k), b);
    }
  }

  lemma PAt(j: nat, m: nat)
    requires j < 8 && m < 4
    ensures P()[4 * j + m] == P_ROWS[j][m]
  {
  }

  lemma ShuffledIs(s: Half)
    ensures |P()| == 32 && Below(P(), 32) && Permute(HalfBits(s), P()) == HalfBits(Shuffled(s))
  {
    hide P, Shuffled, HalfBits, Part, FourAt;
    PIsValid();
    forall i | 0 <= i < 32 ensures Permute(HalfBits(s), P())[i] == HalfBits(Shuffled(s))[i] {
      ShuffledAt(s, i / 4, i % 4);
      HalfBitAt(Shuffled(s), i);
    }
  }

  lemma ShuffledAt(s: Half, j: nat, m: nat)
    requires j < 8 && m < 4
    ensures P()[4 * j + m] < 32 && HalfBits(s)[P()[4 * j + m]] == FourAt(Part(Shuffled(s), j), m)
  {
    PAt(j, m);
  }

  lemma XorPart(x: Half, y: Half, j: nat)
    requires j < 8
    ensures Part(XorHalf(x, y), j) == XorFour(Part(x, j), Part(y, j))
  {
    hide XorFour;
  }

  lemma XorFourAt(x: Four, y: Four, m: nat)
    requires m < 4
    ensures FourAt(XorFour(x, y), m) == (FourAt(x, m) != FourAt(y, m))
  {
  }

  lemma XorHalfAt(x: Half, y: Half, j: nat, m: nat)
    requires j < 8 && m < 4
    ensures FourAt(Part(XorHalf(x, y), j), m) == (FourAt(Part(x, j), m) != FourAt(Part(y, j), m))
  {
    hide XorHalf, Part, XorFour, FourAt;
    XorPart(x, y, j);
    XorFourAt(Part(x, j), Part(y, j), m);
  }

  lemma XorHalfIs(x: Half, y: Half)
    ensures Xor(HalfBits(x), HalfBits(y)) == HalfBits(XorHalf(x, y))
  {
    hide XorHalf, Part, FourAt;
    forall i | 0 <= i < 32 ensures Xor(HalfBits(x), HalfBits(y))[i] == HalfBits(XorHalf(x, y))[i] {
      XorHalfAt(x, y, i / 4, i % 4);
    }
  }

  /** One round of the standard tables is one round of the reference. */
  lemma RoundIs(l: Half, r: Half, k: RoundKey)
    ensures Xor(HalfBits(l), Feistel(Standard(), HalfBits(r), KeyBits(k))) == HalfBits(Next(l, r, k))
  {
    hide HalfBits, KeyBits, Outs, Shuffled, XorHalf, SBoxLayer, Permute, Standard, E, P, Xor;
    LayerIs(r, k, 8);
    ShuffledIs(Outs(r, k));
    XorHalfIs(l, Shuffled(Outs(r, k)));
    StandardParts();
    assert HalfBits(Outs(r, k))[..32] == HalfBits(Outs(r, k));
  }

  lemma StandardParts()
    ensures Standard().e == E() && Standard().p == P() && Standard().ip == Ip()
    ensures Standard().pc1 == Pc1() && Standard().pc2 == Pc2() && Standard().shifts == SHIFTS
  {
    hide E, P, Ip, Pc1, Pc2, SBoxes;
  }

  function AllKeyBits(keys: seq<RoundKey>): (bits: seq<BitVec>)
    ensures |bits| == |keys| && AreRoundKeys(bits)
    ensures forall i :: 0 <= i < |keys| ==> bits[i] == KeyBits(keys[i])
  {
    seq(|keys|, i requires 0 <= i < |keys| => KeyBits(keys[i]))
  }

  lemma {:induction false} RoundsAre(l: Half, r: Half, keys: seq<RoundKey>)
    ensures var (l', r') := AfterRounds(l, r, keys);
            Rounds(Standard(), HalfBits(l), HalfBits(r), AllKeyBits(keys)) == (HalfBits(l'), HalfBits(r'))
    decreases |keys|
  {
    hide HalfBits, KeyBits, Next, Feistel, Standard;
    if keys != [] {
      RoundIs(l, r, keys[0]);
      RoundsAre(r, Next(l, r, keys[0]), keys[1..]);
      assert AllKeyBits(keys)[1..] == AllKeyBits(keys[1..]);
    }
  }

  // ------------------------------------------------------------------- the keys agree

  lemma TurnAt(c: Reg, j: nat, m: nat)
    requires j < 7 && m < 4
    ensures FourAt(RegPart(Turn(c), j), m)
            == if m < 3 then FourAt(RegPart(c, j), m + 1) else FourAt(RegPart(c, (j + 1) % 7), 0)
  {
  }

  lemma TurnIs(c: Reg)
    ensures RotateLeft(RegBits(c), 1) == RegBits(Turn(c))
  {
    hide Turn, RegPart, FourAt;
    forall i | 0 <= i < 28 ensures RotateLeft(RegBits(c), 1)[i] == RegBits(Turn(c))[i] {
      TurnBit(c, i);
    }
  }

  lemma NextCell(i: nat)
    requires i < 28
    ensures i % 4 < 3 ==> (i + 1) % 28 / 4 == i / 4 && (i + 1) % 28 % 4 == i % 4 + 1
    ensures i % 4 == 3 ==> (i + 1) % 28 / 4 == (i / 4 + 1) % 7 && (i + 1) % 28 % 4 == 0
  {
  }

  lemma TurnBit(c: Reg, i: nat)
    requires i < 28
    ensures RegBits(c)[(i + 1) % 28] == RegBits(Turn(c))[i]
  {
    hide Turn, RegPart, FourAt;
    NextCell(i);
    TurnAt(c, i / 4, i % 4);
  }

  lemma TurnIndex(i: nat, n: nat)
    requires i < 28
    ensures ((i + 1) % 28 + n) % 28 == (i + (n + 1)) % 28
  {
    if i == 27 {
      assert (n + 28) % 28 == n % 28;
    }
  }

  lemma NoTurn(v: BitVec)
    requires |v| == 28
    ensures RotateLeft(v, 0) == v
  {
  }

  lemma OneMoreTurn(v: BitVec, n: nat)
    requires |v| == 28
    ensures RotateLeft(v, n + 1) == RotateLeft(RotateLeft(v, n), 1)
  {
    forall i | 0 <= i < 28 ensures RotateLeft(v, n + 1)[i] == RotateLeft(RotateLeft(v, n), 1)[i] {
      TurnIndex(i, n);
    }
  }

  lemma {:induction false} TurnByIs(c: Reg, n: nat)
    ensures RotateLeft(RegBits(c), n) == RegBits(TurnBy(c, n))
  {
    hide RotateLeft, RegBits, Turn;
    if n == 0 {
      NoTurn(RegBits(c));
    } else {
      TurnByIs(c, n - 1);
      TurnIs(TurnBy(c, n - 1));
      OneMoreTurn(RegBits(c), n - 1);
    }
  }

  lemma SelectFromC(c: Reg, d: Reg, j: nat, m: nat)
    requires j < 4 && m < 6
    ensures |Pc2()| == 48 && Pc2()[6 * j + m] < 28
    ensures RegBits(c)[Pc2()[6 * j + m]] == SixAt(KeyPart(Select(c, d), j), m)
  {
  }

  lemma SelectFromD(c: Reg, d: Reg, j: nat, m: nat)
    requires 4 <= j < 6 && m < 6
    ensures |Pc2()| == 48 && 28 <= Pc2()[6 * j + m] < 56
    ensures RegBits(d)[Pc2()[6 * j + m] - 28] == SixAt(KeyPart(Select(c, d), j), m)
  {
  }

  lemma SelectLastFromD(c: Reg, d: Reg, j: nat, m: nat)
    requires 6 <= j < 8 && m < 6
    ensures |Pc2()| == 48 && 28 <= Pc2()[6 * j + m] < 56
    ensures RegBits(d)[Pc2()[6 * j + m] - 28] == SixAt(KeyPart(Select(c, d), j), m)
  {
  }

  lemma SelectAt(c: Reg, d: Reg, j: nat, m: nat)
    requires j < 8 && m < 6
    ensures |Pc2()| == 48 && Pc2()[6 * j + m] < 56
    ensures (RegBits(c) + RegBits(d))[Pc2()[6 * j + m]] == SixAt(KeyPart(Select(c, d), j), m)
  {
    hide Pc2, Select, KeyPart, SixAt, RegBits;
    if j < 4 {
      SelectFromC(c, d, j, m);
    } else if j < 6 {
      SelectFromD(c, d, j, m);
    } else {
      SelectLastFromD(c, d, j, m);
    }
  }

  lemma SelectIs(c: Reg, d: Reg)
    ensures |Pc2()| == 48 && Below(Pc2(), 56)
    ensures Permute(RegBits(c) + RegBits(d), Pc2()) == KeyBits(Select(c, d))
  {
    hide Pc2, Select, KeyPart, SixAt, RegBits;
    Pc2IsValid();
    forall i | 0 <= i < 48 ensures Permute(RegBits(c) + RegBits(d), Pc2())[i] == KeyBits(Select(c, d))[i] {
      SelectAt(c, d, i / 6, i % 6);
    }
  }

  lemma {:induction false} ScheduleIs(c: Reg, d: Reg, shifts: seq<nat>)
    ensures Schedule(Standard(), RegBits(c), RegBits(d), shifts) == AllKeyBits(KeysFrom(c, d, shifts))
    decreases |shifts|
  {
    hide RegBits, KeyBits, Select, RotateLeft, Permute, TurnBy, Standard, Pc2;
    StandardParts();
    if shifts != [] {
      var c', d' := TurnBy(c, shifts[0]), TurnBy(d, shifts[0]);
      TurnByIs(c, shifts[0]);
      TurnByIs(d, shifts[0]);
      SelectIs(c', d');
      ScheduleIs(c', d', shifts[1..]);
      var keys := KeysFrom(c, d, shifts);
      assert keys == [Select(c', d')] + KeysFrom(c', d', shifts[1..]);
      assert AllKeyBits(keys) == [KeyBits(Select(c', d'))] + AllKeyBits(keys[1..]);
    }
  }

  lemma FirstCAt(x: Half, y: Half, i: nat)
    requires i < 28
    ensures |Pc1()| == 56 && Pc1()[i] < 64
    ensures (HalfBits(x) + HalfBits(y))[Pc1()[i]] == FourAt(RegPart(FirstC(x, y), i / 4), i % 4)
  {
  }

  lemma FirstDAt(x: Half, y: Half, i: nat)
    requires i < 16
    ensures |Pc1()| == 56 && Pc1()[28 + i] < 64
    ensures (HalfBits(x) + HalfBits(y))[Pc1()[28 + i]] == FourAt(RegPart(FirstD(x, y), i / 4), i % 4)
  {
  }

  lemma LastDAt(x: Half, y: Half, i: nat)
    requires 16 <= i < 28
    ensures |Pc1()| == 56 && Pc1()[28 + i] < 64
    ensures (HalfBits(x) + HalfBits(y))[Pc1()[28 + i]] == FourAt(RegPart(FirstD(x, y), i / 4), i % 4)
  {
  }

  lemma BothHalvesAt(x: Half, y: Half, p: nat)
    requires p < 64
    ensures (HalfBits(x) + HalfBits(y))[p]
            == FourAt(if p < 32 then Part(x, p / 4) else Part(y, p / 4 - 8), p % 4)
  {
    hide Part, FourAt;
  }

  /** Nibble n of a block. */
  function BlockPart(x: Half, y: Half, n: nat): Four
    requires n < 16
  {
    if n < 8 then Part(x, n) else Part(y, n - 8)
  }

  /** Column c of IP reads byte 7 - c: its first four rows the even numbered bits, the others the odd ones. */
  lemma FirstLRow(x: Half, y: Half, r: nat)
    requires r < 4
    ensures var m := 1 + r % 2 * 2;
            && Part(FirstL(x, y), 2 * r)
               == Four(FourAt(BlockPart(x, y, 14 + r / 2), m), FourAt(BlockPart(x, y, 12 + r / 2), m),
                 FourAt(BlockPart(x, y, 10 + r / 2), m), FourAt(BlockPart(x, y, 8 + r / 2), m))
            && Part(FirstL(x, y), 2 * r + 1)
               == Four(FourAt(BlockPart(x, y, 6 + r / 2), m), FourAt(BlockPart(x, y, 4 + r / 2), m),
                 FourAt(BlockPart(x, y, 2 + r / 2), m), FourAt(BlockPart(x, y, 0 + r / 2), m))
  {
    match r
    case 0 =>
    case 1 =>
    case 2 =>
    case _ =>
  }

  lemma FirstLAt(x: Half, y: Half, r: nat, c: nat)
    requires r < 4 && c < 8
    ensures FourAt(BlockPart(x, y, 14 - 2 * c + r / 2), 1 + r % 2 * 2)
            == FourAt(Part(FirstL(x, y), 2 * r + c / 4), c % 4)
  {
    hide FirstL, Part, BlockPart;
    FirstLRow(x, y, r);
  }

  lemma FirstRRow(x: Half, y: Half, r: nat)
    requires r < 4
    ensures var m := r % 2 * 2;
            && Part(FirstR(x, y), 2 * r)
               == Four(FourAt(BlockPart(x, y, 14 + r / 2), m), FourAt(BlockPart(x, y, 12 + r / 2), m),
                 FourAt(BlockPart(x, y, 10 + r / 2), m), FourAt(BlockPart(x, y, 8 + r / 2), m))
            && Part(FirstR(x, y), 2 * r + 1)
               == Four(FourAt(BlockPart(x, y, 6 + r / 2), m), FourAt(BlockPart(x, y, 4 + r / 2), m),
                 FourAt(BlockPart(x, y, 2 + r / 2), m), FourAt(BlockPart(x, y, 0 + r / 2), m))
  {
    match r
    case 0 =>
    case 1 =>
    case 2 =>
    case _ =>
  }

  lemma FirstRAt(x: Half, y: Half, r: nat, c: nat)
    requires r < 4 && c < 8
    ensures FourAt(BlockPart(x, y, 14 - 2 * c + r / 2), r % 2 * 2)
            == FourAt(Part(FirstR(x, y), 2 * r + c / 4), c % 4)
  {
    hide FirstR, Part, BlockPart;
    FirstRRow(x, y, r);
  }

  lemma IpNibble(r: nat, c: nat)
    requires r < 4 && c < 8
    ensures var p := 57 + 2 * r - 8 * c; p / 4 == 14 - 2 * c + r / 2 && p % 4 == 1 + r % 2 * 2
    ensures var p := 56 + 2 * r - 8 * c; p / 4 == 14 - 2 * c + r / 2 && p % 4 == r % 2 * 2
  {
  }

  lemma RowAndColumn(i: nat)
    requires i < 32
    ensures i / 8 < 4 && i % 8 < 8 && i == 8 * (i / 8) + i % 8
    ensures 2 * (i / 8) + i % 8 / 4 == i / 4 && i % 8 % 4 == i % 4
    ensures (32 + i) / 8 == 4 + i / 8 && (32 + i) % 8 == i % 8
  {
  }

  lemma IpRow(i: nat)
    requires i < 32
    ensures Ip()[i] == 57 + 2 * (i / 8) - 8 * (i % 8) < 64 && Ip()[32 + i] == 56 + 2 * (i / 8) - 8 * (i % 8) < 64
  {
    hide Ip;
    IpAt(i);
    IpAt(32 + i);
    RowAndColumn(i);
  }

  /** Bit p of a block, by nibble. */
  lemma BlockBitAt(x: Half, y: Half, p: nat)
    requires p < 64
    ensures (HalfBits(x) + HalfBits(y))[p] == FourAt(BlockPart(x, y, p / 4), p % 4)
  {
    hide HalfBits, Part, FourAt;
    BothHalvesAt(x, y, p);
  }

  lemma LeftAt(x: Half, y: Half, i: nat)
    requires i < 32
    ensures Ip()[i] < 64
    ensures (HalfBits(x) + HalfBits(y))[Ip()[i]] == FourAt(Part(FirstL(x, y), i / 4), i % 4)
  {
    hide Ip, HalfBits, Part, BlockPart, FourAt, FirstL;
    IpRow(i);
    RowAndColumn(i);
    IpNibble(i / 8, i % 8);
    BlockBitAt(x, y, Ip()[i]);
    FirstLAt(x, y, i / 8, i % 8);
  }

  lemma RightAt(x: Half, y: Half, i: nat)
    requires i < 32
    ensures Ip()[32 + i] < 64
    ensures (HalfBits(x) + HalfBits(y))[Ip()[32 + i]] == FourAt(Part(FirstR(x, y), i / 4), i % 4)
  {
    hide Ip, HalfBits, Part, BlockPart, FourAt, FirstR;
    IpRow(i);
    RowAndColumn(i);
    IpNibble(i / 8, i % 8);
    BlockBitAt(x, y, Ip()[32 + i]);
    FirstRAt(x, y, i / 8, i % 8);
  }

  lemma FirstAt(x: Half, y: Half, i: nat)
    requires i < 32
    ensures Ip()[i] < 64 && Ip()[32 + i] < 64
    ensures (HalfBits(x) + HalfBits(y))[Ip()[i]] == FourAt(Part(FirstL(x, y), i / 4), i % 4)
    ensures (HalfBits(x) + HalfBits(y))[Ip()[32 + i]] == FourAt(Part(FirstR(x, y), i / 4), i % 4)
  {
    hide Ip, HalfBits, Part, FourAt, FirstL, FirstR;
    LeftAt(x, y, i);
    RightAt(x, y, i);
  }

  /** IP of a block gives the halves of the first round. */
  lemma FirstIs(x: Half, y: Half)
    ensures |Ip()| == 64 && Below(Ip(), 64)
    ensures Permute(HalfBits(x) + HalfBits(y), Ip()) == HalfBits(FirstL(x, y)) + HalfBits(FirstR(x, y))
  {
    hide Ip, HalfBits, FirstL, FirstR, Part, FourAt;
    IpIsPermutation();
    var bits := Permute(HalfBits(x) + HalfBits(y), Ip());
    forall i | 0 <= i < 32
      ensures bits[i] == HalfBits(FirstL(x, y))[i] && bits[32 + i] == HalfBits(FirstR(x, y))[i]
    {
      FirstAt(x, y, i);
      HalfBitAt(FirstL(x, y), i);
      HalfBitAt(FirstR(x, y), i);
    }
    assert forall i :: 32 <= i < 64 ==> bits[i] == bits[32 + (i - 32)];
  }

  /** PC-1 of a key gives the first registers. */
  lemma FirstKeysAre(x: Half, y: Half)
    ensures |Pc1()| == 56 && Below(Pc1(), 64)
    ensures Permute(HalfBits(x) + HalfBits(y), Pc1())[..28] == RegBits(FirstC(x, y))
    ensures Permute(HalfBits(x) + HalfBits(y), Pc1())[28..] == RegBits(FirstD(x, y))
  {
    hide Pc1, HalfBits, FirstC, FirstD, RegPart, FourAt;
    Pc1DropsParity();
    var bits := Permute(HalfBits(x) + HalfBits(y), Pc1());
    forall i | 0 <= i < 28
      ensures bits[i] == RegBits(FirstC(x, y))[i] && bits[28 + i] == RegBits(FirstD(x, y))[i]
    {
      FirstCAt(x, y, i);
      if i < 16 { FirstDAt(x, y, i); } else { LastDAt(x, y, i); }
    }
    assert forall i :: 0 <= i < 28 ==> bits[28..][i] == bits[28 + i];
  }

  // ------------------------------------------------------------------- blocks

  lemma FourValue(n: nat)
    requires n < 16
    ensures var x := FourOf(n); n == 8 * Num(x.a) + 4 * Num(x.b) + 2 * Num(x.c) + Num(x.d)
  {
  }

  lemma ValueCons(b: bool, bits: BitVec)
    ensures Value([b] + bits) == Num(b) + 2 * Value(bits)
  {
    assert ([b] + bits)[1..] == bits;
  }

  lemma ValueOfFour(x: Four, high: BitVec)
    ensures Value([x.d, x.c, x.b, x.a] + high)
            == Num(x.d) + 2 * Num(x.c) + 4 * Num(x.b) + 8 * Num(x.a) + 16 * Value(high)
  {
    hide Value;
    ValueCons(x.a, high);
    ValueCons(x.b, [x.a] + high);
    ValueCons(x.c, [x.b] + ([x.a] + high));
    ValueCons(x.d, [x.c] + ([x.b] + ([x.a] + high)));
    assert [x.d, x.c, x.b, x.a] + high == [x.d] + ([x.c] + ([x.b] + ([x.a] + high)));
  }

  lemma ByteBits(v: Byte)
    ensures var p, q := FourOf(v / 16), FourOf(v % 16);
            LowBits(v, 8) == [q.d, q.c, q.b, q.a] + ([p.d, p.c, p.b, p.a] + [])
  {
    hide Value, LowBits, FourOf;
    var p, q := FourOf(v / 16), FourOf(v % 16);
    FourValue(v / 16);
    FourValue(v % 16);
    ValueOfFour(p, []);
    ValueOfFour(q, [p.d, p.c, p.b, p.a] + []);
    NoBits();
    LowBitsOfValue([q.d, q.c, q.b, q.a] + ([p.d, p.c, p.b, p.a] + []));
  }

  lemma NoBits()
    ensures Value([]) == 0
  {
  }

  lemma ByteIs(v: Byte, m: nat)
    requires m < 8
    ensures LowBits(v, 8)[7 - m] == if m < 4 then FourAt(FourOf(v / 16), m) else FourAt(FourOf(v % 16), m - 4)
  {
    hide LowBits, FourOf;
    ByteBits(v);
  }

  lemma NibblePart(data: Block, i: nat)
    requires i < 8
    ensures Part(Upper(data), i) == FourOf(if i % 2 == 0 then data[i / 2] / 16 else data[i / 2] % 16)
    ensures Part(Lower(data), i) == FourOf(if i % 2 == 0 then data[4 + i / 2] / 16 else data[4 + i / 2] % 16)
  {
    hide FourOf;
  }

  lemma DesBitAt(data: Block, k: nat)
    requires k < 64
    ensures DesBits(data)[k]
            == FourAt(if k < 32 then Part(Upper(data), k / 4) else Part(Lower(data), k / 4 - 8), k % 4)
  {
    hide LowBits, FourOf, FourAt, Part, Upper, Lower;
    ByteIs(data[k / 8], k % 8);
    NibblePart(data, if k < 32 then k / 4 else k / 4 - 8);
  }

  lemma BlockBits(data: Block)
    ensures DesBits(data) == HalfBits(Upper(data)) + HalfBits(Lower(data))
  {
    hide DesBits, HalfBits, Upper, Lower, FourAt, Part;
    var both := HalfBits(Upper(data)) + HalfBits(Lower(data));
    forall k | 0 <= k < 64 ensures DesBits(data)[k] == both[k] {
      DesBitAt(data, k);
      BothHalvesAt(Upper(data), Lower(data), k);
    }
  }

  // ------------------------------------------------------------------- every block agrees

  lemma KeysAre(key: Block)
    ensures RoundKeys(Standard(), DesBits(key)) == AllKeyBits(KeysOf(key))
  {
    hide DesBits, Upper, Lower, HalfBits, FirstC, FirstD, RegBits, Pc1, Permute, Schedule, KeysFrom, Standard;
    var x, y := Upper(key), Lower(key);
    StandardParts();
    BlockBits(key);
    FirstKeysAre(x, y);
    ScheduleIs(FirstC(x, y), FirstD(x, y), LEFT_SHIFTS);
  }

  lemma SameHalf(x: Half, y: Half)
    requires HalfBits(x) == HalfBits(y)
    ensures x == y
  {
    forall i | 0 <= i < 8 ensures Part(x, i) == Part(y, i) {
      SamePart(x, y, i);
    }
    hide HalfBits;
    assert Part(x, 0) == Part(y, 0) && Part(x, 1) == Part(y, 1) && Part(x, 2) == Part(y, 2) && Part(x, 3) == Part(y, 3);
    assert Part(x, 4) == Part(y, 4) && Part(x, 5) == Part(y, 5) && Part(x, 6) == Part(y, 6) && Part(x, 7) == Part(y, 7);
  }

  lemma SamePart(x: Half, y: Half, i: nat)
    requires HalfBits(x) == HalfBits(y) && i < 8
    ensures Part(x, i) == Part(y, i)
  {
    hide Part;
    assert HalfBits(x)[4 * i] == HalfBits(y)[4 * i] && HalfBits(x)[4 * i + 1] == HalfBits(y)[4 * i + 1];
    assert HalfBits(x)[4 * i + 2] == HalfBits(y)[4 * i + 2] && HalfBits(x)[4 * i + 3] == HalfBits(y)[4 * i + 3];
  }

  lemma SameHalves(x: Half, y: Half, x': Half, y': Half)
    requires HalfBits(x) + HalfBits(y) == HalfBits(x') + HalfBits(y')
    ensures x == x' && y == y'
  {
    hide HalfBits;
    var both := HalfBits(x) + HalfBits(y);
    assert both[..32] == HalfBits(x) && both[32..] == HalfBits(y);
    assert both[..32] == HalfBits(x') && both[32..] == HalfBits(y');
    SameHalf(x, x');
    SameHalf(y, y');
  }

  function ThroughIp(x: Block): BitVec {
    IpIsPermutation();
    Permute(DesBits(x), Ip())
  }

  /** What DES makes of a block, seen through IP: the halves after the rounds, swapped. */
  lemma CipherIs(data: Block, key: Block)
    ensures var x, y := Upper(data), Lower(data);
            var (l, r) := AfterRounds(FirstL(x, y), FirstR(x, y), KeysOf(key));
            ThroughIp(DesBlock(Standard(), data, key, true)) == HalfBits(r) + HalfBits(l)
  {
    hide DesBits, Upper, Lower, HalfBits, FirstL, FirstR, KeysOf, AfterRounds, RoundKeys, Rounds, Ip, Permute, Standard,
         BytesOfDes, InverseTable;
    var x, y := Upper(data), Lower(data);
    var l0, r0 := FirstL(x, y), FirstR(x, y);
    StandardParts();
    BlockBits(data);
    FirstIs(x, y);
    KeysAre(key);
    RoundsAre(l0, r0, KeysOf(key));
    var (l, r) := AfterRounds(l0, r0, KeysOf(key));
    assert (HalfBits(l0) + HalfBits(r0))[..32] == HalfBits(l0) && (HalfBits(l0) + HalfBits(r0))[32..] == HalfBits(r0);
    DesBitsOfBytes(DesOnBits(Standard(), DesBits(data), DesBits(key), true));
    IpIsPermutation();
    PermuteInverse(HalfBits(r) + HalfBits(l), Ip());
  }

  /** On every block and key the cipher of the standard tables is the reference, and it determines the output. */
  lemma DesIsReference(data: Block, key: Block, out: Block)
    ensures var x, y := Upper(data), Lower(data);
            var (l, r) := AfterRounds(FirstL(x, y), FirstR(x, y), KeysOf(key));
            DesBlock(Standard(), data, key, true) == out <==>
              FirstL(Upper(out), Lower(out)) == r && FirstR(Upper(out), Lower(out)) == l
  {
    hide DesBits, Upper, Lower, HalfBits, FirstL, FirstR, KeysOf, AfterRounds, DesBlock, Ip, Permute, Standard;
    var (l, r) := AfterRounds(FirstL(Upper(data), Lower(data)), FirstR(Upper(data), Lower(data)), KeysOf(key));
    CipherIs(data, key);
    var x, y := Upper(out), Lower(out);
    BlockBits(out);
    FirstIs(x, y);
    if DesBlock(Standard(), data, key, true) == out {
      SameHalves(FirstL(x, y), FirstR(x, y), r, l);
    }
    if FirstL(x, y) == r && FirstR(x, y) == l {
      SamePermuted(DesBlock(Standard(), data, key, true), out);
    }
  }

  lemma SamePermuted(a: Block, b: Block)
    requires ThroughIp(a) == ThroughIp(b)
    ensures a == b
  {
    hide DesBits, Ip, Permute, InverseTable, BytesOfDes;
    IpIsPermutation();
    PermuteInverse(DesBits(a), Ip());
    PermuteInverse(DesBits(b), Ip());
    DesRoundTrip(a);
    DesRoundTrip(b);
  }

  // ------------------------------------------------------------------- the S-boxes

  /** The table the polynomials interpolate: the outer bits of the number are the row, the inner four the column. */
  lemma MappedByNumber(b: nat, v: nat)
    requires b < 8 && v < 64
    ensures |SBoxes()[b]| == 4 && |SBoxes()[b][2 * (v / 32) + v % 2]| == 16
    ensures G.MappedTable(Standard(), b)[v] == SBoxes()[b][2 * (v / 32) + v % 2][v / 2 % 16]
  {
    hide S1, S2, S3, S4, S5, S6, S7, S8, Standard, SBoxLookup, LowBits;
    var bits := Reverse(LowBits(v, 6));
    SixLowBits(v);
    LookupIs(b, bits);
    ColumnOf(v);
  }

  lemma HighInnerBits(v: nat, q: nat, u: nat)
    requires v < 64 && q < 2 && u < 16 && v / 2 == 16 * q + u
    ensures (v / 16 % 2 == 1) == (u >= 8) && (v / 8 % 2 == 1) == (u % 8 >= 4)
  {
    assert v / 16 == 2 * q + u / 8;
    assert v / 8 == 4 * q + u / 4;
  }

  lemma LowInnerBits(v: nat, q: nat, u: nat)
    requires v < 64 && q < 2 && u < 16 && v / 2 == 16 * q + u
    ensures (v / 4 % 2 == 1) == (u % 4 >= 2) && (v / 2 % 2 == 1) == (u % 2 == 1)
  {
    assert v / 4 == 8 * q + u / 2;
  }

  lemma ColumnOf(v: nat)
    requires v < 64
    ensures OuterTwo(v / 32 % 2 == 1, v % 2 == 1) == 2 * (v / 32) + v % 2
    ensures InnerFour(v / 16 % 2 == 1, v / 8 % 2 == 1, v / 4 % 2 == 1, v / 2 % 2 == 1) == v / 2 % 16
  {
    HighInnerBits(v, v / 32, v / 2 % 16);
    LowInnerBits(v, v / 32, v / 2 % 16);
    FourValue(v / 2 % 16);
  }

  lemma LowBitsCons(v: nat, b: bool, r: nat, n: nat)
    requires v == Num(b) + 2 * r
    ensures LowBits(v, n + 1) == [b] + LowBits(r, n)
  {
    assert v % 2 == Num(b) && v / 2 == r;
  }

  lemma SixReversed(a: bool, b: bool, c: bool, d: bool, e: bool, f: bool)
    ensures Reverse([f] + ([e] + ([d] + ([c] + ([b] + ([a] + [])))))) == [a, b, c, d, e, f]
  {
  }

  lemma SixBitsAre(x: Four, a: bool, b: bool, v: nat)
    requires v == 32 * Num(a) + 16 * Num(b) + 8 * Num(x.a) + 4 * Num(x.b) + 2 * Num(x.c) + Num(x.d)
    ensures Reverse(LowBits(v, 6)) == [a, b, x.a, x.b, x.c, x.d]
  {
    hide LowBits, Reverse, Num;
    var v5, v4 := Num(a), 2 * Num(a) + Num(b);
    var v3 := 2 * v4 + Num(x.a);
    var v2 := 2 * v3 + Num(x.b);
    var v1 := 2 * v2 + Num(x.c);
    LowBitsCons(v, x.d, v1, 5);
    LowBitsCons(v1, x.c, v2, 4);
    LowBitsCons(v2, x.b, v3, 3);
    LowBitsCons(v3, x.a, v4, 2);
    LowBitsCons(v4, b, v5, 1);
    LowBitsCons(v5, a, 0, 0);
    NoLowBits();
    SixReversed(a, b, x.a, x.b, x.c, x.d);
  }

  lemma NoLowBits()
    ensures LowBits(0, 0) == []
  {
  }

  lemma HalfAndBit(n: nat)
    ensures n == 2 * (n / 2) + Num(n % 2 == 1)
  {
  }

  lemma Halves(v: nat)
    requires v < 64
    ensures v / 2 / 2 == v / 4 && v / 4 / 2 == v / 8 && v / 8 / 2 == v / 16 && v / 16 / 2 == v / 32 && v / 32 / 2 == 0
  {
  }

  lemma SixParts(v: nat)
    requires v < 64
    ensures v == 32 * Num(v / 32 % 2 == 1) + 16 * Num(v / 16 % 2 == 1) + 8 * Num(v / 8 % 2 == 1)
                 + 4 * Num(v / 4 % 2 == 1) + 2 * Num(v / 2 % 2 == 1) + Num(v % 2 == 1)
  {
    hide Num;
    Halves(v);
    HalfAndBit(v);
    HalfAndBit(v / 2);
    HalfAndBit(v / 4);
    HalfAndBit(v / 8);
    HalfAndBit(v / 16);
    HalfAndBit(v / 32);
  }

  lemma SixLowBits(v: nat)
    requires v < 64
    ensures Reverse(LowBits(v, 6))
            == [v / 32 % 2 == 1, v / 16 % 2 == 1, v / 8 % 2 == 1, v / 4 % 2 == 1, v / 2 % 2 == 1, v % 2 == 1]
  {
    hide LowBits, Reverse, Num;
    SixParts(v);
    SixBitsAre(Four(v / 8 % 2 == 1, v / 4 % 2 == 1, v / 2 % 2 == 1, v % 2 == 1), v / 32 % 2 == 1, v / 16 % 2 == 1, v);
  }

  /** A row of an S-box read as sixteen hexadecimal digits. */
  function Number(row: seq<nat>): nat
    requires |row| == 16
  {
    row[0] * 0x1000_0000_0000_0000 + row[1] * 0x100_0000_0000_0000 + row[2] * 0x10_0000_0000_0000
    + row[3] * 0x1_0000_0000_0000 + row[4] * 0x1000_0000_0000 + row[5] * 0x100_0000_0000 + row[6] * 0x10_0000_0000
    + row[7] * 0x1_0000_0000 + row[8] * 0x1000_0000 + row[9] * 0x100_0000 + row[10] * 0x10_0000 + row[11] * 0x1_0000
    + row[12] * 0x1000 + row[13] * 0x100 + row[14] * 0x10 + row[15]
  }

  lemma NumbersOfS1()
    ensures Number(S1()[0]) == 0xE4D1_2FB8_3A6C_5907 && Number(S1()[1]) == 0x0F74_E2D1_A6CB_9538
    ensures Number(S1()[2]) == 0x41E8_D62B_FC97_3A50 && Number(S1()[3]) == 0xFC82_4917_5B3E_A06D
  {
  }

  lemma NumbersOfS2()
    ensures Number(S2()[0]) == 0xF18E_6B34_972D_C05A && Number(S2()[1]) == 0x3D47_F28E_C01A_69B5
    ensures Number(S2()[2]) == 0x0E7B_A4D1_58C6_932F && Number(S2()[3]) == 0xD8A1_3F42_B67C_05E9
  {
  }

  lemma NumbersOfS3()
    ensures Number(S3()[0]) == 0xA09E_63F5_1DC7_B428 && Number(S3()[1]) == 0xD709_346A_285E_CBF1
    ensures Number(S3()[2]) == 0xD649_8F30_B12C_5AE7 && Number(S3()[3]) == 0x1AD0_6987_4FE3_B52C
  {
  }

  lemma NumbersOfS4()
    ensures Number(S4()[0]) == 0x7DE3_069A_1285_BC4F && Number(S4()[1]) == 0xD8B5_6F03_472C_1AE9
    ensures Number(S4()[2]) == 0xA690_CB7D_F13E_5284 && Number(S4()[3]) == 0x3F06_A1D8_945B_C72E
  {
  }

  lemma NumbersOfS5()
    ensures Number(S5()[0]) == 0x2C41_7AB6_853F_D0E9 && Number(S5()[1]) == 0xEB2C_47D1_50FA_3986
    ensures Number(S5()[2]) == 0x421B_AD78_F9C5_630E && Number(S5()[3]) == 0xB8C7_1E2D_6F09_A453
  {
  }

  lemma NumbersOfS6()
    ensures Number(S6()[0]) == 0xC1AF_9268_0D34_E75B && Number(S6()[1]) == 0xAF42_7C95_61DE_0B38
    ensures Number(S6()[2]) == 0x9EF5_28C3_704A_1DB6 && Number(S6()[3]) == 0x432C_95FA_BE17_608D
  {
  }

  lemma NumbersOfS7()
    ensures Number(S7()[0]) == 0x4B2E_F08D_3C97_5A61 && Number(S7()[1]) == 0xD0B7_491A_E35C_2F86
    ensures Number(S7()[2]) == 0x14BD_C37E_AF68_0592 && Number(S7()[3]) == 0x6BD8_14A7_950F_E23C
  {
  }

  lemma NumbersOfS8()
    ensures Number(S8()[0]) == 0xD284_6FB1_A93E_50C7 && Number(S8()[1]) == 0x1FD8_A374_C56B_0E92
    ensures Number(S8()[2]) == 0x7B41_9CE2_06AD_F358 && Number(S8()[3]) == 0x21E7_4A8D_FC90_356B
  {
  }

  lemma RowOfS1(row: nat, v: nat)
    requires row < 4 && v < 16
    ensures v in S1()[row]
  {
  }

  lemma RowOfS2(row: nat, v: nat)
    requires row < 4 && v < 16
    ensures v in S2()[row]
  {
  }

  lemma RowOfS3(row: nat, v: nat)
    requires row < 4 && v < 16
    ensures v in S3()[row]
  {
  }

  lemma RowOfS4(row: nat, v: nat)
    requires row < 4 && v < 16
    ensures v in S4()[row]
  {
  }

  lemma RowOfS5(row: nat, v: nat)
    requires row < 4 && v < 16
    ensures v in S5()[row]
  {
  }

  lemma RowOfS6(row: nat, v: nat)
    requires row < 4 && v < 16
    ensures v in S6()[row]
  {
  }

  lemma RowOfS7(row: nat, v: nat)
    requires row < 4 && v < 16
    ensures v in S7()[row]
  {
  }

  lemma RowOfS8(row: nat, v: nat)
    requires row < 4 && v < 16
    ensures v in S8()[row]
  {
  }

  /** Every row of every S-box holds each of the sixteen values, and so each of them once. */
  lemma RowsArePermutations(b: nat, row: nat)
    requires b < 8 && row < 4
    ensures |SBoxes()[b]| == 4 && |SBoxes()[b][row]| == 16
    ensures forall v: nat :: v < 16 ==> v in SBoxes()[b][row]
  {
    hide S1, S2, S3, S4, S5, S6, S7, S8;
    assert IsSBox(SBoxes()[b]);
    forall v: nat | v < 16 ensures v in SBoxes()[b][row] {
      RowOfS1(row, v);
      RowOfS2(row, v);
      RowOfS3(row, v);
      RowOfS4(row, v);
      RowOfS5(row, v);
      RowOfS6(row, v);
      RowOfS7(row, v);
      RowOfS8(row, v);
    }
  }

  // ------------------------------------------------------------------- the vector of the repository

  const X0: Four := Four(false, false, false, false)
  const X1: Four := Four(false, false, false, true)
  const X2: Four := Four(false, false, true, false)
  const X3: Four := Four(false, false, true, true)
  const X4: Four := Four(false, true, false, false)
  const X5: Four := Four(false, true, false, true)
  const X6: Four := Four(false, true, true, false)
  const X7: Four := Four(false, true, true, true)
  const X8: Four := Four(true, false, false, false)
  const X9: Four := Four(true, false, false, true)
  const XA: Four := Four(true, false, true, false)
  const XB: Four := Four(true, false, true, true)
  const XC: Four := Four(true, true, false, false)
  const XD: Four := Four(true, true, false, true)
  const XE: Four := Four(true, true, true, false)
  const XF: Four := Four(true, true, true, true)

  /** The halves before each round, and the registers after each turn. */
  const L0: Half := Half(XC, XC, X0, X0, XC, XC, XF, XF)
  const L1: Half := Half(XF, X0, XA, XA, XF, X0, XA, XA)
  const L2: Half := Half(XE, XF, X4, XA, X6, X5, X4, X4)
  const L3: Half := Half(XC, XC, X0, X1, X7, X7, X0, X9)
  const L4: Half := Half(XA, X2, X5, XC, X0, XB, XF, X4)
  const L5: Half := Half(X7, X7, X2, X2, X0, X0, X4, X5)
  const L6: Half := Half(X8, XA, X4, XF, XA, X6, X3, X7)
  const L7: Half := Half(XE, X9, X6, X7, XC, XD, X6, X9)
  const L8: Half := Half(X0, X6, X4, XA, XB, XA, X1, X0)
  const L9: Half := Half(XD, X5, X6, X9, X4, XB, X9, X0)
  const L10: Half := Half(X2, X4, X7, XC, XC, X6, X7, XA)
  const L11: Half := Half(XB, X7, XD, X5, XD, X7, XB, X2)
  const L12: Half := Half(XC, X5, X7, X8, X3, XC, X7, X8)
  const L13: Half := Half(X7, X5, XB, XD, X1, X8, X5, X8)
  const L14: Half := Half(X1, X8, XC, X3, X1, X5, X5, XA)
  const L15: Half := Half(XC, X2, X8, XC, X9, X6, X0, XD)
  const L16: Half := Half(X4, X3, X4, X2, X3, X2, X3, X4)
  const L17: Half := Half(X0, XA, X4, XC, XD, X9, X9, X5)
  const C0: Reg := Reg(XF, X0, XC, XC, XA, XA, XF)
  const D0: Reg := Reg(X5, X5, X6, X6, X7, X8, XF)
  const C1: Reg := Reg(XE, X1, X9, X9, X5, X5, XF)
  const D1: Reg := Reg(XA, XA, XC, XC, XF, X1, XE)
  const C2: Reg := Reg(XC, X3, X3, X2, XA, XB, XF)
  const D2: Reg := Reg(X5, X5, X9, X9, XE, X3, XD)
  const C3: Reg := Reg(X0, XC, XC, XA, XA, XF, XF)
  const D3: Reg := Reg(X5, X6, X6, X7, X8, XF, X5)
  const C4: Reg := Reg(X3, X3, X2, XA, XB, XF, XC)
  const D4: Reg := Reg(X5, X9, X9, XE, X3, XD, X5)
  const C5: Reg := Reg(XC, XC, XA, XA, XF, XF, X0)
  const D5: Reg := Reg(X6, X6, X7, X8, XF, X5, X5)
  const C6: Reg := Reg(X3, X2, XA, XB, XF, XC, X3)
  const D6: Reg := Reg(X9, X9, XE, X3, XD, X5, X5)
  const C7: Reg := Reg(XC, XA, XA, XF, XF, X0, XC)
  const D7: Reg := Reg(X6, X7, X8, XF, X5, X5, X6)
  const C8: Reg := Reg(X2, XA, XB, XF, XC, X3, X3)
  const D8: Reg := Reg(X9, XE, X3, XD, X5, X5, X9)
  const C9: Reg := Reg(X5, X5, X7, XF, X8, X6, X6)
  const D9: Reg := Reg(X3, XC, X7, XA, XA, XB, X3)
  const C10: Reg := Reg(X5, X5, XF, XE, X1, X9, X9)
  const D10: Reg := Reg(XF, X1, XE, XA, XA, XC, XC)
  const C11: Reg := Reg(X5, X7, XF, X8, X6, X6, X5)
  const D11: Reg := Reg(XC, X7, XA, XA, XB, X3, X3)
  const C12: Reg := Reg(X5, XF, XE, X1, X9, X9, X5)
  const D12: Reg := Reg(X1, XE, XA, XA, XC, XC, XF)
  const C13: Reg := Reg(X7, XF, X8, X6, X6, X5, X5)
  const D13: Reg := Reg(X7, XA, XA, XB, X3, X3, XC)
  const C14: Reg := Reg(XF, XE, X1, X9, X9, X5, X5)
  const D14: Reg := Reg(XE, XA, XA, XC, XC, XF, X1)
  const C15: Reg := Reg(XF, X8, X6, X6, X5, X5, X7)
  const D15: Reg := Reg(XA, XA, XB, X3, X3, XC, X7)
  const C16: Reg := Reg(XF, X0, XC, XC, XA, XA, XF)
  const D16: Reg := Reg(X5, X5, X6, X6, X7, X8, XF)

  /** The rest of the rounds, with the registers turned as they go. */
  function RestOf(l: Half, r: Half, c: Reg, d: Reg, i: nat): (Half, Half)
    requires i <= 16
  {
    AfterRounds(l, r, KeysFrom(c, d, LEFT_SHIFTS[i..]))
  }

  lemma OneRound(l: Half, r: Half, c: Reg, d: Reg, i: nat)
    requires i < 16
    ensures var c', d' := TurnBy(c, LEFT_SHIFTS[i]), TurnBy(d, LEFT_SHIFTS[i]);
            RestOf(l, r, c, d, i) == RestOf(r, Next(l, r, Select(c', d')), c', d', i + 1)
  {
    hide Next, Select, TurnBy;
    assert LEFT_SHIFTS[i..][1..] == LEFT_SHIFTS[i + 1..];
  }

  lemma Turns(c: Reg)
    ensures TurnBy(c, 1) == Turn(c) && TurnBy(c, 2) == Turn(Turn(c))
  {
    hide Turn;
  }

  lemma Cells1()
    ensures Cell(0, 0, 3) == 1 && Cell(0, 0, 4) == 2 && Cell(0, 0, 10) == 6 && Cell(0, 0, 12) == 5
    ensures Cell(0, 0, 15) == 7 && Cell(0, 1, 1) == 15 && Cell(0, 1, 2) == 7 && Cell(0, 1, 11) == 11
    ensures Cell(0, 2, 1) == 1 && Cell(0, 2, 4) == 13 && Cell(0, 2, 6) == 2 && Cell(0, 2, 13) == 10
    ensures Cell(0, 3, 4) == 4 && Cell(0, 3, 5) == 9 && Cell(0, 3, 8) == 5 && Cell(0, 3, 14) == 6
  {
    hide S2, S3, S4, S5, S6, S7, S8;
  }

  lemma Cells2()
    ensures Cell(1, 0, 2) == 8 && Cell(1, 0, 13) == 0 && Cell(1, 1, 2) == 4 && Cell(1, 1, 3) == 7
    ensures Cell(1, 1, 8) == 12 && Cell(1, 1, 11) == 10 && Cell(1, 1, 14) == 11 && Cell(1, 2, 0) == 0
    ensures Cell(1, 2, 7) == 1 && Cell(1, 2, 10) == 12 && Cell(1, 2, 13) == 3 && Cell(1, 2, 14) == 2
    ensures Cell(1, 3, 3) == 1 && Cell(1, 3, 10) == 7
  {
    hide S1, S3, S4, S5, S6, S7, S8;
  }

  lemma Cells3()
    ensures Cell(2, 0, 1) == 0 && Cell(2, 0, 9) == 13 && Cell(2, 0, 10) == 12 && Cell(2, 0, 11) == 7
    ensures Cell(2, 0, 15) == 8 && Cell(2, 1, 2) == 0 && Cell(2, 1, 11) == 14 && Cell(2, 1, 14) == 15
    ensures Cell(2, 2, 0) == 13 && Cell(2, 2, 4) == 8 && Cell(2, 2, 9) == 1 && Cell(2, 2, 14) == 14
    ensures Cell(2, 2, 15) == 7 && Cell(2, 3, 0) == 1
  {
    hide S1, S2, S4, S5, S6, S7, S8;
  }

  lemma Cells4()
    ensures Cell(3, 0, 4) == 0 && Cell(3, 0, 10) == 8 && Cell(3, 1, 1) == 8 && Cell(3, 1, 2) == 11
    ensures Cell(3, 1, 6) == 0 && Cell(3, 1, 7) == 3 && Cell(3, 2, 7) == 13 && Cell(3, 2, 12) == 5
    ensures Cell(3, 2, 13) == 2 && Cell(3, 2, 15) == 4 && Cell(3, 3, 0) == 3 && Cell(3, 3, 5) == 1
    ensures Cell(3, 3, 7) == 8 && Cell(3, 3, 8) == 9 && Cell(3, 3, 12) == 12
  {
    hide S1, S2, S3, S5, S6, S7, S8;
  }

  lemma Cells5()
    ensures Cell(4, 0, 2) == 4 && Cell(4, 0, 9) == 5 && Cell(4, 0, 15) == 9 && Cell(4, 1, 2) == 2
    ensures Cell(4, 1, 6) == 13 && Cell(4, 1, 14) == 8 && Cell(4, 2, 0) == 4 && Cell(4, 2, 1) == 2
    ensures Cell(4, 2, 11) == 5 && Cell(4, 2, 13) == 3 && Cell(4, 2, 15) == 14 && Cell(4, 3, 0) == 11
    ensures Cell(4, 3, 3) == 7 && Cell(4, 3, 11) == 9
  {
    hide S1, S2, S3, S4, S6, S7, S8;
  }

  lemma Cells6()
    ensures Cell(5, 0, 1) == 1 && Cell(5, 0, 2) == 10 && Cell(5, 1, 2) == 4 && Cell(5, 1, 4) == 7
    ensures Cell(5, 1, 5) == 12 && Cell(5, 1, 13) == 11 && Cell(5, 2, 2) == 15 && Cell(5, 2, 3) == 5
    ensures Cell(5, 2, 4) == 2 && Cell(5, 2, 11) == 10 && Cell(5, 2, 15) == 6 && Cell(5, 3, 3) == 12
    ensures Cell(5, 3, 10) == 1 && Cell(5, 3, 13) == 0 && Cell(5, 3, 15) == 13
  {
    hide S1, S2, S3, S4, S5, S7, S8;
  }

  lemma Cells7()
    ensures Cell(6, 0, 3) == 14 && Cell(6, 0, 8) == 3 && Cell(6, 0, 10) == 9 && Cell(6, 0, 11) == 7
    ensures Cell(6, 1, 7) == 10 && Cell(6, 1, 12) == 2 && Cell(6, 1, 15) == 6 && Cell(6, 2, 1) == 4
    ensures Cell(6, 2, 5) == 3 && Cell(6, 2, 6) == 7 && Cell(6, 2, 12) == 0 && Cell(6, 3, 6) == 10
    ensures Cell(6, 3, 11) == 15 && Cell(6, 3, 14) == 3
  {
    hide S1, S2, S3, S4, S5, S6, S8;
  }

  lemma Cells8()
    ensures Cell(7, 0, 0) == 13 && Cell(7, 0, 5) == 15 && Cell(7, 0, 7) == 1 && Cell(7, 0, 12) == 5
    ensures Cell(7, 1, 8) == 12 && Cell(7, 1, 13) == 14 && Cell(7, 1, 14) == 9 && Cell(7, 2, 0) == 7
    ensures Cell(7, 2, 1) == 11 && Cell(7, 2, 6) == 14 && Cell(7, 2, 10) == 10 && Cell(7, 3, 1) == 1
    ensures Cell(7, 3, 3) == 7 && Cell(7, 3, 7) == 13 && Cell(7, 3, 8) == 15 && Cell(7, 3, 13) == 5
  {
    hide S1, S2, S3, S4, S5, S6, S7;
  }

  lemma Boxes16()
    ensures Outs(L16, Select(C16, D16)) == Half(XA, X7, X8, X3, X2, X4, X2, X9)
  {
    hide Cell;
    Cells1(); Cells2(); Cells3(); Cells4(); Cells5(); Cells6(); Cells7(); Cells8();
  }

  lemma Round16()
    ensures RestOf(L15, L16, C15, D15, 15) == (L16, L17)
  {
    hide RestOf, Outs, Select, TurnBy;
    Turns(C15);
    Turns(D15);
    Boxes16();
    OneRound(L15, L16, C15, D15, 15);
    NoRounds(L16, L17, C16, D16);
  }

  lemma Boxes15()
    ensures Outs(L15, Select(C15, D15)) == Half(XB, X2, XE, X8, X8, XD, X3, XC)
  {
    hide Cell;
    Cells1(); Cells2(); Cells3(); Cells4(); Cells5(); Cells6(); Cells7(); Cells8();
  }

  lemma Round15()
    ensures RestOf(L14, L15, C14, D14, 14) == (L16, L17)
  {
    hide RestOf, Outs, Select, TurnBy;
    Turns(C14);
    Turns(D14);
    Boxes15();
    OneRound(L14, L15, C14, D14, 14);
    Round16();
  }

  lemma Boxes14()
    ensures Outs(L14, Select(C14, D14)) == Half(X6, X4, X7, X9, X9, XA, XF, X1)
  {
    hide Cell;
    Cells1(); Cells2(); Cells3(); Cells4(); Cells5(); Cells6(); Cells7(); Cells8();
  }

  lemma Round14()
    ensures RestOf(L13, L14, C13, D13, 13) == (L16, L17)
  {
    hide RestOf, Outs, Select, TurnBy;
    Turns(C13);
    Turns(D13);
    Boxes14();
    OneRound(L13, L14, C13, D13, 13);
    Round15();
  }

  lemma Boxes13()
    ensures Outs(L13, Select(C13, D13)) == Half(X9, XA, XD, X1, X8, XB, X4, XF)
  {
    hide Cell;
    Cells1(); Cells2(); Cells3(); Cells4(); Cells5(); Cells6(); Cells7(); Cells8();
  }

  lemma Round13()
    ensures RestOf(L12, L13, C12, D12, 12) == (L16, L17)
  {
    hide RestOf, Outs, Select, TurnBy;
    Turns(C12);
    Turns(D12);
    Boxes13();
    OneRound(L12, L13, C12, D12, 12);
    Round14();
  }

  lemma Boxes12()
    ensures Outs(L12, Select(C12, D12)) == Half(X7, XB, X8, XB, X2, X6, X3, X5)
  {
    hide Cell;
    Cells1(); Cells2(); Cells3(); Cells4(); Cells5(); Cells6(); Cells7(); Cells8();
  }

  lemma Round12()
    ensures RestOf(L11, L12, C11, D11, 11) == (L16, L17)
  {
    hide RestOf, Outs, Select, TurnBy;
    Turns(C11);
    Turns(D11);
    Boxes12();
    OneRound(L11, L12, C11, D11, 11);
    Round13();
  }

  lemma Boxes11()
    ensures Outs(L11, Select(C11, D11)) == Half(X7, X3, X0, X5, XD, X1, X0, X1)
  {
    hide Cell;
    Cells1(); Cells2(); Cells3(); Cells4(); Cells5(); Cells6(); Cells7(); Cells8();
  }

  lemma Round11()
    ensures RestOf(L10, L11, C10, D10, 10) == (L16, L17)
  {
    hide RestOf, Outs, Select, TurnBy;
    Turns(C10);
    Turns(D10);
    Boxes11();
    OneRound(L10, L11, C10, D10, 10);
    Round12();
  }

  lemma Boxes10()
    ensures Outs(L10, Select(C10, D10)) == Half(XD, XA, X0, X4, X5, X2, X7, X5)
  {
    hide Cell;
    Cells1(); Cells2(); Cells3(); Cells4(); Cells5(); Cells6(); Cells7(); Cells8();
  }

  lemma Round10()
    ensures RestOf(L9, L10, C9, D9, 9) == (L16, L17)
  {
    hide RestOf, Outs, Select, TurnBy;
    Turns(C9);
    Turns(D9);
    Boxes10();
    OneRound(L9, L10, C9, D9, 9);
    Round11();
  }

  lemma Boxes9()
    ensures Outs(L9, Select(C9, D9)) == Half(X1, X1, X0, XC, X5, X7, X7, X7)
  {
    hide Cell;
    Cells1(); Cells2(); Cells3(); Cells4(); Cells5(); Cells6(); Cells7(); Cells8();
  }

  lemma Round9()
    ensures RestOf(L8, L9, C8, D8, 8) == (L16, L17)
  {
    hide RestOf, Outs, Select, TurnBy;
    Turns(C8);
    Turns(D8);
    Boxes9();
    OneRound(L8, L9, C8, D8, 8);
    Round10();
  }

  lemma Boxes8()
    ensures Outs(L8, Select(C8, D8)) == Half(X6, XC, X1, X8, X7, XC, XA, XE)
  {
    hide Cell;
    Cells1(); Cells2(); Cells3(); Cells4(); Cells5(); Cells6(); Cells7(); Cells8();
  }

  lemma Round8()
    ensures RestOf(L7, L8, C7, D7, 7) == (L16, L17)
  {
    hide RestOf, Outs, Select, TurnBy;
    Turns(C7);
    Turns(D7);
    Boxes8();
    OneRound(L7, L8, C7, D7, 7);
    Round9();
  }

  lemma Boxes7()
    ensures Outs(L7, Select(C7, D7)) == Half(X1, X0, X7, X5, X4, X0, XA, XD)
  {
    hide Cell;
    Cells1(); Cells2(); Cells3(); Cells4(); Cells5(); Cells6(); Cells7(); Cells8();
  }

  lemma Round7()
    ensures RestOf(L6, L7, C6, D6, 6) == (L16, L17)
  {
    hide RestOf, Outs, Select, TurnBy;
    Turns(C6);
    Turns(D6);
    Boxes7();
    OneRound(L6, L7, C6, D6, 6);
    Round8();
  }

  lemma Boxes6()
    ensures Outs(L6, Select(C6, D6)) == Half(X4, X1, XF, X3, X4, XC, X3, XD)
  {
    hide Cell;
    Cells1(); Cells2(); Cells3(); Cells4(); Cells5(); Cells6(); Cells7(); Cells8();
  }

  lemma Round6()
    ensures RestOf(L5, L6, C5, D5, 5) == (L16, L17)
  {
    hide RestOf, Outs, Select, TurnBy;
    Turns(C5);
    Turns(D5);
    Boxes6();
    OneRound(L5, L6, C5, D5, 5);
    Round7();
  }

  lemma Boxes5()
    ensures Outs(L5, Select(C5, D5)) == Half(X5, X0, XC, X8, X3, X1, XE, XB)
  {
    hide Cell;
    Cells1(); Cells2(); Cells3(); Cells4(); Cells5(); Cells6(); Cells7(); Cells8();
  }

  lemma Round5()
    ensures RestOf(L4, L5, C4, D4, 4) == (L16, L17)
  {
    hide RestOf, Outs, Select, TurnBy;
    Turns(C4);
    Turns(D4);
    Boxes5();
    OneRound(L4, L5, C4, D4, 4);
    Round6();
  }

  lemma Boxes4()
    ensures Outs(L4, Select(C4, D4)) == Half(X2, X1, XE, XD, X9, XF, X3, XA)
  {
    hide Cell;
    Cells1(); Cells2(); Cells3(); Cells4(); Cells5(); Cells6(); Cells7(); Cells8();
  }

  lemma Round4()
    ensures RestOf(L3, L4, C3, D3, 3) == (L16, L17)
  {
    hide RestOf, Outs, Select, TurnBy;
    Turns(C3);
    Turns(D3);
    Boxes4();
    OneRound(L3, L4, C3, D3, 3);
    Round5();
  }

  lemma Boxes3()
    ensures Outs(L3, Select(C3, D3)) == Half(X2, X7, X1, X0, XE, X1, X6, XF)
  {
    hide Cell;
    Cells1(); Cells2(); Cells3(); Cells4(); Cells5(); Cells6(); Cells7(); Cells8();
  }

  lemma Round3()
    ensures RestOf(L2, L3, C2, D2, 2) == (L16, L17)
  {
    hide RestOf, Outs, Select, TurnBy;
    Turns(C2);
    Turns(D2);
    Boxes3();
    OneRound(L2, L3, C2, D2, 2);
    Round4();
  }

  lemma Boxes2()
    ensures Outs(L2, Select(C2, D2)) == Half(XF, X8, XD, X0, X3, XA, XA, XE)
  {
    hide Cell;
    Cells1(); Cells2(); Cells3(); Cells4(); Cells5(); Cells6(); Cells7(); Cells8();
  }

  lemma Round2()
    ensures RestOf(L1, L2, C1, D1, 1) == (L16, L17)
  {
    hide RestOf, Outs, Select, TurnBy;
    Turns(C1);
    Turns(D1);
    Boxes2();
    OneRound(L1, L2, C1, D1, 1);
    Round3();
  }

  lemma Boxes1()
    ensures Outs(L1, Select(C1, D1)) == Half(X5, XC, X8, X2, XB, X5, X9, X7)
  {
    hide Cell;
    Cells1(); Cells2(); Cells3(); Cells4(); Cells5(); Cells6(); Cells7(); Cells8();
  }

  lemma Round1()
    ensures RestOf(L0, L1, C0, D0, 0) == (L16, L17)
  {
    hide RestOf, Outs, Select, TurnBy;
    Turns(C0);
    Turns(D0);
    Boxes1();
    OneRound(L0, L1, C0, D0, 0);
    Round2();
  }

  lemma NoRounds(l: Half, r: Half, c: Reg, d: Reg)
    ensures RestOf(l, r, c, d, 16) == (l, r)
  {
    assert LEFT_SHIFTS[16..] == [];
  }

  lemma VectorInUpper(x: Block)
    requires x == [0x01, 0x23, 0x45, 0x67, 0x89, 0xAB, 0xCD, 0xEF]
    ensures Upper(x) == Half(X0, X1, X2, X3, X4, X5, X6, X7)
  {
  }

  lemma VectorInLower(x: Block)
    requires x == [0x01, 0x23, 0x45, 0x67, 0x89, 0xAB, 0xCD, 0xEF]
    ensures Lower(x) == Half(X8, X9, XA, XB, XC, XD, XE, XF)
  {
  }

  lemma VectorIn(x: Block)
    requires x == [0x01, 0x23, 0x45, 0x67, 0x89, 0xAB, 0xCD, 0xEF]
    ensures FirstL(Upper(x), Lower(x)) == L0 && FirstR(Upper(x), Lower(x)) == L1
  {
    hide Upper, Lower;
    VectorInUpper(x);
    VectorInLower(x);
  }

  lemma VectorOutUpper(x: Block)
    requires x == [0x85, 0xE8, 0x13, 0x54, 0x0F, 0x0A, 0xB4, 0x05]
    ensures Upper(x) == Half(X8, X5, XE, X8, X1, X3, X5, X4)
  {
  }

  lemma VectorOutLower(x: Block)
    requires x == [0x85, 0xE8, 0x13, 0x54, 0x0F, 0x0A, 0xB4, 0x05]
    ensures Lower(x) == Half(X0, XF, X0, XA, XB, X4, X0, X5)
  {
  }

  lemma VectorOut(x: Block)
    requires x == [0x85, 0xE8, 0x13, 0x54, 0x0F, 0x0A, 0xB4, 0x05]
    ensures FirstL(Upper(x), Lower(x)) == L17 && FirstR(Upper(x), Lower(x)) == L16
  {
    hide Upper, Lower;
    VectorOutUpper(x);
    VectorOutLower(x);
  }

  lemma VectorKeyUpper(x: Block)
    requires x == [0x13, 0x34, 0x57, 0x79, 0x9B, 0xBC, 0xDF, 0xF1]
    ensures Upper(x) == Half(X1, X3, X3, X4, X5, X7, X7, X9)
  {
  }

  lemma VectorKeyLower(x: Block)
    requires x == [0x13, 0x34, 0x57, 0x79, 0x9B, 0xBC, 0xDF, 0xF1]
    ensures Lower(x) == Half(X9, XB, XB, XC, XD, XF, XF, X1)
  {
  }

  lemma VectorKey(x: Block)
    requires x == [0x13, 0x34, 0x57, 0x79, 0x9B, 0xBC, 0xDF, 0xF1]
    ensures FirstC(Upper(x), Lower(x)) == C0 && FirstD(Upper(x), Lower(x)) == D0
  {
    hide Upper, Lower;
    VectorKeyUpper(x);
    VectorKeyLower(x);
  }

  /** Key 133457799bbcdff1, plaintext 0123456789abcdef, ciphertext 85e813540f0ab405. */
  lemma Vector()
    ensures DesBlock(Standard(), [0x01, 0x23, 0x45, 0x67, 0x89, 0xAB, 0xCD, 0xEF],
                     [0x13, 0x34, 0x57, 0x79, 0x9B, 0xBC, 0xDF, 0xF1], true)
            == [0x85, 0xE8, 0x13, 0x54, 0x0F, 0x0A, 0xB4, 0x05]
  {
    hide DesBlock, Standard, Upper, Lower, FirstL, FirstR, FirstC, FirstD, AfterRounds, KeysFrom;
    var data: Block := [0x01, 0x23, 0x45, 0x67, 0x89, 0xAB, 0xCD, 0xEF];
    var key: Block := [0x13, 0x34, 0x57, 0x79, 0x9B, 0xBC, 0xDF, 0xF1];
    var out: Block := [0x85, 0xE8, 0x13, 0x54, 0x0F, 0x0A, 0xB4, 0x05];
    VectorIn(data);
    VectorKey(key);
    VectorOut(out);
    Round1();
    assert LEFT_SHIFTS[0..] == LEFT_SHIFTS;
    DesIsReference(data, key, out);
  }
}
