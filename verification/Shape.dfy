// The constraints do not depend on the values or the hints: two runs of a gadget on
// systems of the same shape end in systems of the same shape with the same wiring.
module Shape {
  import opened Bits
  import opened Modes
  import opened Des
  import opened R1cs
  import opened Gadgets
  import opened DesCircuit
  import opened Session
  import opened SessionCircuit

  ghost predicate SameShape(s: RawState, s': RawState) {
    |s.inputs| == |s'.inputs| && |s.wires| == |s'.wires| && s.cons == s'.cons
  }

  lemma AllocShape(s: State, s': State, bits: BitVec, bits': BitVec)
    requires SameShape(s, s') && |bits| == |bits'|
    ensures SameShape(Alloc(s, bits).0, Alloc(s', bits').0) && Alloc(s, bits).1 == Alloc(s', bits').1
  {
    assert Alloc(s, bits).1 == Alloc(s', bits').1;
  }

  lemma XorBitShape(s: State, s': State, a: Bit, b: Bit)
    requires SameShape(s, s') && BitOk(a, |s.wires|) && BitOk(b, |s.wires|)
    ensures SameShape(XorBit(s, a, b).0, XorBit(s', a, b).0) && XorBit(s, a, b).1 == XorBit(s', a, b).1
  {
  }

  lemma {:induction false} XorBitsShape(s: State, s': State, a: seq<Bit>, b: seq<Bit>)
    requires SameShape(s, s') && |a| == |b| && BitsOk(a, |s.wires|) && BitsOk(b, |s.wires|)
    ensures SameShape(XorBits(s, a, b).0, XorBits(s', a, b).0) && XorBits(s, a, b).1 == XorBits(s', a, b).1
    decreases |a|
  {
    hide XorBit;
    if a != [] {
      var n := |a| - 1;
      XorBitsShape(s, s', a[..n], b[..n]);
      assert BitOk(a[n], |s.wires|) && BitOk(b[n], |s.wires|);
      XorBitShape(XorBits(s, a[..n], b[..n]).0, XorBits(s', a[..n], b[..n]).0, a[n], b[n]);
    }
  }

  lemma SBoxShape(p: Setup, s: State, s': State, box: nat, input: seq<Bit>, h: BitVec, h': BitVec)
    requires p.Shaped() && box < 8 && SameShape(s, s')
    requires |input| == 6 && |h| == |h'| == 6 && BitsOk(input, |s.wires|)
    ensures SameShape(SBox(p, s, box, input, h).0, SBox(p, s', box, input, h').0)
    ensures SBox(p, s, box, input, h).1 == SBox(p, s', box, input, h').1
  {
    hide Alloc, SBoxLookup;
    AllocShape(s, s', Nibble(SBoxLookup(p.t, box, h)), Nibble(SBoxLookup(p.t, box, h')));
  }

  lemma {:induction false} SBoxesShape(p: Setup, s: State, s': State, x: seq<Bit>, h: BitVec, h': BitVec, n: nat)
    requires p.Shaped() && n <= 8 && SameShape(s, s')
    requires |x| == 48 && |h| == |h'| == 48 && BitsOk(x, |s.wires|)
    ensures SameShape(SBoxes(p, s, x, h, n).0, SBoxes(p, s', x, h', n).0)
    ensures SBoxes(p, s, x, h, n).1 == SBoxes(p, s', x, h', n).1
  {
    hide SBox;
    if n > 0 {
      SBoxesShape(p, s, s', x, h, h', n - 1);
      var s1, s1' := SBoxes(p, s, x, h, n - 1).0, SBoxes(p, s', x, h', n - 1).0;
      BitsOkGrow(x, |s.wires|, |s1.wires|);
      SBoxShape(p, s1, s1', n - 1, x[6 * n - 6..6 * n], h[6 * n - 6..6 * n], h'[6 * n - 6..6 * n]);
    }
  }

  lemma RoundShape(p: Setup, s: State, s': State, l: seq<Bit>, r: seq<Bit>, key: seq<Bit>,
                   h: BitVec, hkey: BitVec, h': BitVec, hkey': BitVec)
    requires p.Shaped() && SameShape(s, s') && |l| == 32 && |r| == 32 && |key| == 48
    requires |h| == |h'| == 32 && |hkey| == |hkey'| == 48
    requires BitsOk(l, |s.wires|) && BitsOk(r, |s.wires|) && BitsOk(key, |s.wires|)
    ensures SameShape(Round(p, s, l, r, key, h, hkey).0, Round(p, s', l, r, key, h', hkey').0)
    ensures Round(p, s, l, r, key, h, hkey).1 == Round(p, s', l, r, key, h', hkey').1
  {
    hide XorBits, SBoxes, Permute;
    PermuteVals(s.Asg(), r, p.t.e);
    XorBitsShape(s, s', Permute(r, p.t.e), key);
    var (s1, x) := XorBits(s, Permute(r, p.t.e), key);
    var s1' := XorBits(s', Permute(r, p.t.e), key).0;
    var i, i' := Xor(Permute(h, p.t.e), hkey), Xor(Permute(h', p.t.e), hkey');
    SBoxesShape(p, s1, s1', x, i, i', 8);
    var (s2, o) := SBoxes(p, s1, x, i, 8);
    PermuteVals(s.Asg(), o, p.t.p);
    BitsOkGrow(l, |s.wires|, |s2.wires|);
    XorBitsShape(s2, SBoxes(p, s1', x, i', 8).0, l, Permute(o, p.t.p));
  }

  lemma {:induction false} RoundsShape(p: Setup, s: State, s': State, l: seq<Bit>, r: seq<Bit>, keys: seq<seq<Bit>>,
                                       hl: BitVec, hr: BitVec, hk: seq<BitVec>, hl': BitVec, hr': BitVec,
                                       hk': seq<BitVec>)
    requires p.Shaped() && SameShape(s, s')
    requires |l| == 32 && |r| == 32 && |hl| == |hr| == |hl'| == |hr'| == 32
    requires |keys| == |hk| == |hk'| && KeysOk(keys, |s.wires|) && AreRoundKeys(hk) && AreRoundKeys(hk')
    requires BitsOk(l, |s.wires|) && BitsOk(r, |s.wires|)
    ensures var a, b := RoundsG(p, s, l, r, keys, hl, hr, hk), RoundsG(p, s', l, r, keys, hl', hr', hk');
            SameShape(a.0, b.0) && a.1 == b.1 && a.2 == b.2
    decreases |keys|
  {
    hide Round, Feistel;
    if keys != [] {
      RoundShape(p, s, s', l, r, keys[0], hr, hk[0], hr', hk'[0]);
      var (s1, r1) := Round(p, s, l, r, keys[0], hr, hk[0]);
      var s1' := Round(p, s', l, r, keys[0], hr', hk'[0]).0;
      BitsOkGrow(r, |s.wires|, |s1.wires|);
      KeysOkGrow(keys, |s.wires|, |s1.wires|);
      RoundsShape(p, s1, s1', r, r1, keys[1..], hr, Xor(hl, Feistel(p.t, hr, hk[0])), hk[1..],
                  hr', Xor(hl', Feistel(p.t, hr', hk'[0])), hk'[1..]);
    }
  }

  lemma DesShape(p: Setup, s: State, s': State, data: seq<Bit>, key: seq<Bit>, encrypt: bool,
                 wd: Block, wk: Block, wd': Block, wk': Block)
    requires p.Shaped() && SameShape(s, s') && |data| == 64 && |key| == 64
    requires BitsOk(data, |s.wires|) && BitsOk(key, |s.wires|)
    ensures SameShape(DesG(p, s, data, key, encrypt, wd, wk).0, DesG(p, s', data, key, encrypt, wd', wk').0)
    ensures DesG(p, s, data, key, encrypt, wd, wk).1 == DesG(p, s', data, key, encrypt, wd', wk').1
  {
    hide RoundsG, KeysFor, Permute, OutputWires;
    InputsOk(p.t, data, key, encrypt, |s.wires|);
    var ip, h, h' := Permute(data, p.t.ip), Permute(DesBits(wd), p.t.ip), Permute(DesBits(wd'), p.t.ip);
    RoundsShape(p, s, s', ip[..32], ip[32..], KeysFor(p.t, Flip(key), encrypt),
                h[..32], h[32..], KeysFor(p.t, DesBits(wk), encrypt),
                h'[..32], h'[32..], KeysFor(p.t, DesBits(wk'), encrypt));
  }

  lemma LeDesShape(p: Setup, s: State, s': State, data: seq<Bit>, key: seq<Bit>, wd: Block, wk: Block, wd': Block,
                   wk': Block)
    requires p.Shaped() && SameShape(s, s') && BlockOk(data, |s.wires|) && BlockOk(key, |s.wires|)
    ensures SameShape(LeDesG(p, s, data, key, wd, wk).0, LeDesG(p, s', data, key, wd', wk').0)
    ensures LeDesG(p, s, data, key, wd, wk).1 == LeDesG(p, s', data, key, wd', wk').1
  {
    hide DesG, Flip;
    FlipOk(data, |s.wires|);
    DesShape(p, s, s', Flip(data), key, true, wd, wk, wd', wk');
  }

  /** The same wires and directions, whatever the native keys. */
  ghost predicate SameLinks(a: seq<Link>, b: seq<Link>) {
    && |a| == |b|
    && forall i :: 0 <= i < |a| ==> a[i].key == b[i].key && a[i].encrypt == b[i].encrypt
  }

  lemma {:induction false} ChainShape(c: BlockCipher, p: Setup, s: State, s': State, data: seq<Bit>,
                                      wd: Block, wd': Block, links: seq<Link>, links': seq<Link>)
    requires p.Shaped() && SameShape(s, s') && |data| == 64 && BitsOk(data, |s.wires|)
    requires LinksOk(links, |s.wires|) && SameLinks(links, links') && LinksOk(links', |s.wires|)
    ensures SameShape(ChainG(c, p, s, data, wd, links).0, ChainG(c, p, s', data, wd', links').0)
    ensures ChainG(c, p, s, data, wd, links).1 == ChainG(c, p, s', data, wd', links').1
    decreases |links|
  {
    hide DesG;
    if links != [] {
      var k, k' := links[0], links'[0];
      DesShape(p, s, s', data, k.key, k.encrypt, wd, k.native, wd', k'.native);
      var (s1, out) := DesG(p, s, data, k.key, k.encrypt, wd, k.native);
      var s1' := DesG(p, s', data, k.key, k.encrypt, wd', k'.native).0;
      LinksOkGrow(links, |s.wires|, |s1.wires|);
      LinksOkGrow(links', |s.wires|, |s1.wires|);
      ChainShape(c, p, s1, s1', out, Run(c, k.encrypt, wd, k.native), Run(c, k.encrypt, wd', k'.native),
                 links[1..], links'[1..]);
    }
  }

  ghost predicate SameSizes(a: seq<Bytes>, b: seq<Bytes>) {
    |a| == |b| && forall i :: 0 <= i < |a| ==> |a[i]| == |b[i]|
  }

  lemma {:induction false} AllocEachShape(s: State, s': State, items: seq<Bytes>, items': seq<Bytes>)
    requires SameShape(s, s') && SameSizes(items, items')
    ensures SameShape(AllocEach(s, items).0, AllocEach(s', items').0)
    ensures AllocEach(s, items).1 == AllocEach(s', items').1
    decreases |items|
  {
    hide Alloc;
    if items != [] {
      var n := |items| - 1;
      AllocEachShape(s, s', items[..n], items'[..n]);
      AllocShape(AllocEach(s, items[..n]).0, AllocEach(s', items'[..n]).0, LeBits(items[n]), LeBits(items'[n]));
    }
  }

  lemma WitnessShape(f: FelicaCircuit, f': FelicaCircuit)
    ensures SameShape(WitnessStage(f).0, WitnessStage(f').0) && WitnessStage(f).1 == WitnessStage(f').1
  {
    hide AllocEach;
    var s0: State := RawState([], [], []);
    AllocEachShape(s0, s0, Privates(f), Privates(f'));
    var s1, s1' := AllocEach(s0, Privates(f)).0, AllocEach(s0, Privates(f')).0;
    AllocEachShape(AddInputs(s1, PublicInputs(f.idi, f.r1, f.attestedAt)),
                   AddInputs(s1', PublicInputs(f'.idi, f'.r1, f'.attestedAt)), Publics(f), Publics(f'));
  }

  lemma AlphaShape(p: Setup, s: State, s': State, gsk: seq<Bit>, usk: seq<Bit>, idm: seq<Bit>,
                   wusk: Block, wl: Block, wusk': Block, wl': Block)
    requires p.Shaped() && SameShape(s, s')
    requires BlockOk(gsk, |s.wires|) && BlockOk(usk, |s.wires|) && BlockOk(idm, |s.wires|)
    ensures var a, b := AlphaStage(p, s, gsk, usk, idm, wusk, wl), AlphaStage(p, s', gsk, usk, idm, wusk', wl');
            SameShape(a.0, b.0) && a.1 == b.1 && a.2 == b.2
  {
    hide XorBits, LeDesG;
    XorBitsShape(s, s', gsk, idm);
    var (s1, l) := XorBits(s, gsk, idm);
    BitsOkGrow(usk, |s.wires|, |s1.wires|);
    LeDesShape(p, s1, XorBits(s', gsk, idm).0, usk, l, wusk, wl, wusk', wl');
  }

  lemma KeyShape(p: Setup, s: State, s': State, gsk: seq<Bit>, usk: seq<Bit>, idm: seq<Bit>,
                 wusk: Block, k: SessionKeys, wusk': Block, k': SessionKeys)
    requires p.Shaped() && SameShape(s, s')
    requires BlockOk(gsk, |s.wires|) && BlockOk(usk, |s.wires|) && BlockOk(idm, |s.wires|)
    ensures var a, b := KeyStage(p, s, gsk, usk, idm, wusk, k), KeyStage(p, s', gsk, usk, idm, wusk', k');
            SameShape(a.0, b.0) && a.1 == b.1 && a.2 == b.2
  {
    hide AlphaStage, LeDesG;
    AlphaShape(p, s, s', gsk, usk, idm, wusk, k.l, wusk', k'.l);
    var (s2, l, alpha) := AlphaStage(p, s, gsk, usk, idm, wusk, k.l);
    LeDesShape(p, s2, AlphaStage(p, s', gsk, usk, idm, wusk', k'.l).0, l, alpha, k.l, k.alpha, k'.l, k'.alpha);
  }

  lemma ChallengeShape(c: BlockCipher, p: Setup, s: State, s': State, data: seq<Bit>, l: seq<Bit>, beta: seq<Bit>,
                       target: seq<Bit>, wd: Block, k: SessionKeys, wd': Block, k': SessionKeys)
    requires p.Shaped() && SameShape(s, s') && BlockOk(data, |s.wires|) && BlockOk(target, |s.wires|)
    requires BlockOk(l, |s.wires|) && BlockOk(beta, |s.wires|)
    ensures SameShape(ChallengeStage(c, p, s, data, l, beta, target, wd, k.l, k.beta),
                      ChallengeStage(c, p, s', data, l, beta, target, wd', k'.l, k'.beta))
  {
    hide ChainG, Flip;
    FlipOk(data, |s.wires|);
    TdesLinksOk(l, k.l, beta, k.beta, |s.wires|);
    TdesLinksOk(l, k'.l, beta, k'.beta, |s.wires|);
    ChainShape(c, p, s, s', Flip(data), wd, wd', TdesLinks(l, k.l, beta, k.beta), TdesLinks(l, k'.l, beta, k'.beta));
    var s1 := ChainG(c, p, s, Flip(data), wd, TdesLinks(l, k.l, beta, k.beta)).0;
    BitsOkGrow(target, |s.wires|, |s1.wires|);
    FlipOk(target, |s1.wires|);
  }

  lemma BlockShape(p: Setup, s: State, s': State, ct: seq<Bit>, prev: seq<Bit>, key: seq<Bit>,
                   w: Block, wkey: Block, w': Block, wkey': Block)
    requires p.Shaped() && SameShape(s, s')
    requires BlockOk(ct, |s.wires|) && BlockOk(prev, |s.wires|) && BlockOk(key, |s.wires|)
    ensures SameShape(BlockStage(p, s, ct, prev, key, w, wkey).0, BlockStage(p, s', ct, prev, key, w', wkey').0)
    ensures BlockStage(p, s, ct, prev, key, w, wkey).1 == BlockStage(p, s', ct, prev, key, w', wkey').1
  {
    hide DesG, XorBits, Flip;
    FlipOk(ct, |s.wires|);
    DesShape(p, s, s', Flip(ct), key, false, w, wkey, w', wkey');
    var (s1, raw) := DesG(p, s, Flip(ct), key, false, w, wkey);
    BitsOkGrow(prev, |s.wires|, |s1.wires|);
    FlipOk(prev, |s1.wires|);
    XorBitsShape(s1, DesG(p, s', Flip(ct), key, false, w', wkey').0, raw, Flip(prev));
  }

  lemma {:induction false} PlainShape(p: Setup, s: State, s': State, cts: seq<seq<Bit>>, prevs: seq<seq<Bit>>,
                                      key: seq<Bit>, w: seq<Block>, wkey: Block, w': seq<Block>, wkey': Block)
    requires p.Shaped() && SameShape(s, s') && |cts| == |prevs| == |w| == |w'|
    requires BlocksOk(cts, |s.wires|) && BlocksOk(prevs, |s.wires|) && BlockOk(key, |s.wires|)
    ensures SameShape(PlainStage(p, s, cts, prevs, key, w, wkey).0, PlainStage(p, s', cts, prevs, key, w', wkey').0)
    ensures PlainStage(p, s, cts, prevs, key, w, wkey).1 == PlainStage(p, s', cts, prevs, key, w', wkey').1
    decreases |cts|
  {
    hide BlockStage, BitsOk;
    if cts != [] {
      var n := |cts| - 1;
      PlainShape(p, s, s', cts[..n], prevs[..n], key, w[..n], wkey, w'[..n], wkey');
      var s1 := PlainStage(p, s, cts[..n], prevs[..n], key, w[..n], wkey).0;
      var s1' := PlainStage(p, s', cts[..n], prevs[..n], key, w'[..n], wkey').0;
      BlocksOkGrow(cts, |s.wires|, |s1.wires|);
      BlocksOkGrow(prevs, |s.wires|, |s1.wires|);
      BitsOkGrow(key, |s.wires|, |s1.wires|);
      BlockShape(p, s1, s1', cts[n], prevs[n], key, w[n], wkey, w'[n], wkey');
    }
  }

  lemma MacShape(c: BlockCipher, p: Setup, s: State, s': State, pt: seq<Bit>, w: Bytes, w': Bytes)
    requires p.Shaped() && SameShape(s, s') && |pt| == 256 && |w| == |w'| == 32 && BitsOk(pt, |s.wires|)
    ensures SameShape(MacStage(c, p, s, pt, w), MacStage(c, p, s', pt, w'))
  {
    hide ChainG, Flip, LinksOk;
    MacWiresOk(pt, w, |s.wires|);
    MacWiresOk(pt, w', |s.wires|);
    var m0 := Flip(Constants(LeBits(M0)));
    ChainShape(c, p, s, s', m0, M0, M0, MacLinks(pt, w), MacLinks(pt, w'));
    var s1 := ChainG(c, p, s, m0, M0, MacLinks(pt, w)).0;
    BitsOkGrow(pt, |s.wires|, |s1.wires|);
    MacWiresOk(pt, w, |s1.wires|);
  }

  lemma TranscriptShape(c: BlockCipher, p: Setup, s: State, s': State, auth2: seq<Bit>, r2: seq<Bit>, r1: seq<Bit>,
                        idi: seq<Bit>, w: Auth2, wr2: Block, w': Auth2, wr2': Block)
    requires p.Shaped() && SameShape(s, s') && |auth2| == 256 && BitsOk(auth2, |s.wires|)
    requires BlockOk(r2, |s.wires|) && BlockOk(r1, |s.wires|) && BlockOk(idi, |s.wires|)
    ensures SameShape(TranscriptStage(c, p, s, auth2, r2, r1, idi, w, wr2),
                      TranscriptStage(c, p, s', auth2, r2, r1, idi, w', wr2'))
  {
    hide PlainStage, MacStage, Plaintext;
    Auth2WiresOk(auth2, |s.wires|);
    var cts, prevs := Auth2Wires(auth2), Auth2PreviousWires(auth2);
    PlainShape(p, s, s', cts, prevs, r2, Auth2Blocks(w), wr2, Auth2Blocks(w'), wr2');
    var (s1, pt) := PlainStage(p, s, cts, prevs, r2, Auth2Blocks(w), wr2);
    var s1' := PlainStage(p, s', cts, prevs, r2, Auth2Blocks(w'), wr2').0;
    MacShape(c, p, s1, s1', pt, Plaintext(c, w, wr2), Plaintext(c, w', wr2'));
    var s2 := MacStage(c, p, s1, pt, Plaintext(c, w, wr2));
    BitsOkGrow(pt, |s1.wires|, |s2.wires|);
    BitsOkGrow(r1, |s.wires|, |s2.wires|);
    BitsOkGrow(idi, |s.wires|, |s2.wires|);
  }

  lemma KeyAndChallengeShape(c: BlockCipher, p: Setup, s: State, s': State, w: Wires, f: FelicaCircuit,
                             f': FelicaCircuit)
    requires p.Shaped() && SameShape(s, s') && w.Ok(|s.wires|)
    ensures SameShape(KeyAndChallengeStage(c, p, s, w, f), KeyAndChallengeStage(c, p, s', w, f'))
  {
    hide KeyStage, ChallengeStage, DeriveKeys, BitsOk;
    var k, k' := DeriveKeys(c, f.gsk, f.usk, f.idm), DeriveKeys(c, f'.gsk, f'.usk, f'.idm);
    KeyShape(p, s, s', w.gsk, w.usk, w.idm, f.usk, k, f'.usk, k');
    var (s1, l, beta) := KeyStage(p, s, w.gsk, w.usk, w.idm, f.usk, k);
    var s1' := KeyStage(p, s', w.gsk, w.usk, w.idm, f'.usk, k').0;
    WiresOkAfter(w, |s.wires|, |s1.wires|);
    ChallengeShape(c, p, s1, s1', w.r1, l, beta, w.c1b, f.r1, k, f'.r1, k');
    var s2 := ChallengeStage(c, p, s1, w.r1, l, beta, w.c1b, f.r1, k.l, k.beta);
    var s2' := ChallengeStage(c, p, s1', w.r1, l, beta, w.c1b, f'.r1, k'.l, k'.beta);
    WiresOkAfter(w, |s1.wires|, |s2.wires|);
    BitsOkGrow(l, |s1.wires|, |s2.wires|);
    BitsOkGrow(beta, |s1.wires|, |s2.wires|);
    ChallengeShape(c, p, s2, s2', w.r2, l, beta, w.c2a, f.r2, k, f'.r2, k');
  }
}
