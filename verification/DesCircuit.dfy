// The DES and 3DES gadgets: round keys are wirings over the key's bits, and a gadget
// carries the bytes of DES on its output exactly when its inputs carry bytes.
module DesCircuit {
  import opened Bits
  import opened Tables
  import opened Des
  import opened DesLaws
  import opened Modes
  import opened Field
  import opened Interpolation
  import opened R1cs
  import opened Gadgets

  /** The wires hold the little-endian bits of the bytes. */
  ghost predicate Carries(asg: Assignment, bits: seq<Bit>, bytes: Bytes) {
    AreBits(asg, bits) && Vals(asg, bits) == LeBits(bytes)
  }

  /** The wires hold the DES-ordered bits of the bytes. */
  ghost predicate CarriesDes(asg: Assignment, bits: seq<Bit>, bytes: Bytes) {
    AreBits(asg, bits) && Vals(asg, bits) == DesBits(bytes)
  }

  lemma FlipVals(asg: Assignment, bits: seq<Bit>)
    requires |bits| % 8 == 0
    ensures Vals(asg, Flip(bits)) == Flip(Vals(asg, bits))
    ensures AreBits(asg, bits) ==> AreBits(asg, Flip(bits))
    ensures forall n :: BitsOk(bits, n) ==> BitsOk(Flip(bits), n)
  {
    hide Val, IsBit, BitOk;
  }

  /** Reordering the wires turns one way of carrying bytes into the other. */
  lemma FlipCarries(asg: Assignment, bits: seq<Bit>, bytes: Bytes)
    requires |bits| % 8 == 0
    ensures Carries(asg, bits, bytes) ==> CarriesDes(asg, Flip(bits), bytes)
    ensures CarriesDes(asg, bits, bytes) ==> Carries(asg, Flip(bits), bytes)
  {
    FlipVals(asg, bits);
    DesBitsIsFlip(bytes);
  }

  /** Boolean wires always carry some bytes. */
  lemma CarriesSome(asg: Assignment, bits: seq<Bit>) returns (bytes: Bytes)
    requires AreBits(asg, bits) && |bits| % 8 == 0
    ensures |bytes| == |bits| / 8 && Carries(asg, bits, bytes)
  {
    bytes := BytesOfLe(Vals(asg, bits));
    LeBitsOfBytes(Vals(asg, bits));
  }

  lemma CarriesGrow(s: RawState, s': RawState, bits: seq<Bit>, bytes: Bytes)
    requires Widens(s, s') && BitsOk(bits, |s.wires|)
    ensures Carries(s.Asg(), bits, bytes) ==> Carries(s'.Asg(), bits, bytes)
    ensures CarriesDes(s.Asg(), bits, bytes) ==> CarriesDes(s'.Asg(), bits, bytes)
  {
    ValsGrow(s, s', bits);
  }

  // ------------------------------------------------------------------ round keys

  lemma RotateVals(asg: Assignment, v: seq<Bit>, n: nat)
    ensures Vals(asg, RotateLeft(v, n)) == RotateLeft(Vals(asg, v), n)
    ensures AreBits(asg, v) ==> AreBits(asg, RotateLeft(v, n))
    ensures forall m :: BitsOk(v, m) ==> BitsOk(RotateLeft(v, n), m)
  {
  }

  lemma {:induction false} ScheduleVals(asg: Assignment, t: Tables, c: seq<Bit>, d: seq<Bit>, shifts: seq<nat>, n: int)
    requires |c| == 28 && |d| == 28 && BitsOk(c, n) && BitsOk(d, n)
    ensures KeyVals(asg, Schedule(t, c, d, shifts)) == Schedule(t, Vals(asg, c), Vals(asg, d), shifts)
    ensures AreBits(asg, c) && AreBits(asg, d) ==> AreKeyBits(asg, Schedule(t, c, d, shifts))
    ensures KeysOk(Schedule(t, c, d, shifts), n)
    decreases |shifts|
  {
    hide RotateLeft, Permute;
    if shifts != [] {
      var c', d' := RotateLeft(c, shifts[0]), RotateLeft(d, shifts[0]);
      RotateVals(asg, c, shifts[0]);
      RotateVals(asg, d, shifts[0]);
      assert Vals(asg, c' + d') == Vals(asg, c') + Vals(asg, d');
      assert BitsOk(c' + d', n);
      PermuteVals(asg, c' + d', t.pc2);
      ScheduleVals(asg, t, c', d', shifts[1..], n);
    }
  }

  lemma RoundKeyVals(asg: Assignment, t: Tables, key: seq<Bit>, encrypt: bool, n: int)
    requires |key| == 64 && BitsOk(key, n)
    ensures KeyVals(asg, KeysFor(t, key, encrypt)) == KeysFor(t, Vals(asg, key), encrypt)
    ensures AreBits(asg, key) ==> AreKeyBits(asg, KeysFor(t, key, encrypt))
    ensures KeysOk(KeysFor(t, key, encrypt), n)
  {
    hide Schedule, Permute;
    var pc1 := Permute(key, t.pc1);
    PermuteVals(asg, key, t.pc1);
    assert Vals(asg, pc1[..28]) == Vals(asg, pc1)[..28];
    assert Vals(asg, pc1[28..]) == Vals(asg, pc1)[28..];
    ScheduleVals(asg, t, pc1[..28], pc1[28..], t.shifts, n);
    if !encrypt {
      var keys := RoundKeys(t, key);
      assert KeyVals(asg, Reverse(keys)) == Reverse(KeyVals(asg, keys));
    }
  }

  // ---------------------------------------------------------------- the DES gadget

  lemma InputsOk(t: Tables, data: seq<Bit>, key: seq<Bit>, encrypt: bool, n: int)
    requires |data| == 64 && |key| == 64 && BitsOk(data, n) && BitsOk(key, n)
    ensures KeysOk(KeysFor(t, Flip(key), encrypt), n)
    ensures BitsOk(Permute(data, t.ip)[..32], n) && BitsOk(Permute(data, t.ip)[32..], n)
  {
    hide KeysFor;
    var asg := Assignment([], []);
    FlipVals(asg, key);
    RoundKeyVals(asg, t, Flip(key), encrypt, n);
    PermuteVals(asg, data, t.ip);
  }

  /** The output wiring of a block: R16 before L16, through the inverse of IP. */
  function OutputWires(t: Tables, l: seq<Bit>, r: seq<Bit>): (out: seq<Bit>)
    requires |l| == 32 && |r| == 32
    ensures |out| == 64
    ensures forall n :: BitsOk(l, n) && BitsOk(r, n) ==> BitsOk(out, n)
  {
    Permute(r + l, InverseTable(t.ip, 64))
  }

  /** One DES block as constraints: data in DES order, key in little-endian order. */
  function DesG(p: Setup, s: State, data: seq<Bit>, key: seq<Bit>, encrypt: bool, wd: Block, wk: Block)
    : (res: (State, seq<Bit>))
    requires p.Shaped() && |data| == 64 && |key| == 64
    requires BitsOk(data, |s.wires|) && BitsOk(key, |s.wires|)
    ensures Grows(s, res.0)
    ensures |res.1| == 64 && BitsOk(res.1, |res.0.wires|)
  {
    InputsOk(p.t, data, key, encrypt, |s.wires|);
    var ip, hint := Permute(data, p.t.ip), Permute(DesBits(wd), p.t.ip);
    var (s1, l, r) := RoundsG(p, s, ip[..32], ip[32..], KeysFor(p.t, Flip(key), encrypt),
                              hint[..32], hint[32..], KeysFor(p.t, DesBits(wk), encrypt));
    (s1, OutputWires(p.t, l, r))
  }

  /** Soundness: whatever the hints were, the output bits are DES of the data and key bits. */
  lemma DesGSound(p: Setup, s: State, data: seq<Bit>, key: seq<Bit>, encrypt: bool, wd: Block, wk: Block,
                  asg: Assignment)
    requires p.Valid() && |data| == 64 && |key| == 64
    requires BitsOk(data, |s.wires|) && BitsOk(key, |s.wires|)
    requires Satisfies(p.r, asg, DesG(p, s, data, key, encrypt, wd, wk).0.cons)
    requires AreBits(asg, data) && AreBits(asg, key)
    ensures AreBits(asg, DesG(p, s, data, key, encrypt, wd, wk).1)
    ensures Vals(asg, DesG(p, s, data, key, encrypt, wd, wk).1)
            == DesOnBits(p.t, Vals(asg, data), Flip(Vals(asg, key)), encrypt)
  {
    hide IsPrime, Satisfies, RoundsG, Rounds, KeysFor, InverseTable, Interpolates, Permute;
    FlipVals(asg, key);
    RoundKeyVals(asg, p.t, Flip(key), encrypt, |s.wires|);
    PermuteVals(asg, data, p.t.ip);
    var ip, hint := Permute(data, p.t.ip), Permute(DesBits(wd), p.t.ip);
    var keys, hkeys := KeysFor(p.t, Flip(key), encrypt), KeysFor(p.t, DesBits(wk), encrypt);
    assert Vals(asg, ip[..32]) == Vals(asg, ip)[..32] && Vals(asg, ip[32..]) == Vals(asg, ip)[32..];
    RoundsSound(p, s, ip[..32], ip[32..], keys, hint[..32], hint[32..], hkeys, asg);
    var (s1, l, r) := RoundsG(p, s, ip[..32], ip[32..], keys, hint[..32], hint[32..], hkeys);
    assert Vals(asg, r + l) == Vals(asg, r) + Vals(asg, l);
    PermuteVals(asg, r + l, InverseTable(p.t.ip, 64));
  }

  /** Completeness: hints equal to the real bytes keep the system satisfied. */
  lemma DesGComplete(p: Setup, s: State, data: seq<Bit>, key: seq<Bit>, encrypt: bool, wd: Block, wk: Block)
    requires p.Valid() && Consistent(p.r, s) && |data| == 64 && |key| == 64
    requires BitsOk(data, |s.wires|) && BitsOk(key, |s.wires|)
    requires CarriesDes(s.Asg(), data, wd) && Carries(s.Asg(), key, wk)
    ensures Consistent(p.r, DesG(p, s, data, key, encrypt, wd, wk).0)
  {
    hide IsPrime, Satisfies, RoundsG, Rounds, KeysFor, InverseTable, Interpolates, Permute;
    var asg := s.Asg();
    FlipVals(asg, key);
    DesBitsIsFlip(wk);
    RoundKeyVals(asg, p.t, Flip(key), encrypt, |s.wires|);
    PermuteVals(asg, data, p.t.ip);
    var ip, hint := Permute(data, p.t.ip), Permute(DesBits(wd), p.t.ip);
    var keys, hkeys := KeysFor(p.t, Flip(key), encrypt), KeysFor(p.t, DesBits(wk), encrypt);
    assert Vals(asg, ip[..32]) == Vals(asg, ip)[..32] && Vals(asg, ip[32..]) == Vals(asg, ip)[32..];
    RoundsComplete(p, s, ip[..32], ip[32..], keys, hint[..32], hint[32..], hkeys);
  }

  function Run(c: BlockCipher, encrypt: bool, data: Block, key: Block): Block {
    if encrypt then c.enc(data, key) else c.dec(data, key)
  }

  /** The gadget turns wires that carry bytes into wires that carry DES of those bytes. */
  lemma DesGCarries(c: BlockCipher, p: Setup, s: State, data: seq<Bit>, key: seq<Bit>, encrypt: bool,
                    wd: Block, wk: Block, asg: Assignment, d: Block, k: Block)
    requires p.Valid() && IsDes(c, p.t) && |data| == 64 && |key| == 64
    requires BitsOk(data, |s.wires|) && BitsOk(key, |s.wires|)
    requires Satisfies(p.r, asg, DesG(p, s, data, key, encrypt, wd, wk).0.cons)
    requires CarriesDes(asg, data, d) && Carries(asg, key, k)
    ensures CarriesDes(asg, DesG(p, s, data, key, encrypt, wd, wk).1, Run(c, encrypt, d, k))
  {
    hide IsPrime, Satisfies, DesG, DesOnBits, Interpolates;
    DesGSound(p, s, data, key, encrypt, wd, wk, asg);
    DesBitsIsFlip(k);
    DesBitsOfBytes(DesOnBits(p.t, DesBits(d), DesBits(k), encrypt));
    assert Run(c, encrypt, d, k) == DesBlock(p.t, d, k, encrypt);
  }

  // ------------------------------------------------------- chains of DES gadgets

  /** One link of a chain: the key's wires, the direction and the native key for the hints. */
  datatype Link = Link(key: seq<Bit>, encrypt: bool, native: Block)

  ghost predicate LinksOk(links: seq<Link>, n: int) {
    forall i :: 0 <= i < |links| ==> |links[i].key| == 64 && BitsOk(links[i].key, n)
  }

  /** The output of each DES gadget is the data of the next one. */
  function ChainG(c: BlockCipher, p: Setup, s: State, data: seq<Bit>, wd: Block, links: seq<Link>)
    : (res: (State, seq<Bit>))
    requires p.Shaped() && |data| == 64 && BitsOk(data, |s.wires|) && LinksOk(links, |s.wires|)
    ensures Grows(s, res.0)
    ensures |res.1| == 64 && BitsOk(res.1, |res.0.wires|)
    decreases |links|
  {
    if links == [] then (s, data)
    else
      var k := links[0];
      var (s1, out) := DesG(p, s, data, k.key, k.encrypt, wd, k.native);
      LinksOkTail(links, |s.wires|, |s1.wires|);
      var res := ChainG(c, p, s1, out, Run(c, k.encrypt, wd, k.native), links[1..]);
      GrowsTrans(s, s1, res.0);
      res
  }

  lemma LinksOkTail(links: seq<Link>, n: int, m: int)
    requires LinksOk(links, n) && n <= m && links != []
    ensures LinksOk(links[1..], m)
  {
    LinksOkGrow(links, n, m);
    hide BitsOk;
  }

  lemma LinksOkGrow(links: seq<Link>, n: int, m: int)
    requires LinksOk(links, n) && n <= m
    ensures LinksOk(links, m)
  {
    forall i | 0 <= i < |links| ensures BitsOk(links[i].key, m) {
      BitsOkGrow(links[i].key, n, m);
    }
  }

  /** The native counterpart, for any keys. */
  function Chain(c: BlockCipher, d: Block, links: seq<Link>, keys: seq<Block>): Block
    requires |keys| == |links|
    decreases |links|
  {
    if links == [] then d else Chain(c, Run(c, links[0].encrypt, d, keys[0]), links[1..], keys[1..])
  }

  ghost predicate LinksCarry(asg: Assignment, links: seq<Link>, keys: seq<Block>) {
    |links| == |keys| && forall i :: 0 <= i < |links| ==> Carries(asg, links[i].key, keys[i])
  }

  lemma {:induction false} ChainCarries(c: BlockCipher, p: Setup, s: State, data: seq<Bit>, wd: Block,
                                        links: seq<Link>, asg: Assignment, d: Block, keys: seq<Block>)
    requires p.Valid() && IsDes(c, p.t)
    requires |data| == 64 && BitsOk(data, |s.wires|) && LinksOk(links, |s.wires|)
    requires Satisfies(p.r, asg, ChainG(c, p, s, data, wd, links).0.cons)
    requires CarriesDes(asg, data, d) && LinksCarry(asg, links, keys)
    ensures CarriesDes(asg, ChainG(c, p, s, data, wd, links).1, Chain(c, d, links, keys))
    decreases |links|
  {
    hide IsPrime, Satisfies, DesG, Interpolates, Carries, CarriesDes, IsDes;
    if links != [] {
      var k := links[0];
      var (s1, out) := DesG(p, s, data, k.key, k.encrypt, wd, k.native);
      LinksOkTail(links, |s.wires|, |s1.wires|);
      var wd' := Run(c, k.encrypt, wd, k.native);
      SatisfiesPrefix(p.r, asg, s1.cons, ChainG(c, p, s1, out, wd', links[1..]).0.cons);
      DesGCarries(c, p, s, data, k.key, k.encrypt, wd, k.native, asg, d, keys[0]);
      ChainCarries(c, p, s1, out, wd', links[1..], asg, Run(c, k.encrypt, d, keys[0]), keys[1..]);
    }
  }

  function Natives(links: seq<Link>): (keys: seq<Block>)
    ensures |keys| == |links|
    ensures forall i :: 0 <= i < |links| ==> keys[i] == links[i].native
  {
    seq(|links|, i requires 0 <= i < |links| => links[i].native)
  }

  lemma {:induction false} ChainComplete(c: BlockCipher, p: Setup, s: State, data: seq<Bit>, wd: Block,
                                         links: seq<Link>)
    requires p.Valid() && IsDes(c, p.t) && Consistent(p.r, s)
    requires |data| == 64 && BitsOk(data, |s.wires|) && LinksOk(links, |s.wires|)
    requires CarriesDes(s.Asg(), data, wd) && LinksCarry(s.Asg(), links, Natives(links))
    ensures Consistent(p.r, ChainG(c, p, s, data, wd, links).0)
    decreases |links|
  {
    hide IsPrime, Satisfies, DesG, Interpolates, Carries, CarriesDes, IsDes;
    if links != [] {
      var k := links[0];
      var (s1, out) := DesG(p, s, data, k.key, k.encrypt, wd, k.native);
      LinksOkTail(links, |s.wires|, |s1.wires|);
      DesGComplete(p, s, data, k.key, k.encrypt, wd, k.native);
      CarriesGrow(s, s1, data, wd);
      forall i | 0 <= i < |links| ensures Carries(s1.Asg(), links[i].key, links[i].native) {
        CarriesGrow(s, s1, links[i].key, links[i].native);
      }
      DesGCarries(c, p, s, data, k.key, k.encrypt, wd, k.native, s1.Asg(), wd, k.native);
      ChainComplete(c, p, s1, out, Run(c, k.encrypt, wd, k.native), links[1..]);
    }
  }

  /** The three links of two-key EDE, E(k1) D(k2) E(k1), and what they compute. */
  function TdesLinks(k1: seq<Bit>, w1: Block, k2: seq<Bit>, w2: Block): seq<Link> {
    [Link(k1, true, w1), Link(k2, false, w2), Link(k1, true, w1)]
  }

  lemma TdesChain(c: BlockCipher, d: Block, k1: seq<Bit>, w1: Block, k2: seq<Bit>, w2: Block, b1: Block, b2: Block)
    ensures Chain(c, d, TdesLinks(k1, w1, k2, w2), [b1, b2, b1]) == c.TdesEncrypt(d, b1, b2)
  {
    var links, keys := TdesLinks(k1, w1, k2, w2), [b1, b2, b1];
    assert links[1..] == [links[1], links[2]] && keys[1..] == [b2, b1];
    assert links[1..][1..] == [links[2]] && keys[1..][1..] == [b1];
    assert links[1..][1..][1..] == [] && keys[1..][1..][1..] == [];
    var d1 := Run(c, true, d, b1);
    var d2 := Run(c, false, d1, b2);
    assert Chain(c, d2, [links[2]], [b1]) == Run(c, true, d2, b1) by {
      assert [links[2]][1..] == [] && [b1][1..] == [];
    }
    assert Chain(c, d1, links[1..], keys[1..]) == Chain(c, d2, [links[2]], [b1]);
  }

  /** Three encrypting links whose keys are the blocks of a message: the running MAC. */
  lemma MacChainLinks(c: BlockCipher, mac: Block, links: seq<Link>, blocks: Bytes)
    requires |links| == 3 && |blocks| == 24 && forall i :: 0 <= i < 3 ==> links[i].encrypt
    ensures Chain(c, mac, links, [blocks[..8], blocks[8..16], blocks[16..24]]) == c.MacChain(mac, blocks)
  {
    var keys := [blocks[..8], blocks[8..16], blocks[16..24]];
    var m1 := c.enc(mac, blocks[..8]);
    var m2 := c.enc(m1, blocks[8..16]);
    var rest, last := blocks[8..], blocks[16..];
    assert rest[..8] == blocks[8..16] && rest[8..] == last && last[..8] == blocks[16..24] && last[8..] == [];
    assert links[1..][1..] == [links[2]] && keys[1..][1..] == [blocks[16..24]];
    assert Chain(c, m2, [links[2]], [blocks[16..24]]) == c.enc(m2, blocks[16..24]) by {
      assert [links[2]][1..] == [] && [blocks[16..24]][1..] == [];
    }
    assert c.MacChain(m2, last) == c.enc(m2, blocks[16..24]);
    assert c.MacChain(m1, rest) == c.MacChain(m2, last);
    assert Chain(c, m1, links[1..], keys[1..]) == Chain(c, m2, [links[2]], [blocks[16..24]]);
  }
}
