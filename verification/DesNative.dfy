// The native DES as it is written, with loops over fixed buffers, proved against the
// functions of Des and Modes whose laws are in DesLaws.
module DesNative {
  import opened Bits
  import opened Results
  import opened Tables
  import opened Des
  import opened DesLaws
  import opened Modes
  import opened Gadgets

  // ---------------------------------------------------------------- bit packing

  /** `(v >> j) & 1 == 1`. */
  function BitOf(v: nat, j: nat): bool {
    v / Pow2(j) % 2 == 1
  }

  /** `v | (1 << j)`. */
  function SetBit(v: nat, j: nat): nat {
    if BitOf(v, j) then v else v + Pow2(j)
  }

  lemma {:induction false} LowBitIsBitOf(v: nat, n: nat, j: nat)
    requires j < n
    ensures LowBits(v, n)[j] == BitOf(v, j)
  {
    if j > 0 {
      LowBitIsBitOf(v / 2, n - 1, j - 1);
      HalvingShifts(v, Pow2(j - 1));
    }
  }

  lemma HalvingShifts(v: nat, p: nat)
    requires p > 0
    ensures v / 2 / p == v / (2 * p)
  {
    var q := v / 2 / p;
    var m := v / 2 % p;
    assert v / 2 == q * p + m;
    assert v == q * (2 * p) + (2 * m + v % 2);
    DivisionIs(v, 2 * p, q, 2 * m + v % 2);
  }

  /** Setting a bit changes that bit and no other. */
  lemma {:induction false} SetBitSets(v: nat, n: nat, j: nat)
    requires j < n && v < Pow2(n)
    ensures SetBit(v, j) < Pow2(n)
    ensures LowBits(SetBit(v, j), n) == LowBits(v, n)[j := true]
  {
    LowBitIsBitOf(v, n, j);
    if BitOf(v, j) {
      assert LowBits(v, n)[j := true] == LowBits(v, n);
    } else {
      AddBit(v, n, j);
    }
  }

  lemma {:induction false} AddBit(v: nat, n: nat, j: nat)
    requires j < n && v < Pow2(n) && !LowBits(v, n)[j]
    ensures v + Pow2(j) < Pow2(n)
    ensures LowBits(v + Pow2(j), n) == LowBits(v, n)[j := true]
  {
    if j > 0 {
      AddBit(v / 2, n - 1, j - 1);
      assert (v + Pow2(j)) / 2 == v / 2 + Pow2(j - 1) && (v + Pow2(j)) % 2 == v % 2;
    } else {
      assert (v + 1) / 2 == v / 2;
    }
  }

  lemma DesBitIs(bytes: Bytes, k: nat)
    requires k < 8 * |bytes|
    ensures DesBits(bytes)[k] == BitOf(bytes[k / 8], 7 - k % 8)
  {
    LowBitIsBitOf(bytes[k / 8], 8, 7 - k % 8);
    hide LowBits, BitOf;
  }

  method BytesToDesBits(block: Block) returns (bits: BitVec)
    ensures bits == DesBits(block)
  {
    hide DesBits, BitOf;
    var out := new bool[64](_ => false);
    for k := 0 to 64
      invariant forall i :: 0 <= i < k ==> out[i] == DesBits(block)[i]
    {
      DesBitIs(block, k);
      out[k] := BitOf(block[k / 8], 7 - k % 8);
    }
    return out[..];
  }

  /** The first k bits, then zeros. */
  ghost function FirstBits(bits: BitVec, k: nat): (r: BitVec)
    ensures |r| == |bits|
  {
    seq(|bits|, i requires 0 <= i < |bits| => i < k && bits[i])
  }

  lemma SetDesBit(bytes: Bytes, k: nat)
    requires k < 8 * |bytes|
    ensures SetBit(bytes[k / 8], 7 - k % 8) < 256
    ensures DesBits(bytes[k / 8 := SetBit(bytes[k / 8], 7 - k % 8)]) == DesBits(bytes)[k := true]
  {
    assert Pow2(8) == 256 by { assert Pow2(4) == 16; }
    SetBitSets(bytes[k / 8], 8, 7 - k % 8);
  }

  lemma FirstBitsStep(bits: BitVec, k: nat)
    requires k < |bits|
    ensures FirstBits(bits, k + 1) == if bits[k] then FirstBits(bits, k)[k := true] else FirstBits(bits, k)
  {
  }

  lemma AllFirstBits(bits: BitVec)
    ensures FirstBits(bits, |bits|) == bits
  {
  }

  method DesBitsToBytes(bits: BitVec) returns (bytes: Block)
    requires |bits| == 64
    ensures bytes == BytesOfDes(bits)
  {
    var out := new Byte[8](_ => 0);
    assert DesBits(out[..]) == FirstBits(bits, 0) by { ZeroBits(out[..]); }
    hide DesBits, FirstBits, SetBit;
    for k := 0 to 64
      invariant DesBits(out[..]) == FirstBits(bits, k)
    {
      FirstBitsStep(bits, k);
      if bits[k] {
        SetDesBit(out[..], k);
        ghost var updated := out[..][k / 8 := SetBit(out[k / 8], 7 - k % 8)];
        out[k / 8] := SetBit(out[k / 8], 7 - k % 8);
        assert out[..] == updated;
      }
    }
    AllFirstBits(bits);
    DesRoundTrip(out[..]);
    return out[..];
  }

  lemma ZeroBits(bytes: Bytes)
    requires forall i :: 0 <= i < |bytes| ==> bytes[i] == 0
    ensures forall k :: 0 <= k < 8 * |bytes| ==> !DesBits(bytes)[k]
  {
    forall k | 0 <= k < 8 * |bytes| ensures !DesBits(bytes)[k] {
      LowBitIsBitOf(0, 8, 7 - k % 8);
    }
  }

  // ---------------------------------------------------------------- wiring

  method PermuteBits(bits: BitVec, table: seq<nat>) returns (r: BitVec)
    requires Below(table, |bits|)
    ensures r == Permute(bits, table)
  {
    var out := new bool[|table|](_ => false);
    for i := 0 to |table|
      invariant forall k :: 0 <= k < i ==> out[k] == bits[table[k]]
    {
      out[i] := bits[table[i]];
    }
    return out[..];
  }

  method Rotl28(v: BitVec, n: nat) returns (r: BitVec)
    requires |v| == 28
    ensures r == RotateLeft(v, n)
  {
    var out := new bool[28](_ => false);
    for i := 0 to 28
      invariant forall k :: 0 <= k < i ==> out[k] == v[(k + n) % 28]
    {
      out[i] := v[(i + n) % 28];
    }
    return out[..];
  }

  method XorInto(a: BitVec, b: BitVec) returns (r: BitVec)
    requires |a| == |b|
    ensures r == Xor(a, b)
  {
    var out := new bool[|a|](_ => false);
    for i := 0 to |a|
      invariant forall k :: 0 <= k < i ==> out[k] == (a[k] != b[k])
    {
      out[i] := a[i] != b[i];
    }
    return out[..];
  }

  // ---------------------------------------------------------------- rounds

  lemma TableShapes(t: Tables)
    ensures |t.ip| == 64 && Below(t.ip, 64)
    ensures |t.e| == 48 && Below(t.e, 32)
    ensures |t.p| == 32 && Below(t.p, 32)
    ensures |t.pc1| == 56 && Below(t.pc1, 64)
    ensures |t.pc2| == 48 && Below(t.pc2, 56)
    ensures |t.shifts| == 16
  {
  }

  lemma ScheduleStep(t: Tables, c: BitVec, d: BitVec, i: nat)
    requires |c| == 28 && |d| == 28 && i < |t.shifts|
    ensures var c', d' := RotateLeft(c, t.shifts[i]), RotateLeft(d, t.shifts[i]);
      Schedule(t, c, d, t.shifts[i..]) == [Permute(c' + d', t.pc2)] + Schedule(t, c', d', t.shifts[i + 1..])
  {
    hide Permute, RotateLeft, RawTables.Valid;
    assert t.shifts[i..][1..] == t.shifts[i + 1..];
  }

  /** The sixteen round keys, the halves rotated in place. */
  method RoundKeysOf(t: Tables, key: Block) returns (keys: seq<BitVec>)
    ensures keys == RoundKeys(t, DesBits(key))
  {
    TableShapes(t);
    hide RawTables.Valid, Below, DesBits, Permute, RotateLeft;
    var kb := BytesToDesBits(key);
    var pc1 := PermuteBits(kb, t.pc1);
    var c, d := pc1[..28], pc1[28..];
    keys := [];
    assert t.shifts[0..] == t.shifts;
    hide Schedule;
    for i := 0 to 16
      invariant |c| == 28 && |d| == 28
      invariant keys + Schedule(t, c, d, t.shifts[i..]) == RoundKeys(t, kb)
    {
      ScheduleStep(t, c, d, i);
      c := Rotl28(c, t.shifts[i]);
      d := Rotl28(d, t.shifts[i]);
      var k := PermuteBits(c + d, t.pc2);
      keys := keys + [k];
    }
  }

  /** The four output bits of one S-box, most significant first. */
  method StoreNibble(a: array<bool>, at: nat, v: nat)
    requires at + 4 <= a.Length
    modifies a
    ensures a[..at + 4] == old(a[..at]) + Nibble(v)
  {
    a[at] := v / 8 % 2 == 1;
    a[at + 1] := v / 4 % 2 == 1;
    a[at + 2] := v / 2 % 2 == 1;
    a[at + 3] := v % 2 == 1;
  }

  method SBoxLayerOf(t: Tables, x: BitVec) returns (out: BitVec)
    requires |x| == 48
    ensures out == SBoxLayer(t, x, 8)
  {
    var sOut := new bool[32](_ => false);
    assert SBoxLayer(t, x, 0) == [];
    hide SBoxLayer, SBoxLookup, Nibble, RawTables.Valid;
    for b := 0 to 8
      invariant sOut[..4 * b] == SBoxLayer(t, x, b)
    {
      SBoxLayerStep(t, x, b);
      var v := SBoxLookup(t, b, x[6 * b..6 * b + 6]);
      StoreNibble(sOut, 4 * b, v);
    }
    return sOut[..];
  }

  /** Expansion, key mixing, the eight S-boxes and the permutation. */
  method FeistelOf(t: Tables, r: BitVec, k: BitVec) returns (f: BitVec)
    requires |r| == 32 && |k| == 48
    ensures f == Feistel(t, r, k)
  {
    TableShapes(t);
    hide SBoxLayer, Permute, Xor, RawTables.Valid, Below;
    var expanded := PermuteBits(r, t.e);
    var xored := XorInto(expanded, k);
    var sOut := SBoxLayerOf(t, xored);
    f := PermuteBits(sOut, t.p);
  }

  /** fp[table[i]] := i, for every i. */
  method InvertTable(table: seq<nat>) returns (fp: seq<nat>)
    requires Below(table, |table|)
    ensures fp == InverseTable(table, |table|)
  {
    var out := new nat[|table|](_ => 0);
    for i := 0 to |table|
      invariant out[..] == InverseTable(table, i)
    {
      out[table[i]] := i;
    }
    return out[..];
  }

  /** One block, as the Rust function computes it. */
  method DesBlockOf(t: Tables, data: Block, key: Block, encrypt: bool) returns (out: Block)
    ensures out == DesBlock(t, data, key, encrypt)
  {
    TableShapes(t);
    hide Feistel, RoundKeys, InverseTable, Permute, RawTables.Valid, DesBits, BytesOfDes;
    var keys := RoundKeysOf(t, key);
    if !encrypt { keys := Reverse(keys); }
    var bits := BytesToDesBits(data);
    var ip := PermuteBits(bits, t.ip);
    var l, r := ip[..32], ip[32..];
    for i := 0 to 16
      invariant |l| == 32 && |r| == 32
      invariant Rounds(t, l, r, keys[i..]) == Rounds(t, ip[..32], ip[32..], keys)
    {
      var f := FeistelOf(t, r, keys[i]);
      var x := XorInto(l, f);
      assert keys[i..][0] == keys[i] && keys[i..][1..] == keys[i + 1..];
      l, r := r, x;
    }
    var fp := InvertTable(t.ip);
    var pre := PermuteBits(r + l, fp);
    out := DesBitsToBytes(pre);
  }

  /** The six bits of a table index, highest first. */
  function IndexBits(v: nat): (bits: BitVec)
    ensures |bits| == 6
  {
    [BitOf(v, 5), BitOf(v, 4), BitOf(v, 3), BitOf(v, 2), BitOf(v, 1), BitOf(v, 0)]
  }

  lemma IndexBitsAre(v: nat)
    ensures IndexBits(v) == Reverse(LowBits(v, 6))
  {
    hide BitOf, LowBits;
    forall j | 0 <= j < 6 ensures LowBits(v, 6)[j] == BitOf(v, j) { LowBitIsBitOf(v, 6, j); }
  }

  lemma MappedAt(t: Tables, box: nat, v: nat)
    requires box < 8 && v < 64
    ensures MappedTable(t, box)[v] == SBoxLookup(t, box, IndexBits(v))
  {
    IndexBitsAre(v);
    hide IndexBits, LowBits, SBoxLookup, Reverse;
  }

  /** The S-box indexed by its input read as a number. */
  method SBoxMapped(t: Tables, box: nat) returns (table: seq<nat>)
    requires box < 8
    ensures table == MappedTable(t, box)
  {
    hide SBoxLookup, IndexBits, MappedTable;
    var out := new nat[64](_ => 0);
    for v := 0 to 64
      invariant forall k :: 0 <= k < v ==> out[k] == MappedTable(t, box)[k]
    {
      MappedAt(t, box, v);
      out[v] := SBoxLookup(t, box, IndexBits(v));
    }
    return out[..];
  }

  // ---------------------------------------------------------------- modes

  method XorBlocks(a: Block, b: Block) returns (r: Block)
    ensures r == XorBytes(a, b)
  {
    var x := new Byte[8](i requires 0 <= i < 8 => a[i]);
    for i := 0 to 8
      invariant forall k :: 0 <= k < i ==> x[k] == XorByte(a[k], b[k])
      invariant forall k :: i <= k < 8 ==> x[k] == a[k]
    {
      x[i] := XorByte(x[i], b[i]);
    }
    return x[..];
  }

  lemma EncryptStep(c: BlockCipher, prev: Block, data: Bytes, i: nat, key: Block)
    requires |data| % 8 == 0 && i % 8 == 0 && i < |data|
    ensures var ct := c.enc(XorBytes(data[i..i + 8], prev), key);
            c.CbcEncryptFrom(prev, data[i..], key) == ct + c.CbcEncryptFrom(ct, data[i + 8..], key)
  {
    assert data[i..][..8] == data[i..i + 8] && data[i..][8..] == data[i + 8..];
  }

  method CbcEncryptZeroIv(t: Tables, data: Bytes, key: Block) returns (out: Bytes)
    requires |data| % 8 == 0
    ensures out == DesCipher(t).CbcEncryptZeroIv(data, key)
  {
    hide DesBlock, XorBytes, BlockCipher.CbcEncryptFrom;
    ghost var c := DesCipher(t);
    out := [];
    var prev: Block := ZERO_BLOCK;
    var i := 0;
    assert data[0..] == data;
    while i < |data|
      invariant 0 <= i <= |data| && i % 8 == 0
      invariant out + c.CbcEncryptFrom(prev, data[i..], key) == c.CbcEncryptFrom(ZERO_BLOCK, data, key)
    {
      var x := XorBlocks(data[i..i + 8], prev);
      var ct := DesBlockOf(t, x, key, true);
      EncryptStep(c, prev, data, i, key);
      out := out + ct;
      prev := ct;
      i := i + 8;
    }
  }

  lemma DecryptStep(c: BlockCipher, prev: Block, data: Bytes, i: nat, key: Block)
    requires |data| % 8 == 0 && i % 8 == 0 && i < |data|
    ensures c.CbcDecryptFrom(prev, data[i..], key)
         == XorBytes(c.dec(data[i..i + 8], key), prev) + c.CbcDecryptFrom(data[i..i + 8], data[i + 8..], key)
  {
    assert data[i..][..8] == data[i..i + 8] && data[i..][8..] == data[i + 8..];
  }

  method DecryptBlocks(t: Tables, data: Bytes, key: Block) returns (out: Bytes)
    requires |data| % 8 == 0
    ensures out == DesCipher(t).CbcDecryptFrom(ZERO_BLOCK, data, key)
  {
    hide DesBlock, XorBytes, BlockCipher.CbcDecryptFrom;
    ghost var c := DesCipher(t);
    out := [];
    var prev: Block := ZERO_BLOCK;
    var i := 0;
    assert data[0..] == data;
    while i < |data|
      invariant 0 <= i <= |data| && i % 8 == 0
      invariant out + c.CbcDecryptFrom(prev, data[i..], key) == c.CbcDecryptFrom(ZERO_BLOCK, data, key)
    {
      var ct: Block := data[i..i + 8];
      var pt := DesBlockOf(t, ct, key, false);
      var x := XorBlocks(pt, prev);
      DecryptStep(c, prev, data, i, key);
      out := out + x;
      prev := ct;
      i := i + 8;
    }
  }

  method CbcDecrypt(t: Tables, data: Bytes, key: Block) returns (out: Option<Bytes>)
    ensures out == DesCipher(t).CbcDecrypt(data, key)
  {
    if |data| % 8 != 0 { return None; }
    var pt := DecryptBlocks(t, data, key);
    return Some(pt);
  }

  method CommandMac(t: Tables, code: Byte, padded: Bytes) returns (mac: Block)
    requires |padded| % 8 == 0 && |padded| + 10 < 256
    ensures mac == DesCipher(t).CommandMac(code, padded)
  {
    hide DesBlock;
    ghost var c := DesCipher(t);
    var total := 2 + |padded| + 8;
    mac := [total, code, 0, 0, 0, 0, 0, 0];
    var i := 0;
    assert padded[0..] == padded;
    while i < |padded|
      invariant 0 <= i <= |padded| && i % 8 == 0
      invariant c.MacChain(mac, padded[i..]) == c.CommandMac(code, padded)
    {
      assert padded[i..][..8] == padded[i..i + 8] && padded[i..][8..] == padded[i + 8..];
      mac := DesBlockOf(t, mac, padded[i..i + 8], true);
      i := i + 8;
    }
  }

  // ---------------------------------------------------------------- stacked keys

  /** Two-key 3DES over the stacking buffer K1 | K2 | K1, which is wiped before it is given up. */
  method StackedTdes(t: Tables, data: Block, k1: Block, k2: Block, encrypt: bool)
    returns (out: Block, stacked: array<Byte>)
    ensures out == if encrypt then DesCipher(t).TdesEncrypt(data, k1, k2) else DesCipher(t).TdesDecrypt(data, k1, k2)
    ensures fresh(stacked) && forall i :: 0 <= i < stacked.Length ==> stacked[i] == 0
  {
    hide DesBlock;
    stacked := new Byte[24](_ => 0);
    forall i | 0 <= i < 8 { stacked[i] := k1[i]; }
    forall i | 8 <= i < 16 { stacked[i] := k2[i - 8]; }
    forall i | 16 <= i < 24 { stacked[i] := k1[i - 16]; }
    var a: Block, b: Block, c: Block := stacked[..8], stacked[8..16], stacked[16..];
    assert a == k1 && b == k2 && c == k1;
    var first, last := if encrypt then a else c, if encrypt then c else a;
    var t1 := DesBlockOf(t, data, first, encrypt);
    var t2 := DesBlockOf(t, t1, b, !encrypt);
    out := DesBlockOf(t, t2, last, encrypt);
    forall i | 0 <= i < 24 { stacked[i] := 0; }
  }
}
