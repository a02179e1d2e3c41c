// The laws of DES: deciphering undoes enciphering, complementing data and key
// complements the output, and the low bit of every key byte is ignored.
module DesLaws {
  import opened Bits
  import opened Tables
  import opened Des
  import opened Modes

  // --------------------------------------------------- FP is the inverse of IP

  lemma {:induction false} InverseTableAt(table: seq<nat>, n: nat, i: nat)
    requires Below(table, |table|) && Distinct(table)
    requires i < n <= |table|
    ensures InverseTable(table, n)[table[i]] == i
  {
    if i < n - 1 {
      InverseTableAt(table, n - 1, i);
      assert table[i] != table[n - 1];
    }
  }

  function Image(table: seq<nat>, n: nat): (s: set<nat>)
    requires n <= |table|
  {
    if n == 0 then {} else Image(table, n - 1) + {table[n - 1]}
  }

  lemma {:induction false} ImageMember(table: seq<nat>, n: nat, v: nat)
    requires n <= |table| && v in Image(table, n)
    ensures v in table[..n]
  {
    if v != table[n - 1] {
      ImageMember(table, n - 1, v);
    }
  }

  lemma {:induction false} ImageOfDistinct(table: seq<nat>, n: nat)
    requires n <= |table| && Distinct(table)
    ensures |Image(table, n)| == n
  {
    if n > 0 {
      ImageOfDistinct(table, n - 1);
      if table[n - 1] in Image(table, n - 1) {
        ImageMember(table, n - 1, table[n - 1]);
        assert false;
      }
    }
  }

  /** A set of n numbers below n holds all of them. */
  lemma {:induction false} FullInterval(s: set<nat>, n: nat)
    requires forall v :: v in s ==> v < n
    ensures |s| <= n
    ensures |s| == n ==> forall v :: 0 <= v < n ==> v in s
  {
    if n > 0 {
      var rest := s - {n - 1};
      assert forall v :: v in rest ==> v < n - 1;
      FullInterval(rest, n - 1);
    }
  }

  /** A table without repetitions hits every position. */
  lemma HitsEverything(table: seq<nat>, j: nat) returns (i: nat)
    requires Below(table, |table|) && Distinct(table) && j < |table|
    ensures i < |table| && table[i] == j
  {
    var s := Image(table, |table|);
    ImageOfDistinct(table, |table|);
    forall v | v in s ensures v < |table| {
      ImageMember(table, |table|, v);
    }
    FullInterval(s, |table|);
    ImageMember(table, |table|, j);
    i :| 0 <= i < |table| && table[i] == j;
  }

  lemma InverseTableIsInverse(table: seq<nat>, j: nat)
    requires Below(table, |table|) && Distinct(table) && j < |table|
    ensures table[InverseTable(table, |table|)[j]] == j
  {
    hide InverseTable;
    var i := HitsEverything(table, j);
    InverseTableAt(table, |table|, i);
  }

  /** Permuting by the inverse table undoes the table, before it or after it. */
  lemma PermuteInverse(bits: BitVec, table: seq<nat>)
    requires |bits| == |table| && Below(table, |table|) && Distinct(table)
    ensures Permute(Permute(bits, table), InverseTable(table, |table|)) == bits
    ensures Permute(Permute(bits, InverseTable(table, |table|)), table) == bits
  {
    hide InverseTable, Permute, Distinct;
    var inv := InverseTable(table, |table|);
    assert Permute(Permute(bits, table), inv) == bits by {
      forall j | 0 <= j < |table| ensures table[inv[j]] == j {
        InverseTableIsInverse(table, j);
      }
    }
    assert Permute(Permute(bits, inv), table) == bits by {
      forall j | 0 <= j < |table| ensures inv[table[j]] == j {
        InverseTableAt(table, |table|, j);
      }
    }
  }

  // ------------------------------------------------------------- decryption

  lemma {:induction false} RoundsSplit(t: Tables, l: BitVec, r: BitVec, keys: seq<BitVec>, more: seq<BitVec>)
    requires |l| == 32 && |r| == 32 && AreRoundKeys(keys) && AreRoundKeys(more)
    ensures AreRoundKeys(keys + more)
    ensures Rounds(t, l, r, keys + more) ==
            var (l', r') := Rounds(t, l, r, keys); Rounds(t, l', r', more)
    decreases |keys|
  {
    hide Feistel;
    if keys == [] {
      assert keys + more == more;
    } else {
      RoundsSplit(t, r, Xor(l, Feistel(t, r, keys[0])), keys[1..], more);
      assert (keys + more)[1..] == keys[1..] + more;
    }
  }

  /** The rounds with the keys reversed, started from the swapped halves, run backwards. */
  lemma {:induction false} RoundsReversed(t: Tables, l: BitVec, r: BitVec, keys: seq<BitVec>)
    requires |l| == 32 && |r| == 32 && AreRoundKeys(keys)
    ensures AreRoundKeys(Reverse(keys))
    ensures var (l', r') := Rounds(t, l, r, keys);
            Rounds(t, r', l', Reverse(keys)) == (r, l)
    decreases |keys|
  {
    if keys != [] {
      var f := Feistel(t, r, keys[0]);
      var (l', r') := Rounds(t, r, Xor(l, f), keys[1..]);
      RoundsReversed(t, r, Xor(l, f), keys[1..]);
      assert Reverse(keys) == Reverse(keys[1..]) + [keys[0]];
      RoundsSplit(t, r', l', Reverse(keys[1..]), [keys[0]]);
      assert Xor(Xor(l, f), f) == l;
      assert Rounds(t, Xor(l, f), r, [keys[0]]) == (r, l);
    }
  }

  lemma CipherReversed(t: Tables, data: BitVec, keys: seq<BitVec>)
    requires |data| == 64 && AreRoundKeys(keys)
    ensures Cipher(t, Cipher(t, data, keys), Reverse(keys)) == data
  {
    hide Rounds, InverseTable;
    var ip := Permute(data, t.ip);
    var (l, r) := Rounds(t, ip[..32], ip[32..], keys);
    PermuteInverse(r + l, t.ip);
    RoundsReversed(t, ip[..32], ip[32..], keys);
    assert (r + l)[..32] == r && (r + l)[32..] == l;
    assert ip[..32] + ip[32..] == ip;
    PermuteInverse(data, t.ip);
  }

  /** DES on bits: either direction undoes the other. */
  lemma DesOnBitsInverse(t: Tables, data: BitVec, key: BitVec, encrypt: bool)
    requires |data| == 64 && |key| == 64
    ensures DesOnBits(t, DesOnBits(t, data, key, encrypt), key, !encrypt) == data
  {
    var keys := RoundKeys(t, key);
    assert Reverse(Reverse(keys)) == keys;
    CipherReversed(t, data, KeysFor(t, key, encrypt));
  }

  lemma DesBlockInverse(t: Tables, data: Block, key: Block, encrypt: bool)
    ensures DesBlock(t, DesBlock(t, data, key, encrypt), key, !encrypt) == data
  {
    DesBitsOfBytes(DesOnBits(t, DesBits(data), DesBits(key), encrypt));
    DesOnBitsInverse(t, DesBits(data), DesBits(key), encrypt);
    DesRoundTrip(data);
  }

  // -------------------------------------------------------------- DES as a cipher

  /** c computes DES with the given tables. */
  ghost predicate IsDes(c: BlockCipher, t: Tables) {
    && (forall data: Block, key: Block :: c.enc(data, key) == DesBlock(t, data, key, true))
    && (forall data: Block, key: Block :: c.dec(data, key) == DesBlock(t, data, key, false))
  }

  function DesCipher(t: Tables): (c: BlockCipher)
    ensures IsDes(c, t)
  {
    BlockCipher(
      (data: Block, key: Block) => DesBlock(t, data, key, true),
      (data: Block, key: Block) => DesBlock(t, data, key, false))
  }

  /** DES encryption and decryption under one key undo each other, for every block and key. */
  lemma DesIsInvertible(c: BlockCipher, t: Tables)
    requires IsDes(c, t)
    ensures c.Invertible()
  {
    hide DesBlock;
    forall data: Block, key: Block
      ensures c.dec(c.enc(data, key), key) == data && c.enc(c.dec(data, key), key) == data
    {
      DesBlockInverse(t, data, key, true);
      DesBlockInverse(t, data, key, false);
    }
  }

  // ------------------------------------------------------------- complementation

  lemma PermuteComplement(bits: BitVec, table: seq<nat>)
    requires Below(table, |bits|)
    ensures Permute(Complement(bits), table) == Complement(Permute(bits, table))
  {
  }

  ghost predicate AreComplements(keys: seq<BitVec>, others: seq<BitVec>) {
    && |keys| == |others|
    && forall k :: 0 <= k < |keys| ==> others[k] == Complement(keys[k])
  }

  lemma {:induction false} ScheduleComplement(t: Tables, c: BitVec, d: BitVec, shifts: seq<nat>)
    requires |c| == 28 && |d| == 28
    ensures AreComplements(Schedule(t, c, d, shifts), Schedule(t, Complement(c), Complement(d), shifts))
    decreases |shifts|
  {
    if shifts != [] {
      var c', d' := RotateLeft(c, shifts[0]), RotateLeft(d, shifts[0]);
      assert RotateLeft(Complement(c), shifts[0]) == Complement(c');
      assert RotateLeft(Complement(d), shifts[0]) == Complement(d');
      assert Complement(c') + Complement(d') == Complement(c' + d');
      PermuteComplement(c' + d', t.pc2);
      ScheduleComplement(t, c', d', shifts[1..]);
    }
  }

  lemma FeistelComplement(t: Tables, r: BitVec, key: BitVec)
    requires |r| == 32 && |key| == 48
    ensures Feistel(t, Complement(r), Complement(key)) == Feistel(t, r, key)
  {
    PermuteComplement(r, t.e);
    assert Xor(Complement(Permute(r, t.e)), Complement(key)) == Xor(Permute(r, t.e), key);
  }

  lemma {:induction false} RoundsComplement(t: Tables, l: BitVec, r: BitVec, keys: seq<BitVec>, others: seq<BitVec>)
    requires |l| == 32 && |r| == 32 && AreRoundKeys(keys) && AreComplements(keys, others)
    ensures AreRoundKeys(others)
    ensures var (l', r') := Rounds(t, l, r, keys);
            Rounds(t, Complement(l), Complement(r), others) == (Complement(l'), Complement(r'))
    decreases |keys|
  {
    if keys != [] {
      var f := Feistel(t, r, keys[0]);
      FeistelComplement(t, r, keys[0]);
      assert Xor(Complement(l), f) == Complement(Xor(l, f));
      RoundsComplement(t, r, Xor(l, f), keys[1..], others[1..]);
    }
  }

  lemma DesOnBitsComplement(t: Tables, data: BitVec, key: BitVec, encrypt: bool)
    requires |data| == 64 && |key| == 64
    ensures DesOnBits(t, Complement(data), Complement(key), encrypt) == Complement(DesOnBits(t, data, key, encrypt))
  {
    hide Rounds, InverseTable, Schedule;
    var pc1 := Permute(key, t.pc1);
    PermuteComplement(key, t.pc1);
    assert Complement(pc1)[..28] == Complement(pc1[..28]);
    assert Complement(pc1)[28..] == Complement(pc1[28..]);
    ScheduleComplement(t, pc1[..28], pc1[28..], t.shifts);
    var keys, others := KeysFor(t, key, encrypt), KeysFor(t, Complement(key), encrypt);
    assert AreComplements(keys, others);
    var ip := Permute(data, t.ip);
    PermuteComplement(data, t.ip);
    assert Complement(ip)[..32] == Complement(ip[..32]);
    assert Complement(ip)[32..] == Complement(ip[32..]);
    RoundsComplement(t, ip[..32], ip[32..], keys, others);
    var (l, r) := Rounds(t, ip[..32], ip[32..], keys);
    assert Complement(r) + Complement(l) == Complement(r + l);
    PermuteComplement(r + l, InverseTable(t.ip, 64));
  }

  lemma BytesOfComplement(bits: BitVec)
    requires |bits| % 8 == 0
    ensures BytesOfDes(Complement(bits)) == Invert(BytesOfDes(bits))
  {
    DesBitsOfBytes(bits);
    DesBitsOfInvert(BytesOfDes(bits));
    DesRoundTrip(Invert(BytesOfDes(bits)));
  }

  /** The complementation property: inverting data and key inverts the output. */
  lemma DesComplement(t: Tables, data: Block, key: Block, encrypt: bool)
    ensures DesBlock(t, Invert(data), Invert(key), encrypt) == Invert(DesBlock(t, data, key, encrypt))
  {
    DesBitsOfInvert(data);
    DesBitsOfInvert(key);
    DesOnBitsComplement(t, DesBits(data), DesBits(key), encrypt);
    BytesOfComplement(DesOnBits(t, DesBits(data), DesBits(key), encrypt));
  }

  /** Two-key 3DES inherits it, when both keys are inverted. */
  lemma TdesComplement(c: BlockCipher, t: Tables, data: Block, k1: Block, k2: Block)
    requires IsDes(c, t)
    ensures c.TdesEncrypt(Invert(data), Invert(k1), Invert(k2)) == Invert(c.TdesEncrypt(data, k1, k2))
    ensures c.TdesDecrypt(Invert(data), Invert(k1), Invert(k2)) == Invert(c.TdesDecrypt(data, k1, k2))
  {
    hide DesBlock;
    DesComplement(t, data, k1, true);
    DesComplement(t, c.enc(data, k1), k2, false);
    DesComplement(t, c.dec(c.enc(data, k1), k2), k1, true);
    DesComplement(t, data, k1, false);
    DesComplement(t, c.dec(data, k1), k2, true);
    DesComplement(t, c.enc(c.dec(data, k1), k2), k1, false);
  }

  // -------------------------------------------------------------------- parity

  /** The keys agree on every bit but the lowest one of each byte. */
  ghost predicate SameUpToParity(a: Block, b: Block) {
    forall i :: 0 <= i < 8 ==> a[i] / 2 == b[i] / 2
  }

  lemma SameHighBits(a: Byte, b: Byte)
    requires a / 2 == b / 2
    ensures forall j :: 1 <= j < 8 ==> LowBits(a, 8)[j] == LowBits(b, 8)[j]
  {
    assert LowBits(a, 8)[1..] == LowBits(a / 2, 7);
    assert LowBits(b, 8)[1..] == LowBits(b / 2, 7);
    forall j | 1 <= j < 8 ensures LowBits(a, 8)[j] == LowBits(b, 8)[j] {
      assert LowBits(a, 8)[j] == LowBits(a, 8)[1..][j - 1];
    }
  }

  lemma Pc1IgnoresParity(t: Tables, a: Block, b: Block)
    requires SameUpToParity(a, b)
    ensures Permute(DesBits(a), t.pc1) == Permute(DesBits(b), t.pc1)
  {
    forall i | 0 <= i < |t.pc1| ensures DesBits(a)[t.pc1[i]] == DesBits(b)[t.pc1[i]] {
      SameHighBits(a[t.pc1[i] / 8], b[t.pc1[i] / 8]);
    }
  }

  /** Keys that differ only in parity bits have the same round keys and encipher alike. */
  lemma ParityIsIgnored(t: Tables, a: Block, b: Block, data: Block, encrypt: bool)
    requires SameUpToParity(a, b)
    ensures RoundKeys(t, DesBits(a)) == RoundKeys(t, DesBits(b))
    ensures DesBlock(t, data, a, encrypt) == DesBlock(t, data, b, encrypt)
  {
    Pc1IgnoresParity(t, a, b);
  }
}
