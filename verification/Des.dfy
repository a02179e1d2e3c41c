// DES as functions on bit vectors, and on blocks at the end. Everything is generic
// in the tables; the laws of the cipher are in DesLaws.
module Des {
  import opened Bits
  import opened Tables

  function Permute<T>(bits: seq<T>, table: seq<nat>): (r: seq<T>)
    requires Below(table, |bits|)
    ensures |r| == |table|
    ensures forall i :: 0 <= i < |table| ==> r[i] == bits[table[i]]
  {
    seq(|table|, i requires 0 <= i < |table| => bits[table[i]])
  }

  function RotateLeft<T>(v: seq<T>, n: nat): (r: seq<T>)
    ensures |r| == |v|
  {
    seq(|v|, i requires 0 <= i < |v| => v[(i + n) % |v|])
  }

  // --------------------------------------------------------------- key schedule

  /** The round keys that remain once the two 28-bit halves are c and d. */
  function Schedule<T>(t: Tables, c: seq<T>, d: seq<T>, shifts: seq<nat>): (keys: seq<seq<T>>)
    requires |c| == 28 && |d| == 28
    ensures |keys| == |shifts|
    ensures forall k :: 0 <= k < |keys| ==> |keys[k]| == 48
    decreases |shifts|
  {
    if shifts == [] then []
    else
      var c', d' := RotateLeft(c, shifts[0]), RotateLeft(d, shifts[0]);
      [Permute(c' + d', t.pc2)] + Schedule(t, c', d', shifts[1..])
  }

  function RoundKeys<T>(t: Tables, key: seq<T>): (keys: seq<seq<T>>)
    requires |key| == 64
    ensures |keys| == 16
    ensures forall k :: 0 <= k < 16 ==> |keys[k]| == 48
  {
    var pc1 := Permute(key, t.pc1);
    Schedule(t, pc1[..28], pc1[28..], t.shifts)
  }

  // ---------------------------------------------------------------- round function

  function BitNum(b: bool): nat {
    if b then 1 else 0
  }

  /** S-box lookup: the outer two bits select the row, the inner four the column. */
  function SBoxLookup(t: Tables, box: nat, bits: BitVec): (v: nat)
    requires box < 8 && |bits| == 6
    ensures v < 16
  {
    var row := 2 * BitNum(bits[0]) + BitNum(bits[5]);
    var col := 8 * BitNum(bits[1]) + 4 * BitNum(bits[2]) + 2 * BitNum(bits[3]) + BitNum(bits[4]);
    assert IsSBox(t.sbox[box]);
    t.sbox[box][row][col]
  }

  /** The four bits of an S-box output, most significant first. */
  function Nibble(v: nat): (bits: BitVec)
    ensures |bits| == 4
  {
    [v / 8 % 2 == 1, v / 4 % 2 == 1, v / 2 % 2 == 1, v % 2 == 1]
  }

  /** The first n S-boxes applied to the first 6 * n bits. */
  function SBoxLayer(t: Tables, x: BitVec, n: nat): (r: BitVec)
    requires n <= 8 && |x| == 48
    ensures |r| == 4 * n
  {
    if n == 0 then []
    else SBoxLayer(t, x, n - 1) + Nibble(SBoxLookup(t, n - 1, x[6 * n - 6..6 * n]))
  }

  function Feistel(t: Tables, r: BitVec, key: BitVec): (f: BitVec)
    requires |r| == 32 && |key| == 48
    ensures |f| == 32
  {
    Permute(SBoxLayer(t, Xor(Permute(r, t.e), key), 8), t.p)
  }

  ghost predicate AreRoundKeys<T>(keys: seq<seq<T>>) {
    forall k :: 0 <= k < |keys| ==> |keys[k]| == 48
  }

  /** The pair of halves after one Feistel round per key. */
  function Rounds(t: Tables, l: BitVec, r: BitVec, keys: seq<BitVec>): (lr: (BitVec, BitVec))
    requires |l| == 32 && |r| == 32 && AreRoundKeys(keys)
    ensures |lr.0| == 32 && |lr.1| == 32
    decreases |keys|
  {
    if keys == [] then (l, r)
    else Rounds(t, r, Xor(l, Feistel(t, r, keys[0])), keys[1..])
  }

  // ------------------------------------------------------------------- the block

  /** The table after fp[table[i]] := i has been done for the first n entries. */
  function InverseTable(table: seq<nat>, n: nat): (inv: seq<nat>)
    requires n <= |table| && Below(table, |table|)
    ensures |inv| == |table| && Below(inv, |table|)
  {
    if n == 0 then seq(|table|, i => 0)
    else InverseTable(table, n - 1)[table[n - 1] := n - 1]
  }

  function Reverse<T>(s: seq<T>): (r: seq<T>)
    ensures |r| == |s|
    ensures forall i :: 0 <= i < |s| ==> r[i] == s[|s| - 1 - i]
  {
    seq(|s|, i requires 0 <= i < |s| => s[|s| - 1 - i])
  }

  /** One block under the given round keys: no final swap, so R16 comes first. */
  function Cipher(t: Tables, data: BitVec, keys: seq<BitVec>): (out: BitVec)
    requires |data| == 64 && AreRoundKeys(keys)
    ensures |out| == 64
  {
    var ip := Permute(data, t.ip);
    var (l, r) := Rounds(t, ip[..32], ip[32..], keys);
    Permute(r + l, InverseTable(t.ip, 64))
  }

  function KeysFor<T>(t: Tables, key: seq<T>, encrypt: bool): (keys: seq<seq<T>>)
    requires |key| == 64
    ensures |keys| == 16 && AreRoundKeys(keys)
  {
    if encrypt then RoundKeys(t, key) else Reverse(RoundKeys(t, key))
  }

  /** One DES block on DES-ordered bits. */
  function DesOnBits(t: Tables, data: BitVec, key: BitVec, encrypt: bool): (out: BitVec)
    requires |data| == 64 && |key| == 64
    ensures |out| == 64
  {
    Cipher(t, data, KeysFor(t, key, encrypt))
  }

  function DesBlock(t: Tables, data: Block, key: Block, encrypt: bool): (out: Block) {
    BytesOfDes(DesOnBits(t, DesBits(data), DesBits(key), encrypt))
  }
}
