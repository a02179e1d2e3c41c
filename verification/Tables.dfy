// The bit tables of DES (FIPS 46-3), 0-indexed with bit 0 the most significant
// bit of byte 0, printed row by row as the standard prints them.
module Tables {

  ghost predicate Below(table: seq<nat>, bound: nat) {
    forall i :: 0 <= i < |table| ==> table[i] < bound
  }

  ghost predicate Distinct(table: seq<nat>) {
    forall i, j :: 0 <= i < j < |table| ==> table[i] != table[j]
  }

  /** PC-1 never selects the last bit of a byte: those are the parity bits. */
  ghost predicate DropsParity(table: seq<nat>) {
    forall i :: 0 <= i < |table| ==> table[i] % 8 != 7
  }

  ghost predicate IsSBox(box: seq<seq<nat>>) {
    && |box| == 4
    && forall row :: 0 <= row < 4 ==> |box[row]| == 16 && Below(box[row], 16)
  }

  const IP_ROWS: seq<seq<nat>> := [
    [57, 49, 41, 33, 25, 17, 9, 1],
    [59, 51, 43, 35, 27, 19, 11, 3],
    [61, 53, 45, 37, 29, 21, 13, 5],
    [63, 55, 47, 39, 31, 23, 15, 7],
    [56, 48, 40, 32, 24, 16, 8, 0],
    [58, 50, 42, 34, 26, 18, 10, 2],
    [60, 52, 44, 36, 28, 20, 12, 4],
    [62, 54, 46, 38, 30, 22, 14, 6]
  ]

  const E_ROWS: seq<seq<nat>> := [
    [31, 0, 1, 2, 3, 4],
    [3, 4, 5, 6, 7, 8],
    [7, 8, 9, 10, 11, 12],
    [11, 12, 13, 14, 15, 16],
    [15, 16, 17, 18, 19, 20],
    [19, 20, 21, 22, 23, 24],
    [23, 24, 25, 26, 27, 28],
    [27, 28, 29, 30, 31, 0]
  ]

  const P_ROWS: seq<seq<nat>> := [
    [15, 6, 19, 20], [28, 11, 27, 16], [0, 14, 22, 25], [4, 17, 30, 9],
    [1, 7, 23, 13], [31, 26, 2, 8], [18, 12, 29, 5], [21, 10, 3, 24]
  ]

  const PC1_ROWS: seq<seq<nat>> := [
    [56, 48, 40, 32, 24, 16, 8],
    [0, 57, 49, 41, 33, 25, 17],
    [9, 1, 58, 50, 42, 34, 26],
    [18, 10, 2, 59, 51, 43, 35],
    [62, 54, 46, 38, 30, 22, 14],
    [6, 61, 53, 45, 37, 29, 21],
    [13, 5, 60, 52, 44, 36, 28],
    [20, 12, 4, 27, 19, 11, 3]
  ]

  const PC2_ROWS: seq<seq<nat>> := [
    [13, 16, 10, 23, 0, 4],
    [2, 27, 14, 5, 20, 9],
    [22, 18, 11, 3, 25, 7],
    [15, 6, 26, 19, 12, 1],
    [40, 51, 30, 36, 46, 54],
    [29, 39, 50, 44, 32, 47],
    [43, 48, 38, 55, 33, 52],
    [45, 41, 49, 35, 28, 31]
  ]

  const SHIFTS: seq<nat> := [1, 1, 2, 2, 2, 2, 2, 2, 1, 2, 2, 2, 2, 2, 2, 1]

  function FourRows(r0: seq<nat>, r1: seq<nat>, r2: seq<nat>, r3: seq<nat>): (box: seq<seq<nat>>)
    requires |r0| == |r1| == |r2| == |r3| == 16
    requires Below(r0, 16) && Below(r1, 16) && Below(r2, 16) && Below(r3, 16)
    ensures IsSBox(box)
  {
    [r0, r1, r2, r3]
  }

  function S1(): (box: seq<seq<nat>>)
    ensures IsSBox(box)
  {
    FourRows([14, 4, 13, 1, 2, 15, 11, 8, 3, 10, 6, 12, 5, 9, 0, 7],
             [0, 15, 7, 4, 14, 2, 13, 1, 10, 6, 12, 11, 9, 5, 3, 8],
             [4, 1, 14, 8, 13, 6, 2, 11, 15, 12, 9, 7, 3, 10, 5, 0],
             [15, 12, 8, 2, 4, 9, 1, 7, 5, 11, 3, 14, 10, 0, 6, 13])
  }

  function S2(): (box: seq<seq<nat>>)
    ensures IsSBox(box)
  {
    FourRows([15, 1, 8, 14, 6, 11, 3, 4, 9, 7, 2, 13, 12, 0, 5, 10],
             [3, 13, 4, 7, 15, 2, 8, 14, 12, 0, 1, 10, 6, 9, 11, 5],
             [0, 14, 7, 11, 10, 4, 13, 1, 5, 8, 12, 6, 9, 3, 2, 15],
             [13, 8, 10, 1, 3, 15, 4, 2, 11, 6, 7, 12, 0, 5, 14, 9])
  }

  function S3(): (box: seq<seq<nat>>)
    ensures IsSBox(box)
  {
    FourRows([10, 0, 9, 14, 6, 3, 15, 5, 1, 13, 12, 7, 11, 4, 2, 8],
             [13, 7, 0, 9, 3, 4, 6, 10, 2, 8, 5, 14, 12, 11, 15, 1],
             [13, 6, 4, 9, 8, 15, 3, 0, 11, 1, 2, 12, 5, 10, 14, 7],
             [1, 10, 13, 0, 6, 9, 8, 7, 4, 15, 14, 3, 11, 5, 2, 12])
  }

  function S4(): (box: seq<seq<nat>>)
    ensures IsSBox(box)
  {
    FourRows([7, 13, 14, 3, 0, 6, 9, 10, 1, 2, 8, 5, 11, 12, 4, 15],
             [13, 8, 11, 5, 6, 15, 0, 3, 4, 7, 2, 12, 1, 10, 14, 9],
             [10, 6, 9, 0, 12, 11, 7, 13, 15, 1, 3, 14, 5, 2, 8, 4],
             [3, 15, 0, 6, 10, 1, 13, 8, 9, 4, 5, 11, 12, 7, 2, 14])
  }

  function S5(): (box: seq<seq<nat>>)
    ensures IsSBox(box)
  {
    FourRows([2, 12, 4, 1, 7, 10, 11, 6, 8, 5, 3, 15, 13, 0, 14, 9],
             [14, 11, 2, 12, 4, 7, 13, 1, 5, 0, 15, 10, 3, 9, 8, 6],
             [4, 2, 1, 11, 10, 13, 7, 8, 15, 9, 12, 5, 6, 3, 0, 14],
             [11, 8, 12, 7, 1, 14, 2, 13, 6, 15, 0, 9, 10, 4, 5, 3])
  }

  function S6(): (box: seq<seq<nat>>)
    ensures IsSBox(box)
  {
    FourRows([12, 1, 10, 15, 9, 2, 6, 8, 0, 13, 3, 4, 14, 7, 5, 11],
             [10, 15, 4, 2, 7, 12, 9, 5, 6, 1, 13, 14, 0, 11, 3, 8],
             [9, 14, 15, 5, 2, 8, 12, 3, 7, 0, 4, 10, 1, 13, 11, 6],
             [4, 3, 2, 12, 9, 5, 15, 10, 11, 14, 1, 7, 6, 0, 8, 13])
  }

  function S7(): (box: seq<seq<nat>>)
    ensures IsSBox(box)
  {
    FourRows([4, 11, 2, 14, 15, 0, 8, 13, 3, 12, 9, 7, 5, 10, 6, 1],
             [13, 0, 11, 7, 4, 9, 1, 10, 14, 3, 5, 12, 2, 15, 8, 6],
             [1, 4, 11, 13, 12, 3, 7, 14, 10, 15, 6, 8, 0, 5, 9, 2],
             [6, 11, 13, 8, 1, 4, 10, 7, 9, 5, 0, 15, 14, 2, 3, 12])
  }

  function S8(): (box: seq<seq<nat>>)
    ensures IsSBox(box)
  {
    FourRows([13, 2, 8, 4, 6, 15, 11, 1, 10, 9, 3, 14, 5, 0, 12, 7],
             [1, 15, 13, 8, 10, 3, 7, 4, 12, 5, 6, 11, 0, 14, 9, 2],
             [7, 11, 4, 1, 9, 12, 14, 2, 0, 6, 10, 13, 15, 3, 5, 8],
             [2, 1, 14, 7, 4, 10, 8, 13, 15, 12, 9, 0, 3, 5, 6, 11])
  }

  function SBoxes(): (boxes: seq<seq<seq<nat>>>)
    ensures |boxes| == 8
    ensures forall b :: 0 <= b < 8 ==> IsSBox(boxes[b])
  {
    [S1(), S2(), S3(), S4(), S5(), S6(), S7(), S8()]
  }

  datatype RawTables = RawTables(
    ip: seq<nat>, e: seq<nat>, p: seq<nat>, pc1: seq<nat>, pc2: seq<nat>,
    shifts: seq<nat>, sbox: seq<seq<seq<nat>>>)
  {
    /** What the proofs about DES need of its tables, and nothing else. */
    ghost predicate Valid() {
      && |ip| == 64 && Below(ip, 64) && Distinct(ip)
      && |e| == 48 && Below(e, 32)
      && |p| == 32 && Below(p, 32)
      && |pc1| == 56 && Below(pc1, 64) && DropsParity(pc1)
      && |pc2| == 48 && Below(pc2, 56)
      && |shifts| == 16
      && |sbox| == 8
      && forall b :: 0 <= b < 8 ==> IsSBox(sbox[b])
    }
  }

  function Ip(): (t: seq<nat>)
    ensures |t| == 64
  {
    seq(64, i requires 0 <= i < 64 => IP_ROWS[i / 8][i % 8])
  }

  function E(): seq<nat> {
    seq(48, i requires 0 <= i < 48 => E_ROWS[i / 6][i % 6])
  }

  function P(): seq<nat> {
    seq(32, i requires 0 <= i < 32 => P_ROWS[i / 4][i % 4])
  }

  function Pc1(): (t: seq<nat>)
    ensures |t| == 56
  {
    seq(56, i requires 0 <= i < 56 => PC1_ROWS[i / 7][i % 7])
  }

  function Pc2(): seq<nat> {
    seq(48, i requires 0 <= i < 48 => PC2_ROWS[i / 6][i % 6])
  }


  lemma IpRows(r: nat, c: nat)
    requires r < 8 && c < 8
    ensures IP_ROWS[r][c] == (if r < 4 then 57 + 2 * r else 48 + 2 * r) - 8 * c
  {
  }

  lemma IpAt(i: nat)
    requires i < 64
    ensures Ip()[i] == (if i < 32 then 57 + 2 * (i / 8) else 48 + 2 * (i / 8)) - 8 * (i % 8)
  {
    IpRows(i / 8, i % 8);
  }

  lemma IpDiffers(i: nat, j: nat)
    requires i < j < 64
    ensures Ip()[i] != Ip()[j]
  {
    hide Ip;
    IpAt(i);
    IpAt(j);
  }

  lemma IpIsPermutation()
    ensures |Ip()| == 64 && Below(Ip(), 64) && Distinct(Ip())
  {
    hide Ip;
    forall i | 0 <= i < 64 ensures Ip()[i] < 64 {
      IpAt(i);
    }
    forall i, j | 0 <= i < j < 64 ensures Ip()[i] != Ip()[j] {
      IpDiffers(i, j);
    }
  }

  lemma EIsExpansion()
    ensures |E()| == 48 && Below(E(), 32)
  {
  }

  lemma PIsValid()
    ensures |P()| == 32 && Below(P(), 32)
  {
  }

  lemma Pc1Rows(r: nat, c: nat)
    requires r < 8 && c < 7
    ensures PC1_ROWS[r][c] < 64 && PC1_ROWS[r][c] % 8 != 7
  {
  }

  lemma Pc1DropsParity()
    ensures Below(Pc1(), 64) && DropsParity(Pc1())
  {
    forall i | 0 <= i < 56 ensures Pc1()[i] < 64 && Pc1()[i] % 8 != 7 {
      Pc1Rows(i / 7, i % 7);
    }
  }

  lemma Pc2IsValid()
    ensures |Pc2()| == 48 && Below(Pc2(), 56)
  {
  }

  /** The tables of the standard have every property the proofs rely on. */
  function Standard(): (t: RawTables)
    ensures t.Valid()
  {
    IpIsPermutation();
    EIsExpansion();
    PIsValid();
    Pc1DropsParity();
    Pc2IsValid();
    RawTables(Ip(), E(), P(), Pc1(), Pc2(), SHIFTS, SBoxes())
  }

  type Tables = t: RawTables | t.Valid() ghost witness Standard()
}
