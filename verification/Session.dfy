// The statement the prover proves about one card session: the key schedule D1-D3 and
// the transcript relations C1-C6, over bytes.
module Session {
  import opened Bits
  import opened Modes

  type Auth2 = s: seq<Byte> | |s| == 32 witness seq(32, i => 0)

  /** The public claim and the private witness of one session. */
  datatype FelicaCircuit = FelicaCircuit(
    idi: Block, r1: Block, attestedAt: nat,
    gsk: Block, usk: Block, idm: Block, c1b: Block, c2a: Block, r2: Block, auth2: Auth2)

  /** The session keys derived from the master keys and the card's IDm. */
  datatype SessionKeys = SessionKeys(l: Block, alpha: Block, beta: Block)

  function DeriveKeys(c: BlockCipher, gsk: Block, usk: Block, idm: Block): SessionKeys {
    var l := XorBytes(gsk, idm);
    var alpha := c.enc(usk, l);
    SessionKeys(l, alpha, c.enc(l, alpha))
  }

  const MAC_CODE: Byte := 0x13
  const M0: Block := [34, 0x13, 0, 0, 0, 0, 0, 0]

  /** AUTH2 decrypted under r2: TN (2), TID (6), IDi (8), PMi (8) and the MAC (8). */
  function Plaintext(c: BlockCipher, auth2: Auth2, r2: Block): (pt: Bytes)
    ensures |pt| == 32
  {
    c.CbcDecryptFrom(ZERO_BLOCK, auth2, r2)
  }

  ghost predicate ChallengeRelations(c: BlockCipher, f: FelicaCircuit, k: SessionKeys) {
    && c.TdesEncrypt(f.r1, k.l, k.beta) == f.c1b
    && c.TdesEncrypt(f.r2, k.l, k.beta) == f.c2a
  }

  ghost predicate MacRelation(c: BlockCipher, pt: Bytes)
    requires |pt| == 32
  {
    c.CommandMac(MAC_CODE, pt[..24]) == pt[24..32]
  }

  ghost predicate BindingRelations(f: FelicaCircuit, pt: Bytes)
    requires |pt| == 32
  {
    pt[2..8] == f.r1[2..8] && pt[8..16] == f.idi
  }

  /** D1-D3 and C1-C6. */
  ghost predicate Relations(c: BlockCipher, f: FelicaCircuit) {
    var k := DeriveKeys(c, f.gsk, f.usk, f.idm);
    var pt := Plaintext(c, f.auth2, f.r2);
    ChallengeRelations(c, f, k) && MacRelation(c, pt) && BindingRelations(f, pt)
  }

  // ------------------------------------------------- the plaintext block by block

  /** Block i decrypted and xored with the i-th previous block, for all blocks. */
  function PlainBlocks(c: BlockCipher, blocks: seq<Block>, prevs: seq<Block>, key: Block): (pt: Bytes)
    requires |blocks| == |prevs|
    ensures |pt| == 8 * |blocks|
    decreases |blocks|
  {
    if blocks == [] then []
    else
      var n := |blocks| - 1;
      PlainBlocks(c, blocks[..n], prevs[..n], key) + XorBytes(c.dec(blocks[n], key), prevs[n])
  }

  function Auth2Blocks(auth2: Auth2): (blocks: seq<Block>)
    ensures |blocks| == 4
  {
    [auth2[..8], auth2[8..16], auth2[16..24], auth2[24..32]]
  }

  /** The ciphertext block before each block: zeros before the first one. */
  function Auth2Previous(auth2: Auth2): (blocks: seq<Block>)
    ensures |blocks| == 4
  {
    [ZERO_BLOCK, auth2[..8], auth2[8..16], auth2[16..24]]
  }

  /** One more block at the front of the chaining. */
  lemma CbcStep(c: BlockCipher, auth2: Auth2, r2: Block, prev: Block, i: nat)
    requires i < 4
    ensures c.CbcDecryptFrom(prev, auth2[8 * i..], r2)
            == XorBytes(c.dec(Auth2Blocks(auth2)[i], r2), prev)
               + c.CbcDecryptFrom(Auth2Blocks(auth2)[i], auth2[8 * (i + 1)..], r2)
  {
    var rest := auth2[8 * i..];
    assert rest[..8] == Auth2Blocks(auth2)[i] && rest[8..] == auth2[8 * (i + 1)..];
  }

  lemma FourPlainBlocks(c: BlockCipher, b: seq<Block>, p: seq<Block>, key: Block)
    requires |b| == 4 && |p| == 4
    ensures PlainBlocks(c, b, p, key)
            == XorBytes(c.dec(b[0], key), p[0]) + XorBytes(c.dec(b[1], key), p[1])
               + XorBytes(c.dec(b[2], key), p[2]) + XorBytes(c.dec(b[3], key), p[3])
  {
    hide XorBytes;
    var x := seq(4, i requires 0 <= i < 4 => XorBytes(c.dec(b[i], key), p[i]));
    assert PlainBlocks(c, b[..1], p[..1], key) == x[0];
    assert b[..2][..1] == b[..1] && p[..2][..1] == p[..1];
    assert PlainBlocks(c, b[..2], p[..2], key) == x[0] + x[1];
    assert b[..3][..2] == b[..2] && p[..3][..2] == p[..2];
    assert PlainBlocks(c, b[..3], p[..3], key) == x[0] + x[1] + x[2];
  }

  lemma FourParts(a: Bytes, b: Bytes, c: Bytes, d: Bytes)
    ensures a + b + c + d == a + (b + (c + (d + [])))
  {
  }

  lemma PlaintextIsCbc(c: BlockCipher, auth2: Auth2, r2: Block)
    ensures PlainBlocks(c, Auth2Blocks(auth2), Auth2Previous(auth2), r2) == Plaintext(c, auth2, r2)
  {
    var b, p := Auth2Blocks(auth2), Auth2Previous(auth2);
    FourPlainBlocks(c, b, p, r2);
    assert auth2[0..] == auth2 && auth2[32..] == [];
    CbcStep(c, auth2, r2, ZERO_BLOCK, 0);
    CbcStep(c, auth2, r2, b[0], 1);
    CbcStep(c, auth2, r2, b[1], 2);
    CbcStep(c, auth2, r2, b[2], 3);
    assert c.CbcDecryptFrom(b[3], auth2[32..], r2) == [];
    hide XorBytes, PlainBlocks, BlockCipher.CbcDecryptFrom, Auth2Blocks, Auth2Previous;
    FourParts(XorBytes(c.dec(b[0], r2), p[0]), XorBytes(c.dec(b[1], r2), p[1]),
              XorBytes(c.dec(b[2], r2), p[2]), XorBytes(c.dec(b[3], r2), p[3]));
  }

  // ------------------------------------------------------- the relations, as equations

  /** D1-D3: the derived keys are the one triple that decrypts back to the master keys and the IDm. */
  lemma KeysMean(c: BlockCipher, gsk: Block, usk: Block, idm: Block, k: SessionKeys)
    requires c.Invertible()
    ensures k == DeriveKeys(c, gsk, usk, idm) <==>
            k.l == XorBytes(gsk, idm) && c.dec(k.alpha, k.l) == usk && c.dec(k.beta, k.alpha) == k.l
  {
    hide XorBytes;
    assert c.enc(c.dec(k.alpha, k.l), k.l) == k.alpha;
    assert c.enc(c.dec(k.beta, k.alpha), k.alpha) == k.beta;
  }

  /** C3: the plaintext xored with the previous ciphertext block is what DES gives, for each of the four blocks. */
  lemma PlaintextMeans(c: BlockCipher, auth2: Auth2, r2: Block, pt: Bytes)
    requires |pt| == 32
    ensures pt == Plaintext(c, auth2, r2) <==>
            && XorBytes(pt[..8], [0, 0, 0, 0, 0, 0, 0, 0]) == c.dec(auth2[..8], r2)
            && XorBytes(pt[8..16], auth2[..8]) == c.dec(auth2[8..16], r2)
            && XorBytes(pt[16..24], auth2[8..16]) == c.dec(auth2[16..24], r2)
            && XorBytes(pt[24..32], auth2[16..24]) == c.dec(auth2[24..32], r2)
  {
    hide XorBytes, Plaintext;
    PlainBlockMeans(c, auth2, r2, pt[..8], 0);
    PlainBlockMeans(c, auth2, r2, pt[8..16], 1);
    PlainBlockMeans(c, auth2, r2, pt[16..24], 2);
    PlainBlockMeans(c, auth2, r2, pt[24..32], 3);
    EqualByFour(pt, Plaintext(c, auth2, r2));
  }

  lemma PlainBlockMeans(c: BlockCipher, auth2: Auth2, r2: Block, x: Block, i: nat)
    requires i < 4
    ensures x == Plaintext(c, auth2, r2)[8 * i..8 * i + 8] <==>
            XorBytes(x, if i == 0 then [0, 0, 0, 0, 0, 0, 0, 0] else auth2[8 * i - 8..8 * i])
            == c.dec(auth2[8 * i..8 * i + 8], r2)
  {
    hide XorBytes, BlockCipher.CbcDecryptFrom;
    CbcDecryptBlock(c, ZERO_BLOCK, auth2, r2, i);
    XorMoves(x, c.dec(auth2[8 * i..8 * i + 8], r2), if i == 0 then ZERO_BLOCK else auth2[8 * i - 8..8 * i]);
  }

  lemma EqualByFour(a: Bytes, b: Bytes)
    requires |a| == |b| == 32
    ensures a == b <==> a[..8] == b[..8] && a[8..16] == b[8..16] && a[16..24] == b[16..24] && a[24..32] == b[24..32]
  {
    assert a == a[..8] + a[8..16] + a[16..24] + a[24..32];
    assert b == b[..8] + b[8..16] + b[16..24] + b[24..32];
  }

  /** C4: three encryptions under the plaintext blocks, from 34, 0x13 and six zeros, give the last eight bytes. */
  lemma MacMeans(c: BlockCipher, pt: Bytes)
    requires |pt| == 32
    ensures MacRelation(c, pt) <==>
            c.enc(c.enc(c.enc([34, 0x13, 0, 0, 0, 0, 0, 0], pt[..8]), pt[8..16]), pt[16..24]) == pt[24..32]
  {
    var m0: Block := [34, 0x13, 0, 0, 0, 0, 0, 0];
    var m1 := c.enc(m0, pt[..8]);
    var m2 := c.enc(m1, pt[8..16]);
    var m3 := c.enc(m2, pt[16..24]);
    var macs, padded := [m0, m1, m2, m3], pt[..24];
    assert padded[0..8] == pt[..8] && padded[8..16] == pt[8..16] && padded[16..24] == pt[16..24];
    forall i | 0 <= i < 3 ensures macs[i + 1] == c.enc(macs[i], padded[8 * i..8 * i + 8]) {
      if i == 0 {} else if i == 1 {} else {}
    }
    CommandMacMeans(c, MAC_CODE, padded, macs);
  }

  /** C1 and C2 with the middle decryption moved to the other side. */
  lemma ChallengesMean(c: BlockCipher, f: FelicaCircuit)
    requires c.Invertible()
    ensures var k := DeriveKeys(c, f.gsk, f.usk, f.idm);
            ChallengeRelations(c, f, k) <==>
              && c.enc(c.dec(f.c1b, k.l), k.beta) == c.enc(f.r1, k.l)
              && c.enc(c.dec(f.c2a, k.l), k.beta) == c.enc(f.r2, k.l)
    ensures Relations(c, f) ==> ChallengeRelations(c, f, DeriveKeys(c, f.gsk, f.usk, f.idm))
  {
    hide DeriveKeys, MacRelation, Plaintext;
    var k := DeriveKeys(c, f.gsk, f.usk, f.idm);
    TdesMeans(c, f.r1, f.c1b, k.l, k.beta);
    TdesMeans(c, f.r2, f.c2a, k.l, k.beta);
  }

  /**
   * All relations between the keys, the plaintext and the bytes of a session: C1 and C2 with the middle decryption
   * moved to the other side, C4 as the chain of encryptions, C5 and C6 on bytes 2 to 15.
   */
  lemma RelationsMean(c: BlockCipher, f: FelicaCircuit, k: SessionKeys, pt: Bytes)
    requires c.Invertible() && |pt| == 32
    requires k.l == XorBytes(f.gsk, f.idm) && c.dec(k.alpha, k.l) == f.usk && c.dec(k.beta, k.alpha) == k.l
    requires XorBytes(pt[..8], [0, 0, 0, 0, 0, 0, 0, 0]) == c.dec(f.auth2[..8], f.r2)
    requires XorBytes(pt[8..16], f.auth2[..8]) == c.dec(f.auth2[8..16], f.r2)
    requires XorBytes(pt[16..24], f.auth2[8..16]) == c.dec(f.auth2[16..24], f.r2)
    requires XorBytes(pt[24..32], f.auth2[16..24]) == c.dec(f.auth2[24..32], f.r2)
    ensures Relations(c, f) <==>
            && c.enc(c.dec(f.c1b, k.l), k.beta) == c.enc(f.r1, k.l)
            && c.enc(c.dec(f.c2a, k.l), k.beta) == c.enc(f.r2, k.l)
            && c.enc(c.enc(c.enc([34, 0x13, 0, 0, 0, 0, 0, 0], pt[..8]), pt[8..16]), pt[16..24]) == pt[24..32]
            && pt[2..8] == f.r1[2..8]
            && pt[8..16] == f.idi
  {
    hide XorBytes, DeriveKeys, Plaintext, MacRelation;
    KeysMean(c, f.gsk, f.usk, f.idm, k);
    PlaintextMeans(c, f.auth2, f.r2, pt);
    ChallengesMean(c, f);
    MacMeans(c, pt);
  }
}
