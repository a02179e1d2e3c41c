// Two-key 3DES, CBC under a zero IV and the command MAC, over any block cipher.
// DesLaws shows that DES is one whose two directions undo each other.
module Modes {
  import opened Bits
  import opened Results

  const ZERO_BLOCK: Block := [0, 0, 0, 0, 0, 0, 0, 0]

  /** enc(data, key) and dec(data, key): data first, as the prover's functions have it. */
  datatype BlockCipher = BlockCipher(enc: (Block, Block) -> Block, dec: (Block, Block) -> Block)
  {
    ghost predicate Invertible() {
      forall data: Block, key: Block :: dec(enc(data, key), key) == data && enc(dec(data, key), key) == data
    }

    /** Two-key EDE: K1, K2, K1. */
    function TdesEncrypt(data: Block, k1: Block, k2: Block): Block {
      enc(dec(enc(data, k1), k2), k1)
    }

    function TdesDecrypt(data: Block, k1: Block, k2: Block): Block {
      dec(enc(dec(data, k1), k2), k1)
    }

    function CbcEncryptFrom(prev: Block, data: Bytes, key: Block): (out: Bytes)
      requires |data| % 8 == 0
      ensures |out| == |data|
      decreases |data|
    {
      if data == [] then []
      else
        var ct := enc(XorBytes(data[..8], prev), key);
        ct + CbcEncryptFrom(ct, data[8..], key)
    }

    function CbcDecryptFrom(prev: Block, data: Bytes, key: Block): (out: Bytes)
      requires |data| % 8 == 0
      ensures |out| == |data|
      decreases |data|
    {
      if data == [] then []
      else XorBytes(dec(data[..8], key), prev) + CbcDecryptFrom(data[..8], data[8..], key)
    }

    function CbcEncryptZeroIv(data: Bytes, key: Block): (out: Bytes)
      requires |data| % 8 == 0
      ensures |out| == |data|
    {
      CbcEncryptFrom(ZERO_BLOCK, data, key)
    }

    function CbcDecrypt(data: Bytes, key: Block): (out: Option<Bytes>) {
      if |data| % 8 != 0 then None else Some(CbcDecryptFrom(ZERO_BLOCK, data, key))
    }

    /** Every block of the message is the DES key of one step of the running MAC. */
    function MacChain(mac: Block, blocks: Bytes): (out: Block)
      requires |blocks| % 8 == 0
      decreases |blocks|
    {
      if blocks == [] then mac else MacChain(enc(mac, blocks[..8]), blocks[8..])
    }

    function CommandMac(code: Byte, padded: Bytes): (out: Block)
      requires |padded| % 8 == 0 && |padded| + 10 < 256
    {
      MacChain([|padded| + 10, code, 0, 0, 0, 0, 0, 0], padded)
    }
  }

  lemma TdesInverse(c: BlockCipher, data: Block, k1: Block, k2: Block)
    requires c.Invertible()
    ensures c.TdesDecrypt(c.TdesEncrypt(data, k1, k2), k1, k2) == data
    ensures c.TdesEncrypt(c.TdesDecrypt(data, k1, k2), k1, k2) == data
  {
    assert c.dec(c.enc(c.dec(c.enc(data, k1), k2), k1), k1) == c.dec(c.enc(data, k1), k2);
    assert c.enc(c.dec(c.enc(c.dec(data, k1), k2), k1), k1) == c.enc(c.dec(data, k1), k2);
  }

  /** With one key twice, 3DES is single DES. */
  lemma TdesCollapses(c: BlockCipher, data: Block, key: Block)
    requires c.Invertible()
    ensures c.TdesEncrypt(data, key, key) == c.enc(data, key) && c.TdesDecrypt(data, key, key) == c.dec(data, key)
  {
    assert c.dec(c.enc(data, key), key) == data;
    assert c.enc(c.dec(data, key), key) == data;
  }

  lemma {:induction false} CbcDecryptEncrypt(c: BlockCipher, prev: Block, data: Bytes, key: Block)
    requires c.Invertible() && |data| % 8 == 0
    ensures c.CbcDecryptFrom(prev, c.CbcEncryptFrom(prev, data, key), key) == data
    decreases |data|
  {
    if data != [] {
      var ct := c.enc(XorBytes(data[..8], prev), key);
      var out := c.CbcEncryptFrom(prev, data, key);
      assert out[..8] == ct && out[8..] == c.CbcEncryptFrom(ct, data[8..], key);
      XorTwice(data[..8], prev);
      CbcDecryptEncrypt(c, ct, data[8..], key);
      assert data == data[..8] + data[8..];
    }
  }

  lemma {:induction false} CbcEncryptDecrypt(c: BlockCipher, prev: Block, data: Bytes, key: Block)
    requires c.Invertible() && |data| % 8 == 0
    ensures c.CbcEncryptFrom(prev, c.CbcDecryptFrom(prev, data, key), key) == data
    decreases |data|
  {
    if data != [] {
      var pt := XorBytes(c.dec(data[..8], key), prev);
      var out := c.CbcDecryptFrom(prev, data, key);
      assert out[..8] == pt && out[8..] == c.CbcDecryptFrom(data[..8], data[8..], key);
      XorTwice(c.dec(data[..8], key), prev);
      CbcEncryptDecrypt(c, data[..8], data[8..], key);
      assert data == data[..8] + data[8..];
    }
  }

  /** Under a zero IV the two CBC directions undo each other, for every whole number of blocks. */
  lemma CbcInverse(c: BlockCipher, data: Bytes, key: Block)
    requires c.Invertible() && |data| % 8 == 0
    ensures c.CbcDecrypt(c.CbcEncryptZeroIv(data, key), key) == Some(data)
    ensures c.CbcEncryptZeroIv(c.CbcDecrypt(data, key).value, key) == data
  {
    CbcDecryptEncrypt(c, ZERO_BLOCK, data, key);
    CbcEncryptDecrypt(c, ZERO_BLOCK, data, key);
  }

  // ------------------------------------------------------- the same, as equations

  /** Middle-decryption form: y encrypts x exactly when undoing K1 and redoing K2 meets one encryption of x. */
  lemma TdesMeans(c: BlockCipher, x: Block, y: Block, k1: Block, k2: Block)
    requires c.Invertible()
    ensures c.TdesEncrypt(x, k1, k2) == y <==> c.enc(c.dec(y, k1), k2) == c.enc(x, k1)
    ensures c.TdesDecrypt(y, k1, k2) == x <==> c.enc(c.dec(y, k1), k2) == c.enc(x, k1)
  {
    TdesInverse(c, x, k1, k2);
    TdesInverse(c, y, k1, k2);
    assert c.dec(c.enc(c.dec(c.enc(x, k1), k2), k1), k1) == c.dec(c.enc(x, k1), k2);
    assert c.enc(c.dec(c.enc(x, k1), k2), k2) == c.enc(x, k1);
    assert c.dec(c.enc(c.dec(y, k1), k2), k2) == c.dec(y, k1);
    assert c.enc(c.dec(y, k1), k1) == y;
  }

  lemma CbcDecryptSplits(c: BlockCipher, prev: Block, data: Bytes, key: Block)
    requires |data| % 8 == 0 && data != []
    ensures c.CbcDecryptFrom(prev, data, key)[..8] == XorBytes(c.dec(data[..8], key), prev)
    ensures c.CbcDecryptFrom(prev, data, key)[8..] == c.CbcDecryptFrom(data[..8], data[8..], key)
  {
    hide XorBytes;
  }

  lemma BlockOfTail(s: Bytes, i: nat)
    requires 8 <= 8 * i <= |s| - 8
    ensures s[8..][8 * (i - 1)..8 * (i - 1) + 8] == s[8 * i..8 * i + 8]
  {
  }

  lemma {:induction false} CbcDecryptBlock(c: BlockCipher, prev: Block, data: Bytes, key: Block, i: nat)
    requires |data| % 8 == 0 && 8 * i < |data|
    ensures c.CbcDecryptFrom(prev, data, key)[8 * i..8 * i + 8]
            == XorBytes(c.dec(data[8 * i..8 * i + 8], key), if i == 0 then prev else data[8 * i - 8..8 * i])
    decreases i
  {
    hide XorBytes, BlockCipher.CbcDecryptFrom;
    CbcDecryptSplits(c, prev, data, key);
    if i > 0 {
      CbcDecryptBlock(c, data[..8], data[8..], key, i - 1);
      BlockOfTail(c.CbcDecryptFrom(prev, data, key), i);
      BlockOfTail(data, i);
      if i > 1 {
        BlockOfTail(data, i - 1);
      }
    }
  }

  lemma EqualByBlocks(a: Bytes, b: Bytes)
    requires |a| == |b| && |a| % 8 == 0
    requires forall i :: 0 <= i < |a| / 8 ==> a[8 * i..8 * i + 8] == b[8 * i..8 * i + 8]
    ensures a == b
  {
    forall k | 0 <= k < |a| ensures a[k] == b[k] {
      var i := k / 8;
      assert a[8 * i..8 * i + 8][k % 8] == b[8 * i..8 * i + 8][k % 8];
    }
  }

  lemma XorMoves(x: Block, y: Block, z: Block)
    ensures x == XorBytes(y, z) <==> XorBytes(x, z) == y
  {
    hide XorBytes;
    XorTwice(x, z);
    XorTwice(y, z);
  }

  /** Decryption under a zero IV, block by block: the plaintext xored with the previous ciphertext is what DES gives. */
  lemma CbcDecryptMeans(c: BlockCipher, ct: Bytes, key: Block, pt: Bytes)
    ensures |ct| % 8 != 0 ==> c.CbcDecrypt(ct, key) == None
    ensures |ct| % 8 == 0 && |pt| == |ct| ==>
      (c.CbcDecrypt(ct, key) == Some(pt) <==>
       forall i :: 0 <= i < |ct| / 8 ==>
         XorBytes(pt[8 * i..8 * i + 8], if i == 0 then [0, 0, 0, 0, 0, 0, 0, 0] else ct[8 * i - 8..8 * i])
         == c.dec(ct[8 * i..8 * i + 8], key))
  {
    hide XorBytes, BlockCipher.CbcDecryptFrom;
    if |ct| % 8 == 0 && |pt| == |ct| {
      var out := c.CbcDecryptFrom(ZERO_BLOCK, ct, key);
      forall i | 0 <= i < |ct| / 8
        ensures pt[8 * i..8 * i + 8] == out[8 * i..8 * i + 8] <==>
          XorBytes(pt[8 * i..8 * i + 8], if i == 0 then [0, 0, 0, 0, 0, 0, 0, 0] else ct[8 * i - 8..8 * i])
          == c.dec(ct[8 * i..8 * i + 8], key)
      {
        CbcDecryptBlock(c, ZERO_BLOCK, ct, key, i);
        var prev: Block := if i == 0 then [0, 0, 0, 0, 0, 0, 0, 0] else ct[8 * i - 8..8 * i];
        XorMoves(pt[8 * i..8 * i + 8], c.dec(ct[8 * i..8 * i + 8], key), prev);
      }
      if forall i :: 0 <= i < |ct| / 8 ==> pt[8 * i..8 * i + 8] == out[8 * i..8 * i + 8] {
        EqualByBlocks(pt, out);
      }
    }
  }

  /** Encryption under a zero IV, block by block. */
  lemma CbcEncryptMeans(c: BlockCipher, pt: Bytes, key: Block, ct: Bytes)
    requires c.Invertible() && |pt| % 8 == 0 && |ct| == |pt|
    ensures c.CbcEncryptZeroIv(pt, key) == ct <==>
            forall i :: 0 <= i < |ct| / 8 ==>
              XorBytes(pt[8 * i..8 * i + 8], if i == 0 then [0, 0, 0, 0, 0, 0, 0, 0] else ct[8 * i - 8..8 * i])
              == c.dec(ct[8 * i..8 * i + 8], key)
  {
    CbcInverse(c, pt, key);
    CbcInverse(c, ct, key);
    CbcDecryptMeans(c, ct, key, pt);
  }

  /** The MAC ends any chain that starts at the length and the code and encrypts under one block after another. */
  lemma CommandMacMeans(c: BlockCipher, code: Byte, padded: Bytes, macs: seq<Block>)
    requires |padded| % 8 == 0 && |padded| + 10 < 256 && |macs| == |padded| / 8 + 1
    requires macs[0] == [|padded| + 10, code, 0, 0, 0, 0, 0, 0]
    requires forall i :: 0 <= i < |padded| / 8 ==> macs[i + 1] == c.enc(macs[i], padded[8 * i..8 * i + 8])
    ensures c.CommandMac(code, padded) == macs[|padded| / 8]
  {
    MacChainMeans(c, padded, macs);
  }

  lemma {:induction false} MacChainMeans(c: BlockCipher, padded: Bytes, macs: seq<Block>)
    requires |padded| % 8 == 0 && |macs| == |padded| / 8 + 1
    requires forall i :: 0 <= i < |padded| / 8 ==> macs[i + 1] == c.enc(macs[i], padded[8 * i..8 * i + 8])
    ensures c.MacChain(macs[0], padded) == macs[|padded| / 8]
    decreases |padded|
  {
    if padded != [] {
      var rest, later := padded[8..], macs[1..];
      forall i | 0 <= i < |rest| / 8 ensures later[i + 1] == c.enc(later[i], rest[8 * i..8 * i + 8]) {
        assert macs[i + 2] == c.enc(macs[i + 1], padded[8 * (i + 1)..8 * (i + 1) + 8]);
        assert rest[8 * i..8 * i + 8] == padded[8 * (i + 1)..8 * (i + 1) + 8];
      }
      MacChainMeans(c, rest, later);
      assert macs[1] == c.enc(macs[0], padded[8 * 0..8 * 0 + 8]);
    }
  }
}
