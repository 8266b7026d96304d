/**
 * The ECB and CBC modes (sections 6.1 and 6.2 of NIST SP 800-38A) and block padding (section 6.3 of RFC 5652),
 * as functions of whole messages.
 */
module BlockModes {
  import opened Fips197
  import opened Options
  import AesInverse

  const ECB := 0
  const CBC := 1
  const CFB1 := 2

  // ----- Modes -----

  /** Ciphertext block `j`: in CBC the plaintext block is first added to the ciphertext block before it. */
  function EncryptedBlock(mode: int, p: seq<Block>, iv: Block, w: seq<Block>, j: nat): Block
    requires j < |p| && |w| >= 2
  {
    if mode == ECB then Cipher(p[j], w)
    else Cipher(AddRoundKey(p[j], if j == 0 then iv else EncryptedBlock(mode, p, iv, w, j - 1)), w)
  }

  function EncryptBlocks(mode: int, p: seq<Block>, iv: Block, w: seq<Block>): (c: seq<Block>)
    requires |w| >= 2
    ensures |c| == |p|
  {
    seq(|p|, j requires 0 <= j < |p| => EncryptedBlock(mode, p, iv, w, j))
  }

  function DecryptedBlock(mode: int, c: seq<Block>, iv: Block, dw: seq<Block>, j: nat): Block
    requires j < |c| && |dw| >= 2
  {
    var d := EqInvCipher(c[j], dw);
    if mode == ECB then d else AddRoundKey(d, if j == 0 then iv else c[j - 1])
  }

  function DecryptBlocks(mode: int, c: seq<Block>, iv: Block, dw: seq<Block>): (p: seq<Block>)
    requires |dw| >= 2
    ensures |p| == |c|
  {
    seq(|c|, j requires 0 <= j < |c| => DecryptedBlock(mode, c, iv, dw, j))
  }

  /** The block is the cipher of the plaintext block, in CBC with the ciphertext block before it, or the vector, added. */
  predicate IsChained(mode: int, p: seq<Block>, iv: Block, w: seq<Block>, c: seq<Block>, j: nat)
    requires |w| >= 2 && j < |p| == |c|
  {
    if mode == ECB then c[j] == Cipher(p[j], w)
    else if j == 0 then c[j] == Cipher(AddRoundKey(p[j], iv), w)
    else c[j] == Cipher(AddRoundKey(p[j], c[j - 1]), w)
  }

  /** The ciphertext of a message is the one sequence of blocks that are all chained so. */
  lemma EncryptedExactly(mode: int, p: seq<Block>, iv: Block, w: seq<Block>, c: seq<Block>)
    requires |w| >= 2
    ensures c == EncryptBlocks(mode, p, iv, w) <==> |c| == |p| && forall j :: 0 <= j < |p| ==> IsChained(mode, p, iv, w, c, j)
  {
    hide Cipher, AddRoundKey;
    if |c| == |p| && forall j :: 0 <= j < |p| ==> IsChained(mode, p, iv, w, c, j) {
      forall j | 0 <= j < |p| ensures c[j] == EncryptedBlock(mode, p, iv, w, j) { ChainedBlock(mode, p, iv, w, c, j); }
    }
  }

  lemma {:induction false} ChainedBlock(mode: int, p: seq<Block>, iv: Block, w: seq<Block>, c: seq<Block>, j: nat)
    requires |w| >= 2 && |c| == |p| && j < |p|
    requires forall j :: 0 <= j < |p| ==> IsChained(mode, p, iv, w, c, j)
    ensures c[j] == EncryptedBlock(mode, p, iv, w, j)
  {
    hide Cipher, AddRoundKey;
    assert IsChained(mode, p, iv, w, c, j);
    if mode != ECB && j > 0 { ChainedBlock(mode, p, iv, w, c, j - 1); }
  }

  /** Decryption under the same key, mode and initial vector restores the message. */
  lemma DecryptBlocksInvertsEncryptBlocks(mode: int, p: seq<Block>, iv: Block, w: seq<Block>)
    requires |w| >= 2
    ensures DecryptBlocks(mode, EncryptBlocks(mode, p, iv, w), iv, DecryptionKeys(w)) == p
  {
    hide Cipher, EqInvCipher, DecryptionKeys, AddRoundKey;
    var c := EncryptBlocks(mode, p, iv, w);
    forall j | 0 <= j < |p| ensures DecryptedBlock(mode, c, iv, DecryptionKeys(w), j) == p[j] {
      var chained := if j == 0 then iv else c[j - 1];
      if mode == ECB {
        AesInverse.DecryptionInvertsEncryption(p[j], w);
      } else {
        AesInverse.DecryptionInvertsEncryption(AddRoundKey(p[j], chained), w);
        AesInverse.AddKeyTwice(p[j], chained);
      }
    }
  }

  // ----- Blocks and bytes -----

  function WordAt(s: seq<bv8>, i: nat): Word
    requires i + 4 <= |s|
  {
    Pack(s[i], s[i + 1], s[i + 2], s[i + 3])
  }

  function BlockAt(s: seq<bv8>, i: nat): Block
    requires i + 16 <= |s|
  {
    Block(WordAt(s, i), WordAt(s, i + 4), WordAt(s, i + 8), WordAt(s, i + 12))
  }

  function BlocksOf(s: seq<bv8>): (b: seq<Block>)
    ensures |b| == |s| / 16
  {
    seq(|s| / 16, j requires 0 <= j < |s| / 16 => BlockAt(s, 16 * j))
  }

  function WordBytes(w: Word): (s: seq<bv8>)
    ensures |s| == 4
  {
    [B0(w), B1(w), B2(w), B3(w)]
  }

  function BlockBytes(b: Block): (s: seq<bv8>)
    ensures |s| == 16
  {
    WordBytes(b.c0) + WordBytes(b.c1) + WordBytes(b.c2) + WordBytes(b.c3)
  }

  function BytesOf(b: seq<Block>): (s: seq<bv8>)
    ensures |s| == 16 * |b|
  {
    if b == [] then [] else BytesOf(b[..|b| - 1]) + BlockBytes(b[|b| - 1])
  }

  lemma WordBytesOfWordAt(s: seq<bv8>, i: nat)
    requires i + 4 <= |s|
    ensures WordBytes(WordAt(s, i)) == s[i..i + 4]
  {
    hide Pack, B0, B1, B2, B3;
    PackBytes(s[i], s[i + 1], s[i + 2], s[i + 3]);
  }

  lemma BlockBytesOfBlockAt(s: seq<bv8>, i: nat)
    requires i + 16 <= |s|
    ensures BlockBytes(BlockAt(s, i)) == s[i..i + 16]
  {
    hide WordAt, WordBytes;
    WordBytesOfWordAt(s, i); WordBytesOfWordAt(s, i + 4); WordBytesOfWordAt(s, i + 8); WordBytesOfWordAt(s, i + 12);
  }

  lemma {:induction false} BytesOfBlocksOf(s: seq<bv8>)
    requires |s| % 16 == 0
    ensures BytesOf(BlocksOf(s)) == s
  {
    hide BlockAt, BlockBytes;
    if s != [] {
      var k := |s| - 16;
      BytesOfBlocksOf(s[..k]);
      var b := BlocksOf(s);
      forall j | 0 <= j < |b| - 1 ensures b[j] == BlocksOf(s[..k])[j] { BlockAtPrefix(s, k, 16 * j); }
      assert b[..|b| - 1] == BlocksOf(s[..k]);
      BlockBytesOfBlockAt(s, k);
    }
  }

  lemma BlockAtPrefix(s: seq<bv8>, k: nat, i: nat)
    requires i + 16 <= k <= |s|
    ensures BlockAt(s[..k], i) == BlockAt(s, i)
  {
    hide Pack;
  }

  // ----- Padding -----

  function PadLength(n: nat): (p: nat)
    ensures 1 <= p <= 16 && (n + p) % 16 == 0
  {
    16 - n % 16
  }

  /** The message followed by as many bytes, of that value, as fill its last block. */
  function Pad(s: seq<bv8>): (r: seq<bv8>)
    ensures |r| % 16 == 0 && |r| == 16 * (|s| / 16 + 1) && r[..|s|] == s
  {
    s + seq(PadLength(|s|), _ => PadLength(|s|) as bv8)
  }

  /** What padded decryption makes of the decrypted bytes: the message, or nothing when the padding is corrupt. */
  function Unpad(mode: int, r: seq<bv8>): Option<seq<bv8>>
    requires |r| >= 16
  {
    var padLen := r[|r| - 1] as int;
    if if mode == ECB then padLen >= 16 else padLen <= 0 || padLen > 16 then None
    else if forall i :: |r| - padLen <= i < |r| ==> r[i] as int == padLen then Some(r[..|r| - padLen])
    else None
  }

  /** The bytes end with as many as are left of them, all of that value. */
  predicate IsPadded(r: seq<bv8>, s: seq<bv8>) {
    |s| <= |r| && r[..|s|] == s && forall i :: |s| <= i < |r| ==> r[i] as int == |r| - |s|
  }

  /** The padding is the shortest that fills the last block and is not empty. */
  lemma PadExactly(s: seq<bv8>)
    ensures IsPadded(Pad(s), s) && |Pad(s)| % 16 == 0 && 1 <= |Pad(s)| - |s| <= 16
  {
    var p := PadLength(|s|);
    assert (p as bv8) as int == p;
  }

  /**
   * Decrypted bytes are a message followed by its padding: of 1 to 16 bytes in CBC, and of at most 15, or of none behind a
   * zero byte, in ECB. All others are reported corrupt.
   */
  lemma UnpadExactly(mode: int, r: seq<bv8>, s: seq<bv8>)
    requires |r| >= 16
    ensures Unpad(mode, r) == Some(s)
       <==> if s == r then mode == ECB && r[|r| - 1] == 0
            else IsPadded(r, s) && |r| - |s| <= (if mode == ECB then 15 else 16)
  {
    var padLen := r[|r| - 1] as int;
    assert r[..|r|] == r;
    if Unpad(mode, r) == Some(s) {
      assert s == r[..|r| - padLen];
    } else if s != r && IsPadded(r, s) {
      assert r[|r| - 1] as int == |r| - |s|;
      assert s == r[..|r| - padLen];
    }
  }

  lemma UnpadPad(mode: int, s: seq<bv8>)
    ensures Unpad(mode, Pad(s)) == if mode == ECB && |s| % 16 == 0 then None else Some(s)
  {
    var r, p := Pad(s), PadLength(|s|);
    assert r[|r| - 1] == p as bv8;
    assert (p as bv8) as int == p;
    assert forall i :: |s| <= i < |r| ==> r[i] == p as bv8;
  }

  /** The blocks that padded encryption writes for a message, and what padded decryption reads back from them. */
  function PadEncrypted(mode: int, s: seq<bv8>, iv: Block, w: seq<Block>): seq<Block>
    requires |w| >= 2
  {
    EncryptBlocks(mode, BlocksOf(Pad(s)), iv, w)
  }

  function PadDecrypted(mode: int, c: seq<Block>, iv: Block, dw: seq<Block>): Option<seq<bv8>>
    requires |dw| >= 2 && |c| >= 1
  {
    Unpad(mode, BytesOf(DecryptBlocks(mode, c, iv, dw)))
  }

  /** In CBC every message survives; in ECB exactly those whose length is not a multiple of the block size do. */
  lemma PaddedRoundTrip(mode: int, s: seq<bv8>, iv: Block, w: seq<Block>)
    requires |w| >= 2
    ensures PadDecrypted(mode, PadEncrypted(mode, s, iv, w), iv, DecryptionKeys(w)) == Some(s)
       <==> (mode != ECB || |s| % 16 != 0)
  {
    hide Unpad, Pad;
    DecryptBlocksInvertsEncryptBlocks(mode, BlocksOf(Pad(s)), iv, w);
    BytesOfBlocksOf(Pad(s));
    UnpadPad(mode, s);
  }
}
