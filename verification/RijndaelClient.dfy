/** The cipher as its callers use it: set up with a key, a mode and a vector, run one way and then back. */
module RijndaelClient {
  import opened Fips197
  import opened BlockModes
  import opened CfbMode
  import opened Rijndael
  import opened RijndaelModes
  import opened Sequences

  /** Set up for a mode and a direction, with the round keys w and the vector v. */
  ghost predicate Ready(c: Rijndael, mode: int, direction: int, w: seq<Block>, v: seq<bv8>)
    reads c, c.expandedKey, c.initVector
  {
    && c.Valid() && c.state == STATE_VALID && c.mode == mode && c.direction == direction
    && c.Keys() == w && c.initVector[..] == v
  }

  function Vector(iv: seq<bv8>, given: bool): (v: seq<bv8>)
    requires given ==> |iv| >= 16
    ensures |v| == 16
  {
    if given then iv[..16] else Zeros(16)
  }

  /** The round keys of a key of any of the three lengths. */
  function Schedule(key: seq<bv8>, keyLen: int): (w: seq<Block>)
    requires keyLen in {0, 1, 2} && |key| >= 8 * (keyLen + 2)
    ensures |w| >= 2
  {
    KeySchedule(KeyWords(key[..8 * (keyLen + 2)]))
  }

  method SetUp(mode: int, direction: int, key: array<bv8>, keyLen: int, iv: array?<bv8>) returns (c: Rijndael)
    requires mode in {ECB, CBC, CFB1} && direction in {ENCRYPT, DECRYPT} && keyLen in {0, 1, 2}
    requires key.Length >= 8 * (keyLen + 2) && (iv != null ==> iv.Length >= 16)
    ensures fresh(c) && fresh(c.initVector) && fresh(c.expandedKey)
    ensures var w := Schedule(key[..], keyLen);
            Ready(c, mode, direction, if direction == ENCRYPT then w else DecryptionKeys(w),
                  Vector(if iv == null then [] else iv[..], iv != null))
  {
    hide KeySchedule, DecryptionKeys, KeyWords, Zeros;
    c := new Rijndael();
    var ret := c.Init(mode, direction, key, keyLen, iv);
    assert key[..][..8 * (keyLen + 2)] == key[..8 * (keyLen + 2)];
    if iv != null { assert iv[..][..16] == iv[..16]; }
  }

  /** Whole blocks, in the modes that chain blocks. */
  method BlocksBack(e: Rijndael, d: Rijndael, mode: int, data: array<bv8>, n: nat, ghost w: seq<Block>, ghost v: seq<bv8>)
    requires mode in {ECB, CBC} && |w| >= 2 && |v| == 16
    requires Ready(e, mode, ENCRYPT, w, v) && Ready(d, mode, DECRYPT, DecryptionKeys(w), v)
    requires e.initVector != data && d.initVector != data && 1 <= n && 16 * n <= data.Length
    modifies data
    ensures data[..] == old(data[..])
  {
    hide DecryptionKeys, EncryptBlocks, DecryptBlocks, LoadBlock, BlockAt;
    VectorBlock(e.initVector);
    VectorBlock(d.initVector);
    ghost var p := BlocksIn(data, 0, n);
    BytesOfBlocksIn(data, 0, n);
    var ret := BlockEncrypt(e, data, 0, 128 * n, data, 0);
    assert BlocksIn(data, 0, n) == EncryptBlocks(mode, p, BlockAt(v, 0), w);
    ret := BlockDecrypt(d, data, 0, 128 * n, data, 0);
    DecryptBlocksInvertsEncryptBlocks(mode, p, BlockAt(v, 0), w);
    BytesOfBlocksIn(data, 0, n);
    assert data[..] == data[0..0 + 16 * n] + data[16 * n..];
  }

  /** One block, in mode CFB1, in which both ways need the encryption keys. */
  method BitsBack(e: Rijndael, d: Rijndael, data: array<bv8>, ghost w: seq<Block>, ghost v: seq<bv8>)
    requires |w| >= 2 && |v| == 16 && Ready(e, CFB1, ENCRYPT, w, v) && Ready(d, CFB1, ENCRYPT, w, v)
    requires e.initVector != data && d.initVector != data && 16 <= data.Length
    modifies data
    ensures data[..] == old(data[..])
  {
    hide EncryptPasses, DecryptPasses, BitsOf;
    ghost var was := data[0..16];
    var ret := BlockEncrypt(e, data, 0, 128, data, 0);
    ret := BlockDecrypt(d, data, 0, 128, data, 0);
    OneBlockRoundTrip(BitsOf(was), v, w, 1);
    SameBits(data[0..16], was);
    assert data[..] == data[0..16] + data[16..];
  }

  /** Blocks enciphered and deciphered in place are as they were: any number, or in mode CFB1 one. */
  method ThereAndBack(mode: int, key: array<bv8>, keyLen: int, iv: array?<bv8>, data: array<bv8>, n: nat)
    requires mode in {ECB, CBC, CFB1} && keyLen in {0, 1, 2}
    requires key.Length >= 8 * (keyLen + 2) && (iv != null ==> iv.Length >= 16) && key != data && iv != data
    requires 1 <= n && 16 * n <= data.Length && (mode == CFB1 ==> n == 1)
    modifies data
    ensures data[..] == old(data[..])
  {
    hide Schedule, Vector, DecryptionKeys;
    ghost var w, v := Schedule(key[..], keyLen), Vector(if iv == null then [] else iv[..], iv != null);
    var e := SetUp(mode, ENCRYPT, key, keyLen, iv);
    var d := SetUp(mode, if mode == CFB1 then ENCRYPT else DECRYPT, key, keyLen, iv);
    if mode == CFB1 {
      BitsBack(e, d, data, w, v);
    } else {
      BlocksBack(e, d, mode, data, n, w, v);
    }
  }

  /** A message padded and enciphered comes back exactly if the mode is not ECB or its length is no multiple of 16. */
  method PaddedThereAndBack(mode: int, key: array<bv8>, keyLen: int, iv: array?<bv8>, data: array<bv8>, octets: nat)
    returns (plain: array<bv8>, ret: int)
    requires mode in {ECB, CBC} && keyLen in {0, 1, 2}
    requires key.Length >= 8 * (keyLen + 2) && (iv != null ==> iv.Length >= 16)
    requires 1 <= octets <= data.Length
    ensures fresh(plain) && ret <= plain.Length
    ensures ret == octets && plain[..ret] == data[..octets] <==> mode != ECB || octets % 16 != 0
  {
    hide Schedule, Vector, DecryptionKeys;
    ghost var w, v := Schedule(key[..], keyLen), Vector(if iv == null then [] else iv[..], iv != null);
    var e := SetUp(mode, ENCRYPT, key, keyLen, iv);
    var d := SetUp(mode, DECRYPT, key, keyLen, iv);
    plain, ret := PaddedBack(e, d, mode, data, octets, w, v);
  }

  method PaddedBack(e: Rijndael, d: Rijndael, mode: int, data: array<bv8>, octets: nat, ghost w: seq<Block>, ghost v: seq<bv8>)
    returns (plain: array<bv8>, ret: int)
    requires mode in {ECB, CBC} && |w| >= 2 && |v| == 16 && 1 <= octets <= data.Length
    requires Ready(e, mode, ENCRYPT, w, v) && Ready(d, mode, DECRYPT, DecryptionKeys(w), v)
    ensures fresh(plain) && ret <= plain.Length
    ensures ret == octets && plain[..ret] == data[..octets] <==> mode != ECB || octets % 16 != 0
  {
    hide DecryptionKeys, PadEncrypted, PadDecrypted, LoadBlock, BlockAt;
    VectorBlock(e.initVector);
    VectorBlock(d.initVector);
    var total := 16 * (octets / 16 + 1);
    var secret := new bv8[total];
    plain := new bv8[total];
    ghost var m := data[0..0 + octets];
    ret := PadEncrypt(e, data, 0, octets, secret, 0);
    assert BlocksIn(secret, 0, total / 16) == PadEncrypted(mode, m, BlockAt(v, 0), w);
    PaddedRoundTrip(mode, m, BlockAt(v, 0), w);
    ret := PadDecrypt(d, secret, 0, total, plain, 0);
    assert ret >= 0 ==> plain[0..0 + ret] == plain[..ret];
    assert m == data[..octets];
  }
}
