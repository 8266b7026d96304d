/** How codec.c encrypts and decrypts database pages in place: one AES-128 key and initial vector a page, CBC. */
module Codec {
  import opened Octets
  import opened Md5
  import opened Fips197
  import opened BlockModes
  import opened Rijndael
  import opened RijndaelModes

  const KEYLENGTH := 16

  // ----- Keys and initial vectors -----

  /** C's int: every operation on it is shown not to overflow. */
  newtype int32 = x: int | -0x8000_0000 <= x < 0x8000_0000

  const MULTIPLIER := 40692
  const MODULUS := 2147483399

  /** Schrage's method: the product modulo the modulus without leaving 32 bits. */
  method ModMult(z: int32) returns (s: int32)
    requires z >= 0
    ensures s as int == MULTIPLIER * (z as int) % MODULUS
  {
    var q := z / 52774;
    s := 40692 * (z - 52774 * q) - 3791 * q;
    ghost var r := s as int;
    assert MULTIPLIER * (z as int) == (q as int) * MODULUS + r;
    if s < 0 { s := s + 2147483399; }
    RemainderIs(MULTIPLIER * (z as int), if r < 0 then q as int - 1 else q as int, s as int);
  }

  lemma RemainderIs(x: int, q: int, r: int)
    requires x == q * MODULUS + r && 0 <= r < MODULUS
    ensures x % MODULUS == r
  {}

  /** The state of the generator after n steps. */
  function Generated(seed: nat, n: nat): nat {
    if n == 0 then seed else MULTIPLIER * Generated(seed, n - 1) % MODULUS
  }

  function SeedBytes(seed: nat, n: nat): (s: seq<bv8>)
    requires seed < W32
    ensures |s| == 4 * n
  {
    if n == 0 then [] else SeedBytes(seed, n - 1) + Md5.WordBytes(Generated(seed, n))
  }

  function InitialVector(page: nat): seq<bv8>
    requires page + 1 < W32
  {
    Digest(SeedBytes(page + 1, 4))
  }

  const SALT: seq<bv8> := [0x73, 0x41, 0x6c, 0x54]

  function PageKey(key: seq<bv8>, page: nat): seq<bv8>
    requires page < W32
  {
    Digest(key + Md5.WordBytes(page) + SALT)
  }

  // ----- What keys and vectors are digests of -----

  /** The text of a page key: the key, the page number low byte first, and the letters sAlT. */
  predicate IsKeyText(m: seq<bv8>, key: seq<bv8>, page: nat) {
    |m| == |key| + 8 && m[..|key|] == key && Little(m[|key|..|key| + 4]) == page && m[|key| + 4..] == [0x73, 0x41, 0x6c, 0x54]
  }

  /** The text of a page's vector: four values of the generator that starts behind the page number. */
  predicate IsVectorText(m: seq<bv8>, page: nat) {
    |m| == 16 && forall i :: 0 <= i < 4 ==> Little(m[4 * i..4 * i + 4]) == Power(MULTIPLIER, i + 1) * (page + 1) % MODULUS
  }

  function Power(b: nat, n: nat): nat { if n == 0 then 1 else b * Power(b, n - 1) }

  /** The generator multiplies by the same number at every step. */
  lemma {:induction false} GeneratedPower(seed: nat, n: nat)
    ensures Generated(seed, n) % MODULUS == Power(MULTIPLIER, n) * seed % MODULUS
  {
    if n > 0 {
      var p := Power(MULTIPLIER, n - 1) * seed;
      GeneratedPower(seed, n - 1);
      ProductOfRemainder(Generated(seed, n - 1), p);
      assert Power(MULTIPLIER, n) * seed == MULTIPLIER * p;
    }
  }

  lemma ProductOfRemainder(a: nat, b: nat)
    requires a % MODULUS == b % MODULUS
    ensures MULTIPLIER * a % MODULUS % MODULUS == MULTIPLIER * b % MODULUS
  {
    var q, s := a / MODULUS, b / MODULUS;
    var c := MULTIPLIER * (a % MODULUS);
    assert MULTIPLIER * a == c + MULTIPLIER * q * MODULUS && MULTIPLIER * b == c + MULTIPLIER * s * MODULUS;
    AddMultiple(c, MULTIPLIER * q);
    AddMultiple(c, MULTIPLIER * s);
  }

  lemma AddMultiple(c: nat, k: nat)
    ensures (c + k * MODULUS) % MODULUS == c % MODULUS
  {
    RemainderIs(c + k * MODULUS, c / MODULUS + k, c % MODULUS);
  }

  lemma KeyText(key: seq<bv8>, page: nat)
    requires page < W32
    ensures IsKeyText(key + Md5.WordBytes(page) + SALT, key, page)
  {
    hide Md5.WordBytes, Little;
    LittleOfBytes(page);
    var m := key + Md5.WordBytes(page) + SALT;
    assert m[..|key|] == key && m[|key|..|key| + 4] == Md5.WordBytes(page) && m[|key| + 4..] == SALT;
  }

  /** Different keys, and different pages, have different texts. */
  lemma KeyTextsDiffer(m: seq<bv8>, key: seq<bv8>, page: nat, n: seq<bv8>, other: seq<bv8>, otherPage: nat)
    requires |key| == |other| && IsKeyText(m, key, page) && IsKeyText(n, other, otherPage)
    ensures m == n <==> key == other && page == otherPage
  {
    hide Little;
    var k := |key|;
    SameParts(m, n, k);
    if page == otherPage { SameLittle(m[k..k + 4], n[k..k + 4]); }
  }

  lemma SameParts<T>(m: seq<T>, n: seq<T>, k: nat)
    requires |m| == |n| && k + 4 <= |m|
    ensures m == n <==> m[..k] == n[..k] && m[k..k + 4] == n[k..k + 4] && m[k + 4..] == n[k + 4..]
  {
    assert m == m[..k] + m[k..k + 4] + m[k + 4..] && n == n[..k] + n[k..k + 4] + n[k + 4..];
  }

  lemma VectorText(page: nat)
    requires page + 1 < W32
    ensures IsVectorText(SeedBytes(page + 1, 4), page)
  {
    hide Md5.WordBytes, Power, Generated, Little;
    var s, m := page + 1, SeedBytes(page + 1, 4);
    GeneratedParts(s);
    assert SeedBytes(s, 0) == [] && SeedBytes(s, 1) == SeedBytes(s, 0) + Md5.WordBytes(Generated(s, 1));
    assert SeedBytes(s, 2) == SeedBytes(s, 1) + Md5.WordBytes(Generated(s, 2));
    assert SeedBytes(s, 3) == SeedBytes(s, 2) + Md5.WordBytes(Generated(s, 3));
    assert m == Md5.WordBytes(Generated(s, 1)) + Md5.WordBytes(Generated(s, 2)) + Md5.WordBytes(Generated(s, 3))
                + Md5.WordBytes(Generated(s, 4));
    forall i | 0 <= i < 4 ensures Little(m[4 * i..4 * i + 4]) == Power(MULTIPLIER, i + 1) * s % MODULUS {
      assert m[4 * i..4 * i + 4] == Md5.WordBytes(Generated(s, i + 1));
      LittleOfBytes(Generated(s, i + 1));
      GeneratedPower(s, i + 1);
    }
  }

  lemma GeneratedParts(seed: nat)
    ensures forall n :: n >= 1 ==> Generated(seed, n) < MODULUS
  {}

  lemma DigestLength(m: seq<bv8>)
    ensures |Digest(m)| == 16
  {
    hide Fold, Padded;
  }

  /** Page numbers are C ints; the generator starts from the next number. */
  method GenerateInitialVector(seed: int32, iv: array<bv8>)
    requires 0 <= seed < 0x7FFF_FFFF && iv.Length == 16
    modifies iv
    ensures iv[..] == InitialVector(seed as int)
    ensures exists m :: IsVectorText(m, seed as int) && iv[..] == Digest(m)
  {
    hide Digest, Byte;
    var initkey := new bv8[16];
    var z := seed + 1;
    var j := 0;
    assert initkey[..0] == [];
    while j < 4
      invariant 0 <= j <= 4 && 0 <= z && z as int == Generated(seed as int + 1, j)
      invariant initkey[..4 * j] == SeedBytes(seed as int + 1, j)
    {
      z := ModMult(z);
      StoreLittle(initkey, 4 * j, z);
      j := j + 1;
    }
    var digest := GetMD5Binary(initkey, 16);
    assert initkey[..16] == initkey[..4 * j];
    DigestLength(initkey[..16]);
    VectorText(seed as int);
    forall k | 0 <= k < 16 { iv[k] := digest[k]; }
    assert iv[..] == Digest(SeedBytes(seed as int + 1, 4));
  }

  /** The four bytes of a number, low byte first. */
  method StoreLittle(a: array<bv8>, at: nat, z: int32)
    requires z >= 0 && at + 4 <= a.Length
    modifies a
    ensures a[..at + 4] == old(a[..at]) + Md5.WordBytes(z as int) && a[at + 4..] == old(a[at + 4..])
  {
    hide Byte;
    var n := z as int;
    a[at], a[at + 1], a[at + 2], a[at + 3]
      := Byte(n % 256), Byte(n / 256 % 256), Byte(n / 0x1_0000 % 256), Byte(n / 0x100_0000);
  }

  // ----- Pages -----

  function Schedule(key: seq<bv8>, page: nat): (w: seq<Block>)
    requires page < W32
    ensures |w| == 11
  {
    DigestLength(key + Md5.WordBytes(page) + SALT);
    KeySchedule(KeyWords(PageKey(key, page)))
  }

  function Chain(page: nat): Block
    requires page + 1 < W32
  {
    DigestLength(SeedBytes(page + 1, 4));
    BlockAt(InitialVector(page), 0)
  }

  /** The round keys of a page are those of the digest of its text. */
  lemma ScheduleOfText(m: seq<bv8>, key: seq<bv8>, page: nat)
    requires page < W32 && IsKeyText(m, key, page)
    ensures |Digest(m)| == 16 && Schedule(key, page) == KeySchedule(KeyWords(Digest(m)))
  {
    hide Md5.WordBytes, Digest, KeyWords, KeySchedule, IsKeyText;
    KeyText(key, page);
    KeyTextsDiffer(m, key, page, key + Md5.WordBytes(page) + SALT, key, page);
    DigestLength(m);
  }

  lemma ChainOfText(m: seq<bv8>, page: nat)
    requires page + 1 < W32 && IsVectorText(m, page)
    ensures |Digest(m)| == 16 && Chain(page) == BlockAt(Digest(m), 0)
  {
    hide Little, Digest, SeedBytes, BlockAt;
    VectorText(page);
    var n := SeedBytes(page + 1, 4);
    forall i | 0 <= i < 4 ensures m[4 * i..4 * i + 4] == n[4 * i..4 * i + 4] {
      SameLittle(m[4 * i..4 * i + 4], n[4 * i..4 * i + 4]);
    }
    FourFours(m);
    FourFours(n);
    assert m[0..4] == m[4 * 0..4 * 0 + 4] == n[0..4] && m[4..8] == m[4 * 1..4 * 1 + 4] == n[4..8];
    assert m[8..12] == m[4 * 2..4 * 2 + 4] == n[8..12] && m[12..16] == m[4 * 3..4 * 3 + 4] == n[12..16];
    DigestLength(m);
  }

  lemma FourFours<T>(m: seq<T>)
    requires |m| == 16
    ensures m == m[0..4] + m[4..8] + m[8..12] + m[12..16]
  {}

  /** The blocks that enciphering len bytes touches: a page shorter than a block is taken for one. */
  function BlocksTouched(len: nat): nat { if 0 < len < 16 then 1 else len / 16 }

  /** The first n blocks are enciphered, the bytes after them stay. */
  ghost predicate Encrypted(key: seq<bv8>, page: nat, s: seq<bv8>, t: seq<bv8>, n: nat)
    requires page + 1 < W32
  {
    && 16 * n <= |t| == |s| && t[16 * n..] == s[16 * n..]
    && BlocksOf(t[..16 * n]) == EncryptBlocks(CBC, BlocksOf(s[..16 * n]), Chain(page), Schedule(key, page))
  }

  ghost predicate Decrypted(key: seq<bv8>, page: nat, s: seq<bv8>, t: seq<bv8>, n: nat)
    requires page + 1 < W32
  {
    && 16 * n <= |t| == |s| && t[16 * n..] == s[16 * n..]
    && BlocksOf(t[..16 * n])
       == DecryptBlocks(CBC, BlocksOf(s[..16 * n]), Chain(page), DecryptionKeys(Schedule(key, page)))
  }

  /** The cipher of the page's key, after its vector, maps a block to itself. */
  ghost predicate FixedPoint(key: seq<bv8>, page: nat, b: Block)
    requires page + 1 < W32
  {
    Cipher(AddRoundKey(b, Chain(page)), Schedule(key, page)) == b
  }

  /**
   * A page read back under the key and number it was written under is the page, unless it is shorter than a block: then
   * writing enciphers a whole block, reading deciphers none, and only a fixed point of the cipher survives.
   */
  lemma PageRoundTrip(key: seq<bv8>, page: nat, s: seq<bv8>, t: seq<bv8>, u: seq<bv8>, len: nat)
    requires page + 1 < W32 && len <= |s|
    requires Encrypted(key, page, s, t, BlocksTouched(len)) && Decrypted(key, page, t, u, len / 16)
    ensures len == 0 || len >= 16 ==> u == s
    ensures 0 < len < 16 ==> (u == s <==> FixedPoint(key, page, BlockAt(s, 0)))
  {
    hide Chain, Schedule, BlocksOf, EncryptBlocks, DecryptBlocks, DecryptionKeys, FixedPoint, BlockAt;
    if 0 < len < 16 {
      assert t[..0] == u[..0] && u == u[..0] + u[0..] && t == t[..0] + t[0..];
      FixedPointStays(key, page, s, t);
    } else {
      var k := 16 * (len / 16);
      DecryptBlocksInvertsEncryptBlocks(CBC, BlocksOf(s[..k]), Chain(page), Schedule(key, page));
      BytesOfBlocksOf(s[..k]);
      BytesOfBlocksOf(u[..k]);
      assert s == s[..k] + s[k..] && u == u[..k] + u[k..];
    }
  }

  lemma FixedPointStays(key: seq<bv8>, page: nat, s: seq<bv8>, t: seq<bv8>)
    requires page + 1 < W32 && Encrypted(key, page, s, t, 1)
    ensures t == s <==> FixedPoint(key, page, BlockAt(s, 0))
  {
    hide Chain, Schedule, Cipher, AddRoundKey;
    assert BlocksOf(s[..16]) == [BlockAt(s[..16], 0)] && BlocksOf(t[..16]) == [BlockAt(t[..16], 0)];
    assert BlockAt(s[..16], 0) == BlockAt(s, 0);
    var e := EncryptBlocks(CBC, BlocksOf(s[..16]), Chain(page), Schedule(key, page));
    assert e[0] == Cipher(AddRoundKey(BlockAt(s, 0), Chain(page)), Schedule(key, page));
    BytesOfBlocksOf(s[..16]);
    BytesOfBlocksOf(t[..16]);
    assert s == s[..16] + s[16..] && t == t[..16] + t[16..];
  }

  class Codec {
    const readKey: array<bv8>
    const writeKey: array<bv8>
    const aes: Rijndael

    ghost predicate Valid()
      reads this
    {
      && readKey.Length == KEYLENGTH && writeKey.Length == KEYLENGTH && aes.Shape()
      && aes.initVector != readKey && aes.initVector != writeKey
    }

    constructor ()
      ensures Valid() && fresh(readKey) && fresh(writeKey) && fresh(aes) && fresh(aes.initVector) && fresh(aes.expandedKey)
    {
      readKey := new bv8[KEYLENGTH];
      writeKey := new bv8[KEYLENGTH];
      aes := new Rijndael();
    }

    /** Sets up the cipher for a page. */
    method InitForPage(page: int32, direction: int, key: array<bv8>)
      requires Valid() && 0 <= page < 0x7FFF_FFFF && key.Length == KEYLENGTH && direction in {ENCRYPT, DECRYPT}
      requires key != aes.initVector
      modifies aes, aes.initVector, aes.expandedKey
      ensures aes.Valid() && aes.state == STATE_VALID && aes.mode == CBC && aes.direction == direction
      ensures aes.Keys() == if direction == ENCRYPT then Schedule(key[..], page as int)
                            else DecryptionKeys(Schedule(key[..], page as int))
      ensures LoadBlock(aes.initVector, 0) == Chain(page as int)
      ensures exists m :: IsKeyText(m, key[..], page as int) && aes.Keyed(KeyWords(Digest(m)))
      ensures exists m :: IsVectorText(m, page as int) && aes.initVector[..] == Digest(m)
    {
      hide Digest, KeySchedule, DecryptionKeys, KeyWords, Md5.WordBytes, LoadBlock, BlockAt;
      var pagekey := MakePageKey(page, key);
      var initial := new bv8[16];
      GenerateInitialVector(page, initial);
      var ret := aes.Init(CBC, direction, pagekey, 0, initial);
      assert pagekey[..16] == pagekey[..] && initial[..16] == initial[..];
      VectorBlock(aes.initVector);
    }

    method MakePageKey(page: int32, key: array<bv8>) returns (pagekey: array<bv8>)
      requires page >= 0 && key.Length == KEYLENGTH
      ensures fresh(pagekey) && pagekey.Length == KEYLENGTH && pagekey[..] == PageKey(key[..], page as int)
      ensures exists m :: IsKeyText(m, key[..], page as int) && pagekey[..] == Digest(m)
    {
      hide Digest, Md5.WordBytes;
      ghost var k := key[..];
      var nkey := SaltedKey(page, key);
      var digest := GetMD5Binary(nkey, KEYLENGTH + 4 + 4);
      assert nkey[..KEYLENGTH + 4 + 4] == nkey[..] == k + Md5.WordBytes(page as int) + SALT;
      assert digest == PageKey(k, page as int);
      DigestLength(nkey[..]);
      KeyText(k, page as int);
      pagekey := new bv8[KEYLENGTH];
      forall j | 0 <= j < KEYLENGTH { pagekey[j] := digest[j]; }
      assert pagekey[..] == digest && key[..] == k;
    }

    method SaltedKey(page: int32, key: array<bv8>) returns (nkey: array<bv8>)
      requires page >= 0 && key.Length == KEYLENGTH
      ensures fresh(nkey) && nkey.Length == KEYLENGTH + 4 + 4
      ensures nkey[..] == key[..] + Md5.WordBytes(page as int) + SALT
    {
      hide Md5.WordBytes;
      nkey := new bv8[KEYLENGTH + 4 + 4];
      forall j | 0 <= j < KEYLENGTH { nkey[j] := key[j]; }
      assert nkey[..KEYLENGTH] == key[..];
      StoreLittle(nkey, KEYLENGTH, page);
      assert nkey[..KEYLENGTH + 4] == key[..] + Md5.WordBytes(page as int);
      nkey[KEYLENGTH + 4], nkey[KEYLENGTH + 5], nkey[KEYLENGTH + 6], nkey[KEYLENGTH + 7] := 0x73, 0x41, 0x6c, 0x54;
    }

    method EncryptInPlace(data: array<bv8>, len: nat)
      requires Ready(ENCRYPT) && 1 <= len <= data.Length && 16 <= data.Length && data != aes.initVector
      modifies data
      ensures var k := 16 * BlocksTouched(len);
              && BlocksOf(data[..k])
                 == EncryptBlocks(CBC, BlocksOf(old(data[..k])), LoadBlock(aes.initVector, 0), old(aes.Keys()))
              && data[k..] == old(data[k..])
    {
      hide LoadBlock, EncryptBlocks, BlocksOf;
      BytesOfBlocksIn(data, 0, BlocksTouched(len));
      var ret := BlockEncrypt(aes, data, 0, 8 * len, data, 0);
      BytesOfBlocksIn(data, 0, BlocksTouched(len));
    }

    method DecryptInPlace(data: array<bv8>, len: nat)
      requires Ready(DECRYPT) && 1 <= len <= data.Length && data != aes.initVector
      modifies data
      ensures BlocksOf(data[..16 * (len / 16)])
           == DecryptBlocks(CBC, BlocksOf(old(data[..16 * (len / 16)])), LoadBlock(aes.initVector, 0), old(aes.Keys()))
      ensures data[16 * (len / 16)..] == old(data[16 * (len / 16)..])
    {
      hide LoadBlock, DecryptBlocks, BlocksOf;
      BytesOfBlocksIn(data, 0, len / 16);
      var ret := BlockDecrypt(aes, data, 0, 8 * len, data, 0);
      BytesOfBlocksIn(data, 0, len / 16);
    }

    ghost predicate Ready(direction: int)
      reads this, aes
    {
      aes.Valid() && aes.state == STATE_VALID && aes.mode == CBC && aes.direction == direction
    }

    /** Enciphers or deciphers a page where it lies; a page shorter than a block is enciphered together with what follows it. */
    method CodecAES(page: int32, encrypt: bool, key: array<bv8>, data: array<bv8>, len: nat)
      requires Valid() && 0 <= page < 0x7FFF_FFFF && key.Length == KEYLENGTH && key != aes.initVector
      requires len <= data.Length && 8 * len < 0x8000_0000 && (encrypt && len > 0 ==> 16 <= data.Length)
      requires data != aes.initVector && data != key
      modifies aes, aes.initVector, aes.expandedKey, data
      ensures if encrypt then Encrypted(key[..], page as int, old(data[..]), data[..], BlocksTouched(len))
              else Decrypted(key[..], page as int, old(data[..]), data[..], len / 16)
    {
      hide Schedule, Chain, LoadBlock, EncryptBlocks, DecryptBlocks, DecryptionKeys, BlocksOf, IsKeyText, IsVectorText, Digest;
      InitForPage(page, if encrypt then ENCRYPT else DECRYPT, key);
      ghost var before, w := data[..], aes.Keys();
      ghost var n := if encrypt then BlocksTouched(len) else len / 16;
      assert before[..16 * n] == data[..16 * n] && before[16 * n..] == data[16 * n..];
      if len == 0 {
        NoBlocks(before, Chain(page as int), w);
      } else if encrypt {
        EncryptInPlace(data, len);
      } else {
        DecryptInPlace(data, len);
      }
      assert data[..][..16 * n] == data[..16 * n] && data[..][16 * n..] == data[16 * n..];
    }

    method Encrypt(page: int32, data: array<bv8>, len: nat, useWriteKey: bool)
      requires Valid() && 0 <= page < 0x7FFF_FFFF && len <= data.Length && 8 * len < 0x8000_0000
      requires len > 0 ==> 16 <= data.Length
      requires data != aes.initVector && data != readKey && data != writeKey
      modifies aes, aes.initVector, aes.expandedKey, data
      ensures Encrypted(if useWriteKey then writeKey[..] else readKey[..], page as int, old(data[..]), data[..], BlocksTouched(len))
    {
      CodecAES(page, true, if useWriteKey then writeKey else readKey, data, len);
    }

    method Decrypt(page: int32, data: array<bv8>, len: nat)
      requires Valid() && 0 <= page < 0x7FFF_FFFF && len <= data.Length && 8 * len < 0x8000_0000
      requires data != aes.initVector && data != readKey && data != writeKey
      modifies aes, aes.initVector, aes.expandedKey, data
      ensures Decrypted(readKey[..], page as int, old(data[..]), data[..], len / 16)
    {
      CodecAES(page, false, readKey, data, len);
    }
  }

  lemma NoBlocks(s: seq<bv8>, v: Block, w: seq<Block>)
    requires |w| >= 2
    ensures BlocksOf(s[..0]) == EncryptBlocks(CBC, BlocksOf(s[..0]), v, w)
    ensures BlocksOf(s[..0]) == DecryptBlocks(CBC, BlocksOf(s[..0]), v, w)
  {}
}
