/**
 * Encryption and decryption of whole buffers by rijndael.c, which may run in place: each method's buffers are
 * shown to end up as the functions of module BlockModes say.
 */
module RijndaelModes {
  import opened Fips197
  import opened BlockModes
  import opened CfbMode
  import opened Rijndael
  import opened SBox
  import opened Options
  import AesInverse

  // ----- Buffers as sequences of blocks -----

  ghost function BlocksIn(a: array<bv8>, o: nat, n: nat): (s: seq<Block>)
    requires o + 16 * n <= a.Length
    reads a
    ensures |s| == n
    ensures forall j :: 0 <= j < n ==> s[j] == LoadBlock(a, o + 16 * j)
  {
    seq(n, j requires 0 <= j < n && o + 16 * n <= a.Length reads a => LoadBlock(a, o + 16 * j))
  }

  /** The buffers are the same memory or do not overlap. */
  predicate SameOrApart(a: array<bv8>, ao: nat, b: array<bv8>, bo: nat) { a != b || ao == bo }

  // ----- Four-word moves of the source -----

  method XorBlocks(d: array<bv8>, a: array<bv8>, ao: nat, b: array<bv8>, bo: nat)
    requires d.Length == 16 && d != a && d != b && ao + 16 <= a.Length && bo + 16 <= b.Length
    modifies d
    ensures LoadBlock(d, 0) == AddRoundKey(LoadBlock(a, ao), LoadBlock(b, bo))
  {
    hide Pack, AddWord;
    StoreWord(d, 0, AddWord(LoadWord(a, ao), LoadWord(b, bo)));
    StoreWord(d, 4, AddWord(LoadWord(a, ao + 4), LoadWord(b, bo + 4)));
    StoreWord(d, 8, AddWord(LoadWord(a, ao + 8), LoadWord(b, bo + 8)));
    StoreWord(d, 12, AddWord(LoadWord(a, ao + 12), LoadWord(b, bo + 12)));
  }

  method CopyBlock(d: array<bv8>, o: nat, a: array<bv8>, ao: nat)
    requires o + 16 <= d.Length && ao + 16 <= a.Length && d != a
    modifies d
    ensures d[o..o + 16] == a[ao..ao + 16] && LoadBlock(d, o) == LoadBlock(a, ao)
    ensures forall i :: 0 <= i < d.Length && !(o <= i < o + 16) ==> d[i] == old(d[i])
  {
    hide Pack;
    forall i | 0 <= i < 16 { d[o + i] := a[ao + i]; }
  }

  // ----- RijndaelBlockEncrypt -----

  /** Blocks processed for a positive length in bits: CBC encryption always processes the first. */
  function BlocksEncrypted(mode: int, inputLen: int): nat
    requires inputLen > 0
  {
    if mode == CBC && inputLen < 128 then 1 else inputLen / 128
  }

  /** One block into place `k` of the output. */
  method EncryptTo(c: Rijndael, a: array<bv8>, ao: nat, output: array<bv8>, oo: nat, k: nat, ghost n: nat)
    requires c.Valid() && ao + 16 <= a.Length && k < n && oo + 16 * n <= output.Length
    modifies output
    ensures c.Valid() && c.Keys() == old(c.Keys())
    ensures LoadBlock(output, oo + 16 * k) == Cipher(old(LoadBlock(a, ao)), c.Keys())
    ensures forall j :: 0 <= j < n && j != k ==> LoadBlock(output, oo + 16 * j) == old(LoadBlock(output, oo + 16 * j))
    ensures forall i :: 0 <= i < output.Length && !(oo <= i < oo + 16 * n) ==> output[i] == old(output[i])
  {
    hide Pack, Cipher;
    c.Encrypt(a, ao, output, oo + 16 * k);
  }

  method EncryptEcb(c: Rijndael, input: array<bv8>, io: nat, n: nat, output: array<bv8>, oo: nat, ghost iv: Block)
    requires c.Valid() && SameOrApart(input, io, output, oo)
    requires io + 16 * n <= input.Length && oo + 16 * n <= output.Length
    modifies output
    ensures c.Valid() && c.Keys() == old(c.Keys())
    ensures BlocksIn(output, oo, n) == EncryptBlocks(ECB, old(BlocksIn(input, io, n)), iv, c.Keys())
    ensures forall i :: 0 <= i < output.Length && !(oo <= i < oo + 16 * n) ==> output[i] == old(output[i])
  {
    hide LoadBlock, Cipher;
    ghost var p, w := BlocksIn(input, io, n), c.Keys();
    var k := 0;
    while k < n
      invariant 0 <= k <= n && c.Valid() && c.Keys() == w
      invariant forall j :: 0 <= j < k ==> LoadBlock(output, oo + 16 * j) == Cipher(p[j], w)
      invariant forall j :: k <= j < n ==> LoadBlock(input, io + 16 * j) == p[j]
      invariant forall i :: 0 <= i < output.Length && !(oo <= i < oo + 16 * n) ==> output[i] == old(output[i])
    {
      EncryptTo(c, input, io + 16 * k, output, oo, k, n);
      k := k + 1;
    }
  }

  /** One chained block into place `k` of the output, through the local buffer `block`. */
  method EncryptStep(c: Rijndael, input: array<bv8>, ip: nat, prev: array<bv8>, po: nat, block: array<bv8>,
                     output: array<bv8>, oo: nat, k: nat, ghost n: nat)
    requires c.Valid() && ip + 16 <= input.Length && po + 16 <= prev.Length && k < n && oo + 16 * n <= output.Length
    requires block.Length == 16 && block != input && block != prev && block != output
    modifies output, block
    ensures c.Valid() && c.Keys() == old(c.Keys())
    ensures LoadBlock(output, oo + 16 * k)
         == Cipher(AddRoundKey(old(LoadBlock(input, ip)), old(LoadBlock(prev, po))), c.Keys())
    ensures forall j :: 0 <= j < n && j != k ==> LoadBlock(output, oo + 16 * j) == old(LoadBlock(output, oo + 16 * j))
    ensures forall i :: 0 <= i < output.Length && !(oo <= i < oo + 16 * n) ==> output[i] == old(output[i])
  {
    hide LoadBlock, Cipher, AddRoundKey;
    XorBlocks(block, input, ip, prev, po);
    EncryptTo(c, block, 0, output, oo, k, n);
  }

  method EncryptCbc(c: Rijndael, input: array<bv8>, io: nat, n: nat, output: array<bv8>, oo: nat)
    requires c.Valid() && c.initVector != output && SameOrApart(input, io, output, oo)
    requires n >= 1 && io + 16 * n <= input.Length && oo + 16 * n <= output.Length
    modifies output
    ensures c.Valid() && c.Keys() == old(c.Keys())
    ensures BlocksIn(output, oo, n)
         == EncryptBlocks(CBC, old(BlocksIn(input, io, n)), LoadBlock(c.initVector, 0), c.Keys())
    ensures forall i :: 0 <= i < output.Length && !(oo <= i < oo + 16 * n) ==> output[i] == old(output[i])
  {
    hide LoadBlock, Cipher, AddRoundKey;
    ghost var p, iv, w := BlocksIn(input, io, n), LoadBlock(c.initVector, 0), c.Keys();
    var block := new bv8[16];
    EncryptStep(c, input, io, c.initVector, 0, block, output, oo, 0, n);
    var k := 1;
    while k < n
      invariant 1 <= k <= n && c.Valid() && c.Keys() == w
      invariant forall j :: 0 <= j < k ==> LoadBlock(output, oo + 16 * j) == EncryptedBlock(CBC, p, iv, w, j)
      invariant forall j :: k <= j < n ==> LoadBlock(input, io + 16 * j) == p[j]
      invariant forall i :: 0 <= i < output.Length && !(oo <= i < oo + 16 * n) ==> output[i] == old(output[i])
    {
      EncryptStep(c, input, io + 16 * k, output, oo + 16 * (k - 1), block, output, oo, k, n);
      k := k + 1;
    }
  }

  /** In mode CFB1 the output buffer is enciphered, and only one block of it, once for every block of the length. */
  method BlockEncrypt(c: Rijndael, input: array?<bv8>, io: nat, inputLen: int, output: array<bv8>, oo: nat)
    returns (ret: int)
    requires c.state == STATE_VALID ==> c.Valid() && c.mode in {ECB, CBC, CFB1}
    requires input != null && inputLen > 0 ==>
               && SameOrApart(input, io, output, oo) && output != c.initVector
               && io + 16 * BlocksEncrypted(c.mode, inputLen) <= input.Length
               && oo + 16 * BlocksEncrypted(c.mode, inputLen) <= output.Length
    modifies output
    ensures ret == if c.state != STATE_VALID then NOT_INITIALIZED
                   else if c.direction != ENCRYPT then BAD_DIRECTION
                   else if input == null || inputLen <= 0 then 0
                   else 128 * (inputLen / 128)
    ensures c.state == STATE_VALID && c.direction == ENCRYPT && input != null && inputLen > 0 ==>
              c.Valid() && c.Keys() == old(c.Keys())
    ensures c.state == STATE_VALID && c.direction == ENCRYPT && input != null && inputLen > 0 && c.mode != CFB1 ==>
              var n := BlocksEncrypted(c.mode, inputLen);
              && BlocksIn(output, oo, n)
                 == EncryptBlocks(c.mode, old(BlocksIn(input, io, n)), LoadBlock(c.initVector, 0), c.Keys())
              && forall i :: 0 <= i < output.Length && !(oo <= i < oo + 16 * n) ==> output[i] == old(output[i])
    ensures c.state == STATE_VALID && c.direction == ENCRYPT && input != null && inputLen > 0 && c.mode == CFB1 ==>
              var n := inputLen / 128;
              && (n > 0 ==>
                    BitsOf(output[oo..oo + 16])
                    == EncryptPasses(BitsOf(old(output[oo..oo + 16])), c.initVector[..], c.Keys(), n).0)
              && forall i :: 0 <= i < output.Length && (n == 0 || !(oo <= i < oo + 16)) ==> output[i] == old(output[i])
    ensures c.state != STATE_VALID || c.direction != ENCRYPT || input == null || inputLen <= 0 ==>
              output[..] == old(output[..])
  {
    hide LoadBlock, EncryptBlocks, EncryptPasses, BitsOf;
    if c.state != STATE_VALID { return NOT_INITIALIZED; }
    if c.direction != ENCRYPT { return BAD_DIRECTION; }
    if input == null || inputLen <= 0 { return 0; }
    var numBlocks := inputLen / 128;
    if c.mode == ECB {
      EncryptEcb(c, input, io, numBlocks, output, oo, LoadBlock(c.initVector, 0));
    } else if c.mode == CBC {
      EncryptCbc(c, input, io, if numBlocks == 0 then 1 else numBlocks, output, oo);
    } else {
      EncryptAll(c, output, oo, numBlocks);
    }
    return 128 * numBlocks;
  }

  // ----- RijndaelBlockDecrypt -----

  method DecryptTo(c: Rijndael, a: array<bv8>, ao: nat, output: array<bv8>, oo: nat, k: nat, ghost n: nat)
    requires c.Valid() && ao + 16 <= a.Length && k < n && oo + 16 * n <= output.Length
    modifies output
    ensures c.Valid() && c.Keys() == old(c.Keys())
    ensures LoadBlock(output, oo + 16 * k) == EqInvCipher(old(LoadBlock(a, ao)), c.Keys())
    ensures forall j :: 0 <= j < n && j != k ==> LoadBlock(output, oo + 16 * j) == old(LoadBlock(output, oo + 16 * j))
    ensures forall i :: 0 <= i < output.Length && !(oo <= i < oo + 16 * n) ==> output[i] == old(output[i])
  {
    hide Pack, EqInvCipher;
    c.Decrypt(a, ao, output, oo + 16 * k);
  }

  method CopyTo(a: array<bv8>, ao: nat, output: array<bv8>, oo: nat, k: nat, ghost n: nat)
    requires a != output && ao + 16 <= a.Length && k < n && oo + 16 * n <= output.Length
    modifies output
    ensures LoadBlock(output, oo + 16 * k) == LoadBlock(a, ao)
    ensures forall j :: 0 <= j < n && j != k ==> LoadBlock(output, oo + 16 * j) == old(LoadBlock(output, oo + 16 * j))
    ensures forall i :: 0 <= i < output.Length && !(oo <= i < oo + 16 * n) ==> output[i] == old(output[i])
  {
    hide Pack;
    CopyBlock(output, oo + 16 * k, a, ao);
  }

  /** The first `n` of `total` blocks, one by one. */
  method DecryptEcb(c: Rijndael, input: array<bv8>, io: nat, n: nat, ghost total: nat, output: array<bv8>, oo: nat)
    requires c.Valid() && SameOrApart(input, io, output, oo) && n <= total
    requires io + 16 * total <= input.Length && oo + 16 * total <= output.Length
    modifies output
    ensures c.Valid() && c.Keys() == old(c.Keys())
    ensures forall j :: 0 <= j < n ==>
              LoadBlock(output, oo + 16 * j) == EqInvCipher(old(BlocksIn(input, io, total))[j], c.Keys())
    ensures forall j :: n <= j < total ==> LoadBlock(input, io + 16 * j) == old(BlocksIn(input, io, total))[j]
    ensures forall i :: 0 <= i < output.Length && !(oo <= i < oo + 16 * total) ==> output[i] == old(output[i])
  {
    hide LoadBlock, EqInvCipher;
    ghost var q, w := BlocksIn(input, io, total), c.Keys();
    var k := 0;
    while k < n
      invariant 0 <= k <= n && c.Valid() && c.Keys() == w
      invariant forall j :: 0 <= j < k ==> LoadBlock(output, oo + 16 * j) == EqInvCipher(q[j], w)
      invariant forall j :: k <= j < total ==> LoadBlock(input, io + 16 * j) == q[j]
      invariant forall i :: 0 <= i < output.Length && !(oo <= i < oo + 16 * total) ==> output[i] == old(output[i])
    {
      DecryptTo(c, input, io + 16 * k, output, oo, k, total);
      k := k + 1;
    }
  }

  method DecryptChained(c: Rijndael, input: array<bv8>, ip: nat, iv: array<bv8>, block: array<bv8>)
    requires c.Valid() && ip + 16 <= input.Length && iv.Length == 16 && block.Length == 16 && block != iv && block != input
    modifies block
    ensures c.Valid() && c.Keys() == old(c.Keys())
    ensures LoadBlock(block, 0) == AddRoundKey(EqInvCipher(old(LoadBlock(input, ip)), c.Keys()), old(LoadBlock(iv, 0)))
  {
    hide EqInvCipher, AddRoundKey, LoadWord;
    c.Decrypt(input, ip, block, 0);
    XorBlock(block, 0, LoadWord(iv, 0), LoadWord(iv, 4), LoadWord(iv, 8), LoadWord(iv, 12));
  }

  /** One chained block into place `k` of the output, through `block`; the ciphertext block is kept in `iv`. */
  method DecryptStep(c: Rijndael, input: array<bv8>, ip: nat, iv: array<bv8>, block: array<bv8>,
                     output: array<bv8>, oo: nat, k: nat, ghost n: nat)
    requires c.Valid() && ip + 16 <= input.Length && k < n && oo + 16 * n <= output.Length
    requires block.Length == 16 && block != input && block != iv && block != output
    requires iv.Length == 16 && iv != input && iv != output
    modifies output, block, iv
    ensures c.Valid() && c.Keys() == old(c.Keys())
    ensures LoadBlock(iv, 0) == old(LoadBlock(input, ip))
    ensures LoadBlock(output, oo + 16 * k)
         == AddRoundKey(EqInvCipher(old(LoadBlock(input, ip)), c.Keys()), old(LoadBlock(iv, 0)))
    ensures forall j :: 0 <= j < n && j != k ==> LoadBlock(output, oo + 16 * j) == old(LoadBlock(output, oo + 16 * j))
    ensures forall i :: 0 <= i < output.Length && !(oo <= i < oo + 16 * n) ==> output[i] == old(output[i])
  {
    hide LoadBlock, EqInvCipher, AddRoundKey;
    DecryptChained(c, input, ip, iv, block);
    CopyBlock(iv, 0, input, ip);
    CopyTo(block, 0, output, oo, k, n);
  }

  /** The first `n` of `total` blocks, chained; `iv` is left holding the last ciphertext block consumed. */
  method DecryptCbc(c: Rijndael, input: array<bv8>, io: nat, n: nat, ghost total: nat, output: array<bv8>, oo: nat,
                    iv: array<bv8>)
    requires c.Valid() && SameOrApart(input, io, output, oo) && n <= total
    requires io + 16 * total <= input.Length && oo + 16 * total <= output.Length
    requires iv.Length == 16 && iv != input && iv != output
    modifies output, iv
    ensures c.Valid() && c.Keys() == old(c.Keys())
    ensures forall j :: 0 <= j < n ==>
              LoadBlock(output, oo + 16 * j) == DecryptedBlock(CBC, old(BlocksIn(input, io, total)), old(LoadBlock(iv, 0)), c.Keys(), j)
    ensures forall j :: n <= j < total ==> LoadBlock(input, io + 16 * j) == old(BlocksIn(input, io, total))[j]
    ensures LoadBlock(iv, 0) == if n == 0 then old(LoadBlock(iv, 0)) else old(BlocksIn(input, io, total))[n - 1]
    ensures forall i :: 0 <= i < output.Length && !(oo <= i < oo + 16 * total) ==> output[i] == old(output[i])
  {
    hide LoadBlock, EqInvCipher, AddRoundKey;
    ghost var q, iv0, w := BlocksIn(input, io, total), LoadBlock(iv, 0), c.Keys();
    var block := new bv8[16];
    var k := 0;
    while k < n
      invariant 0 <= k <= n && c.Valid() && c.Keys() == w
      invariant forall j :: 0 <= j < k ==> LoadBlock(output, oo + 16 * j) == DecryptedBlock(CBC, q, iv0, w, j)
      invariant forall j :: k <= j < total ==> LoadBlock(input, io + 16 * j) == q[j]
      invariant LoadBlock(iv, 0) == if k == 0 then iv0 else q[k - 1]
      invariant forall i :: 0 <= i < output.Length && !(oo <= i < oo + 16 * total) ==> output[i] == old(output[i])
    {
      DecryptStep(c, input, io + 16 * k, iv, block, output, oo, k, total);
      k := k + 1;
    }
  }

  /** In mode CFB1, in whichever direction the cipher was set up, the same one block of the output is deciphered. */
  method BlockDecrypt(c: Rijndael, input: array?<bv8>, io: nat, inputLen: int, output: array<bv8>, oo: nat)
    returns (ret: int)
    requires c.state == STATE_VALID ==> c.Valid() && c.mode in {ECB, CBC, CFB1}
    requires input != null && inputLen > 0 ==>
               && SameOrApart(input, io, output, oo) && output != c.initVector
               && io + 16 * (inputLen / 128) <= input.Length && oo + 16 * (inputLen / 128) <= output.Length
    modifies output
    ensures ret == if c.state != STATE_VALID then NOT_INITIALIZED
                   else if c.mode != CFB1 && c.direction == ENCRYPT then BAD_DIRECTION
                   else if input == null || inputLen <= 0 then 0
                   else 128 * (inputLen / 128)
    ensures c.state == STATE_VALID && input != null && inputLen > 0 ==> c.Valid() && c.Keys() == old(c.Keys())
    ensures c.state == STATE_VALID && c.direction != ENCRYPT && input != null && inputLen > 0 && c.mode != CFB1 ==>
              var n := inputLen / 128;
              && BlocksIn(output, oo, n)
                 == DecryptBlocks(c.mode, old(BlocksIn(input, io, n)), LoadBlock(c.initVector, 0), c.Keys())
              && forall i :: 0 <= i < output.Length && !(oo <= i < oo + 16 * n) ==> output[i] == old(output[i])
    ensures c.state == STATE_VALID && input != null && inputLen > 0 && c.mode == CFB1 ==>
              var n := inputLen / 128;
              && (n > 0 ==>
                    BitsOf(output[oo..oo + 16])
                    == DecryptPasses(BitsOf(old(input[io..io + 16])), input == output, BitsOf(old(output[oo..oo + 16])),
                                     c.initVector[..], c.Keys(), n).0)
              && forall i :: 0 <= i < output.Length && (n == 0 || !(oo <= i < oo + 16)) ==> output[i] == old(output[i])
    ensures c.state != STATE_VALID || (c.mode != CFB1 && c.direction == ENCRYPT) || input == null || inputLen <= 0 ==>
              output[..] == old(output[..])
  {
    hide LoadBlock, EqInvCipher, AddRoundKey, DecryptPasses, BitsOf;
    if c.state != STATE_VALID { return NOT_INITIALIZED; }
    if c.mode != CFB1 && c.direction == ENCRYPT { return BAD_DIRECTION; }
    if input == null || inputLen <= 0 { return 0; }
    var numBlocks := inputLen / 128;
    if c.mode == ECB {
      DecryptEcb(c, input, io, numBlocks, numBlocks, output, oo);
    } else if c.mode == CBC {
      var iv := new bv8[16];
      CopyBlock(iv, 0, c.initVector, 0);
      DecryptCbc(c, input, io, numBlocks, numBlocks, output, oo, iv);
    } else {
      DecryptAll(c, input, io, output, oo, numBlocks);
    }
    return 128 * numBlocks;
  }

  // ----- RijndaelPadEncrypt -----

  lemma LoadBlockIsBlockAt(a: array<bv8>, o: nat)
    requires o + 16 <= a.Length
    ensures LoadBlock(a, o) == BlockAt(a[o..o + 16], 0)
  {
    hide Pack;
  }

  lemma BlockAtWindow(s: seq<bv8>, i: nat)
    requires i + 16 <= |s|
    ensures BlockAt(s, i) == BlockAt(s[i..i + 16], 0)
  {
    hide Pack;
  }

  lemma BlockOfPadded(a: array<bv8>, o: nat, s: seq<bv8>, k: nat)
    requires 16 * k + 16 <= |Pad(s)| && o + 16 <= a.Length && a[o..o + 16] == Pad(s)[16 * k..16 * k + 16]
    ensures LoadBlock(a, o) == BlocksOf(Pad(s))[k]
  {
    hide Pad, BlockAt, LoadBlock;
    LoadBlockIsBlockAt(a, o);
    BlockAtWindow(Pad(s), 16 * k);
  }

  /** The chained loop of padded encryption, whose chaining block is read through a moving pointer. */
  method EncryptChained(c: Rijndael, input: array<bv8>, io: nat, n: nat, output: array<bv8>, oo: nat)
    returns (ivA: array<bv8>, ivO: nat)
    requires c.Valid() && c.initVector != output && SameOrApart(input, io, output, oo)
    requires io + 16 * n <= input.Length && oo + 16 * n <= output.Length
    modifies output
    ensures c.Valid() && c.Keys() == old(c.Keys())
    ensures BlocksIn(output, oo, n)
         == EncryptBlocks(CBC, old(BlocksIn(input, io, n)), LoadBlock(c.initVector, 0), c.Keys())
    ensures if n == 0 then ivA == c.initVector && ivO == 0 else ivA == output && ivO == oo + 16 * (n - 1)
    ensures forall i :: 0 <= i < output.Length && !(oo <= i < oo + 16 * n) ==> output[i] == old(output[i])
  {
    hide LoadBlock, Cipher, AddRoundKey;
    ghost var p, iv, w := BlocksIn(input, io, n), LoadBlock(c.initVector, 0), c.Keys();
    var block := new bv8[16];
    ivA, ivO := c.initVector, 0;
    var k := 0;
    while k < n
      invariant 0 <= k <= n && c.Valid() && c.Keys() == w
      invariant if k == 0 then ivA == c.initVector && ivO == 0 else ivA == output && ivO == oo + 16 * (k - 1)
      invariant forall j :: 0 <= j < k ==> LoadBlock(output, oo + 16 * j) == EncryptedBlock(CBC, p, iv, w, j)
      invariant forall j :: k <= j < n ==> LoadBlock(input, io + 16 * j) == p[j]
      invariant forall i :: 0 <= i < output.Length && !(oo <= i < oo + 16 * n) ==> output[i] == old(output[i])
    {
      EncryptStep(c, input, io + 16 * k, ivA, ivO, block, output, oo, k, n);
      ivA, ivO := output, oo + 16 * k;
      k := k + 1;
    }
  }

  /** The tail of the message and its padding, with the chaining block added when there is one. */
  method FillLastBlock(block: array<bv8>, input: array<bv8>, ip: nat, rem: nat, iv: array?<bv8>, ivO: nat)
    requires block.Length == 16 && rem < 16 && ip + rem <= input.Length && block != input && block != iv
    requires iv != null ==> ivO + 16 <= iv.Length
    modifies block
    ensures forall j :: 0 <= j < 16 ==>
              var b := if j < rem then input[ip + j] else (16 - rem) as bv8;
              block[j] == if iv == null then b else Add(b, iv[ivO + j])
  {
    hide Add;
    var padLen := 16 - rem;
    var i := 0;
    while i < 16
      invariant 0 <= i <= 16
      invariant forall j :: 0 <= j < i ==>
                  var b := if j < rem then input[ip + j] else (16 - rem) as bv8;
                  block[j] == if iv == null then b else Add(b, iv[ivO + j])
    {
      var b := if i < 16 - padLen then input[ip + i] else padLen as bv8;
      block[i] := if iv == null then b else Add(b, iv[ivO + i]);
      i := i + 1;
    }
  }

  lemma BlockOfSums(block: array<bv8>, t: seq<bv8>, iv: array<bv8>, ivO: nat)
    requires block.Length == 16 == |t| && ivO + 16 <= iv.Length
    requires forall j :: 0 <= j < 16 ==> block[j] == Add(t[j], iv[ivO + j])
    ensures LoadBlock(block, 0) == AddRoundKey(BlockAt(t, 0), LoadBlock(iv, ivO))
  {
    hide LoadWord, WordAt, AddWord, Add;
    WordOfSums(block, 0, t, iv, ivO); WordOfSums(block, 4, t, iv, ivO);
    WordOfSums(block, 8, t, iv, ivO); WordOfSums(block, 12, t, iv, ivO);
  }

  lemma WordOfSums(block: array<bv8>, o: nat, t: seq<bv8>, iv: array<bv8>, ivO: nat)
    requires block.Length == 16 == |t| && o + 4 <= 16 && ivO + 16 <= iv.Length
    requires forall j :: 0 <= j < 16 ==> block[j] == Add(t[j], iv[ivO + j])
    ensures LoadWord(block, o) == AddWord(WordAt(t, o), LoadWord(iv, ivO + o))
  {
    hide Pack, AddWord, Add;
    AesInverse.PackXor(t[o], t[o + 1], t[o + 2], t[o + 3],
                       iv[ivO + o], iv[ivO + o + 1], iv[ivO + o + 2], iv[ivO + o + 3]);
  }

  lemma {:induction false} EncryptedBlockOfPrefix(mode: int, p: seq<Block>, q: seq<Block>, iv: Block, w: seq<Block>, j: nat)
    requires j < |p| <= |q| && |w| >= 2 && p == q[..|p|]
    ensures EncryptedBlock(mode, p, iv, w, j) == EncryptedBlock(mode, q, iv, w, j)
  {
    hide Cipher, AddRoundKey;
    if j > 0 { EncryptedBlockOfPrefix(mode, p, q, iv, w, j - 1); }
  }

  lemma PartOfPrefix<T>(s: seq<T>, n: nat, i: nat, j: nat)
    requires i <= j <= n <= |s|
    ensures s[..n][i..j] == s[i..j]
  {}

  lemma PartOfWindow<T>(a: array<T>, o: nat, n: nat, i: nat, j: nat)
    requires i <= j <= n && o + n <= a.Length
    ensures a[o..o + n][i..j] == a[o + i..o + j]
  {
    var s, t := a[o..o + n][i..j], a[o + i..o + j];
    forall k | 0 <= k < |s| ensures s[k] == t[k] {
      assert a[o..o + n][i + k] == a[o + i + k];
    }
  }

  /** The full blocks of a buffer are the first blocks of its padded message. */
  lemma FullBlocksOfPadded(a: array<bv8>, o: nat, octets: nat)
    requires o + octets <= a.Length
    ensures BlocksIn(a, o, octets / 16) == BlocksOf(Pad(a[o..o + octets]))[..octets / 16]
    ensures a[o + 16 * (octets / 16)..o + octets] == a[o..o + octets][16 * (octets / 16)..]
  {
    hide Pad, LoadBlock, BlocksOf;
    var s := a[o..o + octets];
    assert forall i :: 0 <= i < octets ==> s[i] == a[o + i];
    forall k | 0 <= k < octets / 16 ensures LoadBlock(a, o + 16 * k) == BlocksOf(Pad(s))[k] {
      PartOfWindow(a, o, octets, 16 * k, 16 * k + 16);
      PartOfPrefix(Pad(s), |s|, 16 * k, 16 * k + 16);
      BlockOfPadded(a, o + 16 * k, s, k);
    }
  }

  /** The last padded block is the message's tail and its padding. */
  lemma LastBlockOfPadded(s: seq<bv8>)
    ensures var n := |s| / 16; var rem := |s| % 16;
            BlocksOf(Pad(s))[n] == BlockAt(s[16 * n..] + seq(16 - rem, _ => (16 - rem) as bv8), 0)
  {
    hide BlockAt;
    var n, rem := |s| / 16, |s| % 16;
    BlockAtWindow(Pad(s), 16 * n);
    var t := seq(16 - rem, _ => (16 - rem) as bv8);
    assert Pad(s) == s + t && |s| + |t| == 16 * n + 16;
    assert (s + t)[16 * n..] == s[16 * n..] + t;
    assert Pad(s)[16 * n..16 * n + 16] == Pad(s)[16 * n..];
  }

  /** The full blocks, and the chaining block for the last one when the mode has one. */
  method EncryptFullBlocks(c: Rijndael, input: array<bv8>, io: nat, n: nat, output: array<bv8>, oo: nat)
    returns (ivA: array?<bv8>, ivO: nat)
    requires c.Valid() && (c.mode == ECB || c.mode == CBC)
    requires SameOrApart(input, io, output, oo) && output != c.initVector
    requires io + 16 * n <= input.Length && oo + 16 * n <= output.Length
    modifies output
    ensures c.Valid() && c.Keys() == old(c.Keys())
    ensures BlocksIn(output, oo, n)
         == EncryptBlocks(c.mode, old(BlocksIn(input, io, n)), LoadBlock(c.initVector, 0), c.Keys())
    ensures ivA == null <==> c.mode == ECB
    ensures ivA != null ==> (ivA == output || ivA == c.initVector) && ivO + 16 <= ivA.Length
    ensures ivA != null ==>
              LoadBlock(ivA, ivO) == if n == 0 then LoadBlock(c.initVector, 0) else BlocksIn(output, oo, n)[n - 1]
    ensures forall i :: 0 <= i < output.Length && !(oo <= i < oo + 16 * n) ==> output[i] == old(output[i])
  {
    hide LoadBlock, EncryptBlocks;
    if c.mode == ECB {
      EncryptEcb(c, input, io, n, output, oo, LoadBlock(c.initVector, 0));
      ivA, ivO := null, 0;
    } else {
      ivA, ivO := EncryptChained(c, input, io, n, output, oo);
    }
  }

  method FillPadded(block: array<bv8>, input: array<bv8>, ip: nat, rem: nat, ghost s: seq<bv8>, iv: array?<bv8>, ivO: nat)
    requires block.Length == 16 && block != input && block != iv && (iv != null ==> ivO + 16 <= iv.Length)
    requires rem == |s| % 16 && ip + rem <= input.Length && input[ip..ip + rem] == s[16 * (|s| / 16)..]
    modifies block
    ensures LoadBlock(block, 0) == var last := BlocksOf(Pad(s))[|s| / 16];
                                   if iv == null then last else AddRoundKey(last, LoadBlock(iv, ivO))
  {
    hide LoadBlock, BlocksOf, Pad, BlockAt, AddRoundKey, Add;
    ghost var t := s[16 * (|s| / 16)..] + seq(16 - rem, _ => (16 - rem) as bv8);
    ghost var tail := input[ip..ip + rem];
    assert forall j :: 0 <= j < rem ==> tail[j] == input[ip + j];
    LastBlockOfPadded(s);
    FillLastBlock(block, input, ip, rem, iv, ivO);
    if iv == null {
      assert block[0..16] == t;
      LoadBlockIsBlockAt(block, 0);
    } else {
      BlockOfSums(block, t, iv, ivO);
    }
  }

  method PadEncryptMessage(c: Rijndael, input: array<bv8>, io: nat, octets: nat, output: array<bv8>, oo: nat)
    requires c.Valid() && (c.mode == ECB || c.mode == CBC)
    requires SameOrApart(input, io, output, oo) && output != c.initVector
    requires io + octets <= input.Length && oo + 16 * (octets / 16 + 1) <= output.Length
    modifies output
    ensures c.Valid() && c.Keys() == old(c.Keys())
    ensures BlocksIn(output, oo, octets / 16 + 1)
         == PadEncrypted(c.mode, old(input[io..io + octets]), LoadBlock(c.initVector, 0), c.Keys())
    ensures forall i :: 0 <= i < output.Length && !(oo <= i < oo + 16 * (octets / 16 + 1)) ==> output[i] == old(output[i])
  {
    hide LoadBlock, Cipher, AddRoundKey, BlocksOf, Pad, EncryptBlocks;
    var n, rem := octets / 16, octets % 16;
    ghost var s, iv, w := input[io..io + octets], LoadBlock(c.initVector, 0), c.Keys();
    ghost var p := BlocksOf(Pad(s));
    FullBlocksOfPadded(input, io, octets);
    ghost var tail := input[io + 16 * n..io + octets];
    var block := new bv8[16];
    var ivA, ivO := EncryptFullBlocks(c, input, io, n, output, oo);
    assert input[io + 16 * n..io + 16 * n + rem] == tail;
    FillPadded(block, input, io + 16 * n, rem, s, ivA, ivO);
    EncryptLastBlock(c, block, output, oo, n, p, iv);
  }

  method EncryptLastBlock(c: Rijndael, block: array<bv8>, output: array<bv8>, oo: nat, n: nat, ghost p: seq<Block>, ghost iv: Block)
    requires c.Valid() && (c.mode == ECB || c.mode == CBC) && |p| == n + 1
    requires block != output && block.Length == 16 && oo + 16 * (n + 1) <= output.Length
    requires BlocksIn(output, oo, n) == EncryptBlocks(c.mode, p[..n], iv, c.Keys())
    requires LoadBlock(block, 0)
          == if c.mode == ECB then p[n] else AddRoundKey(p[n], if n == 0 then iv else BlocksIn(output, oo, n)[n - 1])
    modifies output
    ensures c.Valid() && c.Keys() == old(c.Keys())
    ensures BlocksIn(output, oo, n + 1) == EncryptBlocks(c.mode, p, iv, c.Keys())
    ensures forall i :: 0 <= i < output.Length && !(oo <= i < oo + 16 * (n + 1)) ==> output[i] == old(output[i])
  {
    hide LoadBlock, Cipher, AddRoundKey, EncryptBlocks;
    EncryptTo(c, block, 0, output, oo, n, n + 1);
    assert BlocksIn(output, oo, n + 1)[..n] == old(BlocksIn(output, oo, n));
    ExtendEncrypted(c.mode, p, iv, c.Keys(), BlocksIn(output, oo, n + 1));
  }

  /** One more block encrypted with the chaining block before it. */
  lemma ExtendEncrypted(mode: int, p: seq<Block>, iv: Block, w: seq<Block>, c: seq<Block>)
    requires |p| == |c| >= 1 && |w| >= 2 && (mode == ECB || mode == CBC)
    requires var n := |p| - 1;
             && c[..n] == EncryptBlocks(mode, p[..n], iv, w)
             && c[n] == Cipher(if mode == ECB then p[n] else AddRoundKey(p[n], if n == 0 then iv else c[n - 1]), w)
    ensures c == EncryptBlocks(mode, p, iv, w)
  {
    hide Cipher, AddRoundKey;
    var n := |p| - 1;
    forall j | 0 <= j < n ensures c[j] == EncryptedBlock(mode, p, iv, w, j) {
      assert c[j] == c[..n][j];
      EncryptedBlockOfPrefix(mode, p[..n], p, iv, w, j);
    }
  }

  /** Mode CFB1 is refused. */
  method PadEncrypt(c: Rijndael, input: array?<bv8>, io: nat, octets: int, output: array<bv8>, oo: nat)
    returns (ret: int)
    requires c.state == STATE_VALID ==> c.Valid() && c.mode in {ECB, CBC, CFB1}
    requires input != null && octets > 0 ==>
               && SameOrApart(input, io, output, oo) && output != c.initVector
               && io + octets <= input.Length && oo + 16 * (octets / 16 + 1) <= output.Length
    modifies output
    ensures ret == if c.state != STATE_VALID || c.direction != ENCRYPT then NOT_INITIALIZED
                   else if input == null || octets <= 0 then 0
                   else if c.mode == CFB1 then -1
                   else 16 * (octets / 16 + 1)
    ensures c.state == STATE_VALID && c.direction == ENCRYPT && input != null && octets > 0 && c.mode != CFB1 ==>
              && c.Valid() && c.Keys() == old(c.Keys())
              && BlocksIn(output, oo, octets / 16 + 1)
                 == PadEncrypted(c.mode, old(input[io..io + octets]), LoadBlock(c.initVector, 0), c.Keys())
              && forall i :: 0 <= i < output.Length && !(oo <= i < oo + ret) ==> output[i] == old(output[i])
    ensures c.state != STATE_VALID || c.direction != ENCRYPT || input == null || octets <= 0 || c.mode == CFB1 ==>
              output[..] == old(output[..])
  {
    hide LoadBlock, PadEncrypted;
    if c.state != STATE_VALID { return NOT_INITIALIZED; }
    if c.direction != ENCRYPT { return NOT_INITIALIZED; }
    if input == null || octets <= 0 { return 0; }
    if c.mode != ECB && c.mode != CBC { return -1; }
    PadEncryptMessage(c, input, io, octets, output, oo);
    return 16 * (octets / 16 + 1);
  }

  // ----- RijndaelPadDecrypt -----

  /** The bytes of a run of blocks in a buffer. */
  lemma BytesOfBlocksIn(a: array<bv8>, o: nat, n: nat)
    requires o + 16 * n <= a.Length
    ensures BlocksIn(a, o, n) == BlocksOf(a[o..o + 16 * n])
    ensures BytesOf(BlocksIn(a, o, n)) == a[o..o + 16 * n]
  {
    hide LoadBlock, BlockAt;
    var s := a[o..o + 16 * n];
    forall j | 0 <= j < n ensures LoadBlock(a, o + 16 * j) == BlocksOf(s)[j] {
      assert forall i :: 0 <= i < 16 * n ==> s[i] == a[o + i];
      assert a[o + 16 * j..o + 16 * j + 16] == s[16 * j..16 * j + 16];
      LoadBlockIsBlockAt(a, o + 16 * j);
      BlockAtWindow(s, 16 * j);
    }
    assert BlocksIn(a, o, n) == BlocksOf(s);
    BytesOfBlocksOf(s);
  }

  /** The first `m` of `m + 1` blocks go to the output, the last one to `block`. */
  method DecryptAllButLast(c: Rijndael, input: array<bv8>, io: nat, m: nat, output: array<bv8>, oo: nat, block: array<bv8>)
    requires c.Valid() && (c.mode == ECB || c.mode == CBC) && SameOrApart(input, io, output, oo) && output != c.initVector
    requires io + 16 * (m + 1) <= input.Length && oo + 16 * (m + 1) <= output.Length
    requires block.Length == 16 && block != input && block != output && block != c.initVector
    modifies output, block
    ensures c.Valid() && c.Keys() == old(c.Keys())
    ensures BlocksIn(output, oo, m) + [LoadBlock(block, 0)]
         == DecryptBlocks(c.mode, old(BlocksIn(input, io, m + 1)), LoadBlock(c.initVector, 0), c.Keys())
    ensures forall i :: 0 <= i < output.Length && !(oo <= i < oo + 16 * (m + 1)) ==> output[i] == old(output[i])
  {
    hide LoadBlock, DecryptBlocks, EqInvCipher, AddRoundKey;
    ghost var q, iv0, w := BlocksIn(input, io, m + 1), LoadBlock(c.initVector, 0), c.Keys();
    if c.mode == ECB {
      DecryptEcb(c, input, io, m, m + 1, output, oo);
      assert LoadBlock(input, io + 16 * m) == q[m];
      c.Decrypt(input, io + 16 * m, block, 0);
      ExtendDecrypted(ECB, q, iv0, w, BlocksIn(output, oo, m), LoadBlock(block, 0));
    } else {
      var iv := new bv8[16];
      CopyBlock(iv, 0, c.initVector, 0);
      assert BlocksIn(input, io, m + 1) == q;
      DecryptCbc(c, input, io, m, m + 1, output, oo, iv);
      assert LoadBlock(input, io + 16 * m) == q[m];
      DecryptChained(c, input, io + 16 * m, iv, block);
      ExtendDecrypted(CBC, q, iv0, w, BlocksIn(output, oo, m), LoadBlock(block, 0));
    }
  }

  lemma ExtendDecrypted(mode: int, q: seq<Block>, iv: Block, w: seq<Block>, front: seq<Block>, last: Block)
    requires |q| == |front| + 1 && |w| >= 2
    requires forall j :: 0 <= j < |front| ==> front[j] == DecryptedBlock(mode, q, iv, w, j)
    requires last == DecryptedBlock(mode, q, iv, w, |front|)
    ensures front + [last] == DecryptBlocks(mode, q, iv, w)
  {
    hide DecryptedBlock;
  }

  /** Checks the padding of the last block and copies what precedes it. */
  method CopyUnpadded(mode: int, block: array<bv8>, output: array<bv8>, o: nat) returns (ret: int)
    requires block.Length == 16 && block != output && o + 16 <= output.Length
    modifies output
    ensures match Unpad(mode, block[..])
            case None => ret == CORRUPTED_DATA
            case Some(v) => ret == |v| && output[o..o + ret] == v
    ensures ret == CORRUPTED_DATA || 0 <= ret <= 16
    ensures forall i :: 0 <= i < output.Length && !(o <= i < o + 16) ==> output[i] == old(output[i])
  {
    var padLen := block[15] as int;
    if if mode == ECB then padLen >= 16 else padLen <= 0 || padLen > 16 { return CORRUPTED_DATA; }
    var i := 16 - padLen;
    while i < 16
      invariant 16 - padLen <= i <= 16
      invariant forall j :: 16 - padLen <= j < i ==> block[j] as int == padLen
    {
      if block[i] as int != padLen { return CORRUPTED_DATA; }
      i := i + 1;
    }
    forall j | 0 <= j < 16 - padLen { output[o + j] := block[j]; }
    return 16 - padLen;
  }

  lemma UnpadLastBlock(mode: int, front: seq<bv8>, last: seq<bv8>)
    requires |last| == 16
    ensures Unpad(mode, front + last) == match Unpad(mode, last) case None => None case Some(v) => Some(front + v)
  {
    var r := front + last;
    var padLen := last[15] as int;
    assert r[|r| - 1] == last[15];
    if padLen <= 16 {
      assert forall i :: 16 - padLen <= i < 16 ==> last[i] == r[|front| + i];
      assert forall i :: |r| - padLen <= i < |r| ==> r[i] == last[i - |front|];
      assert r[..|r| - padLen] == front + last[..16 - padLen];
    }
  }

  method PadDecryptMessage(c: Rijndael, input: array<bv8>, io: nat, m: nat, output: array<bv8>, oo: nat)
    returns (ret: int)
    requires c.Valid() && (c.mode == ECB || c.mode == CBC) && SameOrApart(input, io, output, oo) && output != c.initVector
    requires io + 16 * (m + 1) <= input.Length && oo + 16 * (m + 1) <= output.Length
    modifies output
    ensures c.Valid() && c.Keys() == old(c.Keys())
    ensures match PadDecrypted(c.mode, old(BlocksIn(input, io, m + 1)), LoadBlock(c.initVector, 0), c.Keys())
            case None => ret == CORRUPTED_DATA
            case Some(v) => ret == |v| && oo + ret <= output.Length && output[oo..oo + ret] == v
    ensures BlocksIn(output, oo, m)
         == DecryptBlocks(c.mode, old(BlocksIn(input, io, m + 1)), LoadBlock(c.initVector, 0), c.Keys())[..m]
    ensures forall i :: 0 <= i < output.Length && !(oo <= i < oo + 16 * (m + 1)) ==> output[i] == old(output[i])
  {
    hide LoadBlock, EqInvCipher, Unpad, BlocksOf, BytesOf, DecryptBlocks;
    ghost var d := DecryptBlocks(c.mode, BlocksIn(input, io, m + 1), LoadBlock(c.initVector, 0), c.Keys());
    var block := new bv8[16];
    DecryptAllButLast(c, input, io, m, output, oo, block);
    ghost var front := output[oo..oo + 16 * m];
    BytesOfBlocksIn(output, oo, m);
    UnpadDecrypted(c.mode, d, BlocksIn(output, oo, m), front, block);
    ret := CopyUnpadded(c.mode, block, output, oo + 16 * m);
    assert output[oo..oo + 16 * m] == front;
    BytesOfBlocksIn(output, oo, m);
    if ret != CORRUPTED_DATA {
      ret := 16 * m + ret;
    }
  }

  /** The message is what precedes the last block and what remains of that block. */
  lemma UnpadDecrypted(mode: int, d: seq<Block>, fronts: seq<Block>, front: seq<bv8>, block: array<bv8>)
    requires block.Length == 16 && d == fronts + [LoadBlock(block, 0)] && BytesOf(fronts) == front
    ensures Unpad(mode, BytesOf(d)) == match Unpad(mode, block[..]) case None => None case Some(v) => Some(front + v)
  {
    hide LoadBlock, Unpad, BlockBytes, BlockAt;
    LoadBlockIsBlockAt(block, 0);
    BlockBytesOfBlockAt(block[0..16], 0);
    assert block[0..16] == block[..] && block[..][0..16] == block[..];
    assert d[..|d| - 1] == fronts;
    UnpadLastBlock(mode, front, block[..]);
  }

  /** Mode CFB1 is refused. */
  method PadDecrypt(c: Rijndael, input: array?<bv8>, io: nat, octets: int, output: array<bv8>, oo: nat)
    returns (ret: int)
    requires c.state == STATE_VALID ==> c.Valid() && c.mode in {ECB, CBC, CFB1}
    requires input != null && octets > 0 ==>
               && SameOrApart(input, io, output, oo) && output != c.initVector
               && io + octets <= input.Length && oo + octets <= output.Length
    modifies output
    ensures c.state != STATE_VALID ==> ret == NOT_INITIALIZED
    ensures c.state == STATE_VALID && c.direction != DECRYPT ==> ret == BAD_DIRECTION
    ensures c.state == STATE_VALID && c.direction == DECRYPT && (input == null || octets <= 0) ==> ret == 0
    ensures c.state == STATE_VALID && c.direction == DECRYPT && input != null && octets > 0 ==>
              if octets % 16 != 0 then ret == CORRUPTED_DATA
              else if c.mode == CFB1 then ret == -1
              else match PadDecrypted(c.mode, old(BlocksIn(input, io, octets / 16)), LoadBlock(c.initVector, 0), old(c.Keys()))
                   case None => ret == CORRUPTED_DATA
                   case Some(v) => ret == |v| && oo + ret <= output.Length && output[oo..oo + ret] == v
    ensures || input == null || octets <= 0 || octets % 16 != 0 || c.state != STATE_VALID || c.direction != DECRYPT
            || c.mode == CFB1 ==>
              output[..] == old(output[..])
  {
    hide LoadBlock, PadDecrypted;
    if c.state != STATE_VALID { return NOT_INITIALIZED; }
    if c.direction != DECRYPT { return BAD_DIRECTION; }
    if input == null || octets <= 0 { return 0; }
    if octets % 16 != 0 { return CORRUPTED_DATA; }
    if c.mode != ECB && c.mode != CBC { return -1; }
    ret := PadDecryptMessage(c, input, io, octets / 16 - 1, output, oo);
  }

  lemma VectorBlock(iv: array<bv8>)
    requires iv.Length == 16
    ensures LoadBlock(iv, 0) == BlockAt(iv[..], 0)
  {
    LoadBlockIsBlockAt(iv, 0);
    assert iv[0..16] == iv[..];
  }
}
