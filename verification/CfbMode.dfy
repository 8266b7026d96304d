/**
 * The 1-bit cipher feedback mode of rijndael.c (section 6.3 of NIST SP 800-38A with a segment of one bit), which it
 * applies to the output buffer, and to the first block of it alone.
 */
module CfbMode {
  import opened Fips197
  import opened BlockModes
  import opened Rijndael

  // ----- Bits, the highest of a byte first -----

  function Flag(k: nat): bv8
    requires k < 8
  {
    if k == 0 then 0x80 else if k == 1 then 0x40 else if k == 2 then 0x20 else if k == 3 then 0x10
    else if k == 4 then 0x08 else if k == 5 then 0x04 else if k == 6 then 0x02 else 0x01
  }

  function Bit(b: bv8, k: nat): bool
    requires k < 8
  {
    b & Flag(k) != 0
  }

  function BitsOf(s: seq<bv8>): (bits: seq<bool>)
    ensures |bits| == 8 * |s|
  {
    seq(8 * |s|, i requires 0 <= i < 8 * |s| => Bit(s[i / 8], i % 8))
  }

  lemma SameBits(s: seq<bv8>, t: seq<bv8>)
    requires |s| == |t| && BitsOf(s) == BitsOf(t)
    ensures s == t
  {
    forall i | 0 <= i < |s| ensures s[i] == t[i] {
      assert forall k :: 0 <= k < 8 ==> Bit(s[i], k) == BitsOf(s)[8 * i + k] == BitsOf(t)[8 * i + k] == Bit(t[i], k);
      SameByte(s[i], t[i]);
    }
  }

  lemma SameByte(a: bv8, b: bv8)
    requires forall k :: 0 <= k < 8 ==> Bit(a, k) == Bit(b, k)
    ensures a == b
  {
    assert Bit(a, 0) == Bit(b, 0) && Bit(a, 1) == Bit(b, 1) && Bit(a, 2) == Bit(b, 2) && Bit(a, 3) == Bit(b, 3);
    assert Bit(a, 4) == Bit(b, 4) && Bit(a, 5) == Bit(b, 5) && Bit(a, 6) == Bit(b, 6) && Bit(a, 7) == Bit(b, 7);
  }

  /** A byte with one bit changed if `flip`. */
  function Flipped(b: bv8, k: nat, flip: bool): bv8
    requires k < 8
  {
    b ^ if flip then Flag(k) else 0
  }

  lemma BitOfFlipped(b: bv8, k: nat, flip: bool, j: nat)
    requires k < 8 && j < 8
    ensures Bit(Flipped(b, k, flip), j) == if j == k then Bit(b, k) != flip else Bit(b, j)
  {}

  lemma BitsOfFlipped(s: seq<bv8>, i: nat, flip: bool)
    requires i < 8 * |s|
    ensures BitsOf(s[i / 8 := Flipped(s[i / 8], i % 8, flip)]) == BitsOf(s)[i := BitsOf(s)[i] != flip]
  {
    hide Bit, Flipped;
    var t := s[i / 8 := Flipped(s[i / 8], i % 8, flip)];
    forall j | 0 <= j < 8 * |s| ensures BitsOf(t)[j] == BitsOf(s)[i := BitsOf(s)[i] != flip][j] {
      BitOfFlipped(s[i / 8], i % 8, flip, j % 8);
    }
  }

  // ----- The shift register -----

  function ShiftedByte(b: bv8, next: bool): bv8 { (b << 1) | if next then 1 else 0 }

  /** The register moved up by one bit, with another bit put in at its end. */
  function Shifted(reg: seq<bv8>, bit: bool): (r: seq<bv8>)
    ensures |r| == |reg|
  {
    seq(|reg|, i requires 0 <= i < |reg| => ShiftedByte(reg[i], if i + 1 < |reg| then Bit(reg[i + 1], 0) else bit))
  }

  lemma BitOfShifted(b: bv8, next: bool, k: nat)
    requires k < 8
    ensures Bit(ShiftedByte(b, next), k) == if k < 7 then Bit(b, k + 1) else next
  {}

  /** That is the standard's register: all bits but the first, and the bit put in. */
  lemma BitsOfShifted(reg: seq<bv8>, bit: bool)
    requires |reg| > 0
    ensures BitsOf(Shifted(reg, bit)) == BitsOf(reg)[1..] + [bit]
  {
    hide BitsOf, Shifted;
    forall i | 0 <= i < 8 * |reg| ensures BitsOf(Shifted(reg, bit))[i] == (BitsOf(reg)[1..] + [bit])[i] {
      BitOfShiftedAt(reg, bit, i);
    }
  }

  lemma BitOfShiftedAt(reg: seq<bv8>, bit: bool, i: nat)
    requires i < 8 * |reg|
    ensures BitsOf(Shifted(reg, bit))[i] == if i + 1 < 8 * |reg| then BitsOf(reg)[i + 1] else bit
  {
    hide Bit, ShiftedByte;
    BitOfShifted(reg[i / 8], if i / 8 + 1 < |reg| then Bit(reg[i / 8 + 1], 0) else bit, i % 8);
    if i % 8 < 7 {
      assert (i + 1) / 8 == i / 8 && (i + 1) % 8 == i % 8 + 1;
    } else {
      assert (i + 1) / 8 == i / 8 + 1 && (i + 1) % 8 == 0;
    }
  }

  /** The register after some ciphertext bits. */
  function After(reg: seq<bv8>, bits: seq<bool>): (r: seq<bv8>)
    ensures |r| == |reg|
  {
    if bits == [] then reg else Shifted(After(reg, bits[..|bits| - 1]), bits[|bits| - 1])
  }

  /** The bit of the key stream a register gives. */
  function KeyBit(reg: seq<bv8>, w: seq<Block>): bool
    requires |reg| == 16 && |w| >= 2
  {
    Bit(B0(Cipher(BlockAt(reg, 0), w).c0), 0)
  }

  // ----- Encryption and decryption -----

  function EncryptBits(p: seq<bool>, reg: seq<bv8>, w: seq<Block>): (c: seq<bool>)
    requires |reg| == 16 && |w| >= 2
    ensures |c| == |p|
  {
    if p == [] then []
    else var c := EncryptBits(p[..|p| - 1], reg, w); c + [p[|p| - 1] != KeyBit(After(reg, c), w)]
  }

  /** The key stream of the ciphertext bits `fed`, added to a buffer's. */
  function DecryptBits(fed: seq<bool>, out: seq<bool>, reg: seq<bv8>, w: seq<Block>): (p: seq<bool>)
    requires |reg| == 16 && |w| >= 2 && |fed| == |out|
    ensures |p| == |out|
  {
    seq(|out|, k requires 0 <= k < |out| => out[k] != KeyBit(After(reg, fed[..k]), w))
  }

  lemma {:induction false} EncryptBitsPrefix(p: seq<bool>, reg: seq<bv8>, w: seq<Block>, k: nat)
    requires |reg| == 16 && |w| >= 2 && k <= |p|
    ensures EncryptBits(p, reg, w)[..k] == EncryptBits(p[..k], reg, w)
  {
    hide KeyBit, After;
    if k == |p| {
      assert p[..k] == p;
    } else {
      var front := p[..|p| - 1];
      EncryptBitsPrefix(front, reg, w, k);
      assert front[..k] == p[..k];
    }
  }

  /** The register holds the last bits of the vector and the ciphertext so far. */
  lemma {:induction false} BitsAfter(reg: seq<bv8>, bits: seq<bool>)
    requires reg != []
    ensures BitsOf(After(reg, bits)) == (BitsOf(reg) + bits)[|bits|..]
  {
    hide BitsOf, Shifted;
    if bits != [] {
      var front, last := bits[..|bits| - 1], bits[|bits| - 1];
      BitsAfter(reg, front);
      BitsOfShifted(After(reg, front), last);
      MovedUp(BitsOf(reg), front, last);
      assert bits == front + [last];
    }
  }

  lemma MovedUp<T>(s: seq<T>, front: seq<T>, last: T)
    requires s != []
    ensures (s + front)[|front|..][1..] + [last] == (s + (front + [last]))[|front| + 1..]
  {}

  /** A bit of the ciphertext is that of the plaintext, changed if the cipher of the register begins with a one. */
  lemma EncryptedBit(p: seq<bool>, reg: seq<bv8>, w: seq<Block>, k: nat)
    requires |reg| == 16 && |w| >= 2 && k < |p|
    ensures var c := EncryptBits(p, reg, w);
            var register := After(reg, c[..k]);
            && BitsOf(register) == (BitsOf(reg) + c[..k])[k..]
            && c[k] == (p[k] != BitsOf(BlockBytes(Cipher(BlockAt(register, 0), w)))[0])
  {
    hide KeyBit, After, BitsOf, BlockBytes;
    var c := EncryptBits(p, reg, w);
    EncryptBitsPrefix(p, reg, w, k);
    EncryptBitsPrefix(p, reg, w, k + 1);
    assert c[..k + 1][k] == c[k] && p[..k + 1][..k] == p[..k];
    BitsAfter(reg, c[..k]);
    FirstBit(After(reg, c[..k]), w);
  }

  /** A bit deciphered is that of the buffer, changed if the cipher of the register of the bits fed begins with a one. */
  lemma DecryptedBit(fed: seq<bool>, out: seq<bool>, reg: seq<bv8>, w: seq<Block>, k: nat)
    requires |reg| == 16 && |w| >= 2 && |fed| == |out| && k < |out|
    ensures var register := After(reg, fed[..k]);
            && BitsOf(register) == (BitsOf(reg) + fed[..k])[k..]
            && DecryptBits(fed, out, reg, w)[k] == (out[k] != BitsOf(BlockBytes(Cipher(BlockAt(register, 0), w)))[0])
  {
    hide KeyBit, After, BitsOf, BlockBytes;
    BitsAfter(reg, fed[..k]);
    FirstBit(After(reg, fed[..k]), w);
  }

  lemma FirstBit(reg: seq<bv8>, w: seq<Block>)
    requires |reg| == 16 && |w| >= 2
    ensures KeyBit(reg, w) == BitsOf(BlockBytes(Cipher(BlockAt(reg, 0), w)))[0]
  {
    hide Cipher, Bit, B0, B1, B2, B3;
  }

  /** A block enciphered where it lies is deciphered where it lies. */
  lemma DecryptBitsInvertsEncryptBits(p: seq<bool>, reg: seq<bv8>, w: seq<Block>)
    requires |reg| == 16 && |w| >= 2
    ensures var c := EncryptBits(p, reg, w); DecryptBits(c, c, reg, w) == p
  {
    hide KeyBit, After;
    var c := EncryptBits(p, reg, w);
    forall k | 0 <= k < |p| ensures DecryptBits(c, c, reg, w)[k] == p[k] {
      EncryptBitsPrefix(p, reg, w, k);
      EncryptBitsPrefix(p, reg, w, k + 1);
      assert c[..k + 1][k] == c[k] && p[..k + 1][..k] == p[..k];
    }
  }

  /** Bits and register after n passes over the same bits. */
  function EncryptPasses(p: seq<bool>, reg: seq<bv8>, w: seq<Block>, n: nat): (r: (seq<bool>, seq<bv8>))
    requires |reg| == 16 && |w| >= 2
    ensures |r.0| == |p| && |r.1| == 16
  {
    if n == 0 then (p, reg)
    else
      var (q, r) := EncryptPasses(p, reg, w, n - 1);
      var c := EncryptBits(q, r, w);
      (c, After(r, c))
  }

  /** The ciphertext bits are those of the buffer itself when it is deciphered in place. */
  function DecryptPasses(fed: seq<bool>, inPlace: bool, out: seq<bool>, reg: seq<bv8>, w: seq<Block>, n: nat)
    : (r: (seq<bool>, seq<bv8>))
    requires |reg| == 16 && |w| >= 2 && |fed| == |out|
    ensures |r.0| == |out| && |r.1| == 16
  {
    if n == 0 then (out, reg)
    else
      var (q, r) := DecryptPasses(fed, inPlace, out, reg, w, n - 1);
      var f := if inPlace then q else fed;
      (DecryptBits(f, q, r, w), After(r, f))
  }

  /** A message of up to one block survives in place. */
  lemma OneBlockRoundTrip(p: seq<bool>, reg: seq<bv8>, w: seq<Block>, n: nat)
    requires |reg| == 16 && |w| >= 2 && n <= 1
    ensures var c := EncryptPasses(p, reg, w, n).0; DecryptPasses(c, true, c, reg, w, n).0 == p
  {
    if n == 1 { DecryptBitsInvertsEncryptBits(p, reg, w); }
  }

  // ----- The loops of the source -----

  /** The byte whose first bit is the next of the key stream. */
  method KeyByte(c: Rijndael, iv: array<bv8>) returns (b: bv8)
    requires c.Valid() && iv.Length == 16
    ensures Bit(b, 0) == KeyBit(iv[..], c.Keys())
  {
    hide Cipher, Pack, B0, Bit;
    var block := new bv8[16];
    forall i | 0 <= i < 16 { block[i] := iv[i]; }
    assert LoadBlock(block, 0) == BlockAt(iv[..], 0);
    c.Encrypt(block, 0, block, 0);
    PackBytes(block[0], block[1], block[2], block[3]);
    b := block[0];
  }

  method ShiftIn(iv: array<bv8>, bit: bool)
    requires iv.Length == 16
    modifies iv
    ensures iv[..] == Shifted(old(iv[..]), bit)
  {
    hide ShiftedByte, Bit;
    forall i | 0 <= i < 15 { iv[i] := ShiftedByte(iv[i], Bit(iv[i + 1], 0)); }
    iv[15] := ShiftedByte(iv[15], bit);
  }

  /** Changes one bit of a block in a buffer. */
  method FlipBit(a: array<bv8>, o: nat, k: nat, flip: bool)
    requires o + 16 <= a.Length && k < 128
    modifies a
    ensures var was := BitsOf(old(a[o..o + 16])); BitsOf(a[o..o + 16]) == was[k := was[k] != flip]
    ensures forall i :: 0 <= i < a.Length && !(o <= i < o + 16) ==> a[i] == old(a[i])
  {
    hide Bit, Flipped, BitsOf;
    ghost var s := a[o..o + 16];
    a[o + k / 8] := Flipped(a[o + k / 8], k % 8, flip);
    BitsOfFlipped(s, k, flip);
    assert a[o..o + 16] == s[k / 8 := Flipped(s[k / 8], k % 8, flip)];
  }

  lemma BitAt(a: array<bv8>, o: nat, k: nat)
    requires o + 16 <= a.Length && k < 128
    ensures BitsOf(a[o..o + 16])[k] == Bit(a[o + k / 8], k % 8)
  {}

  /** One more bit of a pass: what precedes it is done, what follows is as it was. */
  lemma BitDone(was: seq<bool>, now: seq<bool>, c: seq<bool>, k: nat, b: bool)
    requires k < |was| && now == c + was[k..] && |c| == k
    ensures now[k] == was[k] && now[k := b] == c + [b] + was[k + 1..]
  {}

  method EncryptPass(c: Rijndael, iv: array<bv8>, output: array<bv8>, oo: nat)
    requires c.Valid() && iv.Length == 16 && oo + 16 <= output.Length && iv != output
    modifies iv, output
    ensures c.Valid() && c.Keys() == old(c.Keys())
    ensures BitsOf(output[oo..oo + 16]) == EncryptBits(BitsOf(old(output[oo..oo + 16])), old(iv[..]), c.Keys())
    ensures iv[..] == After(old(iv[..]), BitsOf(output[oo..oo + 16]))
    ensures forall i :: 0 <= i < output.Length && !(oo <= i < oo + 16) ==> output[i] == old(output[i])
  {
    hide KeyBit, After, EncryptBits, BitsOf, Bit;
    ghost var w, reg, was, s := c.Keys(), iv[..], BitsOf(output[oo..oo + 16]), [];
    NothingDone(reg, w);
    var k := 0;
    while k < 128
      invariant 0 <= k <= 128 && c.Valid() && c.Keys() == w
      invariant |s| == k && s == EncryptBits(was[..k], reg, w) && iv[..] == After(reg, s)
      invariant BitsOf(output[oo..oo + 16]) == s + was[k..]
      invariant forall i :: 0 <= i < output.Length && !(oo <= i < oo + 16) ==> output[i] == old(output[i])
    {
      var b := KeyByte(c, iv);
      BitDone(was, BitsOf(output[oo..oo + 16]), s, k, was[k] != Bit(b, 0));
      OneBitMore(was, s, reg, w, k);
      FlipBit(output, oo, k, Bit(b, 0));
      s := s + [was[k] != Bit(b, 0)];
      BitAt(output, oo, k);
      ShiftIn(iv, Bit(output[oo + k / 8], k % 8));
      k := k + 1;
    }
    assert was[..128] == was && s + was[128..] == s;
  }

  lemma NothingDone(reg: seq<bv8>, w: seq<Block>)
    requires |reg| == 16 && |w| >= 2
    ensures EncryptBits([], reg, w) == [] && After(reg, []) == reg
  {}

  lemma OneBitMore(was: seq<bool>, s: seq<bool>, reg: seq<bv8>, w: seq<Block>, k: nat)
    requires k < |was| && |reg| == 16 && |w| >= 2 && s == EncryptBits(was[..k], reg, w)
    ensures EncryptBits(was[..k + 1], reg, w) == s + [was[k] != KeyBit(After(reg, s), w)]
    ensures forall b :: After(reg, s + [b]) == Shifted(After(reg, s), b)
  {
    hide KeyBit, Shifted;
    assert was[..k + 1][..k] == was[..k];
    forall b ensures After(reg, s + [b]) == Shifted(After(reg, s), b) { assert (s + [b])[..k] == s; }
  }

  method DecryptPass(c: Rijndael, iv: array<bv8>, input: array<bv8>, io: nat, output: array<bv8>, oo: nat)
    requires c.Valid() && iv.Length == 16 && io + 16 <= input.Length && oo + 16 <= output.Length
    requires (input != output || io == oo) && iv != output && iv != input
    modifies iv, output
    ensures c.Valid() && c.Keys() == old(c.Keys())
    ensures BitsOf(output[oo..oo + 16])
         == DecryptBits(BitsOf(old(input[io..io + 16])), BitsOf(old(output[oo..oo + 16])), old(iv[..]), c.Keys())
    ensures iv[..] == After(old(iv[..]), BitsOf(old(input[io..io + 16])))
    ensures forall i :: 0 <= i < output.Length && !(oo <= i < oo + 16) ==> output[i] == old(output[i])
  {
    hide KeyBit, After, BitsOf, Bit;
    ghost var w, reg, fed, was := c.Keys(), iv[..], BitsOf(input[io..io + 16]), BitsOf(output[oo..oo + 16]);
    ghost var p := DecryptBits(fed, was, reg, w);
    NothingDone(reg, w);
    assert fed[..0] == [];
    var k := 0;
    while k < 128
      invariant 0 <= k <= 128 && c.Valid() && c.Keys() == w
      invariant iv[..] == After(reg, fed[..k])
      invariant BitsOf(output[oo..oo + 16]) == p[..k] + was[k..]
      invariant input == output ==> fed == was
      invariant input != output ==> BitsOf(input[io..io + 16]) == fed
      invariant forall i :: 0 <= i < output.Length && !(oo <= i < oo + 16) ==> output[i] == old(output[i])
    {
      var b := KeyByte(c, iv);
      BitAt(input, io, k);
      ShiftIn(iv, Bit(input[io + k / 8], k % 8));
      OneBitFed(fed, reg, k);
      BitDone(was, BitsOf(output[oo..oo + 16]), p[..k], k, p[k]);
      FlipBit(output, oo, k, Bit(b, 0));
      assert p[..k + 1] == p[..k] + [p[k]];
      k := k + 1;
    }
    assert fed[..128] == fed && p[..128] + was[128..] == p;
  }

  lemma OneBitFed(fed: seq<bool>, reg: seq<bv8>, k: nat)
    requires k < |fed|
    ensures After(reg, fed[..k + 1]) == Shifted(After(reg, fed[..k]), fed[k])
  {
    hide Shifted;
    assert fed[..k + 1][..k] == fed[..k];
  }

  /** All passes, one for each block of the message, over the one block. */
  method EncryptAll(c: Rijndael, output: array<bv8>, oo: nat, n: nat)
    requires c.Valid() && output != c.initVector && (n > 0 ==> oo + 16 <= output.Length)
    modifies output
    ensures c.Valid() && c.Keys() == old(c.Keys())
    ensures n > 0 ==>
              BitsOf(output[oo..oo + 16]) == EncryptPasses(BitsOf(old(output[oo..oo + 16])), c.initVector[..], c.Keys(), n).0
    ensures forall i :: 0 <= i < output.Length && (n == 0 || !(oo <= i < oo + 16)) ==> output[i] == old(output[i])
  {
    hide EncryptBits, After, BitsOf;
    var iv := new bv8[16];
    forall i | 0 <= i < 16 { iv[i] := c.initVector[i]; }
    ghost var v := c.initVector[..];
    assert iv[..] == v;
    if n > 0 {
      assert output[oo..oo + 16] == old(output[oo..oo + 16]);
      ghost var p, w := BitsOf(output[oo..oo + 16]), c.Keys();
      var i := 0;
      while i < n
        invariant 0 <= i <= n && c.Valid() && c.Keys() == w && c.initVector[..] == v
        invariant (BitsOf(output[oo..oo + 16]), iv[..]) == EncryptPasses(p, v, w, i)
        invariant forall i :: 0 <= i < output.Length && !(oo <= i < oo + 16) ==> output[i] == old(output[i])
      {
        EncryptPass(c, iv, output, oo);
        i := i + 1;
      }
    }
  }

  method DecryptAll(c: Rijndael, input: array<bv8>, io: nat, output: array<bv8>, oo: nat, n: nat)
    requires c.Valid() && output != c.initVector && (input != output || io == oo)
    requires n > 0 ==> io + 16 <= input.Length && oo + 16 <= output.Length
    modifies output
    ensures c.Valid() && c.Keys() == old(c.Keys())
    ensures n > 0 ==>
              BitsOf(output[oo..oo + 16])
              == DecryptPasses(BitsOf(old(input[io..io + 16])), input == output, BitsOf(old(output[oo..oo + 16])),
                               c.initVector[..], c.Keys(), n).0
    ensures forall i :: 0 <= i < output.Length && (n == 0 || !(oo <= i < oo + 16)) ==> output[i] == old(output[i])
  {
    hide DecryptBits, After, BitsOf;
    var iv := new bv8[16];
    forall i | 0 <= i < 16 { iv[i] := c.initVector[i]; }
    ghost var v := c.initVector[..];
    assert iv[..] == v;
    if n > 0 {
      assert output[oo..oo + 16] == old(output[oo..oo + 16]) && input[io..io + 16] == old(input[io..io + 16]);
      ghost var fed, out, w := BitsOf(input[io..io + 16]), BitsOf(output[oo..oo + 16]), c.Keys();
      var i := 0;
      while i < n
        invariant 0 <= i <= n && c.Valid() && c.Keys() == w && c.initVector[..] == v
        invariant (BitsOf(output[oo..oo + 16]), iv[..]) == DecryptPasses(fed, input == output, out, v, w, i)
        invariant input != output ==> BitsOf(input[io..io + 16]) == fed
        invariant forall i :: 0 <= i < output.Length && !(oo <= i < oo + 16) ==> output[i] == old(output[i])
      {
        DecryptPass(c, iv, input, io, output, oo);
        i := i + 1;
      }
    }
  }
}
