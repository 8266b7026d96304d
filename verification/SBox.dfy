/**
 * The byte substitution tables S and S5 of rijndael.c, entry for entry, and what FIPS 197 (section 5.1.1) says
 * they hold: the multiplicative inverse in GF(2^8) followed by an affine map, and the inverse permutation.
 */
module SBox {

  /** Addition in GF(2^8) (section 4.1). */
  function Add(a: bv8, b: bv8): bv8 { a ^ b }

  /** Multiplication by x (section 4.2.1). */
  function XTime(b: bv8): bv8 { (b << 1) ^ ((b >> 7) * 0x1b) }

  /** Multiplication in GF(2^8) modulo x^8 + x^4 + x^3 + x + 1 (section 4.2). */
  function GMul(a: bv8, b: bv8): bv8 {
    var a1 := XTime(a); var a2 := XTime(a1); var a3 := XTime(a2);
    var a4 := XTime(a3); var a5 := XTime(a4); var a6 := XTime(a5);
    Bit(b, 1, a) ^ Bit(b, 2, a1) ^ Bit(b, 4, a2) ^ Bit(b, 8, a3) ^
    Bit(b, 16, a4) ^ Bit(b, 32, a5) ^ Bit(b, 64, a6) ^ Bit(b, 128, XTime(a6))
  }

  function Bit(b: bv8, mask: bv8, term: bv8): bv8 { if b & mask == 0 then 0 else term }

  function RotL(b: bv8, n: bv8): bv8
    requires 0 < n < 8
  {
    (b << n) | (b >> (8 - n))
  }

  /** The affine transformation of section 5.1.1, and its inverse. */
  function Affine(b: bv8): bv8 { b ^ RotL(b, 1) ^ RotL(b, 2) ^ RotL(b, 3) ^ RotL(b, 4) ^ 0x63 }
  function InvAffine(b: bv8): bv8 { RotL(b, 1) ^ RotL(b, 3) ^ RotL(b, 6) ^ 0x05 }

  function S(x: bv8): bv8 { ((SRow(x >> 4) >> (8 * (15 - (x & 15)))) & 0xff) as bv8 }

  function S5(x: bv8): bv8 { ((S5Row(x >> 4) >> (8 * (15 - (x & 15)))) & 0xff) as bv8 }

  function SRow(h: bv8): bv128 {
    if h == 0x0 then 0x637c777bf26b6fc53001672bfed7ab76
    else if h == 0x1 then 0xca82c97dfa5947f0add4a2af9ca472c0
    else if h == 0x2 then 0xb7fd9326363ff7cc34a5e5f171d83115
    else if h == 0x3 then 0x04c723c31896059a071280e2eb27b275
    else if h == 0x4 then 0x09832c1a1b6e5aa0523bd6b329e32f84
    else if h == 0x5 then 0x53d100ed20fcb15b6acbbe394a4c58cf
    else if h == 0x6 then 0xd0efaafb434d338545f9027f503c9fa8
    else if h == 0x7 then 0x51a3408f929d38f5bcb6da2110fff3d2
    else if h == 0x8 then 0xcd0c13ec5f974417c4a77e3d645d1973
    else if h == 0x9 then 0x60814fdc222a908846eeb814de5e0bdb
    else if h == 0xa then 0xe0323a0a4906245cc2d3ac629195e479
    else if h == 0xb then 0xe7c8376d8dd54ea96c56f4ea657aae08
    else if h == 0xc then 0xba78252e1ca6b4c6e8dd741f4bbd8b8a
    else if h == 0xd then 0x703eb5664803f60e613557b986c11d9e
    else if h == 0xe then 0xe1f8981169d98e949b1e87e9ce5528df
    else 0x8ca1890dbfe6426841992d0fb054bb16
  }

  function S5Row(h: bv8): bv128 {
    if h == 0x0 then 0x52096ad53036a538bf40a39e81f3d7fb
    else if h == 0x1 then 0x7ce339829b2fff87348e4344c4dee9cb
    else if h == 0x2 then 0x547b9432a6c2233dee4c950b42fac34e
    else if h == 0x3 then 0x082ea16628d924b2765ba2496d8bd125
    else if h == 0x4 then 0x72f8f66486689816d4a45ccc5d65b692
    else if h == 0x5 then 0x6c704850fdedb9da5e154657a78d9d84
    else if h == 0x6 then 0x90d8ab008cbcd30af7e45805b8b34506
    else if h == 0x7 then 0xd02c1e8fca3f0f02c1afbd0301138a6b
    else if h == 0x8 then 0x3a9111414f67dcea97f2cfcef0b4e673
    else if h == 0x9 then 0x96ac7422e7ad3585e2f937e81c75df6e
    else if h == 0xa then 0x47f11a711d29c5896fb7620eaa18be1b
    else if h == 0xb then 0xfc563e4bc6d279209adbc0fe78cd5af4
    else if h == 0xc then 0x1fdda8338807c731b11210592780ec5f
    else if h == 0xd then 0x60517fa919b54a0d2de57a9f93c99cef
    else if h == 0xe then 0xa0e03b4dae2af5b0c8ebbb3c83539961
    else 0x172b047eba77d626e169146355210c7d
  }

  /** S(x) is the affine image of the inverse of x (of 0 when x is 0). */
  ghost predicate IsFips197SBox(x: bv8, y: bv8) {
    exists i :: Affine(i) == y && if x == 0 then i == 0 else GMul(x, i) == 1
  }

  lemma SIsFips197SBox(x: bv8)
    ensures IsFips197SBox(x, S(x))
  {
    if x < 0x80 { SInverseLow(x); } else { SInverseHigh(x); }
    assert Affine(InvAffine(S(x))) == S(x);
  }

  lemma SInverseLow(x: bv8)
    requires x < 0x80
    ensures var i := InvAffine(S(x)); if x == 0 then i == 0 else GMul(x, i) == 1
  {}

  lemma SInverseHigh(x: bv8)
    requires x >= 0x80
    ensures GMul(x, InvAffine(S(x))) == 1
  {}

  lemma S5InvertsS(x: bv8)
    ensures S5(S(x)) == x
  {
    if x < 0x80 { S5InvertsSLow(x); } else { S5InvertsSHigh(x); }
  }

  lemma S5InvertsSLow(x: bv8)
    requires x < 0x80
    ensures S5(S(x)) == x
  {}

  lemma S5InvertsSHigh(x: bv8)
    requires x >= 0x80
    ensures S5(S(x)) == x
  {}

  /** S is a bijection, so S5 inverts it on the other side too. */
  lemma SInvertsS5(x: bv8)
    ensures S(S5(x)) == x
  {
    if x < 0x80 { SInvertsS5Low(x); } else { SInvertsS5High(x); }
  }

  lemma SInvertsS5Low(x: bv8)
    requires x < 0x80
    ensures S(S5(x)) == x
  {}

  lemma SInvertsS5High(x: bv8)
    requires x >= 0x80
    ensures S(S5(x)) == x
  {}
}
