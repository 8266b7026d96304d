/**
 * The algebra behind decryption: InvMixColumns undoes MixColumns and distributes over key addition, so the
 * equivalent inverse cipher of FIPS 197 (section 5.3.5) and the inverse cipher (5.3) both undo the cipher (5.1).
 */
module AesInverse {
  import opened SBox
  import opened Fips197

  // ----- GF(2^8) addition and multiplication -----

  lemma AddCommutes(a: bv8, b: bv8)
    ensures Add(a, b) == Add(b, a)
  {}

  lemma AddAssociates(a: bv8, b: bv8, c: bv8)
    ensures Add(Add(a, b), c) == Add(a, Add(b, c))
  {}

  lemma AddExchange(a: bv8, b: bv8, c: bv8, d: bv8)
    ensures Add(Add(a, b), Add(c, d)) == Add(Add(a, c), Add(b, d))
  {
    hide Add;
    AddAssociates(a, b, Add(c, d));
    AddAssociates(b, c, d);
    AddCommutes(b, c);
    AddAssociates(c, b, d);
    AddAssociates(a, c, Add(b, d));
  }

  lemma XTimeAdd(a: bv8, b: bv8)
    ensures XTime(Add(a, b)) == Add(XTime(a), XTime(b))
  {}

  lemma Mul3Add(a: bv8, b: bv8)
    ensures Mul3(Add(a, b)) == Add(Mul3(a), Mul3(b))
  {
    hide Add, XTime;
    XTimeAdd(a, b);
    AddExchange(XTime(a), XTime(b), a, b);
  }

  lemma Mul9Add(a: bv8, b: bv8)
    ensures Mul9(Add(a, b)) == Add(Mul9(a), Mul9(b))
  {
    hide Add, XTime;
    var a3, b3 := XTime(XTime(XTime(a))), XTime(XTime(XTime(b)));
    XTimeAdd(a, b);
    XTimeAdd(XTime(a), XTime(b));
    XTimeAdd(XTime(XTime(a)), XTime(XTime(b)));
    AddExchange(a3, b3, a, b);
  }

  lemma Mul11Add(a: bv8, b: bv8)
    ensures Mul11(Add(a, b)) == Add(Mul11(a), Mul11(b))
  {
    hide Add, XTime;
    var a2, b2 := XTime(XTime(a)), XTime(XTime(b));
    XTimeAdd(a, b);
    XTimeAdd(XTime(a), XTime(b));
    AddExchange(a2, b2, a, b);
    XTimeAdd(Add(a2, a), Add(b2, b));
    AddExchange(XTime(Add(a2, a)), XTime(Add(b2, b)), a, b);
  }

  lemma Mul13Add(a: bv8, b: bv8)
    ensures Mul13(Add(a, b)) == Add(Mul13(a), Mul13(b))
  {
    hide Add, XTime, Mul3;
    var a1, b1 := Add(XTime(a), a), Add(XTime(b), b);
    XTimeAdd(a, b);
    AddExchange(XTime(a), XTime(b), a, b);
    XTimeAdd(a1, b1);
    XTimeAdd(XTime(a1), XTime(b1));
    AddExchange(XTime(XTime(a1)), XTime(XTime(b1)), a, b);
  }

  lemma Mul14Add(a: bv8, b: bv8)
    ensures Mul14(Add(a, b)) == Add(Mul14(a), Mul14(b))
  {
    hide Add, XTime;
    var a1, b1 := Add(XTime(a), a), Add(XTime(b), b);
    XTimeAdd(a, b);
    AddExchange(XTime(a), XTime(b), a, b);
    XTimeAdd(a1, b1);
    AddExchange(XTime(a1), XTime(b1), a, b);
    XTimeAdd(Add(XTime(a1), a), Add(XTime(b1), b));
  }

  /** Multiplication by each constant of the two matrices distributes over addition. */
  lemma MulAdd(a: bv8, b: bv8)
    ensures Mul2(Add(a, b)) == Add(Mul2(a), Mul2(b)) && Mul3(Add(a, b)) == Add(Mul3(a), Mul3(b))
    ensures Mul9(Add(a, b)) == Add(Mul9(a), Mul9(b)) && Mul11(Add(a, b)) == Add(Mul11(a), Mul11(b))
    ensures Mul13(Add(a, b)) == Add(Mul13(a), Mul13(b)) && Mul14(Add(a, b)) == Add(Mul14(a), Mul14(b))
  {
    hide Add, XTime, Mul3, Mul9, Mul11, Mul13, Mul14;
    XTimeAdd(a, b); Mul3Add(a, b); Mul9Add(a, b); Mul11Add(a, b); Mul13Add(a, b); Mul14Add(a, b);
  }

  // ----- Sums of four: rows of a matrix product -----

  lemma SumAdd(a: bv8, b: bv8, c: bv8, d: bv8, a': bv8, b': bv8, c': bv8, d': bv8)
    ensures Sum(Add(a, a'), Add(b, b'), Add(c, c'), Add(d, d')) == Add(Sum(a, b, c, d), Sum(a', b', c', d'))
  {
    hide Add;
    AddExchange(a, b, a', b');
    AddExchange(c, d, c', d');
    AddExchange(Add(a, b), Add(c, d), Add(a', b'), Add(c', d'));
    AddExchange(Add(a, b), Add(a', b'), Add(c, d), Add(c', d'));
  }

  /** A four by four array of terms summed by rows and by columns. */
  lemma SumTranspose(
    a0: bv8, b0: bv8, c0: bv8, d0: bv8, a1: bv8, b1: bv8, c1: bv8, d1: bv8,
    a2: bv8, b2: bv8, c2: bv8, d2: bv8, a3: bv8, b3: bv8, c3: bv8, d3: bv8)
    ensures Sum(Sum(a0, b0, c0, d0), Sum(a1, b1, c1, d1), Sum(a2, b2, c2, d2), Sum(a3, b3, c3, d3))
         == Sum(Sum(a0, a1, a2, a3), Sum(b0, b1, b2, b3), Sum(c0, c1, c2, c3), Sum(d0, d1, d2, d3))
  {
    hide Add;
    SumAdd(a0, b0, c0, d0, a1, b1, c1, d1);
    SumAdd(a2, b2, c2, d2, a3, b3, c3, d3);
    SumAdd(Add(a0, a1), Add(b0, b1), Add(c0, c1), Add(d0, d1), Add(a2, a3), Add(b2, b3), Add(c2, c3), Add(d2, d3));
  }

  lemma MulSum(a: bv8, b: bv8, c: bv8, d: bv8)
    ensures Mul2(Sum(a, b, c, d)) == Sum(Mul2(a), Mul2(b), Mul2(c), Mul2(d))
    ensures Mul3(Sum(a, b, c, d)) == Sum(Mul3(a), Mul3(b), Mul3(c), Mul3(d))
    ensures Mul9(Sum(a, b, c, d)) == Sum(Mul9(a), Mul9(b), Mul9(c), Mul9(d))
    ensures Mul11(Sum(a, b, c, d)) == Sum(Mul11(a), Mul11(b), Mul11(c), Mul11(d))
    ensures Mul13(Sum(a, b, c, d)) == Sum(Mul13(a), Mul13(b), Mul13(c), Mul13(d))
    ensures Mul14(Sum(a, b, c, d)) == Sum(Mul14(a), Mul14(b), Mul14(c), Mul14(d))
  {
    hide Add, Mul2, Mul3, Mul9, Mul11, Mul13, Mul14;
    MulAdd(a, b); MulAdd(c, d); MulAdd(Add(a, b), Add(c, d));
  }

  // ----- The two column matrices are inverse to each other -----

  /** What one byte contributes to a row of the product InvMixColumns times MixColumns. */
  lemma InvMixProduct(b: bv8)
    ensures Sum(Mul14(Mul2(b)), Mul11(b), Mul13(b), Mul9(Mul3(b))) == b
    ensures Sum(Mul14(Mul3(b)), Mul11(Mul2(b)), Mul13(b), Mul9(b)) == 0
    ensures Sum(Mul14(b), Mul11(Mul3(b)), Mul13(Mul2(b)), Mul9(b)) == 0
    ensures Sum(Mul14(b), Mul11(b), Mul13(Mul3(b)), Mul9(Mul2(b))) == 0
  {}

  lemma SumZeros(a: bv8)
    ensures Sum(a, 0, 0, 0) == a
  {}

  lemma InvMixRow(a: bv8, b: bv8, c: bv8, d: bv8)
    ensures Sum(Mul14(Sum(Mul2(a), Mul3(b), c, d)), Mul11(Sum(a, Mul2(b), Mul3(c), d)),
                Mul13(Sum(a, b, Mul2(c), Mul3(d))), Mul9(Sum(Mul3(a), b, c, Mul2(d)))) == a
  {
    hide *;
    MulSum(Mul2(a), Mul3(b), c, d);
    MulSum(a, Mul2(b), Mul3(c), d);
    MulSum(a, b, Mul2(c), Mul3(d));
    MulSum(Mul3(a), b, c, Mul2(d));
    SumTranspose(Mul14(Mul2(a)), Mul14(Mul3(b)), Mul14(c), Mul14(d),
                 Mul11(a), Mul11(Mul2(b)), Mul11(Mul3(c)), Mul11(d),
                 Mul13(a), Mul13(b), Mul13(Mul2(c)), Mul13(Mul3(d)),
                 Mul9(Mul3(a)), Mul9(b), Mul9(c), Mul9(Mul2(d)));
    InvMixProduct(a); InvMixProduct(b); InvMixProduct(c); InvMixProduct(d);
    SumZeros(a);
  }

  lemma SumRotates(a: bv8, b: bv8, c: bv8, d: bv8)
    ensures Sum(a, b, c, d) == Sum(b, c, d, a)
  {
    hide Add;
    AddAssociates(a, b, Add(c, d));
    AddCommutes(a, Add(b, Add(c, d)));
    AddAssociates(b, c, d);
    AddAssociates(Add(b, c), d, a);
  }

  /** Rotating a column rotates its product with either circulant matrix. */
  lemma RowsRotate(a: bv8, b: bv8, c: bv8, d: bv8)
    ensures Sum(Mul2(b), Mul3(c), d, a) == Sum(a, Mul2(b), Mul3(c), d)
    ensures Sum(b, Mul2(c), Mul3(d), a) == Sum(a, b, Mul2(c), Mul3(d))
    ensures Sum(b, c, Mul2(d), Mul3(a)) == Sum(Mul3(a), b, c, Mul2(d))
    ensures Sum(Mul3(b), c, d, Mul2(a)) == Sum(Mul2(a), Mul3(b), c, d)
  {
    hide *;
    SumRotates(a, Mul2(b), Mul3(c), d);
    SumRotates(a, b, Mul2(c), Mul3(d));
    SumRotates(Mul3(a), b, c, Mul2(d));
    SumRotates(Mul2(a), Mul3(b), c, d);
  }

  lemma InvMixRows(a: bv8, b: bv8, c: bv8, d: bv8)
    ensures var m0, m1, m2, m3 := Sum(Mul2(a), Mul3(b), c, d), Sum(a, Mul2(b), Mul3(c), d),
                                  Sum(a, b, Mul2(c), Mul3(d)), Sum(Mul3(a), b, c, Mul2(d));
            && Sum(Mul14(m0), Mul11(m1), Mul13(m2), Mul9(m3)) == a
            && Sum(Mul9(m0), Mul14(m1), Mul11(m2), Mul13(m3)) == b
            && Sum(Mul13(m0), Mul9(m1), Mul14(m2), Mul11(m3)) == c
            && Sum(Mul11(m0), Mul13(m1), Mul9(m2), Mul14(m3)) == d
  {
    hide *;
    var m0, m1, m2, m3 := Sum(Mul2(a), Mul3(b), c, d), Sum(a, Mul2(b), Mul3(c), d),
                          Sum(a, b, Mul2(c), Mul3(d)), Sum(Mul3(a), b, c, Mul2(d));
    RowsRotate(a, b, c, d); RowsRotate(b, c, d, a); RowsRotate(c, d, a, b);
    SumRotates(Mul9(m0), Mul14(m1), Mul11(m2), Mul13(m3));
    SumRotates(Mul13(m0), Mul9(m1), Mul14(m2), Mul11(m3));
    SumRotates(Mul9(m1), Mul14(m2), Mul11(m3), Mul13(m0));
    SumRotates(Mul14(m3), Mul11(m0), Mul13(m1), Mul9(m2));
    InvMixRow(a, b, c, d); InvMixRow(b, c, d, a); InvMixRow(c, d, a, b); InvMixRow(d, a, b, c);
  }

  lemma InvMixColumnOfMixColumn(w: Word)
    ensures InvMixColumn(MixColumn(w)) == w
  {
    hide Add, Mul2, Mul3, Mul9, Mul11, Mul13, Mul14, Sum, Pack, B0, B1, B2, B3;
    var a, b, c, d := B0(w), B1(w), B2(w), B3(w);
    InvMixRows(a, b, c, d);
    PackBytes(Sum(Mul2(a), Mul3(b), c, d), Sum(a, Mul2(b), Mul3(c), d),
              Sum(a, b, Mul2(c), Mul3(d)), Sum(Mul3(a), b, c, Mul2(d)));
    BytesPack(w);
  }

  // ----- Key addition -----

  lemma B0Xor(u: Word, v: Word)
    ensures B0(AddWord(u, v)) == Add(B0(u), B0(v))
  {}

  lemma B1Xor(u: Word, v: Word)
    ensures B1(AddWord(u, v)) == Add(B1(u), B1(v))
  {}

  lemma B2Xor(u: Word, v: Word)
    ensures B2(AddWord(u, v)) == Add(B2(u), B2(v))
  {}

  lemma B3Xor(u: Word, v: Word)
    ensures B3(AddWord(u, v)) == Add(B3(u), B3(v))
  {}

  lemma PackXor(a: bv8, b: bv8, c: bv8, d: bv8, a': bv8, b': bv8, c': bv8, d': bv8)
    ensures Pack(Add(a, a'), Add(b, b'), Add(c, c'), Add(d, d')) == AddWord(Pack(a, b, c, d), Pack(a', b', c', d'))
  {}

  lemma InvMixColumnXor(u: Word, v: Word)
    ensures InvMixColumn(AddWord(u, v)) == AddWord(InvMixColumn(u), InvMixColumn(v))
  {
    hide AddWord, Add, Mul9, Mul11, Mul13, Mul14, Sum, Pack, B0, B1, B2, B3;
    var a, b, c, d := B0(u), B1(u), B2(u), B3(u);
    var a', b', c', d' := B0(v), B1(v), B2(v), B3(v);
    B0Xor(u, v); B1Xor(u, v); B2Xor(u, v); B3Xor(u, v);
    MulAdd(a, a'); MulAdd(b, b'); MulAdd(c, c'); MulAdd(d, d');
    SumAdd(Mul14(a), Mul11(b), Mul13(c), Mul9(d), Mul14(a'), Mul11(b'), Mul13(c'), Mul9(d'));
    SumAdd(Mul9(a), Mul14(b), Mul11(c), Mul13(d), Mul9(a'), Mul14(b'), Mul11(c'), Mul13(d'));
    SumAdd(Mul13(a), Mul9(b), Mul14(c), Mul11(d), Mul13(a'), Mul9(b'), Mul14(c'), Mul11(d'));
    SumAdd(Mul11(a), Mul13(b), Mul9(c), Mul14(d), Mul11(a'), Mul13(b'), Mul9(c'), Mul14(d'));
    PackXor(Sum(Mul14(a), Mul11(b), Mul13(c), Mul9(d)), Sum(Mul9(a), Mul14(b), Mul11(c), Mul13(d)),
            Sum(Mul13(a), Mul9(b), Mul14(c), Mul11(d)), Sum(Mul11(a), Mul13(b), Mul9(c), Mul14(d)),
            Sum(Mul14(a'), Mul11(b'), Mul13(c'), Mul9(d')), Sum(Mul9(a'), Mul14(b'), Mul11(c'), Mul13(d')),
            Sum(Mul13(a'), Mul9(b'), Mul14(c'), Mul11(d')), Sum(Mul11(a'), Mul13(b'), Mul9(c'), Mul14(d')));
  }

  // ----- Each transformation of the state is undone by its inverse -----

  lemma SubWordInverse(w: Word)
    ensures InvSubWord(SubWord(w)) == w && SubWord(InvSubWord(w)) == w
  {
    hide S, S5, Pack, B0, B1, B2, B3;
    var a, b, c, d := B0(w), B1(w), B2(w), B3(w);
    S5InvertsS(a); S5InvertsS(b); S5InvertsS(c); S5InvertsS(d);
    SInvertsS5(a); SInvertsS5(b); SInvertsS5(c); SInvertsS5(d);
    PackBytes(S(a), S(b), S(c), S(d));
    PackBytes(S5(a), S5(b), S5(c), S5(d));
    BytesPack(w);
  }

  lemma SubBytesInverse(s: Block)
    ensures InvSubBytes(SubBytes(s)) == s && SubBytes(InvSubBytes(s)) == s
  {
    hide InvSubWord, SubWord;
    SubWordInverse(s.c0); SubWordInverse(s.c1); SubWordInverse(s.c2); SubWordInverse(s.c3);
  }

  lemma DiagonalBytes(a: Word, b: Word, c: Word, d: Word)
    ensures var w := Diagonal(a, b, c, d); B0(w) == B0(a) && B1(w) == B1(b) && B2(w) == B2(c) && B3(w) == B3(d)
  {
    hide B0, B1, B2, B3, Pack;
    PackBytes(B0(a), B1(b), B2(c), B3(d));
  }

  lemma ShiftRowsInverse(s: Block)
    ensures InvShiftRows(ShiftRows(s)) == s && ShiftRows(InvShiftRows(s)) == s
  {
    hide B0, B1, B2, B3, Pack;
    var t, u := ShiftRows(s), InvShiftRows(s);
    DiagonalBytes(s.c0, s.c1, s.c2, s.c3); DiagonalBytes(s.c1, s.c2, s.c3, s.c0);
    DiagonalBytes(s.c2, s.c3, s.c0, s.c1); DiagonalBytes(s.c3, s.c0, s.c1, s.c2);
    DiagonalBytes(s.c0, s.c3, s.c2, s.c1); DiagonalBytes(s.c1, s.c0, s.c3, s.c2);
    DiagonalBytes(s.c2, s.c1, s.c0, s.c3); DiagonalBytes(s.c3, s.c2, s.c1, s.c0);
    BytesPack(s.c0); BytesPack(s.c1); BytesPack(s.c2); BytesPack(s.c3);
  }

  /** Substitution acts byte by byte, so it commutes with moving bytes between columns. */
  lemma InvSubBytesCommutes(s: Block)
    ensures InvSubBytes(InvShiftRows(s)) == InvShiftRows(InvSubBytes(s))
  {
    hide B0, B1, B2, B3, Pack, S5;
    DiagonalBytes(s.c0, s.c3, s.c2, s.c1); DiagonalBytes(s.c1, s.c0, s.c3, s.c2);
    DiagonalBytes(s.c2, s.c1, s.c0, s.c3); DiagonalBytes(s.c3, s.c2, s.c1, s.c0);
    InvSubWordBytes(s.c0); InvSubWordBytes(s.c1); InvSubWordBytes(s.c2); InvSubWordBytes(s.c3);
  }

  lemma InvSubWordBytes(w: Word)
    ensures var v := InvSubWord(w); B0(v) == S5(B0(w)) && B1(v) == S5(B1(w)) && B2(v) == S5(B2(w)) && B3(v) == S5(B3(w))
  {
    hide B0, B1, B2, B3, Pack, S5;
    PackBytes(S5(B0(w)), S5(B1(w)), S5(B2(w)), S5(B3(w)));
  }

  lemma MixColumnsInverse(s: Block)
    ensures InvMixColumns(MixColumns(s)) == s
  {
    hide MixColumn, InvMixColumn;
    InvMixColumnOfMixColumn(s.c0); InvMixColumnOfMixColumn(s.c1);
    InvMixColumnOfMixColumn(s.c2); InvMixColumnOfMixColumn(s.c3);
  }

  lemma InvMixColumnsAddKey(s: Block, k: Block)
    ensures InvMixColumns(AddRoundKey(s, k)) == AddRoundKey(InvMixColumns(s), InvMixColumns(k))
  {
    hide InvMixColumn, AddWord;
    InvMixColumnXor(s.c0, k.c0); InvMixColumnXor(s.c1, k.c1);
    InvMixColumnXor(s.c2, k.c2); InvMixColumnXor(s.c3, k.c3);
  }

  lemma XorTwice(u: Word, v: Word)
    ensures AddWord(AddWord(u, v), v) == u
  {}

  lemma AddKeyTwice(s: Block, k: Block)
    ensures AddRoundKey(AddRoundKey(s, k), k) == s
  {
    hide AddWord;
    XorTwice(s.c0, k.c0); XorTwice(s.c1, k.c1); XorTwice(s.c2, k.c2); XorTwice(s.c3, k.c3);
  }

  // ----- The ciphers -----

  /** Before undoing round `r - 1`, the inverse cipher holds the state as SubBytes and ShiftRows left it. */
  lemma {:induction false} InvRoundsOfCipher(input: Block, w: seq<Block>, r: nat)
    requires 1 <= r < |w|
    ensures InvRounds(Cipher(input, w), w, r) == ShiftRows(SubBytes(Rounds(input, w, r - 1)))
    decreases |w| - r
  {
    hide SubBytes, ShiftRows, MixColumns, InvSubBytes, InvShiftRows, InvMixColumns, AddRoundKey;
    if r == |w| - 1 {
      AddKeyTwice(ShiftRows(SubBytes(Rounds(input, w, r - 1))), w[r]);
    } else {
      var s := Rounds(input, w, r);
      var t := ShiftRows(SubBytes(Rounds(input, w, r - 1)));
      InvRoundsOfCipher(input, w, r + 1);
      ShiftRowsInverse(SubBytes(s));
      SubBytesInverse(s);
      AddKeyTwice(MixColumns(t), w[r]);
      MixColumnsInverse(t);
    }
  }

  /** Section 5.3: the inverse cipher undoes the cipher, for every key schedule. */
  lemma InvCipherInvertsCipher(input: Block, w: seq<Block>)
    requires |w| >= 2
    ensures InvCipher(Cipher(input, w), w) == input
  {
    hide SubBytes, ShiftRows, MixColumns, InvSubBytes, InvShiftRows, InvMixColumns, AddRoundKey;
    InvRoundsOfCipher(input, w, 1);
    var s := Rounds(input, w, 0);
    ShiftRowsInverse(SubBytes(s));
    SubBytesInverse(s);
    AddKeyTwice(input, w[0]);
  }

  /** Section 5.3.5: with the transformed key schedule the reordered rounds compute the same states. */
  lemma {:induction false} EqInvRoundsIsInvRounds(input: Block, w: seq<Block>, r: nat)
    requires 1 <= r < |w|
    ensures EqInvRounds(input, DecryptionKeys(w), r) == InvRounds(input, w, r)
    decreases |w| - r
  {
    hide SubBytes, ShiftRows, MixColumns, InvSubBytes, InvShiftRows, InvMixColumns, AddRoundKey;
    if r < |w| - 1 {
      var s := InvRounds(input, w, r + 1);
      EqInvRoundsIsInvRounds(input, w, r + 1);
      InvSubBytesCommutes(s);
      InvMixColumnsAddKey(InvSubBytes(InvShiftRows(s)), w[r]);
    }
  }

  lemma EqInvCipherIsInvCipher(input: Block, w: seq<Block>)
    requires |w| >= 2
    ensures EqInvCipher(input, DecryptionKeys(w)) == InvCipher(input, w)
  {
    hide SubBytes, ShiftRows, MixColumns, InvSubBytes, InvShiftRows, InvMixColumns, AddRoundKey;
    EqInvRoundsIsInvRounds(input, w, 1);
    InvSubBytesCommutes(InvRounds(input, w, 1));
  }

  /** Decryption with the transformed schedule undoes encryption, for every schedule and every block. */
  lemma DecryptionInvertsEncryption(input: Block, w: seq<Block>)
    requires |w| >= 2
    ensures EqInvCipher(Cipher(input, w), DecryptionKeys(w)) == input
  {
    EqInvCipherIsInvCipher(Cipher(input, w), w);
    InvCipherInvertsCipher(input, w);
  }
}
