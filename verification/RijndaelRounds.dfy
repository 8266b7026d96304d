/**
 * What the table look-ups of rijndael.c compute: a round of FIPS 197's cipher, of its equivalent inverse cipher,
 * and InvMixColumns of a key word.
 */
module RijndaelRounds {
  import opened SBox
  import opened Fips197
  import opened RijndaelTables
  import AesInverse

  // ----- What the table look-ups of one round compute -----

  function Xor4(a: Word, b: Word, c: Word, d: Word): Word { AddWord(AddWord(AddWord(a, b), c), d) }

  lemma SumLeft(a: bv8, b: bv8, c: bv8, d: bv8)
    ensures Add(Add(Add(a, b), c), d) == Sum(a, b, c, d)
  {
    hide Add;
    AesInverse.AddAssociates(Add(a, b), c, d);
  }

  lemma Xor4OfPacks(
    a0: bv8, a1: bv8, a2: bv8, a3: bv8, b0: bv8, b1: bv8, b2: bv8, b3: bv8,
    c0: bv8, c1: bv8, c2: bv8, c3: bv8, d0: bv8, d1: bv8, d2: bv8, d3: bv8)
    ensures Xor4(Pack(a0, a1, a2, a3), Pack(b0, b1, b2, b3), Pack(c0, c1, c2, c3), Pack(d0, d1, d2, d3))
         == Pack(Sum(a0, b0, c0, d0), Sum(a1, b1, c1, d1), Sum(a2, b2, c2, d2), Sum(a3, b3, c3, d3))
  {
    hide AddWord, Add, Sum, Pack;
    AesInverse.PackXor(a0, a1, a2, a3, b0, b1, b2, b3);
    AesInverse.PackXor(Add(a0, b0), Add(a1, b1), Add(a2, b2), Add(a3, b3), c0, c1, c2, c3);
    AesInverse.PackXor(Add(Add(a0, b0), c0), Add(Add(a1, b1), c1), Add(Add(a2, b2), c2), Add(Add(a3, b3), c3), d0, d1, d2, d3);
    SumLeft(a0, b0, c0, d0); SumLeft(a1, b1, c1, d1); SumLeft(a2, b2, c2, d2); SumLeft(a3, b3, c3, d3);
  }

  lemma MixColumnOfBytes(a: bv8, b: bv8, c: bv8, d: bv8)
    ensures MixColumn(Pack(a, b, c, d))
         == Pack(Sum(Mul2(a), Mul3(b), c, d), Sum(a, Mul2(b), Mul3(c), d), Sum(a, b, Mul2(c), Mul3(d)), Sum(Mul3(a), b, c, Mul2(d)))
    ensures InvMixColumn(Pack(a, b, c, d))
         == Pack(Sum(Mul14(a), Mul11(b), Mul13(c), Mul9(d)), Sum(Mul9(a), Mul14(b), Mul11(c), Mul13(d)),
                 Sum(Mul13(a), Mul9(b), Mul14(c), Mul11(d)), Sum(Mul11(a), Mul13(b), Mul9(c), Mul14(d)))
  {
    hide B0, B1, B2, B3, Pack, Sum, Mul2, Mul3, Mul9, Mul11, Mul13, Mul14;
    PackBytes(a, b, c, d);
  }

  function EncryptColumn(a: Word, b: Word, c: Word, d: Word): Word {
    Xor4(T1(B0(a)), T2(B1(b)), T3(B2(c)), T4(B3(d)))
  }

  lemma EncryptColumnIsMixedSubstitution(a: Word, b: Word, c: Word, d: Word)
    ensures EncryptColumn(a, b, c, d) == MixColumn(SubWord(Diagonal(a, b, c, d)))
  {
    hide T1, T2, T3, T4, S, Mul2, Mul3, Sum, Pack, Xor4, B0, B1, B2, B3, MixColumn;
    var p, q, r, s := S(B0(a)), S(B1(b)), S(B2(c)), S(B3(d));
    T1Entries(B0(a)); T2Entries(B1(b)); T3Entries(B2(c)); T4Entries(B3(d));
    Xor4OfPacks(Mul2(p), p, p, Mul3(p), Mul3(q), Mul2(q), q, q, r, Mul3(r), Mul2(r), r, s, s, Mul3(s), Mul2(s));
    MixColumnOfBytes(p, q, r, s);
    AesInverse.DiagonalBytes(a, b, c, d);
  }

  function DecryptColumn(a: Word, b: Word, c: Word, d: Word): Word {
    Xor4(T5(B0(a)), T6(B1(b)), T7(B2(c)), T8(B3(d)))
  }

  lemma DecryptColumnIsMixedSubstitution(a: Word, b: Word, c: Word, d: Word)
    ensures DecryptColumn(a, b, c, d) == InvMixColumn(InvSubWord(Diagonal(a, b, c, d)))
  {
    hide T5, T6, T7, T8, S5, Mul9, Mul11, Mul13, Mul14, Sum, Pack, Xor4, B0, B1, B2, B3, InvMixColumn;
    var p, q, r, s := S5(B0(a)), S5(B1(b)), S5(B2(c)), S5(B3(d));
    T5Entries(B0(a)); T6Entries(B1(b)); T7Entries(B2(c)); T8Entries(B3(d));
    Xor4OfPacks(Mul14(p), Mul9(p), Mul13(p), Mul11(p), Mul11(q), Mul14(q), Mul9(q), Mul13(q),
                Mul13(r), Mul11(r), Mul14(r), Mul9(r), Mul9(s), Mul13(s), Mul11(s), Mul14(s));
    MixColumnOfBytes(p, q, r, s);
    AesInverse.DiagonalBytes(a, b, c, d);
  }

  lemma UTablesAreInvMixColumn(w: Word)
    ensures Xor4(U1(B0(w)), U2(B1(w)), U3(B2(w)), U4(B3(w))) == InvMixColumn(w)
  {
    hide U1, U2, U3, U4, Mul9, Mul11, Mul13, Mul14, Sum, Pack, Xor4, B0, B1, B2, B3;
    var p, q, r, s := B0(w), B1(w), B2(w), B3(w);
    U1Entries(p); U2Entries(q); U3Entries(r); U4Entries(s);
    Xor4OfPacks(Mul14(p), Mul9(p), Mul13(p), Mul11(p), Mul11(q), Mul14(q), Mul9(q), Mul13(q),
                Mul13(r), Mul11(r), Mul14(r), Mul9(r), Mul9(s), Mul13(s), Mul11(s), Mul14(s));
  }

  lemma SubWordOfDiagonal(a: Word, b: Word, c: Word, d: Word)
    ensures SubWord(Diagonal(a, b, c, d)) == Diagonal(SubWord(a), SubWord(b), SubWord(c), SubWord(d))
    ensures SubWord(Diagonal(a, b, c, d)) == Pack(S(B0(a)), S(B1(b)), S(B2(c)), S(B3(d)))
    ensures InvSubWord(Diagonal(a, b, c, d)) == Diagonal(InvSubWord(a), InvSubWord(b), InvSubWord(c), InvSubWord(d))
    ensures InvSubWord(Diagonal(a, b, c, d)) == Pack(S5(B0(a)), S5(B1(b)), S5(B2(c)), S5(B3(d)))
  {
    hide S, S5, Pack, B0, B1, B2, B3;
    AesInverse.DiagonalBytes(a, b, c, d);
    PackBytes(S(B0(a)), S(B1(a)), S(B2(a)), S(B3(a)));
    PackBytes(S(B0(b)), S(B1(b)), S(B2(b)), S(B3(b)));
    PackBytes(S(B0(c)), S(B1(c)), S(B2(c)), S(B3(c)));
    PackBytes(S(B0(d)), S(B1(d)), S(B2(d)), S(B3(d)));
    AesInverse.InvSubWordBytes(a); AesInverse.InvSubWordBytes(b);
    AesInverse.InvSubWordBytes(c); AesInverse.InvSubWordBytes(d);
  }

  /** One table round is SubBytes, ShiftRows and MixColumns. */
  lemma EncryptColumnsAreRound(t: Block)
    ensures Block(EncryptColumn(t.c0, t.c1, t.c2, t.c3), EncryptColumn(t.c1, t.c2, t.c3, t.c0),
                  EncryptColumn(t.c2, t.c3, t.c0, t.c1), EncryptColumn(t.c3, t.c0, t.c1, t.c2))
         == MixColumns(ShiftRows(SubBytes(t)))
  {
    hide EncryptColumn, SubWord, MixColumn, Diagonal;
    EncryptColumnIsMixedSubstitution(t.c0, t.c1, t.c2, t.c3); SubWordOfDiagonal(t.c0, t.c1, t.c2, t.c3);
    EncryptColumnIsMixedSubstitution(t.c1, t.c2, t.c3, t.c0); SubWordOfDiagonal(t.c1, t.c2, t.c3, t.c0);
    EncryptColumnIsMixedSubstitution(t.c2, t.c3, t.c0, t.c1); SubWordOfDiagonal(t.c2, t.c3, t.c0, t.c1);
    EncryptColumnIsMixedSubstitution(t.c3, t.c0, t.c1, t.c2); SubWordOfDiagonal(t.c3, t.c0, t.c1, t.c2);
  }

  /** One table round of decryption is InvSubBytes, InvShiftRows and InvMixColumns. */
  lemma DecryptColumnsAreRound(t: Block)
    ensures Block(DecryptColumn(t.c0, t.c3, t.c2, t.c1), DecryptColumn(t.c1, t.c0, t.c3, t.c2),
                  DecryptColumn(t.c2, t.c1, t.c0, t.c3), DecryptColumn(t.c3, t.c2, t.c1, t.c0))
         == InvMixColumns(InvShiftRows(InvSubBytes(t)))
  {
    hide DecryptColumn, InvSubWord, InvMixColumn, Diagonal;
    DecryptColumnIsMixedSubstitution(t.c0, t.c3, t.c2, t.c1); SubWordOfDiagonal(t.c0, t.c3, t.c2, t.c1);
    DecryptColumnIsMixedSubstitution(t.c1, t.c0, t.c3, t.c2); SubWordOfDiagonal(t.c1, t.c0, t.c3, t.c2);
    DecryptColumnIsMixedSubstitution(t.c2, t.c1, t.c0, t.c3); SubWordOfDiagonal(t.c2, t.c1, t.c0, t.c3);
    DecryptColumnIsMixedSubstitution(t.c3, t.c2, t.c1, t.c0); SubWordOfDiagonal(t.c3, t.c2, t.c1, t.c0);
  }
}
