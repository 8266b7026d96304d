/**
 * The Advanced Encryption Standard as FIPS 197 states it: arithmetic in GF(2^8) (section 4.2), the
 * cipher (5.1), the key expansion (5.2), the inverse cipher (5.3) and the equivalent inverse cipher (5.3.5).
 * A state is four columns; byte `r` of a column is row `r`.
 */
module Fips197 {
  import opened SBox

  /** A column of the state, or a key word; row 0 is the most significant byte. */
  type Word = bv32

  datatype Block = Block(c0: Word, c1: Word, c2: Word, c3: Word)

  function B0(w: Word): bv8 { (w >> 24) as bv8 }
  function B1(w: Word): bv8 { ((w >> 16) & 0xff) as bv8 }
  function B2(w: Word): bv8 { ((w >> 8) & 0xff) as bv8 }
  function B3(w: Word): bv8 { (w & 0xff) as bv8 }
  function Pack(b0: bv8, b1: bv8, b2: bv8, b3: bv8): Word {
    (b0 as bv32 << 24) | (b1 as bv32 << 16) | (b2 as bv32 << 8) | (b3 as bv32)
  }

  lemma PackBytes(b0: bv8, b1: bv8, b2: bv8, b3: bv8)
    ensures var w := Pack(b0, b1, b2, b3); B0(w) == b0 && B1(w) == b1 && B2(w) == b2 && B3(w) == b3
  {}

  lemma BytesPack(w: Word)
    ensures Pack(B0(w), B1(w), B2(w), B3(w)) == w
  {}

  // ----- Section 4.2: multiplication by the constants of the MixColumns matrices -----

  function Mul2(b: bv8): bv8 { XTime(b) }
  function Mul3(b: bv8): bv8 { Add(XTime(b), b) }
  function Mul9(b: bv8): bv8 { Add(XTime(XTime(XTime(b))), b) }
  function Mul11(b: bv8): bv8 { Add(XTime(Add(XTime(XTime(b)), b)), b) }
  function Mul13(b: bv8): bv8 { Add(XTime(XTime(Add(XTime(b), b))), b) }
  function Mul14(b: bv8): bv8 { XTime(Add(XTime(Add(XTime(b), b)), b)) }

  function Sum(a: bv8, b: bv8, c: bv8, d: bv8): bv8 { Add(Add(a, b), Add(c, d)) }

  lemma MulByEncryptionConstants(b: bv8)
    ensures Mul2(b) == GMul(b, 2) && Mul3(b) == GMul(b, 3)
  {}

  lemma MulBy9And11(b: bv8)
    ensures Mul9(b) == GMul(b, 9) && Mul11(b) == GMul(b, 11)
  {}

  lemma MulBy13And14(b: bv8)
    ensures Mul13(b) == GMul(b, 13) && Mul14(b) == GMul(b, 14)
  {}

  // ----- Section 5.1: transformations of the cipher -----

  function SubWord(w: Word): Word { Pack(S(B0(w)), S(B1(w)), S(B2(w)), S(B3(w))) }

  function SubBytes(s: Block): Block {
    Block(SubWord(s.c0), SubWord(s.c1), SubWord(s.c2), SubWord(s.c3))
  }

  function Diagonal(a: Word, b: Word, c: Word, d: Word): Word { Pack(B0(a), B1(b), B2(c), B3(d)) }

  function ShiftRows(s: Block): Block {
    Block(Diagonal(s.c0, s.c1, s.c2, s.c3), Diagonal(s.c1, s.c2, s.c3, s.c0),
          Diagonal(s.c2, s.c3, s.c0, s.c1), Diagonal(s.c3, s.c0, s.c1, s.c2))
  }

  function MixColumn(w: Word): Word {
    var a, b, c, d := B0(w), B1(w), B2(w), B3(w);
    Pack(Sum(Mul2(a), Mul3(b), c, d), Sum(a, Mul2(b), Mul3(c), d),
         Sum(a, b, Mul2(c), Mul3(d)), Sum(Mul3(a), b, c, Mul2(d)))
  }

  function MixColumns(s: Block): Block {
    Block(MixColumn(s.c0), MixColumn(s.c1), MixColumn(s.c2), MixColumn(s.c3))
  }

  function AddWord(u: Word, v: Word): Word { u ^ v }

  function AddRoundKey(s: Block, k: Block): Block {
    Block(AddWord(s.c0, k.c0), AddWord(s.c1, k.c1), AddWord(s.c2, k.c2), AddWord(s.c3, k.c3))
  }

  /** The state after the initial key addition and `r` full rounds. */
  function Rounds(input: Block, w: seq<Block>, r: nat): Block
    requires r < |w|
  {
    if r == 0 then AddRoundKey(input, w[0])
    else AddRoundKey(MixColumns(ShiftRows(SubBytes(Rounds(input, w, r - 1)))), w[r])
  }

  /** Cipher of section 5.1 with Nr = |w| - 1. */
  function Cipher(input: Block, w: seq<Block>): Block
    requires |w| >= 2
  {
    AddRoundKey(ShiftRows(SubBytes(Rounds(input, w, |w| - 2))), w[|w| - 1])
  }

  // ----- Section 5.2: key expansion -----

  function RotWord(w: Word): Word { Pack(B1(w), B2(w), B3(w), B0(w)) }

  /** Rcon[j] = [x^(j-1), 0, 0, 0]. */
  function Rcon(j: nat): Word
    requires j >= 1
  {
    Pack(XPower(j - 1), 0, 0, 0)
  }

  function XPower(j: nat): bv8 { if j == 0 then 1 else XTime(XPower(j - 1)) }

  /** Word `i` of the expansion of a cipher key of Nk words. */
  function KeyWord(key: seq<Word>, i: nat): Word
    requires |key| > 0
  {
    var nk := |key|;
    if i < nk then key[i]
    else
      var temp := KeyWord(key, i - 1);
      AddWord(KeyWord(key, i - nk),
        if i % nk == 0 then AddWord(SubWord(RotWord(temp)), Rcon(i / nk))
        else if nk > 6 && i % nk == 4 then SubWord(temp)
        else temp)
  }

  function RoundKey(key: seq<Word>, r: nat): Block
    requires |key| > 0
  {
    Block(KeyWord(key, 4 * r), KeyWord(key, 4 * r + 1), KeyWord(key, 4 * r + 2), KeyWord(key, 4 * r + 3))
  }

  /** The round keys 0..Nr, where Nr = Nk + 6. */
  function KeySchedule(key: seq<Word>): (w: seq<Block>)
    requires |key| > 0
    ensures |w| == |key| + 7
    ensures forall r :: 0 <= r < |w| ==> w[r] == RoundKey(key, r)
  {
    seq(|key| + 7, r requires 0 <= r => RoundKey(key, r))
  }

  // ----- Section 5.3: the inverse cipher -----

  function InvSubWord(w: Word): Word { Pack(S5(B0(w)), S5(B1(w)), S5(B2(w)), S5(B3(w))) }

  function InvSubBytes(s: Block): Block {
    Block(InvSubWord(s.c0), InvSubWord(s.c1), InvSubWord(s.c2), InvSubWord(s.c3))
  }

  function InvShiftRows(s: Block): Block {
    Block(Diagonal(s.c0, s.c3, s.c2, s.c1), Diagonal(s.c1, s.c0, s.c3, s.c2),
          Diagonal(s.c2, s.c1, s.c0, s.c3), Diagonal(s.c3, s.c2, s.c1, s.c0))
  }

  function InvMixColumn(w: Word): Word {
    var a, b, c, d := B0(w), B1(w), B2(w), B3(w);
    Pack(Sum(Mul14(a), Mul11(b), Mul13(c), Mul9(d)), Sum(Mul9(a), Mul14(b), Mul11(c), Mul13(d)),
         Sum(Mul13(a), Mul9(b), Mul14(c), Mul11(d)), Sum(Mul11(a), Mul13(b), Mul9(c), Mul14(d)))
  }

  function InvMixColumns(s: Block): Block {
    Block(InvMixColumn(s.c0), InvMixColumn(s.c1), InvMixColumn(s.c2), InvMixColumn(s.c3))
  }

  /** The state of InvCipher after its rounds Nr-1 down to `r`. */
  function InvRounds(input: Block, w: seq<Block>, r: nat): Block
    requires 1 <= r < |w|
    decreases |w| - r
  {
    if r == |w| - 1 then AddRoundKey(input, w[r])
    else InvMixColumns(AddRoundKey(InvSubBytes(InvShiftRows(InvRounds(input, w, r + 1))), w[r]))
  }

  function InvCipher(input: Block, w: seq<Block>): Block
    requires |w| >= 2
  {
    AddRoundKey(InvSubBytes(InvShiftRows(InvRounds(input, w, 1))), w[0])
  }

  // ----- Section 5.3.5: the equivalent inverse cipher -----

  /** The decryption key schedule: InvMixColumns applied to all round keys but the first and the last. */
  function DecryptionKeys(w: seq<Block>): (dw: seq<Block>)
    ensures |dw| == |w|
    ensures forall r :: 0 <= r < |w| ==> dw[r] == if 0 < r < |w| - 1 then InvMixColumns(w[r]) else w[r]
  {
    seq(|w|, r requires 0 <= r < |w| => if 0 < r < |w| - 1 then InvMixColumns(w[r]) else w[r])
  }

  function EqInvRounds(input: Block, dw: seq<Block>, r: nat): Block
    requires 1 <= r < |dw|
    decreases |dw| - r
  {
    if r == |dw| - 1 then AddRoundKey(input, dw[r])
    else AddRoundKey(InvMixColumns(InvShiftRows(InvSubBytes(EqInvRounds(input, dw, r + 1)))), dw[r])
  }

  function EqInvCipher(input: Block, dw: seq<Block>): Block
    requires |dw| >= 2
  {
    AddRoundKey(InvShiftRows(InvSubBytes(EqInvRounds(input, dw, 1))), dw[0])
  }
}
