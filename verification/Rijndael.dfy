/**
 * The cipher object of rijndael.c: the key schedule filled row by row, its conversion for decryption, and block
 * encryption and decryption through the round tables, over byte buffers that may be one and the same.
 */
module Rijndael {
  import opened SBox
  import opened Fips197
  import opened RijndaelTables
  import opened RijndaelRounds
  import opened BlockModes
  import opened Sequences

  // ----- Words and blocks in byte buffers -----

  /** The words of a cipher key given as bytes. */
  function KeyWords(key: seq<bv8>): (w: seq<Word>)
    ensures |w| == |key| / 4
  {
    seq(|key| / 4, i requires 0 <= i < |key| / 4 => Pack(key[4 * i], key[4 * i + 1], key[4 * i + 2], key[4 * i + 3]))
  }

  /** The words have the bytes in their order, the first of four as the highest. */
  predicate InOrder(w: seq<Word>, key: seq<bv8>) {
    |w| == |key| / 4 && forall i :: 0 <= i < |w| ==> WordBytes(w[i]) == key[4 * i..4 * i + 4]
  }

  lemma KeyBytesInOrder(key: seq<bv8>)
    ensures InOrder(KeyWords(key), key)
  {
    hide WordBytes, WordAt, Pack;
    forall i | 0 <= i < |key| / 4 ensures WordBytes(KeyWords(key)[i]) == key[4 * i..4 * i + 4] {
      KeyWordAt(key, i);
      WordBytesOfWordAt(key, 4 * i);
    }
  }

  lemma KeyWordAt(key: seq<bv8>, i: nat)
    requires 4 * i + 4 <= |key|
    ensures KeyWords(key)[i] == WordAt(key, 4 * i)
  {}

  function LoadWord(a: array<bv8>, o: nat): Word
    requires o + 4 <= a.Length
    reads a
  {
    Pack(a[o], a[o + 1], a[o + 2], a[o + 3])
  }

  function LoadBlock(a: array<bv8>, o: nat): Block
    requires o + 16 <= a.Length
    reads a
  {
    Block(LoadWord(a, o), LoadWord(a, o + 4), LoadWord(a, o + 8), LoadWord(a, o + 12))
  }

  method StoreWord(b: array<bv8>, o: nat, w: Word)
    requires o + 4 <= b.Length
    modifies b
    ensures LoadWord(b, o) == w
    ensures forall i :: 0 <= i < b.Length && !(o <= i < o + 4) ==> b[i] == old(b[i])
  {
    hide Pack, B0, B1, B2, B3;
    b[o], b[o + 1], b[o + 2], b[o + 3] := B0(w), B1(w), B2(w), B3(w);
    BytesPack(w);
  }

  method XorWord(b: array<bv8>, o: nat, k: Word)
    requires o + 4 <= b.Length
    modifies b
    ensures LoadWord(b, o) == AddWord(old(LoadWord(b, o)), k)
    ensures forall i :: 0 <= i < b.Length && !(o <= i < o + 4) ==> b[i] == old(b[i])
  {
    hide AddWord, Pack;
    var w := LoadWord(b, o);
    StoreWord(b, o, AddWord(w, k));
  }

  method XorBlock(b: array<bv8>, o: nat, k0: Word, k1: Word, k2: Word, k3: Word)
    requires o + 16 <= b.Length
    modifies b
    ensures LoadBlock(b, o) == AddRoundKey(old(LoadBlock(b, o)), Block(k0, k1, k2, k3))
    ensures forall i :: 0 <= i < b.Length && !(o <= i < o + 16) ==> b[i] == old(b[i])
  {
    hide AddWord, Pack;
    XorWord(b, o, k0);
    XorWord(b, o + 4, k1);
    XorWord(b, o + 8, k2);
    XorWord(b, o + 12, k3);
  }

  const ENCRYPT := 0
  const DECRYPT := 1

  const STATE_VALID := 0
  const STATE_INVALID := 1

  const SUCCESS := 0
  const UNSUPPORTED_MODE := -1
  const UNSUPPORTED_DIRECTION := -2
  const UNSUPPORTED_KEY_LENGTH := -3
  const BAD_KEY := -4
  const NOT_INITIALIZED := -5
  const BAD_DIRECTION := -6
  const CORRUPTED_DATA := -7

  class Rijndael {
    var state: int
    var mode: int
    var direction: int
    var rounds: nat
    const initVector: array<bv8>
    const expandedKey: array2<Word>

    ghost predicate Valid()
      reads this
    {
      Shape() && (rounds == 10 || rounds == 12 || rounds == 14)
    }

    ghost predicate Shape() {
      initVector.Length == 16 && expandedKey.Length0 == 15 && expandedKey.Length1 == 4
    }

    constructor ()
      ensures Shape() && state == STATE_INVALID
      ensures fresh(initVector) && fresh(expandedKey)
    {
      state := STATE_INVALID;
      initVector := new bv8[16];
      expandedKey := new Word[15, 4];
    }

    /** Ready to run in one direction with the key schedule of `key` and the given mode. */
    ghost predicate Keyed(key: seq<Word>)
      reads this, expandedKey
    {
      && Valid() && state == STATE_VALID && |key| == rounds - 6
      && (direction == ENCRYPT ==> Keys() == KeySchedule(key))
      && (direction == DECRYPT ==> Keys() == DecryptionKeys(KeySchedule(key)))
    }

    method SetInitVector(iv: array?<bv8>)
      requires Shape() && iv != initVector && (iv != null ==> iv.Length >= 16)
      modifies initVector
      ensures initVector[..] == if iv == null then Zeros(16) else iv[..16]
    {
      var i := 0;
      while i < 16
        invariant 0 <= i <= 16
        invariant forall j :: 0 <= j < i ==> initVector[j] == if iv == null then 0 else iv[j]
      {
        initVector[i] := if iv == null then 0 else iv[i];
        i := i + 1;
      }
    }

    static method KeyMatrix(key: array<bv8>, keyBytes: nat) returns (matrix: array<Word>)
      requires keyBytes <= key.Length && keyBytes <= 32
      ensures fresh(matrix) && matrix.Length == 8
      ensures matrix[..keyBytes / 4] == KeyWords(key[..keyBytes])
    {
      hide Pack;
      matrix := new Word[8];
      var i := 0;
      while i < keyBytes / 4
        invariant 0 <= i <= keyBytes / 4
        invariant forall j :: 0 <= j < i ==> matrix[j] == KeyWords(key[..keyBytes])[j]
      {
        matrix[i] := Pack(key[4 * i], key[4 * i + 1], key[4 * i + 2], key[4 * i + 3]);
        i := i + 1;
      }
    }

    method Init(mode: int, dir: int, key: array?<bv8>, keyLen: int, iv: array?<bv8>) returns (ret: int)
      requires Shape()
      requires iv != null ==> iv.Length >= 16
      requires key != null && 0 <= keyLen <= 2 ==> key.Length >= 8 * (keyLen + 2)
      requires key != initVector && iv != initVector
      modifies this, initVector, expandedKey
      ensures ret == if mode != ECB && mode != CBC && mode != CFB1 then UNSUPPORTED_MODE
                     else if dir != ENCRYPT && dir != DECRYPT then UNSUPPORTED_DIRECTION
                     else if keyLen != 0 && keyLen != 1 && keyLen != 2 then UNSUPPORTED_KEY_LENGTH
                     else if key == null then BAD_KEY
                     else SUCCESS
      ensures ret != SUCCESS ==> state == STATE_INVALID
      ensures ret == SUCCESS ==> this.mode == mode && direction == dir && rounds == 2 * keyLen + 10
      ensures ret == SUCCESS ==> Keyed(KeyWords(key[..8 * (keyLen + 2)]))
      ensures ret == SUCCESS ==> InOrder(KeyWords(key[..8 * (keyLen + 2)]), key[..8 * (keyLen + 2)])
      ensures ret == SUCCESS ==> initVector[..] == if iv == null then Zeros(16) else iv[..16]
    {
      hide KeySchedule, DecryptionKeys, KeyWords, InOrder, Zeros;
      state := STATE_INVALID;
      if mode != ECB && mode != CBC && mode != CFB1 { return UNSUPPORTED_MODE; }
      this.mode := mode;
      if dir != ENCRYPT && dir != DECRYPT { return UNSUPPORTED_DIRECTION; }
      direction := dir;
      SetInitVector(iv);
      var keyBytes;
      match keyLen {
        case 0 => keyBytes, rounds := 16, 10;
        case 1 => keyBytes, rounds := 24, 12;
        case 2 => keyBytes, rounds := 32, 14;
        case _ => return UNSUPPORTED_KEY_LENGTH;
      }
      if key == null { return BAD_KEY; }
      var keyMatrix := KeyMatrix(key, keyBytes);
      KeyBytesInOrder(key[..keyBytes]);
      KeySched(keyMatrix);
      if direction == DECRYPT { KeyEncToDec(); }
      state := STATE_VALID;
      return SUCCESS;
    }

    ghost function KeyAt(r: nat): Block
      requires Valid() && r <= rounds
      reads this, expandedKey
    {
      Block(expandedKey[r, 0], expandedKey[r, 1], expandedKey[r, 2], expandedKey[r, 3])
    }

    /** The round keys in use. */
    ghost function Keys(): (w: seq<Block>)
      requires Valid()
      reads this, expandedKey
      ensures |w| == rounds + 1
      ensures forall r :: 0 <= r < |w| ==> w[r] == KeyAt(r)
    {
      seq(rounds + 1, r requires 0 <= r <= rounds && Valid() reads this, expandedKey => KeyAt(r))
    }

    method LoadKeyed(a: array<bv8>, o: nat, r: nat) returns (t0: Word, t1: Word, t2: Word, t3: Word)
      requires Valid() && o + 16 <= a.Length && r <= rounds
      ensures Block(t0, t1, t2, t3) == AddRoundKey(LoadBlock(a, o), KeyAt(r))
    {
      hide AddWord, LoadWord;
      t0 := AddWord(LoadWord(a, o), expandedKey[r, 0]);
      t1 := AddWord(LoadWord(a, o + 4), expandedKey[r, 1]);
      t2 := AddWord(LoadWord(a, o + 8), expandedKey[r, 2]);
      t3 := AddWord(LoadWord(a, o + 12), expandedKey[r, 3]);
    }

    method StoreRound(b: array<bv8>, o: nat, t0: Word, t1: Word, t2: Word, t3: Word)
      requires o + 16 <= b.Length
      modifies b
      ensures LoadBlock(b, o) == MixColumns(ShiftRows(SubBytes(Block(t0, t1, t2, t3))))
      ensures forall i :: 0 <= i < b.Length && !(o <= i < o + 16) ==> b[i] == old(b[i])
    {
      hide T1, T2, T3, T4, Pack, B0, B1, B2, B3, Xor4, MixColumns, ShiftRows, SubBytes;
      StoreWord(b, o, Xor4(T1(B0(t0)), T2(B1(t1)), T3(B2(t2)), T4(B3(t3))));
      StoreWord(b, o + 4, Xor4(T1(B0(t1)), T2(B1(t2)), T3(B2(t3)), T4(B3(t0))));
      StoreWord(b, o + 8, Xor4(T1(B0(t2)), T2(B1(t3)), T3(B2(t0)), T4(B3(t1))));
      StoreWord(b, o + 12, Xor4(T1(B0(t3)), T2(B1(t0)), T3(B2(t1)), T4(B3(t2))));
      EncryptColumnsAreRound(Block(t0, t1, t2, t3));
    }

    method Encrypt(a: array<bv8>, ao: nat, b: array<bv8>, bo: nat)
      requires Valid() && ao + 16 <= a.Length && bo + 16 <= b.Length
      modifies b
      ensures Valid() && Keys() == old(Keys())
      ensures LoadBlock(b, bo) == Cipher(old(LoadBlock(a, ao)), Keys())
      ensures forall i :: 0 <= i < b.Length && !(bo <= i < bo + 16) ==> b[i] == old(b[i])
    {
      hide Pack, MixColumns, ShiftRows, SubBytes, AddRoundKey, LoadBlock;
      ghost var input, w := LoadBlock(a, ao), Keys();
      var t0, t1, t2, t3 := LoadKeyed(a, ao, 0);
      assert Block(t0, t1, t2, t3) == Rounds(input, w, 0) by { assert w[0] == KeyAt(0); }
      StoreRound(b, bo, t0, t1, t2, t3);
      var r := 1;
      while r < rounds - 1
        invariant 1 <= r <= rounds - 1
        invariant Keys() == w
        invariant LoadBlock(b, bo) == MixColumns(ShiftRows(SubBytes(Rounds(input, w, r - 1))))
        invariant forall i :: 0 <= i < b.Length && !(bo <= i < bo + 16) ==> b[i] == old(b[i])
      {
        t0, t1, t2, t3 := LoadKeyed(b, bo, r);
        assert Block(t0, t1, t2, t3) == Rounds(input, w, r) by { assert w[r] == KeyAt(r); }
        StoreRound(b, bo, t0, t1, t2, t3);
        r := r + 1;
      }
      t0, t1, t2, t3 := LoadKeyed(b, bo, r);
      ghost var s := Block(t0, t1, t2, t3);
      assert s == Rounds(input, w, r) by { assert w[r] == KeyAt(r); }
      StoreSubstituted(b, bo, t0, t1, t2, t3);
      assert w[rounds] == KeyAt(rounds);
      XorBlock(b, bo, expandedKey[rounds, 0], expandedKey[rounds, 1], expandedKey[rounds, 2], expandedKey[rounds, 3]);
    }

    method StoreSubstituted(b: array<bv8>, o: nat, t0: Word, t1: Word, t2: Word, t3: Word)
      requires o + 16 <= b.Length
      modifies b
      ensures LoadBlock(b, o) == ShiftRows(SubBytes(Block(t0, t1, t2, t3)))
      ensures forall i :: 0 <= i < b.Length && !(o <= i < o + 16) ==> b[i] == old(b[i])
    {
      hide T1, Pack, B0, B1, B2, B3, S, SubWord, Diagonal;
      StoreBytes(b, o, T1Byte(B0(t0)), T1Byte(B1(t1)), T1Byte(B2(t2)), T1Byte(B3(t3)));
      StoreBytes(b, o + 4, T1Byte(B0(t1)), T1Byte(B1(t2)), T1Byte(B2(t3)), T1Byte(B3(t0)));
      StoreBytes(b, o + 8, T1Byte(B0(t2)), T1Byte(B1(t3)), T1Byte(B2(t0)), T1Byte(B3(t1)));
      StoreBytes(b, o + 12, T1Byte(B0(t3)), T1Byte(B1(t0)), T1Byte(B2(t1)), T1Byte(B3(t2)));
      SubWordOfDiagonal(t0, t1, t2, t3); SubWordOfDiagonal(t1, t2, t3, t0);
      SubWordOfDiagonal(t2, t3, t0, t1); SubWordOfDiagonal(t3, t0, t1, t2);
    }

    method StoreInvRound(b: array<bv8>, o: nat, t0: Word, t1: Word, t2: Word, t3: Word)
      requires o + 16 <= b.Length
      modifies b
      ensures LoadBlock(b, o) == InvMixColumns(InvShiftRows(InvSubBytes(Block(t0, t1, t2, t3))))
      ensures forall i :: 0 <= i < b.Length && !(o <= i < o + 16) ==> b[i] == old(b[i])
    {
      hide T5, T6, T7, T8, Pack, B0, B1, B2, B3, Xor4, InvMixColumns, InvShiftRows, InvSubBytes;
      StoreWord(b, o, Xor4(T5(B0(t0)), T6(B1(t3)), T7(B2(t2)), T8(B3(t1))));
      StoreWord(b, o + 4, Xor4(T5(B0(t1)), T6(B1(t0)), T7(B2(t3)), T8(B3(t2))));
      StoreWord(b, o + 8, Xor4(T5(B0(t2)), T6(B1(t1)), T7(B2(t0)), T8(B3(t3))));
      StoreWord(b, o + 12, Xor4(T5(B0(t3)), T6(B1(t2)), T7(B2(t1)), T8(B3(t0))));
      DecryptColumnsAreRound(Block(t0, t1, t2, t3));
    }

    method StoreInvSubstituted(b: array<bv8>, o: nat, t0: Word, t1: Word, t2: Word, t3: Word)
      requires o + 16 <= b.Length
      modifies b
      ensures LoadBlock(b, o) == InvShiftRows(InvSubBytes(Block(t0, t1, t2, t3)))
      ensures forall i :: 0 <= i < b.Length && !(o <= i < o + 16) ==> b[i] == old(b[i])
    {
      hide S5, Pack, B0, B1, B2, B3, InvSubWord, Diagonal;
      StoreBytes(b, o, S5(B0(t0)), S5(B1(t3)), S5(B2(t2)), S5(B3(t1)));
      StoreBytes(b, o + 4, S5(B0(t1)), S5(B1(t0)), S5(B2(t3)), S5(B3(t2)));
      StoreBytes(b, o + 8, S5(B0(t2)), S5(B1(t1)), S5(B2(t0)), S5(B3(t3)));
      StoreBytes(b, o + 12, S5(B0(t3)), S5(B1(t2)), S5(B2(t1)), S5(B3(t0)));
      SubWordOfDiagonal(t0, t3, t2, t1); SubWordOfDiagonal(t1, t0, t3, t2);
      SubWordOfDiagonal(t2, t1, t0, t3); SubWordOfDiagonal(t3, t2, t1, t0);
    }

    method Decrypt(a: array<bv8>, ao: nat, b: array<bv8>, bo: nat)
      requires Valid() && ao + 16 <= a.Length && bo + 16 <= b.Length
      modifies b
      ensures Valid() && Keys() == old(Keys())
      ensures LoadBlock(b, bo) == EqInvCipher(old(LoadBlock(a, ao)), Keys())
      ensures forall i :: 0 <= i < b.Length && !(bo <= i < bo + 16) ==> b[i] == old(b[i])
    {
      hide Pack, InvMixColumns, InvShiftRows, InvSubBytes, AddRoundKey, LoadBlock;
      ghost var input, w := LoadBlock(a, ao), Keys();
      var r := rounds;
      var t0, t1, t2, t3 := LoadKeyed(a, ao, r);
      assert Block(t0, t1, t2, t3) == EqInvRounds(input, w, r) by { assert w[r] == KeyAt(r); }
      StoreInvRound(b, bo, t0, t1, t2, t3);
      r := r - 1;
      while r > 1
        invariant 1 <= r < rounds
        invariant Keys() == w
        invariant LoadBlock(b, bo) == InvMixColumns(InvShiftRows(InvSubBytes(EqInvRounds(input, w, r + 1))))
        invariant forall i :: 0 <= i < b.Length && !(bo <= i < bo + 16) ==> b[i] == old(b[i])
      {
        t0, t1, t2, t3 := LoadKeyed(b, bo, r);
        assert Block(t0, t1, t2, t3) == EqInvRounds(input, w, r) by { assert w[r] == KeyAt(r); }
        StoreInvRound(b, bo, t0, t1, t2, t3);
        r := r - 1;
      }
      t0, t1, t2, t3 := LoadKeyed(b, bo, 1);
      assert Block(t0, t1, t2, t3) == EqInvRounds(input, w, 1) by { assert w[1] == KeyAt(1); }
      StoreInvSubstituted(b, bo, t0, t1, t2, t3);
      assert w[0] == KeyAt(0);
      XorBlock(b, bo, expandedKey[0, 0], expandedKey[0, 1], expandedKey[0, 2], expandedKey[0, 3]);
    }

    // ----- Key schedule -----

    /** Words 0..n-1 of the expansion of `key` are in place. */
    ghost predicate Stored(key: seq<Word>, n: int)
      requires Valid() && |key| > 0
      reads this, expandedKey
    {
      forall r, t :: 0 <= r < 15 && 0 <= t < 4 && 4 * r + t < n ==> expandedKey[r, t] == KeyWord(key, 4 * r + t)
    }

    /** Copies the words of `temp` row by row from position (r0, t0) on, stopping after the last round key. */
    method FillRows(temp: array<Word>, columns: nat, r0: nat, t0: nat, ghost key: seq<Word>)
      returns (r: nat, t: nat)
      requires Valid() && 4 <= columns <= temp.Length && |key| > 0
      requires r0 <= rounds && t0 < 4 && Stored(key, 4 * r0 + t0)
      requires forall j :: 0 <= j < columns ==> temp[j] == KeyWord(key, 4 * r0 + t0 + j)
      modifies expandedKey
      ensures Valid() && Stored(key, 4 * r + t)
      ensures r <= rounds + 1 && t < 4
      ensures r <= rounds ==> 4 * r + t == 4 * r0 + t0 + columns
    {
      hide KeyWord;
      ghost var n := 4 * r0 + t0;
      r, t := r0, t0;
      var j := 0;
      while j < columns && r <= rounds
        invariant 0 <= j <= columns && t < 4 && r <= rounds + 1
        invariant 4 * r + t == n + j
        invariant Stored(key, 4 * r + t)
        decreases columns - j
      {
        j, t := FillRow(temp, columns, j, r, t, key, n);
        if t == 4 {
          r, t := r + 1, 0;
        }
      }
    }

    method FillRow(temp: array<Word>, columns: nat, j0: nat, r: nat, t0: nat, ghost key: seq<Word>, ghost n: nat)
      returns (j: nat, t: nat)
      requires Valid() && j0 < columns <= temp.Length && |key| > 0
      requires r < 15 && t0 < 4 && 4 * r + t0 == n + j0 && Stored(key, n + j0)
      requires forall j :: 0 <= j < columns ==> temp[j] == KeyWord(key, n + j)
      modifies expandedKey
      ensures j0 < j <= columns && t <= 4 && 4 * r + t == n + j && (j == columns || t == 4)
      ensures Valid() && Stored(key, n + j)
    {
      hide KeyWord;
      j, t := j0, t0;
      while j < columns && t < 4
        invariant j0 <= j <= columns && t <= 4
        invariant 4 * r + t == n + j
        invariant Stored(key, n + j)
      {
        expandedKey[r, t] := temp[j];
        j, t := j + 1, t + 1;
      }
    }

    method CopyWords(temp: array<Word>, key: array<Word>, columns: nat)
      requires columns <= temp.Length && columns <= key.Length && temp != key
      modifies temp
      ensures forall i :: 0 <= i < columns ==> temp[i] == key[..columns][i]
    {
      var j := 0;
      while j < columns
        invariant 0 <= j <= columns
        invariant forall i :: 0 <= i < j ==> temp[i] == key[i]
      {
        temp[j] := key[j];
        j := j + 1;
      }
    }

    method KeySched(key: array<Word>)
      requires Valid() && key.Length == 8
      modifies expandedKey
      ensures Valid() && Keys() == KeySchedule(key[..rounds - 6])
    {
      hide S, SubWord, RotWord, Rcon, AddWord, RconTable, Pack, KeyWord, B0, B1, B2, B3;
      var columns := rounds - 6;
      ghost var k := key[..columns];
      var temp := new Word[8];
      CopyWords(temp, key, columns);
      forall i | 0 <= i < columns ensures temp[i] == KeyWord(k, i) { FirstKeyWords(k, i); }
      var r, t := FillRows(temp, columns, 0, 0, k);
      var rconPointer := 0;
      while r <= rounds
        invariant Valid() && r <= rounds + 1 && t < 4 && key[..columns] == k
        invariant Stored(k, 4 * r + t)
        invariant r <= rounds ==> 4 * r + t == (rconPointer + 1) * columns
        invariant r <= rounds ==> forall i :: 0 <= i < columns ==> temp[i] == KeyWord(k, rconPointer * columns + i)
        decreases 4 * (rounds + 1) - (4 * r + t)
      {
        RconPointerBound(rconPointer, columns, 4 * r + t, rounds);
        NextColumns(temp, columns, rconPointer, k);
        rconPointer := rconPointer + 1;
        r, t := FillRows(temp, columns, r, t, k);
      }
      AllStored(k);
    }

    lemma AllStored(key: seq<Word>)
      requires Valid() && |key| == rounds - 6 && Stored(key, 4 * rounds + 4)
      ensures Keys() == KeySchedule(key)
    {
      hide KeyWord;
      forall i | 0 <= i <= rounds ensures KeyAt(i) == RoundKey(key, i) {
        assert expandedKey[i, 0] == KeyWord(key, 4 * i + 0);
      }
    }

    /** Replaces the last `columns` words generated by the next ones. */
    method NextColumns(temp: array<Word>, columns: nat, rconPointer: nat, ghost key: seq<Word>)
      requires (columns == 4 || columns == 6 || columns == 8) && |key| == columns && temp.Length == 8
      requires rconPointer < 30
      requires forall i :: 0 <= i < columns ==> temp[i] == KeyWord(key, rconPointer * columns + i)
      modifies temp
      ensures forall i :: 0 <= i < columns ==> temp[i] == KeyWord(key, (rconPointer + 1) * columns + i)
    {
      hide S, SubWord, RotWord, Rcon, AddWord, RconTable, Pack, KeyWord, B0, B1, B2, B3;
      ghost var n, before := (rconPointer + 1) * columns, temp[..columns];
      var last := temp[columns - 1];
      FirstOfNextColumns(key, rconPointer, before[0], last);
      temp[0] := AddWord(AddWord(temp[0], Pack(S(B1(last)), S(B2(last)), S(B3(last)), S(B0(last)))),
                         Pack(RconTable(rconPointer), 0, 0, 0));
      var j := 1;
      while j < columns
        invariant 1 <= j <= columns
        invariant forall i :: 0 <= i < j ==> temp[i] == KeyWord(key, n + i)
        invariant forall i :: j <= i < columns ==> temp[i] == before[i]
      {
        var p := temp[j - 1];
        NextKeyWord(key, rconPointer + 1, j, before[j], p);
        if columns == 8 && j == columns / 2 {
          temp[j] := AddWord(temp[j], Pack(S(B0(p)), S(B1(p)), S(B2(p)), S(B3(p))));
          PlainSubstitution(p);
        } else {
          temp[j] := AddWord(temp[j], temp[j - 1]);
        }
        j := j + 1;
      }
    }

    method KeyEncToDec()
      requires Valid()
      modifies expandedKey
      ensures Valid() && Keys() == DecryptionKeys(old(Keys()))
    {
      hide U1, U2, U3, U4, Xor4, B0, B1, B2, B3, InvMixColumn;
      ghost var w := Keys();
      var r := 1;
      while r < rounds
        invariant 1 <= r <= rounds && Valid()
        invariant forall i :: 0 <= i <= rounds ==> KeyAt(i) == if 0 < i < r then InvMixColumns(w[i]) else w[i]
      {
        assert KeyAt(r) == w[r];
        ConvertWord(r, 0);
        ConvertWord(r, 1);
        ConvertWord(r, 2);
        ConvertWord(r, 3);
        r := r + 1;
      }
    }

    method ConvertWord(r: nat, t: nat)
      requires Valid() && r < 15 && t < 4
      modifies expandedKey
      ensures expandedKey[r, t] == InvMixColumn(old(expandedKey[r, t]))
      ensures forall i, j :: 0 <= i < 15 && 0 <= j < 4 && !(i == r && j == t) ==> expandedKey[i, j] == old(expandedKey[i, j])
    {
      hide U1, U2, U3, U4, Xor4, B0, B1, B2, B3, InvMixColumn;
      var w := expandedKey[r, t];
      expandedKey[r, t] := Xor4(U1(B0(w)), U2(B1(w)), U3(B2(w)), U4(B3(w)));
      UTablesAreInvMixColumn(w);
    }
  }

  /** T1[x][1], which the last round uses for S[x]. */
  function T1Byte(x: bv8): (s: bv8)
    ensures s == S(x)
  {
    hide T1, S, Pack, B1;
    T1Entries(x);
    PackBytes(Mul2(S(x)), S(x), S(x), Mul3(S(x)));
    B1(T1(x))
  }

  method StoreBytes(b: array<bv8>, o: nat, b0: bv8, b1: bv8, b2: bv8, b3: bv8)
    requires o + 4 <= b.Length
    modifies b
    ensures LoadWord(b, o) == Pack(b0, b1, b2, b3)
    ensures forall i :: 0 <= i < b.Length && !(o <= i < o + 4) ==> b[i] == old(b[i])
  {
    hide Pack;
    b[o], b[o + 1], b[o + 2], b[o + 3] := b0, b1, b2, b3;
  }

  /** The table rcon of the source. */
  function RconTable(i: nat): bv8
    requires i < 30
  {
    if i == 0 then 0x01 else if i == 1 then 0x02 else if i == 2 then 0x04 else if i == 3 then 0x08
    else if i == 4 then 0x10 else if i == 5 then 0x20 else if i == 6 then 0x40 else if i == 7 then 0x80
    else if i == 8 then 0x1b else if i == 9 then 0x36 else if i == 10 then 0x6c else if i == 11 then 0xd8
    else if i == 12 then 0xab else if i == 13 then 0x4d else if i == 14 then 0x9a else if i == 15 then 0x2f
    else if i == 16 then 0x5e else if i == 17 then 0xbc else if i == 18 then 0x63 else if i == 19 then 0xc6
    else if i == 20 then 0x97 else if i == 21 then 0x35 else if i == 22 then 0x6a else if i == 23 then 0xd4
    else if i == 24 then 0xb3 else if i == 25 then 0x7d else if i == 26 then 0xfa else if i == 27 then 0xef
    else if i == 28 then 0xc5
    else 0x91
  }

  lemma RconTableIsXPower(i: nat)
    requires i < 30
    ensures RconTable(i) == XPower(i)
  {
    hide XTime;
    XTimeOfPowers();
    assert XPower(0) == 0x01 && XPower(1) == 0x02 && XPower(2) == 0x04 && XPower(3) == 0x08;
    assert XPower(4) == 0x10 && XPower(5) == 0x20 && XPower(6) == 0x40 && XPower(7) == 0x80;
    assert XPower(8) == 0x1b && XPower(9) == 0x36 && XPower(10) == 0x6c && XPower(11) == 0xd8;
    assert XPower(12) == 0xab && XPower(13) == 0x4d && XPower(14) == 0x9a && XPower(15) == 0x2f;
    assert XPower(16) == 0x5e && XPower(17) == 0xbc && XPower(18) == 0x63 && XPower(19) == 0xc6;
    assert XPower(20) == 0x97 && XPower(21) == 0x35 && XPower(22) == 0x6a && XPower(23) == 0xd4;
    assert XPower(24) == 0xb3 && XPower(25) == 0x7d && XPower(26) == 0xfa && XPower(27) == 0xef;
    assert XPower(28) == 0xc5 && XPower(29) == 0x91;
  }

  lemma XTimeOfPowers()
    ensures XTime(0x01) == 0x02 && XTime(0x02) == 0x04 && XTime(0x04) == 0x08 && XTime(0x08) == 0x10
    ensures XTime(0x10) == 0x20 && XTime(0x20) == 0x40 && XTime(0x40) == 0x80 && XTime(0x80) == 0x1b
    ensures XTime(0x1b) == 0x36 && XTime(0x36) == 0x6c && XTime(0x6c) == 0xd8 && XTime(0xd8) == 0xab
    ensures XTime(0xab) == 0x4d && XTime(0x4d) == 0x9a && XTime(0x9a) == 0x2f && XTime(0x2f) == 0x5e
    ensures XTime(0x5e) == 0xbc && XTime(0xbc) == 0x63 && XTime(0x63) == 0xc6 && XTime(0xc6) == 0x97
    ensures XTime(0x97) == 0x35 && XTime(0x35) == 0x6a && XTime(0x6a) == 0xd4 && XTime(0xd4) == 0xb3
    ensures XTime(0xb3) == 0x7d && XTime(0x7d) == 0xfa && XTime(0xfa) == 0xef && XTime(0xef) == 0xc5
    ensures XTime(0xc5) == 0x91
  {}

  lemma RconPointerBound(p: nat, columns: nat, n: nat, rounds: nat)
    requires columns >= 4 && n == (p + 1) * columns && n < 4 * (rounds + 1) <= 60
    ensures p < 15
  {
    assert 15 * columns >= 60;
    if p >= 15 { MulMonotone(15, p + 1, columns); }
  }

  lemma MulMonotone(a: nat, b: nat, c: nat)
    requires a <= b
    ensures a * c <= b * c
  {}

  lemma AddWordAssociates(a: Word, b: Word, c: Word)
    ensures AddWord(AddWord(a, b), c) == AddWord(a, AddWord(b, c))
  {}

  lemma RotatedSubstitution(w: Word)
    ensures SubWord(RotWord(w)) == Pack(S(B1(w)), S(B2(w)), S(B3(w)), S(B0(w)))
  {
    hide S, B0, B1, B2, B3, Pack;
    PackBytes(B1(w), B2(w), B3(w), B0(w));
  }

  lemma PlainSubstitution(w: Word)
    ensures SubWord(w) == Pack(S(B0(w)), S(B1(w)), S(B2(w)), S(B3(w)))
  {
    hide S, B0, B1, B2, B3, Pack;
  }

  lemma FirstKeyWords(key: seq<Word>, i: nat)
    requires i < |key|
    ensures KeyWord(key, i) == key[i]
  {
    hide SubWord, RotWord, AddWord;
  }

  lemma DivMod(m: nat, k: nat, j: nat)
    requires j < k && (k == 4 || k == 6 || k == 8)
    ensures (m * k + j) % k == j && (m * k + j) / k == m
  {}

  /** Word `m * Nk + j` of the expansion from the words Nk and one before it. */
  lemma NextKeyWord(key: seq<Word>, m: nat, j: nat, back: Word, last: Word)
    requires |key| == 4 || |key| == 6 || |key| == 8
    requires m >= 1 && j < |key|
    requires back == KeyWord(key, (m - 1) * |key| + j)
    requires last == KeyWord(key, m * |key| + j - 1)
    ensures KeyWord(key, m * |key| + j) == AddWord(back,
              if j == 0 then AddWord(SubWord(RotWord(last)), Rcon(m))
              else if |key| > 6 && j == 4 then SubWord(last)
              else last)
  {
    hide SubWord, RotWord, AddWord, Rcon;
    DivMod(m, |key|, j);
  }

  lemma FirstOfNextColumns(key: seq<Word>, p: nat, back: Word, last: Word)
    requires |key| == 4 || |key| == 6 || |key| == 8
    requires p < 30 && back == KeyWord(key, p * |key|) && last == KeyWord(key, p * |key| + |key| - 1)
    ensures KeyWord(key, (p + 1) * |key|)
         == AddWord(AddWord(back, Pack(S(B1(last)), S(B2(last)), S(B3(last)), S(B0(last)))), Pack(RconTable(p), 0, 0, 0))
  {
    hide S, SubWord, RotWord, AddWord, RconTable, Pack, KeyWord, XPower, B0, B1, B2, B3;
    NextKeyWord(key, p + 1, 0, back, last);
    RotatedSubstitution(last);
    RconTableIsXPower(p);
    AddWordAssociates(back, SubWord(RotWord(last)), Rcon(p + 1));
  }
}
