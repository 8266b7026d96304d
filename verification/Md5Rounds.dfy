/** The compression function of MD5 as codec.c unrolls it, and as sections 3.4 of RFC 1321 describes it step by step. */
module Md5Rounds {

  datatype State = State(a: bv32, b: bv32, c: bv32, d: bv32)

  function Add(x: bv32, y: bv32): bv32 { x + y }

  function Rotate(w: bv32, s: nat): bv32
    requires s <= 32
  {
    (w << s) | (w >> (32 - s))
  }

  // ----- RFC 1321, section 3.4 -----

  function F(x: bv32, y: bv32, z: bv32): bv32 { (x & y) | (!x & z) }
  function G(x: bv32, y: bv32, z: bv32): bv32 { (x & z) | (y & !z) }
  function H(x: bv32, y: bv32, z: bv32): bv32 { x ^ y ^ z }
  function I(x: bv32, y: bv32, z: bv32): bv32 { y ^ (x | !z) }

  function Mixed(i: nat, x: bv32, y: bv32, z: bv32): bv32 {
    if i < 16 then F(x, y, z) else if i < 32 then G(x, y, z) else if i < 48 then H(x, y, z) else I(x, y, z)
  }

  /** The word that step i adds. */
  function Index(i: nat): (k: nat)
    ensures k < 16
  {
    (if i < 16 then i else if i < 32 then 5 * i + 1 else if i < 48 then 3 * i + 5 else 7 * i) % 16
  }

  function Shift(i: nat): (s: nat)
    ensures s <= 32
  {
    var j := i % 4;
    if i < 16 then 7 + 5 * j
    else if i < 32 then (if j == 0 then 5 else if j == 1 then 9 else if j == 2 then 14 else 20)
    else if i < 48 then (if j == 0 then 4 else if j == 1 then 11 else if j == 2 then 16 else 23)
    else if j == 0 then 6 else if j == 1 then 10 else if j == 2 then 15 else 21
  }

  /** The integer part of 4294967296 times the absolute sine of i + 1 radians. */
  function Sine(i: nat): bv32
    requires i < 64
  {
    if i < 16 then SINES_1[i] else if i < 32 then SINES_2[i - 16] else if i < 48 then SINES_3[i - 32] else SINES_4[i - 48]
  }

  const SINES_1: seq<bv32> := [
    0xd76aa478, 0xe8c7b756, 0x242070db, 0xc1bdceee,
    0xf57c0faf, 0x4787c62a, 0xa8304613, 0xfd469501,
    0x698098d8, 0x8b44f7af, 0xffff5bb1, 0x895cd7be,
    0x6b901122, 0xfd987193, 0xa679438e, 0x49b40821
  ]

  const SINES_2: seq<bv32> := [
    0xf61e2562, 0xc040b340, 0x265e5a51, 0xe9b6c7aa,
    0xd62f105d, 0x02441453, 0xd8a1e681, 0xe7d3fbc8,
    0x21e1cde6, 0xc33707d6, 0xf4d50d87, 0x455a14ed,
    0xa9e3e905, 0xfcefa3f8, 0x676f02d9, 0x8d2a4c8a
  ]

  const SINES_3: seq<bv32> := [
    0xfffa3942, 0x8771f681, 0x6d9d6122, 0xfde5380c,
    0xa4beea44, 0x4bdecfa9, 0xf6bb4b60, 0xbebfbc70,
    0x289b7ec6, 0xeaa127fa, 0xd4ef3085, 0x04881d05,
    0xd9d4d039, 0xe6db99e5, 0x1fa27cf8, 0xc4ac5665
  ]

  const SINES_4: seq<bv32> := [
    0xf4292244, 0x432aff97, 0xab9423a7, 0xfc93a039,
    0x655b59c3, 0x8f0ccc92, 0xffeff47d, 0x85845dd1,
    0x6fa87e4f, 0xfe2ce6e0, 0xa3014314, 0x4e0811a1,
    0xf7537e82, 0xbd3af235, 0x2ad7d2bb, 0xeb86d391
  ]

  /** Step i, the four registers taking turns. */
  function Step(i: nat, s: State, x: seq<bv32>): State
    requires |x| == 16 && i < 64
  {
    var sum := Add(s.a, Add(Mixed(i, s.b, s.c, s.d), Add(x[Index(i)], Sine(i))));
    State(s.d, Add(s.b, Rotate(sum, Shift(i))), s.b, s.c)
  }

  /** The n steps from step i on. */
  function Steps(i: nat, n: nat, s: State, x: seq<bv32>): State
    requires |x| == 16 && i + n <= 64
    decreases n
  {
    if n == 0 then s else Steps(i + 1, n - 1, Step(i, s, x), x)
  }

  function Compress(s: State, x: seq<bv32>): State
    requires |x| == 16
  {
    var r := Steps(0, 64, s, x);
    State(Add(s.a, r.a), Add(s.b, r.b), Add(s.c, r.c), Add(s.d, r.d))
  }

  // ----- codec.c -----

  function F1(x: bv32, y: bv32, z: bv32): bv32 { z ^ (x & (y ^ z)) }
  function F2(x: bv32, y: bv32, z: bv32): bv32 { F1(z, x, y) }
  function F3(x: bv32, y: bv32, z: bv32): bv32 { x ^ y ^ z }
  function F4(x: bv32, y: bv32, z: bv32): bv32 { y ^ (x | !z) }

  /** MD5STEP: what becomes of w when f is the mix of the other three. */
  function Md5Step(f: bv32, w: bv32, x: bv32, data: bv32, s: nat): bv32
    requires s <= 32
  {
    Add(Rotate(Add(w, Add(f, data)), s), x)
  }

  function Round1(s: State, x: seq<bv32>): State
    requires |x| == 16
  {
    var (a, b, c, d) := (s.a, s.b, s.c, s.d);
    var a := Md5Step(F1(b, c, d), a, b, Add(x[0], 0xd76aa478), 7);
    var d := Md5Step(F1(a, b, c), d, a, Add(x[1], 0xe8c7b756), 12);
    var c := Md5Step(F1(d, a, b), c, d, Add(x[2], 0x242070db), 17);
    var b := Md5Step(F1(c, d, a), b, c, Add(x[3], 0xc1bdceee), 22);
    var a := Md5Step(F1(b, c, d), a, b, Add(x[4], 0xf57c0faf), 7);
    var d := Md5Step(F1(a, b, c), d, a, Add(x[5], 0x4787c62a), 12);
    var c := Md5Step(F1(d, a, b), c, d, Add(x[6], 0xa8304613), 17);
    var b := Md5Step(F1(c, d, a), b, c, Add(x[7], 0xfd469501), 22);
    var a := Md5Step(F1(b, c, d), a, b, Add(x[8], 0x698098d8), 7);
    var d := Md5Step(F1(a, b, c), d, a, Add(x[9], 0x8b44f7af), 12);
    var c := Md5Step(F1(d, a, b), c, d, Add(x[10], 0xffff5bb1), 17);
    var b := Md5Step(F1(c, d, a), b, c, Add(x[11], 0x895cd7be), 22);
    var a := Md5Step(F1(b, c, d), a, b, Add(x[12], 0x6b901122), 7);
    var d := Md5Step(F1(a, b, c), d, a, Add(x[13], 0xfd987193), 12);
    var c := Md5Step(F1(d, a, b), c, d, Add(x[14], 0xa679438e), 17);
    var b := Md5Step(F1(c, d, a), b, c, Add(x[15], 0x49b40821), 22);
    State(a, b, c, d)
  }

  function Round2(s: State, x: seq<bv32>): State
    requires |x| == 16
  {
    var (a, b, c, d) := (s.a, s.b, s.c, s.d);
    var a := Md5Step(F2(b, c, d), a, b, Add(x[1], 0xf61e2562), 5);
    var d := Md5Step(F2(a, b, c), d, a, Add(x[6], 0xc040b340), 9);
    var c := Md5Step(F2(d, a, b), c, d, Add(x[11], 0x265e5a51), 14);
    var b := Md5Step(F2(c, d, a), b, c, Add(x[0], 0xe9b6c7aa), 20);
    var a := Md5Step(F2(b, c, d), a, b, Add(x[5], 0xd62f105d), 5);
    var d := Md5Step(F2(a, b, c), d, a, Add(x[10], 0x02441453), 9);
    var c := Md5Step(F2(d, a, b), c, d, Add(x[15], 0xd8a1e681), 14);
    var b := Md5Step(F2(c, d, a), b, c, Add(x[4], 0xe7d3fbc8), 20);
    var a := Md5Step(F2(b, c, d), a, b, Add(x[9], 0x21e1cde6), 5);
    var d := Md5Step(F2(a, b, c), d, a, Add(x[14], 0xc33707d6), 9);
    var c := Md5Step(F2(d, a, b), c, d, Add(x[3], 0xf4d50d87), 14);
    var b := Md5Step(F2(c, d, a), b, c, Add(x[8], 0x455a14ed), 20);
    var a := Md5Step(F2(b, c, d), a, b, Add(x[13], 0xa9e3e905), 5);
    var d := Md5Step(F2(a, b, c), d, a, Add(x[2], 0xfcefa3f8), 9);
    var c := Md5Step(F2(d, a, b), c, d, Add(x[7], 0x676f02d9), 14);
    var b := Md5Step(F2(c, d, a), b, c, Add(x[12], 0x8d2a4c8a), 20);
    State(a, b, c, d)
  }

  function Round3(s: State, x: seq<bv32>): State
    requires |x| == 16
  {
    var (a, b, c, d) := (s.a, s.b, s.c, s.d);
    var a := Md5Step(F3(b, c, d), a, b, Add(x[5], 0xfffa3942), 4);
    var d := Md5Step(F3(a, b, c), d, a, Add(x[8], 0x8771f681), 11);
    var c := Md5Step(F3(d, a, b), c, d, Add(x[11], 0x6d9d6122), 16);
    var b := Md5Step(F3(c, d, a), b, c, Add(x[14], 0xfde5380c), 23);
    var a := Md5Step(F3(b, c, d), a, b, Add(x[1], 0xa4beea44), 4);
    var d := Md5Step(F3(a, b, c), d, a, Add(x[4], 0x4bdecfa9), 11);
    var c := Md5Step(F3(d, a, b), c, d, Add(x[7], 0xf6bb4b60), 16);
    var b := Md5Step(F3(c, d, a), b, c, Add(x[10], 0xbebfbc70), 23);
    var a := Md5Step(F3(b, c, d), a, b, Add(x[13], 0x289b7ec6), 4);
    var d := Md5Step(F3(a, b, c), d, a, Add(x[0], 0xeaa127fa), 11);
    var c := Md5Step(F3(d, a, b), c, d, Add(x[3], 0xd4ef3085), 16);
    var b := Md5Step(F3(c, d, a), b, c, Add(x[6], 0x04881d05), 23);
    var a := Md5Step(F3(b, c, d), a, b, Add(x[9], 0xd9d4d039), 4);
    var d := Md5Step(F3(a, b, c), d, a, Add(x[12], 0xe6db99e5), 11);
    var c := Md5Step(F3(d, a, b), c, d, Add(x[15], 0x1fa27cf8), 16);
    var b := Md5Step(F3(c, d, a), b, c, Add(x[2], 0xc4ac5665), 23);
    State(a, b, c, d)
  }

  function Round4(s: State, x: seq<bv32>): State
    requires |x| == 16
  {
    var (a, b, c, d) := (s.a, s.b, s.c, s.d);
    var a := Md5Step(F4(b, c, d), a, b, Add(x[0], 0xf4292244), 6);
    var d := Md5Step(F4(a, b, c), d, a, Add(x[7], 0x432aff97), 10);
    var c := Md5Step(F4(d, a, b), c, d, Add(x[14], 0xab9423a7), 15);
    var b := Md5Step(F4(c, d, a), b, c, Add(x[5], 0xfc93a039), 21);
    var a := Md5Step(F4(b, c, d), a, b, Add(x[12], 0x655b59c3), 6);
    var d := Md5Step(F4(a, b, c), d, a, Add(x[3], 0x8f0ccc92), 10);
    var c := Md5Step(F4(d, a, b), c, d, Add(x[10], 0xffeff47d), 15);
    var b := Md5Step(F4(c, d, a), b, c, Add(x[1], 0x85845dd1), 21);
    var a := Md5Step(F4(b, c, d), a, b, Add(x[8], 0x6fa87e4f), 6);
    var d := Md5Step(F4(a, b, c), d, a, Add(x[15], 0xfe2ce6e0), 10);
    var c := Md5Step(F4(d, a, b), c, d, Add(x[6], 0xa3014314), 15);
    var b := Md5Step(F4(c, d, a), b, c, Add(x[13], 0x4e0811a1), 21);
    var a := Md5Step(F4(b, c, d), a, b, Add(x[4], 0xf7537e82), 6);
    var d := Md5Step(F4(a, b, c), d, a, Add(x[11], 0xbd3af235), 10);
    var c := Md5Step(F4(d, a, b), c, d, Add(x[2], 0x2ad7d2bb), 15);
    var b := Md5Step(F4(c, d, a), b, c, Add(x[9], 0xeb86d391), 21);
    State(a, b, c, d)
  }

  function Md5Transform(buf: State, x: seq<bv32>): State
    requires |x| == 16
  {
    var r := Round4(Round3(Round2(Round1(buf, x), x), x), x);
    State(Add(buf.a, r.a), Add(buf.b, r.b), Add(buf.c, r.c), Add(buf.d, r.d))
  }

  // ----- They agree -----

  lemma MixesAgree(x: bv32, y: bv32, z: bv32)
    ensures F1(x, y, z) == F(x, y, z) && F2(x, y, z) == G(x, y, z)
    ensures F3(x, y, z) == H(x, y, z) && F4(x, y, z) == I(x, y, z)
  {
    ChoiceOfFirst(x, y, z);
    ChoiceOfLast(x, y, z);
  }

  lemma ChoiceOfFirst(x: bv32, y: bv32, z: bv32)
    ensures z ^ (x & (y ^ z)) == (x & y) | (!x & z)
  {}

  lemma ChoiceOfLast(x: bv32, y: bv32, z: bv32)
    ensures y ^ (z & (x ^ y)) == (x & z) | (y & !z)
  {}

  lemma AddCommutes(x: bv32, y: bv32)
    ensures Add(x, y) == Add(y, x)
  {}

  /** One step of the code, whichever register it is the turn of. */
  lemma StepAgrees(i: nat, s: State, x: seq<bv32>)
    requires |x| == 16 && i < 64
    ensures var f := if i < 16 then F1(s.b, s.c, s.d) else if i < 32 then F2(s.b, s.c, s.d)
                     else if i < 48 then F3(s.b, s.c, s.d) else F4(s.b, s.c, s.d);
            Step(i, s, x) == State(s.d, Md5Step(f, s.a, s.b, Add(x[Index(i)], Sine(i)), Shift(i)), s.b, s.c)
  {
    hide Add, Rotate, F, G, H, I, F1, F2, F3, F4, Sine, Index, Shift;
    MixesAgree(s.b, s.c, s.d);
    AddCommutes(s.b, Rotate(Add(s.a, Add(Mixed(i, s.b, s.c, s.d), Add(x[Index(i)], Sine(i)))), Shift(i)));
  }

  lemma FourSteps(i: nat, n: nat, s: State, x: seq<bv32>)
    requires |x| == 16 && n >= 4 && i + n <= 64
    ensures Steps(i, n, s, x) == Steps(i + 4, n - 4, Step(i + 3, Step(i + 2, Step(i + 1, Step(i, s, x), x), x), x), x)
  {
    hide Step;
    var s1 := Step(i, s, x);
    var s2 := Step(i + 1, s1, x);
    var s3 := Step(i + 2, s2, x);
    assert Steps(i, n, s, x) == Steps(i + 1, n - 1, s1, x) == Steps(i + 2, n - 2, s2, x) == Steps(i + 3, n - 3, s3, x);
  }

  function Mix(i: nat, x: bv32, y: bv32, z: bv32): bv32 {
    if i < 16 then F1(x, y, z) else if i < 32 then F2(x, y, z) else if i < 48 then F3(x, y, z) else F4(x, y, z)
  }

  function Data(i: nat, x: seq<bv32>): bv32
    requires |x| == 16 && i < 64
  {
    Add(x[Index(i)], Sine(i))
  }

  /** Four lines of the code, once round the registers. */
  function Four(i: nat, s: State, x: seq<bv32>): State
    requires |x| == 16 && i + 4 <= 64
  {
    var (a, b, c, d) := (s.a, s.b, s.c, s.d);
    var a := Md5Step(Mix(i, b, c, d), a, b, Data(i, x), Shift(i));
    var d := Md5Step(Mix(i + 1, a, b, c), d, a, Data(i + 1, x), Shift(i + 1));
    var c := Md5Step(Mix(i + 2, d, a, b), c, d, Data(i + 2, x), Shift(i + 2));
    var b := Md5Step(Mix(i + 3, c, d, a), b, c, Data(i + 3, x), Shift(i + 3));
    State(a, b, c, d)
  }

  lemma FourAgree(i: nat, n: nat, s: State, x: seq<bv32>)
    requires |x| == 16 && n >= 4 && i + n <= 64
    ensures Steps(i, n, s, x) == Steps(i + 4, n - 4, Four(i, s, x), x)
  {
    hide Step, Steps, Add, Rotate, F1, F2, F3, F4, Sine, Index, Shift, Md5Step;
    FourSteps(i, n, s, x);
    var s1 := Step(i, s, x);
    var s2 := Step(i + 1, s1, x);
    var s3 := Step(i + 2, s2, x);
    StepAgrees(i, s, x);
    StepAgrees(i + 1, s1, x);
    StepAgrees(i + 2, s2, x);
    StepAgrees(i + 3, s3, x);
  }

  lemma Sines1()
    ensures Sine(0) == 0xd76aa478 && Sine(1) == 0xe8c7b756
    ensures Sine(2) == 0x242070db && Sine(3) == 0xc1bdceee
    ensures Sine(4) == 0xf57c0faf && Sine(5) == 0x4787c62a
    ensures Sine(6) == 0xa8304613 && Sine(7) == 0xfd469501
    ensures Sine(8) == 0x698098d8 && Sine(9) == 0x8b44f7af
    ensures Sine(10) == 0xffff5bb1 && Sine(11) == 0x895cd7be
    ensures Sine(12) == 0x6b901122 && Sine(13) == 0xfd987193
    ensures Sine(14) == 0xa679438e && Sine(15) == 0x49b40821
  {}

  lemma Schedule1(x: seq<bv32>)
    requires |x| == 16
    ensures Data(0, x) == Add(x[0], 0xd76aa478) && Shift(0) == 7
    ensures Data(1, x) == Add(x[1], 0xe8c7b756) && Shift(1) == 12
    ensures Data(2, x) == Add(x[2], 0x242070db) && Shift(2) == 17
    ensures Data(3, x) == Add(x[3], 0xc1bdceee) && Shift(3) == 22
    ensures Data(4, x) == Add(x[4], 0xf57c0faf) && Shift(4) == 7
    ensures Data(5, x) == Add(x[5], 0x4787c62a) && Shift(5) == 12
    ensures Data(6, x) == Add(x[6], 0xa8304613) && Shift(6) == 17
    ensures Data(7, x) == Add(x[7], 0xfd469501) && Shift(7) == 22
    ensures Data(8, x) == Add(x[8], 0x698098d8) && Shift(8) == 7
    ensures Data(9, x) == Add(x[9], 0x8b44f7af) && Shift(9) == 12
    ensures Data(10, x) == Add(x[10], 0xffff5bb1) && Shift(10) == 17
    ensures Data(11, x) == Add(x[11], 0x895cd7be) && Shift(11) == 22
    ensures Data(12, x) == Add(x[12], 0x6b901122) && Shift(12) == 7
    ensures Data(13, x) == Add(x[13], 0xfd987193) && Shift(13) == 12
    ensures Data(14, x) == Add(x[14], 0xa679438e) && Shift(14) == 17
    ensures Data(15, x) == Add(x[15], 0x49b40821) && Shift(15) == 22
  {
    hide Add, Sine;
    Sines1();
  }

  lemma Round1IsFours(s: State, x: seq<bv32>)
    requires |x| == 16
    ensures Round1(s, x) == Four(12, Four(8, Four(4, Four(0, s, x), x), x), x)
  {
    hide Md5Step, Add, F1, F2, F3, F4, Data, Shift;
    Schedule1(x);
  }

  lemma Sines2()
    ensures Sine(16) == 0xf61e2562 && Sine(17) == 0xc040b340
    ensures Sine(18) == 0x265e5a51 && Sine(19) == 0xe9b6c7aa
    ensures Sine(20) == 0xd62f105d && Sine(21) == 0x02441453
    ensures Sine(22) == 0xd8a1e681 && Sine(23) == 0xe7d3fbc8
    ensures Sine(24) == 0x21e1cde6 && Sine(25) == 0xc33707d6
    ensures Sine(26) == 0xf4d50d87 && Sine(27) == 0x455a14ed
    ensures Sine(28) == 0xa9e3e905 && Sine(29) == 0xfcefa3f8
    ensures Sine(30) == 0x676f02d9 && Sine(31) == 0x8d2a4c8a
  {}

  lemma Schedule2(x: seq<bv32>)
    requires |x| == 16
    ensures Data(16, x) == Add(x[1], 0xf61e2562) && Shift(16) == 5
    ensures Data(17, x) == Add(x[6], 0xc040b340) && Shift(17) == 9
    ensures Data(18, x) == Add(x[11], 0x265e5a51) && Shift(18) == 14
    ensures Data(19, x) == Add(x[0], 0xe9b6c7aa) && Shift(19) == 20
    ensures Data(20, x) == Add(x[5], 0xd62f105d) && Shift(20) == 5
    ensures Data(21, x) == Add(x[10], 0x02441453) && Shift(21) == 9
    ensures Data(22, x) == Add(x[15], 0xd8a1e681) && Shift(22) == 14
    ensures Data(23, x) == Add(x[4], 0xe7d3fbc8) && Shift(23) == 20
    ensures Data(24, x) == Add(x[9], 0x21e1cde6) && Shift(24) == 5
    ensures Data(25, x) == Add(x[14], 0xc33707d6) && Shift(25) == 9
    ensures Data(26, x) == Add(x[3], 0xf4d50d87) && Shift(26) == 14
    ensures Data(27, x) == Add(x[8], 0x455a14ed) && Shift(27) == 20
    ensures Data(28, x) == Add(x[13], 0xa9e3e905) && Shift(28) == 5
    ensures Data(29, x) == Add(x[2], 0xfcefa3f8) && Shift(29) == 9
    ensures Data(30, x) == Add(x[7], 0x676f02d9) && Shift(30) == 14
    ensures Data(31, x) == Add(x[12], 0x8d2a4c8a) && Shift(31) == 20
  {
    hide Add, Sine;
    Sines2();
  }

  lemma Round2IsFours(s: State, x: seq<bv32>)
    requires |x| == 16
    ensures Round2(s, x) == Four(28, Four(24, Four(20, Four(16, s, x), x), x), x)
  {
    hide Md5Step, Add, F1, F2, F3, F4, Data, Shift;
    Schedule2(x);
  }

  lemma Sines3()
    ensures Sine(32) == 0xfffa3942 && Sine(33) == 0x8771f681
    ensures Sine(34) == 0x6d9d6122 && Sine(35) == 0xfde5380c
    ensures Sine(36) == 0xa4beea44 && Sine(37) == 0x4bdecfa9
    ensures Sine(38) == 0xf6bb4b60 && Sine(39) == 0xbebfbc70
    ensures Sine(40) == 0x289b7ec6 && Sine(41) == 0xeaa127fa
    ensures Sine(42) == 0xd4ef3085 && Sine(43) == 0x04881d05
    ensures Sine(44) == 0xd9d4d039 && Sine(45) == 0xe6db99e5
    ensures Sine(46) == 0x1fa27cf8 && Sine(47) == 0xc4ac5665
  {}

  lemma Schedule3(x: seq<bv32>)
    requires |x| == 16
    ensures Data(32, x) == Add(x[5], 0xfffa3942) && Shift(32) == 4
    ensures Data(33, x) == Add(x[8], 0x8771f681) && Shift(33) == 11
    ensures Data(34, x) == Add(x[11], 0x6d9d6122) && Shift(34) == 16
    ensures Data(35, x) == Add(x[14], 0xfde5380c) && Shift(35) == 23
    ensures Data(36, x) == Add(x[1], 0xa4beea44) && Shift(36) == 4
    ensures Data(37, x) == Add(x[4], 0x4bdecfa9) && Shift(37) == 11
    ensures Data(38, x) == Add(x[7], 0xf6bb4b60) && Shift(38) == 16
    ensures Data(39, x) == Add(x[10], 0xbebfbc70) && Shift(39) == 23
    ensures Data(40, x) == Add(x[13], 0x289b7ec6) && Shift(40) == 4
    ensures Data(41, x) == Add(x[0], 0xeaa127fa) && Shift(41) == 11
    ensures Data(42, x) == Add(x[3], 0xd4ef3085) && Shift(42) == 16
    ensures Data(43, x) == Add(x[6], 0x04881d05) && Shift(43) == 23
    ensures Data(44, x) == Add(x[9], 0xd9d4d039) && Shift(44) == 4
    ensures Data(45, x) == Add(x[12], 0xe6db99e5) && Shift(45) == 11
    ensures Data(46, x) == Add(x[15], 0x1fa27cf8) && Shift(46) == 16
    ensures Data(47, x) == Add(x[2], 0xc4ac5665) && Shift(47) == 23
  {
    hide Add, Sine;
    Sines3();
  }

  lemma Round3IsFours(s: State, x: seq<bv32>)
    requires |x| == 16
    ensures Round3(s, x) == Four(44, Four(40, Four(36, Four(32, s, x), x), x), x)
  {
    hide Md5Step, Add, F1, F2, F3, F4, Data, Shift;
    Schedule3(x);
  }

  lemma Sines4()
    ensures Sine(48) == 0xf4292244 && Sine(49) == 0x432aff97
    ensures Sine(50) == 0xab9423a7 && Sine(51) == 0xfc93a039
    ensures Sine(52) == 0x655b59c3 && Sine(53) == 0x8f0ccc92
    ensures Sine(54) == 0xffeff47d && Sine(55) == 0x85845dd1
    ensures Sine(56) == 0x6fa87e4f && Sine(57) == 0xfe2ce6e0
    ensures Sine(58) == 0xa3014314 && Sine(59) == 0x4e0811a1
    ensures Sine(60) == 0xf7537e82 && Sine(61) == 0xbd3af235
    ensures Sine(62) == 0x2ad7d2bb && Sine(63) == 0xeb86d391
  {}

  lemma Schedule4(x: seq<bv32>)
    requires |x| == 16
    ensures Data(48, x) == Add(x[0], 0xf4292244) && Shift(48) == 6
    ensures Data(49, x) == Add(x[7], 0x432aff97) && Shift(49) == 10
    ensures Data(50, x) == Add(x[14], 0xab9423a7) && Shift(50) == 15
    ensures Data(51, x) == Add(x[5], 0xfc93a039) && Shift(51) == 21
    ensures Data(52, x) == Add(x[12], 0x655b59c3) && Shift(52) == 6
    ensures Data(53, x) == Add(x[3], 0x8f0ccc92) && Shift(53) == 10
    ensures Data(54, x) == Add(x[10], 0xffeff47d) && Shift(54) == 15
    ensures Data(55, x) == Add(x[1], 0x85845dd1) && Shift(55) == 21
    ensures Data(56, x) == Add(x[8], 0x6fa87e4f) && Shift(56) == 6
    ensures Data(57, x) == Add(x[15], 0xfe2ce6e0) && Shift(57) == 10
    ensures Data(58, x) == Add(x[6], 0xa3014314) && Shift(58) == 15
    ensures Data(59, x) == Add(x[13], 0x4e0811a1) && Shift(59) == 21
    ensures Data(60, x) == Add(x[4], 0xf7537e82) && Shift(60) == 6
    ensures Data(61, x) == Add(x[11], 0xbd3af235) && Shift(61) == 10
    ensures Data(62, x) == Add(x[2], 0x2ad7d2bb) && Shift(62) == 15
    ensures Data(63, x) == Add(x[9], 0xeb86d391) && Shift(63) == 21
  {
    hide Add, Sine;
    Sines4();
  }

  lemma Round4IsFours(s: State, x: seq<bv32>)
    requires |x| == 16
    ensures Round4(s, x) == Four(60, Four(56, Four(52, Four(48, s, x), x), x), x)
  {
    hide Md5Step, Add, F1, F2, F3, F4, Data, Shift;
    Schedule4(x);
  }

  /** The unrolled code computes the sixty-four steps of the standard. */
  lemma TransformIsCompress(s: State, x: seq<bv32>)
    requires |x| == 16
    ensures Md5Transform(s, x) == Compress(s, x)
  {
    hide Four, Steps, Add, Round1, Round2, Round3, Round4;
    var r1 := Round1(s, x);
    var r2 := Round2(r1, x);
    var r3 := Round3(r2, x);
    SixteenAgree(0, 64, s, x);
    SixteenAgree(16, 48, r1, x);
    SixteenAgree(32, 32, r2, x);
    SixteenAgree(48, 16, r3, x);
    NoSteps(64, Round4(r3, x), x);
  }

  lemma SixteenAgree(i: nat, n: nat, s: State, x: seq<bv32>)
    requires |x| == 16 && n >= 16 && i + n <= 64 && i % 16 == 0
    ensures Steps(i, n, s, x)
         == Steps(i + 16, n - 16, if i == 0 then Round1(s, x) else if i == 16 then Round2(s, x)
                                  else if i == 32 then Round3(s, x) else Round4(s, x), x)
  {
    hide Four, Steps, Round1, Round2, Round3, Round4;
    Round1IsFours(s, x);
    Round2IsFours(s, x);
    Round3IsFours(s, x);
    Round4IsFours(s, x);
    var s1 := Four(i, s, x);
    var s2 := Four(i + 4, s1, x);
    var s3 := Four(i + 8, s2, x);
    FourAgree(i, n, s, x);
    FourAgree(i + 4, n - 4, s1, x);
    FourAgree(i + 8, n - 8, s2, x);
    FourAgree(i + 12, n - 12, s3, x);
  }

  lemma NoSteps(i: nat, s: State, x: seq<bv32>)
    requires |x| == 16 && i <= 64
    ensures Steps(i, 0, s, x) == s
  {}
}
