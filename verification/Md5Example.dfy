/** The digest of "abc" (appendix A.5 of RFC 1321), worked out step by step with the code of the four rounds. */
module Md5Example {
  import opened Octets
  import opened Md5Rounds
  import opened Md5
  import opened Sequences

  const ABC: seq<bv8> := [0x61, 0x62, 0x63]

  /** The message padded, as sixteen words. */
  const WORDS: seq<bv32> := [0x80636261, 0, 0, 0, 0, 0, 0, 0, 0, 0, 0, 0, 0, 0, 0x00000018, 0]

  lemma Steps0()
    ensures Md5Step(F1(0xefcdab89, 0x98badcfe, 0x10325476), 0x67452301, 0xefcdab89, Add(WORDS[0], 0xd76aa478), 7) == 0xd6d117b4
    ensures Md5Step(F1(0xd6d117b4, 0xefcdab89, 0x98badcfe), 0x10325476, 0xd6d117b4, Add(WORDS[1], 0xe8c7b756), 12) == 0x344a8432
    ensures Md5Step(F1(0x344a8432, 0xd6d117b4, 0xefcdab89), 0x98badcfe, 0x344a8432, Add(WORDS[2], 0x242070db), 17) == 0x2f6fbd72
    ensures Md5Step(F1(0x2f6fbd72, 0x344a8432, 0xd6d117b4), 0xefcdab89, 0x2f6fbd72, Add(WORDS[3], 0xc1bdceee), 22) == 0x7ad956f2
  {}

  lemma Steps4()
    ensures Md5Step(F1(0x7ad956f2, 0x2f6fbd72, 0x344a8432), 0xd6d117b4, 0x7ad956f2, Add(WORDS[4], 0xf57c0faf), 7) == 0xc73741ef
    ensures Md5Step(F1(0xc73741ef, 0x7ad956f2, 0x2f6fbd72), 0x344a8432, 0xc73741ef, Add(WORDS[5], 0x4787c62a), 12) == 0x8bac3051
    ensures Md5Step(F1(0x8bac3051, 0xc73741ef, 0x7ad956f2), 0x2f6fbd72, 0x8bac3051, Add(WORDS[6], 0xa8304613), 17) == 0x207dc67b
    ensures Md5Step(F1(0x207dc67b, 0x8bac3051, 0xc73741ef), 0x7ad956f2, 0x207dc67b, Add(WORDS[7], 0xfd469501), 22) == 0x928d99f6
  {}

  lemma Steps8()
    ensures Md5Step(F1(0x928d99f6, 0x207dc67b, 0x8bac3051), 0xc73741ef, 0x928d99f6, Add(WORDS[8], 0x698098d8), 7) == 0x854b3712
    ensures Md5Step(F1(0x854b3712, 0x928d99f6, 0x207dc67b), 0x8bac3051, 0x854b3712, Add(WORDS[9], 0x8b44f7af), 12) == 0x74e2f284
    ensures Md5Step(F1(0x74e2f284, 0x854b3712, 0x928d99f6), 0x207dc67b, 0x74e2f284, Add(WORDS[10], 0xffff5bb1), 17) == 0x3020401c
    ensures Md5Step(F1(0x3020401c, 0x74e2f284, 0x854b3712), 0x928d99f6, 0x3020401c, Add(WORDS[11], 0x895cd7be), 22) == 0x5ed49596
  {}

  lemma Steps12()
    ensures Md5Step(F1(0x5ed49596, 0x3020401c, 0x74e2f284), 0x854b3712, 0x5ed49596, Add(WORDS[12], 0x6b901122), 7) == 0xdda9b9a6
    ensures Md5Step(F1(0xdda9b9a6, 0x5ed49596, 0x3020401c), 0x74e2f284, 0xdda9b9a6, Add(WORDS[13], 0xfd987193), 12) == 0xa1051895
    ensures Md5Step(F1(0xa1051895, 0xdda9b9a6, 0x5ed49596), 0x3020401c, 0xa1051895, Add(WORDS[14], 0xa679438e), 17) == 0xe396856b
    ensures Md5Step(F1(0xe396856b, 0xa1051895, 0xdda9b9a6), 0x5ed49596, 0xe396856b, Add(WORDS[15], 0x49b40821), 22) == 0x72aff2e0
  {}

  lemma Steps16()
    ensures Md5Step(F2(0x72aff2e0, 0xe396856b, 0xa1051895), 0xdda9b9a6, 0x72aff2e0, Add(WORDS[1], 0xf61e2562), 5) == 0x3e9e9126
    ensures Md5Step(F2(0x3e9e9126, 0x72aff2e0, 0xe396856b), 0xa1051895, 0x3e9e9126, Add(WORDS[6], 0xc040b340), 9) == 0x4a1d804e
    ensures Md5Step(F2(0x4a1d804e, 0x3e9e9126, 0x72aff2e0), 0xe396856b, 0x4a1d804e, Add(WORDS[11], 0x265e5a51), 14) == 0xe25e1652
    ensures Md5Step(F2(0xe25e1652, 0x4a1d804e, 0x3e9e9126), 0x72aff2e0, 0xe25e1652, Add(WORDS[0], 0xe9b6c7aa), 20) == 0xb5b204e4
  {}

  lemma Steps20()
    ensures Md5Step(F2(0xb5b204e4, 0xe25e1652, 0x4a1d804e), 0x3e9e9126, 0xb5b204e4, Add(WORDS[5], 0xd62f105d), 5) == 0x59a8ffda
    ensures Md5Step(F2(0x59a8ffda, 0xb5b204e4, 0xe25e1652), 0x4a1d804e, 0x59a8ffda, Add(WORDS[10], 0x02441453), 9) == 0x6d002f1e
    ensures Md5Step(F2(0x6d002f1e, 0x59a8ffda, 0xb5b204e4), 0xe25e1652, 0x6d002f1e, Add(WORDS[15], 0xd8a1e681), 14) == 0xabfc7920
    ensures Md5Step(F2(0xabfc7920, 0x6d002f1e, 0x59a8ffda), 0xb5b204e4, 0xabfc7920, Add(WORDS[4], 0xe7d3fbc8), 20) == 0x47092c07
  {}

  lemma Steps24()
    ensures Md5Step(F2(0x47092c07, 0xabfc7920, 0x6d002f1e), 0x59a8ffda, 0x47092c07, Add(WORDS[9], 0x21e1cde6), 5) == 0xb7f268cf
    ensures Md5Step(F2(0xb7f268cf, 0x47092c07, 0xabfc7920), 0x6d002f1e, 0xb7f268cf, Add(WORDS[14], 0xc33707d6), 9) == 0x09388eff
    ensures Md5Step(F2(0x09388eff, 0xb7f268cf, 0x47092c07), 0xabfc7920, 0x09388eff, Add(WORDS[3], 0xf4d50d87), 14) == 0xfe1623b1
    ensures Md5Step(F2(0xfe1623b1, 0x09388eff, 0xb7f268cf), 0x47092c07, 0xfe1623b1, Add(WORDS[8], 0x455a14ed), 20) == 0x786acb8f
  {}

  lemma Steps28()
    ensures Md5Step(F2(0x786acb8f, 0xfe1623b1, 0x09388eff), 0xb7f268cf, 0x786acb8f, Add(WORDS[13], 0xa9e3e905), 5) == 0x790a77fb
    ensures Md5Step(F2(0x790a77fb, 0x786acb8f, 0xfe1623b1), 0x09388eff, 0x790a77fb, Add(WORDS[2], 0xfcefa3f8), 9) == 0x9f47e4f8
    ensures Md5Step(F2(0x9f47e4f8, 0x790a77fb, 0x786acb8f), 0xfe1623b1, 0x9f47e4f8, Add(WORDS[7], 0x676f02d9), 14) == 0xa62884aa
    ensures Md5Step(F2(0xa62884aa, 0x9f47e4f8, 0x790a77fb), 0x786acb8f, 0xa62884aa, Add(WORDS[12], 0x8d2a4c8a), 20) == 0x726342d3
  {}

  lemma Steps32()
    ensures Md5Step(F3(0x726342d3, 0xa62884aa, 0x9f47e4f8), 0x790a77fb, 0x726342d3, Add(WORDS[5], 0xfffa3942), 4) == 0xb3707ebf
    ensures Md5Step(F3(0xb3707ebf, 0x726342d3, 0xa62884aa), 0x9f47e4f8, 0xb3707ebf, Add(WORDS[8], 0x8771f681), 11) == 0x60127b2e
    ensures Md5Step(F3(0x60127b2e, 0xb3707ebf, 0x726342d3), 0xa62884aa, 0x60127b2e, Add(WORDS[11], 0x6d9d6122), 16) == 0x8d212ff5
    ensures Md5Step(F3(0x8d212ff5, 0x60127b2e, 0xb3707ebf), 0x726342d3, 0x8d212ff5, Add(WORDS[14], 0xfde5380c), 23) == 0x3b0875c7
  {}

  lemma Steps36()
    ensures Md5Step(F3(0x3b0875c7, 0x8d212ff5, 0x60127b2e), 0xb3707ebf, 0x3b0875c7, Add(WORDS[1], 0xa4beea44), 4) == 0x21b117b9
    ensures Md5Step(F3(0x21b117b9, 0x3b0875c7, 0x8d212ff5), 0x60127b2e, 0x21b117b9, Add(WORDS[4], 0x4bdecfa9), 11) == 0x6e7429d5
    ensures Md5Step(F3(0x6e7429d5, 0x21b117b9, 0x3b0875c7), 0x8d212ff5, 0x6e7429d5, Add(WORDS[7], 0xf6bb4b60), 16) == 0x3575227e
    ensures Md5Step(F3(0x3575227e, 0x6e7429d5, 0x21b117b9), 0x3b0875c7, 0x3575227e, Add(WORDS[10], 0xbebfbc70), 23) == 0x5a2f5ea5
  {}

  lemma Steps40()
    ensures Md5Step(F3(0x5a2f5ea5, 0x3575227e, 0x6e7429d5), 0x21b117b9, 0x5a2f5ea5, Add(WORDS[13], 0x289b7ec6), 4) == 0x11de1779
    ensures Md5Step(F3(0x11de1779, 0x5a2f5ea5, 0x3575227e), 0x6e7429d5, 0x11de1779, Add(WORDS[0], 0xeaa127fa), 11) == 0xfadcaa38
    ensures Md5Step(F3(0xfadcaa38, 0x11de1779, 0x5a2f5ea5), 0x3575227e, 0xfadcaa38, Add(WORDS[3], 0xd4ef3085), 16) == 0x31c465ca
    ensures Md5Step(F3(0x31c465ca, 0xfadcaa38, 0x11de1779), 0x5a2f5ea5, 0x31c465ca, Add(WORDS[6], 0x04881d05), 23) == 0x4c6124f4
  {}

  lemma Steps44()
    ensures Md5Step(F3(0x4c6124f4, 0x31c465ca, 0xfadcaa38), 0x11de1779, 0x4c6124f4, Add(WORDS[9], 0xd9d4d039), 4) == 0x7f2e507b
    ensures Md5Step(F3(0x7f2e507b, 0x4c6124f4, 0x31c465ca), 0xfadcaa38, 0x7f2e507b, Add(WORDS[12], 0xe6db99e5), 11) == 0x99d9679d
    ensures Md5Step(F3(0x99d9679d, 0x7f2e507b, 0x4c6124f4), 0x31c465ca, 0x99d9679d, Add(WORDS[15], 0x1fa27cf8), 16) == 0x8fae6399
    ensures Md5Step(F3(0x8fae6399, 0x99d9679d, 0x7f2e507b), 0x4c6124f4, 0x8fae6399, Add(WORDS[2], 0xc4ac5665), 23) == 0x7beb9700
  {}

  lemma Steps48()
    ensures Md5Step(F4(0x7beb9700, 0x8fae6399, 0x99d9679d), 0x7f2e507b, 0x7beb9700, Add(WORDS[0], 0xf4292244), 6) == 0x7b201df8
    ensures Md5Step(F4(0x7b201df8, 0x7beb9700, 0x8fae6399), 0x99d9679d, 0x7b201df8, Add(WORDS[7], 0x432aff97), 10) == 0xf4e8e96e
    ensures Md5Step(F4(0xf4e8e96e, 0x7b201df8, 0x7beb9700), 0x8fae6399, 0xf4e8e96e, Add(WORDS[14], 0xab9423a7), 15) == 0xb298cefd
    ensures Md5Step(F4(0xb298cefd, 0xf4e8e96e, 0x7b201df8), 0x7beb9700, 0xb298cefd, Add(WORDS[5], 0xfc93a039), 21) == 0x8bf025c4
  {}

  lemma Steps52()
    ensures Md5Step(F4(0x8bf025c4, 0xb298cefd, 0xf4e8e96e), 0x7b201df8, 0x8bf025c4, Add(WORDS[12], 0x655b59c3), 6) == 0x06cc5e8a
    ensures Md5Step(F4(0x06cc5e8a, 0x8bf025c4, 0xb298cefd), 0xf4e8e96e, 0x06cc5e8a, Add(WORDS[3], 0x8f0ccc92), 10) == 0x5b0d97aa
    ensures Md5Step(F4(0x5b0d97aa, 0x06cc5e8a, 0x8bf025c4), 0xb298cefd, 0x5b0d97aa, Add(WORDS[10], 0xffeff47d), 15) == 0x7d632dd0
    ensures Md5Step(F4(0x7d632dd0, 0x5b0d97aa, 0x06cc5e8a), 0x8bf025c4, 0x7d632dd0, Add(WORDS[1], 0x85845dd1), 21) == 0x3bfa2c27
  {}

  lemma Steps56()
    ensures Md5Step(F4(0x3bfa2c27, 0x7d632dd0, 0x5b0d97aa), 0x06cc5e8a, 0x3bfa2c27, Add(WORDS[8], 0x6fa87e4f), 6) == 0x7f81cc35
    ensures Md5Step(F4(0x7f81cc35, 0x3bfa2c27, 0x7d632dd0), 0x5b0d97aa, 0x7f81cc35, Add(WORDS[15], 0xfe2ce6e0), 10) == 0x094454ab
    ensures Md5Step(F4(0x094454ab, 0x7f81cc35, 0x3bfa2c27), 0x7d632dd0, 0x094454ab, Add(WORDS[6], 0xa3014314), 15) == 0x4f9dbe3f
    ensures Md5Step(F4(0x4f9dbe3f, 0x094454ab, 0x7f81cc35), 0x3bfa2c27, 0x4f9dbe3f, Add(WORDS[13], 0x4e0811a1), 21) == 0x7327d604
  {}

  lemma Steps60()
    ensures Md5Step(F4(0x7327d604, 0x4f9dbe3f, 0x094454ab), 0x7f81cc35, 0x7327d604, Add(WORDS[4], 0xf7537e82), 6) == 0x310ade8f
    ensures Md5Step(F4(0x310ade8f, 0x7327d604, 0x4f9dbe3f), 0x094454ab, 0x310ade8f, Add(WORDS[11], 0xbd3af235), 10) == 0x624d8cb2
    ensures Md5Step(F4(0x624d8cb2, 0x310ade8f, 0x7327d604), 0x4f9dbe3f, 0x624d8cb2, Add(WORDS[2], 0x2ad7d2bb), 15) == 0xe484b9d8
    ensures Md5Step(F4(0xe484b9d8, 0x624d8cb2, 0x310ade8f), 0x7327d604, 0xe484b9d8, Add(WORDS[9], 0xeb86d391), 21) == 0xc08226b3
  {}

  lemma Round1OfExample()
    ensures Round1(State(0x67452301, 0xefcdab89, 0x98badcfe, 0x10325476), WORDS)
         == State(0xdda9b9a6, 0x72aff2e0, 0xe396856b, 0xa1051895)
  {
    hide Md5Step, F1, F2, F3, F4, Add;
    Steps0();
    Steps4();
    Steps8();
    Steps12();
  }

  lemma Round2OfExample()
    ensures Round2(State(0xdda9b9a6, 0x72aff2e0, 0xe396856b, 0xa1051895), WORDS)
         == State(0x790a77fb, 0x726342d3, 0xa62884aa, 0x9f47e4f8)
  {
    hide Md5Step, F1, F2, F3, F4, Add;
    Steps16();
    Steps20();
    Steps24();
    Steps28();
  }

  lemma Round3OfExample()
    ensures Round3(State(0x790a77fb, 0x726342d3, 0xa62884aa, 0x9f47e4f8), WORDS)
         == State(0x7f2e507b, 0x7beb9700, 0x8fae6399, 0x99d9679d)
  {
    hide Md5Step, F1, F2, F3, F4, Add;
    Steps32();
    Steps36();
    Steps40();
    Steps44();
  }

  lemma Round4OfExample()
    ensures Round4(State(0x7f2e507b, 0x7beb9700, 0x8fae6399, 0x99d9679d), WORDS)
         == State(0x310ade8f, 0xc08226b3, 0xe484b9d8, 0x624d8cb2)
  {
    hide Md5Step, F1, F2, F3, F4, Add;
    Steps48();
    Steps52();
    Steps56();
    Steps60();
  }

  lemma ExampleTransformed()
    ensures Md5Transform(INIT, WORDS) == State(0x98500190, 0xb04fd23c, 0x7d3f96d6, 0x727fe128)
  {
    hide Round1, Round2, Round3, Round4;
    Round1OfExample();
    Round2OfExample();
    Round3OfExample();
    Round4OfExample();
  }

  lemma ExampleWords()
    ensures |Padded(ABC)| == 64 && WordsOf(Padded(ABC)) == WORDS
  {
    hide LoadWord;
    var p := Padded(ABC);
    PaddedExample();
    assert LoadWord(0x61, 0x62, 0x63, 0x80) == 0x80636261 && LoadWord(0, 0, 0, 0) == 0 && LoadWord(0x18, 0, 0, 0) == 0x18 by { LoadedWords(); }
  }

  lemma LoadedWords()
    ensures LoadWord(0x61, 0x62, 0x63, 0x80) == 0x80636261 && LoadWord(0, 0, 0, 0) == 0 && LoadWord(0x18, 0, 0, 0) == 0x18
  {}

  lemma PaddedExample()
    ensures var p := Padded(ABC);
            && |p| == 64 && p[0] == 0x61 && p[1] == 0x62 && p[2] == 0x63 && p[3] == 0x80 && p[56] == 0x18
            && forall i :: 3 < i < 64 && i != 56 ==> p[i] == 0
  {
    hide Byte;
    assert LengthBytes(24) == [Byte(24), Byte(0), Byte(0), Byte(0), Byte(0), Byte(0), Byte(0), Byte(0)];
    assert Byte(24) == 0x18 && Byte(0) == 0 by { ByteOfValue(0x18); ByteOfValue(0); }
  }

  /** MD5 ("abc") = 900150983cd24fb0d6963f7d28e17f72. */
  lemma ExampleOfRfc1321()
    ensures Digest(ABC) == [0x90, 0x01, 0x50, 0x98, 0x3c, 0xd2, 0x4f, 0xb0, 0xd6, 0x96, 0x3f, 0x7d, 0x28, 0xe1, 0x7f, 0x72]
  {
    hide Padded, WordsOf, Compress, Md5Transform, StoreWord;
    var p := Padded(ABC);
    ExampleWords();
    ExampleTransformed();
    TransformIsCompress(INIT, WORDS);
    assert p[..64] == p && p[64..] == [];
    StoredExample();
  }

  lemma StoredExample()
    ensures DigestOf(State(0x98500190, 0xb04fd23c, 0x7d3f96d6, 0x727fe128))
         == [0x90, 0x01, 0x50, 0x98, 0x3c, 0xd2, 0x4f, 0xb0, 0xd6, 0x96, 0x3f, 0x7d, 0x28, 0xe1, 0x7f, 0x72]
  {}
}
