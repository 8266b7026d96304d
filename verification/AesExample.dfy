/**
 * The example of FIPS 197 (appendix C.1) worked out round by round: the key schedule and the cipher give the values
 * printed there.
 */
module AesExample {
  import opened SBox
  import opened Fips197
  import opened BlockModes
  import AesInverse
  import Rijndael

  const KEY: seq<Word> := [0x00010203, 0x04050607, 0x08090a0b, 0x0c0d0e0f]
  const PLAIN := Block(0x00112233, 0x44556677, 0x8899aabb, 0xccddeeff)
  const SECRET := Block(0x69c4e0d8, 0x6a7b0430, 0xd8cdb780, 0x70b4c55a)

  // ----- The key schedule -----

  /** For keys of four words the round keys follow from each other. */
  lemma NextRoundKey(key: seq<Word>, r: nat)
    requires |key| == 4
    ensures RoundKey(key, r + 1) == KeyBehind(RoundKey(key, r), Rcon(r + 1))
  {
    hide SubWord, RotWord, Rcon, AddWord;
  }

  function KeyBehind(k: Block, rcon: Word): Block {
    var c0 := AddWord(k.c0, AddWord(SubWord(RotWord(k.c3)), rcon));
    var c1 := AddWord(k.c1, c0);
    var c2 := AddWord(k.c2, c1);
    Block(c0, c1, c2, AddWord(k.c3, c2))
  }

  /** The round key r as printed. */
  function Printed(r: nat): Block
    requires r <= 10
  {
    if r == 0 then Block(0x00010203, 0x04050607, 0x08090a0b, 0x0c0d0e0f)
    else if r == 1 then Block(0xd6aa74fd, 0xd2af72fa, 0xdaa678f1, 0xd6ab76fe)
    else if r == 2 then Block(0xb692cf0b, 0x643dbdf1, 0xbe9bc500, 0x6830b3fe)
    else if r == 3 then Block(0xb6ff744e, 0xd2c2c9bf, 0x6c590cbf, 0x0469bf41)
    else if r == 4 then Block(0x47f7f7bc, 0x95353e03, 0xf96c32bc, 0xfd058dfd)
    else if r == 5 then Block(0x3caaa3e8, 0xa99f9deb, 0x50f3af57, 0xadf622aa)
    else if r == 6 then Block(0x5e390f7d, 0xf7a69296, 0xa7553dc1, 0x0aa31f6b)
    else if r == 7 then Block(0x14f9701a, 0xe35fe28c, 0x440adf4d, 0x4ea9c026)
    else if r == 8 then Block(0x47438735, 0xa41c65b9, 0xe016baf4, 0xaebf7ad2)
    else if r == 9 then Block(0x549932d1, 0xf0855768, 0x1093ed9c, 0xbe2c974e)
    else Block(0x13111d7f, 0xe3944a17, 0xf307a78b, 0x4d2b30c5)
  }

  lemma Constants()
    ensures Rcon(1) == 0x01000000
    ensures Rcon(2) == 0x02000000
    ensures Rcon(3) == 0x04000000
    ensures Rcon(4) == 0x08000000
    ensures Rcon(5) == 0x10000000
    ensures Rcon(6) == 0x20000000
    ensures Rcon(7) == 0x40000000
    ensures Rcon(8) == 0x80000000
    ensures Rcon(9) == 0x1b000000
    ensures Rcon(10) == 0x36000000
  {}

  lemma SubstitutedKeys0()
    ensures S(0x0c) == 0xfe && S(0x0d) == 0xd7 && S(0x0e) == 0xab && S(0x0f) == 0x76
    ensures S(0xd6) == 0xf6 && S(0xab) == 0x62 && S(0x76) == 0x38 && S(0xfe) == 0xbb
  {}

  lemma SubstitutedKeys2()
    ensures S(0x68) == 0x45 && S(0x30) == 0x04 && S(0xb3) == 0x6d && S(0xfe) == 0xbb
    ensures S(0x04) == 0xf2 && S(0x69) == 0xf9 && S(0xbf) == 0x08 && S(0x41) == 0x83
  {}

  lemma SubstitutedKeys4()
    ensures S(0xfd) == 0x54 && S(0x05) == 0x6b && S(0x8d) == 0x5d && S(0xfd) == 0x54
    ensures S(0xad) == 0x95 && S(0xf6) == 0x42 && S(0x22) == 0x93 && S(0xaa) == 0xac
  {}

  lemma SubstitutedKeys6()
    ensures S(0x0a) == 0x67 && S(0xa3) == 0x0a && S(0x1f) == 0xc0 && S(0x6b) == 0x7f
    ensures S(0x4e) == 0x2f && S(0xa9) == 0xd3 && S(0xc0) == 0xba && S(0x26) == 0xf7
  {}

  lemma SubstitutedKeys8()
    ensures S(0xae) == 0xe4 && S(0xbf) == 0x08 && S(0x7a) == 0xda && S(0xd2) == 0xb5
    ensures S(0xbe) == 0xae && S(0x2c) == 0x71 && S(0x97) == 0x88 && S(0x4e) == 0x2f
  {}

  lemma KeysBehind0(r: nat)
    requires 0 <= r < 5
    ensures KeyBehind(Printed(r), Rcon(r + 1)) == Printed(r + 1)
  {
    hide S, Rcon;
    SubstitutedKeys0();
    SubstitutedKeys2();
    SubstitutedKeys4();
    Constants();
  }

  lemma KeysBehind5(r: nat)
    requires 5 <= r < 10
    ensures KeyBehind(Printed(r), Rcon(r + 1)) == Printed(r + 1)
  {
    hide S, Rcon;
    SubstitutedKeys4();
    SubstitutedKeys6();
    SubstitutedKeys8();
    Constants();
  }

  lemma {:induction false} RoundKeys(r: nat)
    requires r <= 10
    ensures RoundKey(KEY, r) == Printed(r)
  {
    hide KeyBehind, Rcon;
    if r > 0 {
      RoundKeys(r - 1);
      NextRoundKey(KEY, r - 1);
      if r <= 5 { KeysBehind0(r - 1); } else { KeysBehind5(r - 1); }
    }
  }

  // ----- The rounds -----

  /** The state at the end of round r as printed. */
  function State(r: nat): Block
    requires r <= 9
  {
    if r == 0 then Block(0x00102030, 0x40506070, 0x8090a0b0, 0xc0d0e0f0)
    else if r == 1 then Block(0x89d810e8, 0x855ace68, 0x2d1843d8, 0xcb128fe4)
    else if r == 2 then Block(0x4915598f, 0x55e5d7a0, 0xdaca94fa, 0x1f0a63f7)
    else if r == 3 then Block(0xfa636a28, 0x25b339c9, 0x40668a31, 0x57244d17)
    else if r == 4 then Block(0x24724023, 0x6966b3fa, 0x6ed27532, 0x88425b6c)
    else if r == 5 then Block(0xc81677bc, 0x9b7ac93b, 0x25027992, 0xb0261996)
    else if r == 6 then Block(0xc62fe109, 0xf75eedc3, 0xcc79395d, 0x84f9cf5d)
    else if r == 7 then Block(0xd1876c0f, 0x79c4300a, 0xb45594ad, 0xd66ff41f)
    else if r == 8 then Block(0xfde3bad2, 0x05e5d0d7, 0x3547964e, 0xf1fe37f1)
    else Block(0xbd6e7c3d, 0xf2b5779e, 0x0b61216e, 0x8b10b689)
  }

  /** A round from s to t by way of the printed states in between. */
  predicate Leads(s: Block, substituted: Block, shifted: Block, mixed: Block, k: Block, t: Block) {
    && SubBytes(s) == substituted && ShiftRows(substituted) == shifted && MixColumns(shifted) == mixed
    && AddRoundKey(mixed, k) == t
  }

  lemma RoundOf(s: Block, substituted: Block, shifted: Block, mixed: Block, k: Block, t: Block)
    requires Leads(s, substituted, shifted, mixed, k, t)
    ensures AddRoundKey(MixColumns(ShiftRows(SubBytes(s))), k) == t
  {
    hide AddRoundKey, MixColumns, ShiftRows, SubBytes;
  }

  lemma FirstHalf1()
    ensures S(0x00) == 0x63 && S(0x10) == 0xca && S(0x20) == 0xb7 && S(0x30) == 0x04
    ensures S(0x40) == 0x09 && S(0x50) == 0x53 && S(0x60) == 0xd0 && S(0x70) == 0x51
  {}

  lemma SecondHalf1()
    ensures S(0x80) == 0xcd && S(0x90) == 0x60 && S(0xa0) == 0xe0 && S(0xb0) == 0xe7
    ensures S(0xc0) == 0xba && S(0xd0) == 0x70 && S(0xe0) == 0xe1 && S(0xf0) == 0x8c
  {}

  lemma Round1()
    ensures Leads(Block(0x00102030, 0x40506070, 0x8090a0b0, 0xc0d0e0f0), Block(0x63cab704, 0x0953d051, 0xcd60e0e7, 0xba70e18c),
                  Block(0x6353e08c, 0x0960e104, 0xcd70b751, 0xbacad0e7), Block(0x5f726415, 0x57f5bc92, 0xf7be3b29, 0x1db9f91a),
                  Block(0xd6aa74fd, 0xd2af72fa, 0xdaa678f1, 0xd6ab76fe), Block(0x89d810e8, 0x855ace68, 0x2d1843d8, 0xcb128fe4))
  {
    hide S;
    FirstHalf1();
    SecondHalf1();
  }

  lemma FirstHalf2()
    ensures S(0x89) == 0xa7 && S(0xd8) == 0x61 && S(0x10) == 0xca && S(0xe8) == 0x9b
    ensures S(0x85) == 0x97 && S(0x5a) == 0xbe && S(0xce) == 0x8b && S(0x68) == 0x45
  {}

  lemma SecondHalf2()
    ensures S(0x2d) == 0xd8 && S(0x18) == 0xad && S(0x43) == 0x1a && S(0xd8) == 0x61
    ensures S(0xcb) == 0x1f && S(0x12) == 0xc9 && S(0x8f) == 0x73 && S(0xe4) == 0x69
  {}

  lemma Round2()
    ensures Leads(Block(0x89d810e8, 0x855ace68, 0x2d1843d8, 0xcb128fe4), Block(0xa761ca9b, 0x97be8b45, 0xd8ad1a61, 0x1fc97369),
                  Block(0xa7be1a69, 0x97ad739b, 0xd8c9ca45, 0x1f618b61), Block(0xff879684, 0x31d86a51, 0x645151fa, 0x773ad009),
                  Block(0xb692cf0b, 0x643dbdf1, 0xbe9bc500, 0x6830b3fe), Block(0x4915598f, 0x55e5d7a0, 0xdaca94fa, 0x1f0a63f7))
  {
    hide S;
    FirstHalf2();
    SecondHalf2();
  }

  lemma FirstHalf3()
    ensures S(0x49) == 0x3b && S(0x15) == 0x59 && S(0x59) == 0xcb && S(0x8f) == 0x73
    ensures S(0x55) == 0xfc && S(0xe5) == 0xd9 && S(0xd7) == 0x0e && S(0xa0) == 0xe0
  {}

  lemma SecondHalf3()
    ensures S(0xda) == 0x57 && S(0xca) == 0x74 && S(0x94) == 0x22 && S(0xfa) == 0x2d
    ensures S(0x1f) == 0xc0 && S(0x0a) == 0x67 && S(0x63) == 0xfb && S(0xf7) == 0x68
  {}

  lemma Round3()
    ensures Leads(Block(0x4915598f, 0x55e5d7a0, 0xdaca94fa, 0x1f0a63f7), Block(0x3b59cb73, 0xfcd90ee0, 0x5774222d, 0xc067fb68),
                  Block(0x3bd92268, 0xfc74fb73, 0x5767cbe0, 0xc0590e2d), Block(0x4c9c1e66, 0xf771f076, 0x2c3f868e, 0x534df256),
                  Block(0xb6ff744e, 0xd2c2c9bf, 0x6c590cbf, 0x0469bf41), Block(0xfa636a28, 0x25b339c9, 0x40668a31, 0x57244d17))
  {
    hide S;
    FirstHalf3();
    SecondHalf3();
  }

  lemma FirstHalf4()
    ensures S(0xfa) == 0x2d && S(0x63) == 0xfb && S(0x6a) == 0x02 && S(0x28) == 0x34
    ensures S(0x25) == 0x3f && S(0xb3) == 0x6d && S(0x39) == 0x12 && S(0xc9) == 0xdd
  {}

  lemma SecondHalf4()
    ensures S(0x40) == 0x09 && S(0x66) == 0x33 && S(0x8a) == 0x7e && S(0x31) == 0xc7
    ensures S(0x57) == 0x5b && S(0x24) == 0x36 && S(0x4d) == 0xe3 && S(0x17) == 0xf0
  {}

  lemma Round4()
    ensures Leads(Block(0xfa636a28, 0x25b339c9, 0x40668a31, 0x57244d17), Block(0x2dfb0234, 0x3f6d12dd, 0x09337ec7, 0x5b36e3f0),
                  Block(0x2d6d7ef0, 0x3f33e334, 0x093602dd, 0x5bfb12c7), Block(0x6385b79f, 0xfc538df9, 0x97be478e, 0x7547d691),
                  Block(0x47f7f7bc, 0x95353e03, 0xf96c32bc, 0xfd058dfd), Block(0x24724023, 0x6966b3fa, 0x6ed27532, 0x88425b6c))
  {
    hide S;
    FirstHalf4();
    SecondHalf4();
  }

  lemma FirstHalf5()
    ensures S(0x24) == 0x36 && S(0x72) == 0x40 && S(0x40) == 0x09 && S(0x23) == 0x26
    ensures S(0x69) == 0xf9 && S(0x66) == 0x33 && S(0xb3) == 0x6d && S(0xfa) == 0x2d
  {}

  lemma SecondHalf5()
    ensures S(0x6e) == 0x9f && S(0xd2) == 0xb5 && S(0x75) == 0x9d && S(0x32) == 0x23
    ensures S(0x88) == 0xc4 && S(0x42) == 0x2c && S(0x5b) == 0x39 && S(0x6c) == 0x50
  {}

  lemma Round5()
    ensures Leads(Block(0x24724023, 0x6966b3fa, 0x6ed27532, 0x88425b6c), Block(0x36400926, 0xf9336d2d, 0x9fb59d23, 0xc42c3950),
                  Block(0x36339d50, 0xf9b53926, 0x9f2c092d, 0xc4406d23), Block(0xf4bcd454, 0x32e554d0, 0x75f1d6c5, 0x1dd03b3c),
                  Block(0x3caaa3e8, 0xa99f9deb, 0x50f3af57, 0xadf622aa), Block(0xc81677bc, 0x9b7ac93b, 0x25027992, 0xb0261996))
  {
    hide S;
    FirstHalf5();
    SecondHalf5();
  }

  lemma FirstHalf6()
    ensures S(0xc8) == 0xe8 && S(0x16) == 0x47 && S(0x77) == 0xf5 && S(0xbc) == 0x65
    ensures S(0x9b) == 0x14 && S(0x7a) == 0xda && S(0xc9) == 0xdd && S(0x3b) == 0xe2
  {}

  lemma SecondHalf6()
    ensures S(0x25) == 0x3f && S(0x02) == 0x77 && S(0x79) == 0xb6 && S(0x92) == 0x4f
    ensures S(0xb0) == 0xe7 && S(0x26) == 0xf7 && S(0x19) == 0xd4 && S(0x96) == 0x90
  {}

  lemma Round6()
    ensures Leads(Block(0xc81677bc, 0x9b7ac93b, 0x25027992, 0xb0261996), Block(0xe847f565, 0x14dadde2, 0x3f77b64f, 0xe7f7d490),
                  Block(0xe8dab690, 0x1477d465, 0x3ff7f5e2, 0xe747dd4f), Block(0x9816ee74, 0x00f87f55, 0x6b2c049c, 0x8e5ad036),
                  Block(0x5e390f7d, 0xf7a69296, 0xa7553dc1, 0x0aa31f6b), Block(0xc62fe109, 0xf75eedc3, 0xcc79395d, 0x84f9cf5d))
  {
    hide S;
    FirstHalf6();
    SecondHalf6();
  }

  lemma FirstHalf7()
    ensures S(0xc6) == 0xb4 && S(0x2f) == 0x15 && S(0xe1) == 0xf8 && S(0x09) == 0x01
    ensures S(0xf7) == 0x68 && S(0x5e) == 0x58 && S(0xed) == 0x55 && S(0xc3) == 0x2e
  {}

  lemma SecondHalf7()
    ensures S(0xcc) == 0x4b && S(0x79) == 0xb6 && S(0x39) == 0x12 && S(0x5d) == 0x4c
    ensures S(0x84) == 0x5f && S(0xf9) == 0x99 && S(0xcf) == 0x8a && S(0x5d) == 0x4c
  {}

  lemma Round7()
    ensures Leads(Block(0xc62fe109, 0xf75eedc3, 0xcc79395d, 0x84f9cf5d), Block(0xb415f801, 0x6858552e, 0x4bb6124c, 0x5f998a4c),
                  Block(0xb458124c, 0x68b68a01, 0x4b99f82e, 0x5f15554c), Block(0xc57e1c15, 0x9a9bd286, 0xf05f4be0, 0x98c63439),
                  Block(0x14f9701a, 0xe35fe28c, 0x440adf4d, 0x4ea9c026), Block(0xd1876c0f, 0x79c4300a, 0xb45594ad, 0xd66ff41f))
  {
    hide S;
    FirstHalf7();
    SecondHalf7();
  }

  lemma FirstHalf8()
    ensures S(0xd1) == 0x3e && S(0x87) == 0x17 && S(0x6c) == 0x50 && S(0x0f) == 0x76
    ensures S(0x79) == 0xb6 && S(0xc4) == 0x1c && S(0x30) == 0x04 && S(0x0a) == 0x67
  {}

  lemma SecondHalf8()
    ensures S(0xb4) == 0x8d && S(0x55) == 0xfc && S(0x94) == 0x22 && S(0xad) == 0x95
    ensures S(0xd6) == 0xf6 && S(0x6f) == 0xa8 && S(0xf4) == 0xbf && S(0x1f) == 0xc0
  {}

  lemma Round8()
    ensures Leads(Block(0xd1876c0f, 0x79c4300a, 0xb45594ad, 0xd66ff41f), Block(0x3e175076, 0xb61c0467, 0x8dfc2295, 0xf6a8bfc0),
                  Block(0x3e1c22c0, 0xb6fcbf76, 0x8da85067, 0xf6170495), Block(0xbaa03de7, 0xa1f9b56e, 0xd5512cba, 0x5f414d23),
                  Block(0x47438735, 0xa41c65b9, 0xe016baf4, 0xaebf7ad2), Block(0xfde3bad2, 0x05e5d0d7, 0x3547964e, 0xf1fe37f1))
  {
    hide S;
    FirstHalf8();
    SecondHalf8();
  }

  lemma FirstHalf9()
    ensures S(0xfd) == 0x54 && S(0xe3) == 0x11 && S(0xba) == 0xf4 && S(0xd2) == 0xb5
    ensures S(0x05) == 0x6b && S(0xe5) == 0xd9 && S(0xd0) == 0x70 && S(0xd7) == 0x0e
  {}

  lemma SecondHalf9()
    ensures S(0x35) == 0x96 && S(0x47) == 0xa0 && S(0x96) == 0x90 && S(0x4e) == 0x2f
    ensures S(0xf1) == 0xa1 && S(0xfe) == 0xbb && S(0x37) == 0x9a && S(0xf1) == 0xa1
  {}

  lemma Round9()
    ensures Leads(Block(0xfde3bad2, 0x05e5d0d7, 0x3547964e, 0xf1fe37f1), Block(0x5411f4b5, 0x6bd9700e, 0x96a0902f, 0xa1bb9aa1),
                  Block(0x54d990a1, 0x6ba09ab5, 0x96bbf40e, 0xa111702f), Block(0xe9f74eec, 0x023020f6, 0x1bf2ccf2, 0x353c21c7),
                  Block(0x549932d1, 0xf0855768, 0x1093ed9c, 0xbe2c974e), Block(0xbd6e7c3d, 0xf2b5779e, 0x0b61216e, 0x8b10b689))
  {
    hide S;
    FirstHalf9();
    SecondHalf9();
  }

  lemma FirstHalf10()
    ensures S(0xbd) == 0x7a && S(0x6e) == 0x9f && S(0x7c) == 0x10 && S(0x3d) == 0x27
    ensures S(0xf2) == 0x89 && S(0xb5) == 0xd5 && S(0x77) == 0xf5 && S(0x9e) == 0x0b
  {}

  lemma SecondHalf10()
    ensures S(0x0b) == 0x2b && S(0x61) == 0xef && S(0x21) == 0xfd && S(0x6e) == 0x9f
    ensures S(0x8b) == 0x3d && S(0x10) == 0xca && S(0xb6) == 0x4e && S(0x89) == 0xa7
  {}

  lemma Round10()
    ensures AddRoundKey(ShiftRows(SubBytes(Block(0xbd6e7c3d, 0xf2b5779e, 0x0b61216e, 0x8b10b689))), Block(0x13111d7f, 0xe3944a17, 0xf307a78b, 0x4d2b30c5)) == SECRET
  {
    hide S;
    FirstHalf10();
    SecondHalf10();
    assert SubBytes(Block(0xbd6e7c3d, 0xf2b5779e, 0x0b61216e, 0x8b10b689)) == Block(0x7a9f1027, 0x89d5f50b, 0x2beffd9f, 0x3dca4ea7);
    assert ShiftRows(Block(0x7a9f1027, 0x89d5f50b, 0x2beffd9f, 0x3dca4ea7)) == Block(0x7ad5fda7, 0x89ef4e27, 0x2bca100b, 0x3d9ff59f);
  }

  lemma {:induction false} AfterRound(w: seq<Block>, r: nat)
    requires r <= 9 && |w| == 11 && forall i :: 0 <= i <= 10 ==> w[i] == Printed(i)
    ensures Rounds(PLAIN, w, r) == State(r)
  {
    hide AddRoundKey, MixColumns, ShiftRows, SubBytes;
    if r == 0 {
      InitialKey();
    } else {
      AfterRound(w, r - 1);
      Round1(); Round2(); Round3(); Round4(); Round5(); Round6(); Round7(); Round8(); Round9();
    }
  }

  lemma InitialKey()
    ensures AddRoundKey(PLAIN, Printed(0)) == State(0)
  {}

  /** The cipher under the schedule of the key makes of the plaintext the ciphertext printed, and decryption makes it of that. */
  lemma ExampleOfFips197()
    ensures Cipher(PLAIN, KeySchedule(KEY)) == SECRET
    ensures EqInvCipher(SECRET, DecryptionKeys(KeySchedule(KEY))) == PLAIN
  {
    hide Cipher, EqInvCipher, DecryptionKeys, Printed, State, RoundKey;
    var w := KeySchedule(KEY);
    forall i | 0 <= i <= 10 ensures w[i] == Printed(i) { RoundKeys(i); }
    LastRound(w);
    AesInverse.DecryptionInvertsEncryption(PLAIN, w);
  }

  lemma LastRound(w: seq<Block>)
    requires |w| == 11 && forall i :: 0 <= i <= 10 ==> w[i] == Printed(i)
    ensures Cipher(PLAIN, w) == SECRET
  {
    hide AddRoundKey, ShiftRows, SubBytes, Rounds;
    AfterRound(w, 9);
    Round10();
  }

  const KEY_BYTES: seq<bv8> := [0x00, 0x01, 0x02, 0x03, 0x04, 0x05, 0x06, 0x07, 0x08, 0x09, 0x0a, 0x0b, 0x0c, 0x0d, 0x0e, 0x0f]
  const PLAIN_BYTES: seq<bv8> := [0x00, 0x11, 0x22, 0x33, 0x44, 0x55, 0x66, 0x77, 0x88, 0x99, 0xaa, 0xbb, 0xcc, 0xdd, 0xee, 0xff]
  const SECRET_BYTES: seq<bv8> := [0x69, 0xc4, 0xe0, 0xd8, 0x6a, 0x7b, 0x04, 0x30, 0xd8, 0xcd, 0xb7, 0x80, 0x70, 0xb4, 0xc5, 0x5a]

  /** The same on the bytes of the buffers. */
  lemma ExampleAsBytes()
    ensures BlockBytes(Cipher(BlockAt(PLAIN_BYTES, 0), KeySchedule(Rijndael.KeyWords(KEY_BYTES)))) == SECRET_BYTES
  {
    hide Cipher, KeySchedule;
    ExampleOfFips197();
    assert Rijndael.KeyWords(KEY_BYTES) == KEY by { KeyOfBytes(); }
    assert BlockAt(PLAIN_BYTES, 0) == PLAIN && BlockBytes(SECRET) == SECRET_BYTES by { BlocksOfBytes(); }
  }

  lemma KeyOfBytes()
    ensures Rijndael.KeyWords(KEY_BYTES) == KEY
  {
    assert Pack(0x00, 0x01, 0x02, 0x03) == 0x00010203 && Pack(0x04, 0x05, 0x06, 0x07) == 0x04050607;
    assert Pack(0x08, 0x09, 0x0a, 0x0b) == 0x08090a0b && Pack(0x0c, 0x0d, 0x0e, 0x0f) == 0x0c0d0e0f;
  }

  lemma BlocksOfBytes()
    ensures BlockAt(PLAIN_BYTES, 0) == PLAIN && BlockBytes(SECRET) == SECRET_BYTES
  {}

  // ----- The longer keys -----

  /** Six words: the seventh is substituted and rotated, no other before the thirteenth. */
  lemma SixWords(key: seq<Word>)
    requires |key| == 6
    ensures KeyWord(key, 6) == AddWord(key[0], AddWord(SubWord(RotWord(key[5])), Rcon(1)))
    ensures forall i :: 6 < i < 12 ==> KeyWord(key, i) == AddWord(key[i - 6], KeyWord(key, i - 1))
  {
    hide SubWord, RotWord, Rcon, AddWord;
  }

  /** Eight words: the ninth is substituted and rotated, the thirteenth substituted only. */
  lemma EightWords(key: seq<Word>)
    requires |key| == 8
    ensures KeyWord(key, 8) == AddWord(key[0], AddWord(SubWord(RotWord(key[7])), Rcon(1)))
    ensures KeyWord(key, 12) == AddWord(key[4], SubWord(KeyWord(key, 11)))
    ensures forall i :: 8 < i < 16 && i != 12 ==> KeyWord(key, i) == AddWord(key[i - 8], KeyWord(key, i - 1))
  {
    hide SubWord, RotWord, Rcon, AddWord;
  }
}
