/**
 * The sixteen-words-a-row round tables T1..T8 and U1..U4 of rijndael.c, entry for entry, and what they hold:
 * T1..T4 the products of MixColumns with a substituted byte, T5..T8 those of InvMixColumns, and U1..U4 the
 * products of InvMixColumns alone.
 */
module RijndaelTables {
  import opened SBox
  import opened Fips197

  function T1(x: bv8): Word { ((T1Row(x >> 4) >> (32 * ((15 - (x & 15)) as bv16))) & 0xffffffff) as bv32 }

  function T2(x: bv8): Word { ((T2Row(x >> 4) >> (32 * ((15 - (x & 15)) as bv16))) & 0xffffffff) as bv32 }

  function T3(x: bv8): Word { ((T3Row(x >> 4) >> (32 * ((15 - (x & 15)) as bv16))) & 0xffffffff) as bv32 }

  function T4(x: bv8): Word { ((T4Row(x >> 4) >> (32 * ((15 - (x & 15)) as bv16))) & 0xffffffff) as bv32 }

  function T5(x: bv8): Word { ((T5Row(x >> 4) >> (32 * ((15 - (x & 15)) as bv16))) & 0xffffffff) as bv32 }

  function T6(x: bv8): Word { ((T6Row(x >> 4) >> (32 * ((15 - (x & 15)) as bv16))) & 0xffffffff) as bv32 }

  function T7(x: bv8): Word { ((T7Row(x >> 4) >> (32 * ((15 - (x & 15)) as bv16))) & 0xffffffff) as bv32 }

  function T8(x: bv8): Word { ((T8Row(x >> 4) >> (32 * ((15 - (x & 15)) as bv16))) & 0xffffffff) as bv32 }

  function U1(x: bv8): Word { ((U1Row(x >> 4) >> (32 * ((15 - (x & 15)) as bv16))) & 0xffffffff) as bv32 }

  function U2(x: bv8): Word { ((U2Row(x >> 4) >> (32 * ((15 - (x & 15)) as bv16))) & 0xffffffff) as bv32 }

  function U3(x: bv8): Word { ((U3Row(x >> 4) >> (32 * ((15 - (x & 15)) as bv16))) & 0xffffffff) as bv32 }

  function U4(x: bv8): Word { ((U4Row(x >> 4) >> (32 * ((15 - (x & 15)) as bv16))) & 0xffffffff) as bv32 }

  // ----- What the entries are -----

  ghost predicate T1Entry(x: bv8) { T1(x) == Pack(Mul2(S(x)), S(x), S(x), Mul3(S(x))) }
  ghost predicate T2Entry(x: bv8) { T2(x) == Pack(Mul3(S(x)), Mul2(S(x)), S(x), S(x)) }
  ghost predicate T3Entry(x: bv8) { T3(x) == Pack(S(x), Mul3(S(x)), Mul2(S(x)), S(x)) }
  ghost predicate T4Entry(x: bv8) { T4(x) == Pack(S(x), S(x), Mul3(S(x)), Mul2(S(x))) }
  ghost predicate T5Entry(x: bv8) { T5(x) == Pack(Mul14(S5(x)), Mul9(S5(x)), Mul13(S5(x)), Mul11(S5(x))) }
  ghost predicate T6Entry(x: bv8) { T6(x) == Pack(Mul11(S5(x)), Mul14(S5(x)), Mul9(S5(x)), Mul13(S5(x))) }
  ghost predicate T7Entry(x: bv8) { T7(x) == Pack(Mul13(S5(x)), Mul11(S5(x)), Mul14(S5(x)), Mul9(S5(x))) }
  ghost predicate T8Entry(x: bv8) { T8(x) == Pack(Mul9(S5(x)), Mul13(S5(x)), Mul11(S5(x)), Mul14(S5(x))) }
  ghost predicate U1Entry(x: bv8) { U1(x) == Pack(Mul14(x), Mul9(x), Mul13(x), Mul11(x)) }
  ghost predicate U2Entry(x: bv8) { U2(x) == Pack(Mul11(x), Mul14(x), Mul9(x), Mul13(x)) }
  ghost predicate U3Entry(x: bv8) { U3(x) == Pack(Mul13(x), Mul11(x), Mul14(x), Mul9(x)) }
  ghost predicate U4Entry(x: bv8) { U4(x) == Pack(Mul9(x), Mul13(x), Mul11(x), Mul14(x)) }

  // Each table is checked a quarter at a time.

  lemma T1Entries(x: bv8)
    ensures T1Entry(x)
  {
    hide T1Entry;
    if x < 0x40 { T1Quarter0(x); } else if x < 0x80 { T1Quarter1(x); }
    else if x < 0xc0 { T1Quarter2(x); } else { T1Quarter3(x); }
  }
  lemma T1Quarter0(x: bv8) requires x < 0x40 ensures T1Entry(x) {}
  lemma T1Quarter1(x: bv8) requires 0x40 <= x < 0x80 ensures T1Entry(x) {}
  lemma T1Quarter2(x: bv8) requires 0x80 <= x < 0xc0 ensures T1Entry(x) {}
  lemma T1Quarter3(x: bv8) requires 0xc0 <= x ensures T1Entry(x) {}

  lemma T2Entries(x: bv8)
    ensures T2Entry(x)
  {
    hide T2Entry;
    if x < 0x40 { T2Quarter0(x); } else if x < 0x80 { T2Quarter1(x); }
    else if x < 0xc0 { T2Quarter2(x); } else { T2Quarter3(x); }
  }
  lemma T2Quarter0(x: bv8) requires x < 0x40 ensures T2Entry(x) {}
  lemma T2Quarter1(x: bv8) requires 0x40 <= x < 0x80 ensures T2Entry(x) {}
  lemma T2Quarter2(x: bv8) requires 0x80 <= x < 0xc0 ensures T2Entry(x) {}
  lemma T2Quarter3(x: bv8) requires 0xc0 <= x ensures T2Entry(x) {}

  lemma T3Entries(x: bv8)
    ensures T3Entry(x)
  {
    hide T3Entry;
    if x < 0x40 { T3Quarter0(x); } else if x < 0x80 { T3Quarter1(x); }
    else if x < 0xc0 { T3Quarter2(x); } else { T3Quarter3(x); }
  }
  lemma T3Quarter0(x: bv8) requires x < 0x40 ensures T3Entry(x) {}
  lemma T3Quarter1(x: bv8) requires 0x40 <= x < 0x80 ensures T3Entry(x) {}
  lemma T3Quarter2(x: bv8) requires 0x80 <= x < 0xc0 ensures T3Entry(x) {}
  lemma T3Quarter3(x: bv8) requires 0xc0 <= x ensures T3Entry(x) {}

  lemma T4Entries(x: bv8)
    ensures T4Entry(x)
  {
    hide T4Entry;
    if x < 0x40 { T4Quarter0(x); } else if x < 0x80 { T4Quarter1(x); }
    else if x < 0xc0 { T4Quarter2(x); } else { T4Quarter3(x); }
  }
  lemma T4Quarter0(x: bv8) requires x < 0x40 ensures T4Entry(x) {}
  lemma T4Quarter1(x: bv8) requires 0x40 <= x < 0x80 ensures T4Entry(x) {}
  lemma T4Quarter2(x: bv8) requires 0x80 <= x < 0xc0 ensures T4Entry(x) {}
  lemma T4Quarter3(x: bv8) requires 0xc0 <= x ensures T4Entry(x) {}

  lemma T5Entries(x: bv8)
    ensures T5Entry(x)
  {
    hide T5Entry;
    if x < 0x40 { T5Quarter0(x); } else if x < 0x80 { T5Quarter1(x); }
    else if x < 0xc0 { T5Quarter2(x); } else { T5Quarter3(x); }
  }
  lemma T5Quarter0(x: bv8) requires x < 0x40 ensures T5Entry(x) {}
  lemma T5Quarter1(x: bv8) requires 0x40 <= x < 0x80 ensures T5Entry(x) {}
  lemma T5Quarter2(x: bv8) requires 0x80 <= x < 0xc0 ensures T5Entry(x) {}
  lemma T5Quarter3(x: bv8) requires 0xc0 <= x ensures T5Entry(x) {}

  lemma T6Entries(x: bv8)
    ensures T6Entry(x)
  {
    hide T6Entry;
    if x < 0x40 { T6Quarter0(x); } else if x < 0x80 { T6Quarter1(x); }
    else if x < 0xc0 { T6Quarter2(x); } else { T6Quarter3(x); }
  }
  lemma T6Quarter0(x: bv8) requires x < 0x40 ensures T6Entry(x) {}
  lemma T6Quarter1(x: bv8) requires 0x40 <= x < 0x80 ensures T6Entry(x) {}
  lemma T6Quarter2(x: bv8) requires 0x80 <= x < 0xc0 ensures T6Entry(x) {}
  lemma T6Quarter3(x: bv8) requires 0xc0 <= x ensures T6Entry(x) {}

  lemma T7Entries(x: bv8)
    ensures T7Entry(x)
  {
    hide T7Entry;
    if x < 0x40 { T7Quarter0(x); } else if x < 0x80 { T7Quarter1(x); }
    else if x < 0xc0 { T7Quarter2(x); } else { T7Quarter3(x); }
  }
  lemma T7Quarter0(x: bv8) requires x < 0x40 ensures T7Entry(x) {}
  lemma T7Quarter1(x: bv8) requires 0x40 <= x < 0x80 ensures T7Entry(x) {}
  lemma T7Quarter2(x: bv8) requires 0x80 <= x < 0xc0 ensures T7Entry(x) {}
  lemma T7Quarter3(x: bv8) requires 0xc0 <= x ensures T7Entry(x) {}

  lemma T8Entries(x: bv8)
    ensures T8Entry(x)
  {
    hide T8Entry;
    if x < 0x40 { T8Quarter0(x); } else if x < 0x80 { T8Quarter1(x); }
    else if x < 0xc0 { T8Quarter2(x); } else { T8Quarter3(x); }
  }
  lemma T8Quarter0(x: bv8) requires x < 0x40 ensures T8Entry(x) {}
  lemma T8Quarter1(x: bv8) requires 0x40 <= x < 0x80 ensures T8Entry(x) {}
  lemma T8Quarter2(x: bv8) requires 0x80 <= x < 0xc0 ensures T8Entry(x) {}
  lemma T8Quarter3(x: bv8) requires 0xc0 <= x ensures T8Entry(x) {}

  lemma U1Entries(x: bv8)
    ensures U1Entry(x)
  {
    hide U1Entry;
    if x < 0x40 { U1Quarter0(x); } else if x < 0x80 { U1Quarter1(x); }
    else if x < 0xc0 { U1Quarter2(x); } else { U1Quarter3(x); }
  }
  lemma U1Quarter0(x: bv8) requires x < 0x40 ensures U1Entry(x) {}
  lemma U1Quarter1(x: bv8) requires 0x40 <= x < 0x80 ensures U1Entry(x) {}
  lemma U1Quarter2(x: bv8) requires 0x80 <= x < 0xc0 ensures U1Entry(x) {}
  lemma U1Quarter3(x: bv8) requires 0xc0 <= x ensures U1Entry(x) {}

  lemma U2Entries(x: bv8)
    ensures U2Entry(x)
  {
    hide U2Entry;
    if x < 0x40 { U2Quarter0(x); } else if x < 0x80 { U2Quarter1(x); }
    else if x < 0xc0 { U2Quarter2(x); } else { U2Quarter3(x); }
  }
  lemma U2Quarter0(x: bv8) requires x < 0x40 ensures U2Entry(x) {}
  lemma U2Quarter1(x: bv8) requires 0x40 <= x < 0x80 ensures U2Entry(x) {}
  lemma U2Quarter2(x: bv8) requires 0x80 <= x < 0xc0 ensures U2Entry(x) {}
  lemma U2Quarter3(x: bv8) requires 0xc0 <= x ensures U2Entry(x) {}

  lemma U3Entries(x: bv8)
    ensures U3Entry(x)
  {
    hide U3Entry;
    if x < 0x40 { U3Quarter0(x); } else if x < 0x80 { U3Quarter1(x); }
    else if x < 0xc0 { U3Quarter2(x); } else { U3Quarter3(x); }
  }
  lemma U3Quarter0(x: bv8) requires x < 0x40 ensures U3Entry(x) {}
  lemma U3Quarter1(x: bv8) requires 0x40 <= x < 0x80 ensures U3Entry(x) {}
  lemma U3Quarter2(x: bv8) requires 0x80 <= x < 0xc0 ensures U3Entry(x) {}
  lemma U3Quarter3(x: bv8) requires 0xc0 <= x ensures U3Entry(x) {}

  lemma U4Entries(x: bv8)
    ensures U4Entry(x)
  {
    hide U4Entry;
    if x < 0x40 { U4Quarter0(x); } else if x < 0x80 { U4Quarter1(x); }
    else if x < 0xc0 { U4Quarter2(x); } else { U4Quarter3(x); }
  }
  lemma U4Quarter0(x: bv8) requires x < 0x40 ensures U4Entry(x) {}
  lemma U4Quarter1(x: bv8) requires 0x40 <= x < 0x80 ensures U4Entry(x) {}
  lemma U4Quarter2(x: bv8) requires 0x80 <= x < 0xc0 ensures U4Entry(x) {}
  lemma U4Quarter3(x: bv8) requires 0xc0 <= x ensures U4Entry(x) {}

  // ----- The entries -----

  function T1Row(h: bv8): bv512 {
    if h == 0x0 then 0xc66363a5f87c7c84ee777799f67b7b8dfff2f20dd66b6bbdde6f6fb191c5c5546030305002010103ce6767a9562b2b7de7fefe19b5d7d7624dababe6ec76769a
    else if h == 0x1 then 0x8fcaca451f82829d89c9c940fa7d7d87effafa15b25959eb8e4747c9fbf0f00b41adadecb3d4d4675fa2a2fd45afafea239c9cbf53a4a4f7e47272969bc0c05b
    else if h == 0x2 then 0x75b7b7c2e1fdfd1c3d9393ae4c26266a6c36365a7e3f3f41f5f7f70283cccc4f6834345c51a5a5f4d1e5e534f9f1f108e2717193abd8d873623131532a15153f
    else if h == 0x3 then 0x0804040c95c7c752462323659dc3c35e30181828379696a10a05050f2f9a9ab50e070709241212361b80809bdfe2e23dcdebeb264e2727697fb2b2cdea75759f
    else if h == 0x4 then 0x1209091b1d83839e582c2c74341a1a2e361b1b2ddc6e6eb2b45a5aee5ba0a0fba45252f6763b3b4db7d6d6617db3b3ce5229297bdde3e33e5e2f2f7113848497
    else if h == 0x5 then 0xa65353f5b9d1d16800000000c1eded2c40202060e3fcfc1f79b1b1c8b65b5bedd46a6abe8dcbcb4667bebed97239394b944a4ade984c4cd4b05858e885cfcf4a
    else if h == 0x6 then 0xbbd0d06bc5efef2a4faaaae5edfbfb16864343c59a4d4dd766333355118585948a4545cfe9f9f91004020206fe7f7f81a05050f0783c3c44259f9fba4ba8a8e3
    else if h == 0x7 then 0xa25151f35da3a3fe804040c0058f8f8a3f9292ad219d9dbc70383848f1f5f50463bcbcdf77b6b6c1afdada754221216320101030e5ffff1afdf3f30ebfd2d26d
    else if h == 0x8 then 0x81cdcd4c180c0c1426131335c3ecec2fbe5f5fe1359797a2884444cc2e17173993c4c45755a7a7f2fc7e7e827a3d3d47c86464acba5d5de73219192be6737395
    else if h == 0x9 then 0xc06060a0198181989e4f4fd1a3dcdc7f44222266542a2a7e3b9090ab0b8888838c4646cac7eeee296bb8b8d32814143ca7dede79bc5e5ee2160b0b1daddbdb76
    else if h == 0xa then 0xdbe0e03b64323256743a3a4e140a0a1e924949db0c06060a4824246cb85c5ce49fc2c25dbdd3d36e43acacefc46262a6399191a8319595a4d3e4e437f279798b
    else if h == 0xb then 0xd5e7e7328bc8c8436e373759da6d6db7018d8d8cb1d5d5649c4e4ed249a9a9e0d86c6cb4ac5656faf3f4f407cfeaea25ca6565aff47a7a8e47aeaee910080818
    else if h == 0xc then 0x6fbabad5f07878884a25256f5c2e2e72381c1c2457a6a6f173b4b4c797c6c651cbe8e823a1dddd7ce874749c3e1f1f21964b4bdd61bdbddc0d8b8b860f8a8a85
    else if h == 0xd then 0xe07070907c3e3e4271b5b5c4cc6666aa904848d806030305f7f6f6011c0e0e12c26161a36a35355fae5757f969b9b9d01786869199c1c1583a1d1d27279e9eb9
    else if h == 0xe then 0xd9e1e138ebf8f8132b9898b322111133d26969bba9d9d970078e8e89339494a72d9b9bb63c1e1e2215878792c9e9e92087cece49aa5555ff50282878a5dfdf7a
    else 0x038c8c8f59a1a1f8098989801a0d0d1765bfbfdad7e6e631844242c6d06868b8824141c3299999b05a2d2d771e0f0f117bb0b0cba85454fc6dbbbbd62c16163a
  }

  function T2Row(h: bv8): bv512 {
    if h == 0x0 then 0xa5c6636384f87c7c99ee77778df67b7b0dfff2f2bdd66b6bb1de6f6f5491c5c55060303003020101a9ce67677d562b2b19e7fefe62b5d7d7e64dabab9aec7676
    else if h == 0x1 then 0x458fcaca9d1f82824089c9c987fa7d7d15effafaebb25959c98e47470bfbf0f0ec41adad67b3d4d4fd5fa2a2ea45afafbf239c9cf753a4a496e472725b9bc0c0
    else if h == 0x2 then 0xc275b7b71ce1fdfdae3d93936a4c26265a6c3636417e3f3f02f5f7f74f83cccc5c683434f451a5a534d1e5e508f9f1f193e2717173abd8d8536231313f2a1515
    else if h == 0x3 then 0x0c0804045295c7c7654623235e9dc3c328301818a13796960f0a0505b52f9a9a090e0707362412129b1b80803ddfe2e226cdebeb694e2727cd7fb2b29fea7575
    else if h == 0x4 then 0x1b1209099e1d838374582c2c2e341a1a2d361b1bb2dc6e6eeeb45a5afb5ba0a0f6a452524d763b3b61b7d6d6ce7db3b37b5229293edde3e3715e2f2f97138484
    else if h == 0x5 then 0xf5a6535368b9d1d1000000002cc1eded604020201fe3fcfcc879b1b1edb65b5bbed46a6a468dcbcbd967bebe4b723939de944a4ad4984c4ce8b058584a85cfcf
    else if h == 0x6 then 0x6bbbd0d02ac5efefe54faaaa16edfbfbc5864343d79a4d4d5566333394118585cf8a454510e9f9f90604020281fe7f7ff0a0505044783c3cba259f9fe34ba8a8
    else if h == 0x7 then 0xf3a25151fe5da3a3c08040408a058f8fad3f9292bc219d9d4870383804f1f5f5df63bcbcc177b6b675afdada63422121302010101ae5ffff0efdf3f36dbfd2d2
    else if h == 0x8 then 0x4c81cdcd14180c0c352613132fc3ecece1be5f5fa2359797cc884444392e17175793c4c4f255a7a782fc7e7e477a3d3dacc86464e7ba5d5d2b32191995e67373
    else if h == 0x9 then 0xa0c0606098198181d19e4f4f7fa3dcdc664422227e542a2aab3b9090830b8888ca8c464629c7eeeed36bb8b83c28141479a7dedee2bc5e5e1d160b0b76addbdb
    else if h == 0xa then 0x3bdbe0e0566432324e743a3a1e140a0adb9249490a0c06066c482424e4b85c5c5d9fc2c26ebdd3d3ef43acaca6c46262a8399191a431959537d3e4e48bf27979
    else if h == 0xb then 0x32d5e7e7438bc8c8596e3737b7da6d6d8c018d8d64b1d5d5d29c4e4ee049a9a9b4d86c6cfaac565607f3f4f425cfeaeaafca65658ef47a7ae947aeae18100808
    else if h == 0xc then 0xd56fbaba88f078786f4a2525725c2e2e24381c1cf157a6a6c773b4b45197c6c623cbe8e87ca1dddd9ce87474213e1f1fdd964b4bdc61bdbd860d8b8b850f8a8a
    else if h == 0xd then 0x90e07070427c3e3ec471b5b5aacc6666d89048480506030301f7f6f6121c0e0ea3c261615f6a3535f9ae5757d069b9b9911786865899c1c1273a1d1db9279e9e
    else if h == 0xe then 0x38d9e1e113ebf8f8b32b989833221111bbd2696970a9d9d989078e8ea7339494b62d9b9b223c1e1e9215878720c9e9e94987ceceffaa5555785028287aa5dfdf
    else 0x8f038c8cf859a1a180098989171a0d0dda65bfbf31d7e6e6c6844242b8d06868c3824141b0299999775a2d2d111e0f0fcb7bb0b0fca85454d66dbbbb3a2c1616
  }

  function T3Row(h: bv8): bv512 {
    if h == 0x0 then 0x63a5c6637c84f87c7799ee777b8df67bf20dfff26bbdd66b6fb1de6fc55491c5305060300103020167a9ce672b7d562bfe19e7fed762b5d7abe64dab769aec76
    else if h == 0x1 then 0xca458fca829d1f82c94089c97d87fa7dfa15effa59ebb25947c98e47f00bfbf0adec41add467b3d4a2fd5fa2afea45af9cbf239ca4f753a47296e472c05b9bc0
    else if h == 0x2 then 0xb7c275b7fd1ce1fd93ae3d93266a4c26365a6c363f417e3ff702f5f7cc4f83cc345c6834a5f451a5e534d1e5f108f9f17193e271d873abd831536231153f2a15
    else if h == 0x3 then 0x040c0804c75295c723654623c35e9dc31828301896a13796050f0a059ab52f9a07090e0712362412809b1b80e23ddfe2eb26cdeb27694e27b2cd7fb2759fea75
    else if h == 0x4 then 0x091b1209839e1d832c74582c1a2e341a1b2d361b6eb2dc6e5aeeb45aa0fb5ba052f6a4523b4d763bd661b7d6b3ce7db3297b5229e33edde32f715e2f84971384
    else if h == 0x5 then 0x53f5a653d168b9d100000000ed2cc1ed20604020fc1fe3fcb1c879b15bedb65b6abed46acb468dcbbed967be394b72394ade944a4cd4984c58e8b058cf4a85cf
    else if h == 0x6 then 0xd06bbbd0ef2ac5efaae54faafb16edfb43c586434dd79a4d335566338594118545cf8a45f910e9f9020604027f81fe7f50f0a0503c44783c9fba259fa8e34ba8
    else if h == 0x7 then 0x51f3a251a3fe5da340c080408f8a058f92ad3f929dbc219d38487038f504f1f5bcdf63bcb6c177b6da75afda2163422110302010ff1ae5fff30efdf3d26dbfd2
    else if h == 0x8 then 0xcd4c81cd0c14180c13352613ec2fc3ec5fe1be5f97a2359744cc884417392e17c45793c4a7f255a77e82fc7e3d477a3d64acc8645de7ba5d192b32197395e673
    else if h == 0x9 then 0x60a0c060819819814fd19e4fdc7fa3dc226644222a7e542a90ab3b9088830b8846ca8c46ee29c7eeb8d36bb8143c2814de79a7de5ee2bc5e0b1d160bdb76addb
    else if h == 0xa then 0xe03bdbe0325664323a4e743a0a1e140a49db9249060a0c06246c48245ce4b85cc25d9fc2d36ebdd3acef43ac62a6c46291a8399195a43195e437d3e4798bf279
    else if h == 0xb then 0xe732d5e7c8438bc837596e376db7da6d8d8c018dd564b1d54ed29c4ea9e049a96cb4d86c56faac56f407f3f4ea25cfea65afca657a8ef47aaee947ae08181008
    else if h == 0xc then 0xbad56fba7888f078256f4a252e725c2e1c24381ca6f157a6b4c773b4c65197c6e823cbe8dd7ca1dd749ce8741f213e1f4bdd964bbddc61bd8b860d8b8a850f8a
    else if h == 0xd then 0x7090e0703e427c3eb5c471b566aacc6648d8904803050603f601f7f60e121c0e61a3c261355f6a3557f9ae57b9d069b986911786c15899c11d273a1d9eb9279e
    else if h == 0xe then 0xe138d9e1f813ebf898b32b981133221169bbd269d970a9d98e89078e94a733949bb62d9b1e223c1e87921587e920c9e9ce4987ce55ffaa5528785028df7aa5df
    else 0x8c8f038ca1f859a1898009890d171a0dbfda65bfe631d7e642c6844268b8d06841c3824199b029992d775a2d0f111e0fb0cb7bb054fca854bbd66dbb163a2c16
  }

  function T4Row(h: bv8): bv512 {
    if h == 0x0 then 0x6363a5c67c7c84f8777799ee7b7b8df6f2f20dff6b6bbdd66f6fb1dec5c5549130305060010103026767a9ce2b2b7d56fefe19e7d7d762b5ababe64d76769aec
    else if h == 0x1 then 0xcaca458f82829d1fc9c940897d7d87fafafa15ef5959ebb24747c98ef0f00bfbadadec41d4d467b3a2a2fd5fafafea459c9cbf23a4a4f753727296e4c0c05b9b
    else if h == 0x2 then 0xb7b7c275fdfd1ce19393ae3d26266a4c36365a6c3f3f417ef7f702f5cccc4f8334345c68a5a5f451e5e534d1f1f108f9717193e2d8d873ab3131536215153f2a
    else if h == 0x3 then 0x04040c08c7c7529523236546c3c35e9d181828309696a13705050f0a9a9ab52f0707090e1212362480809b1be2e23ddfebeb26cd2727694eb2b2cd7f75759fea
    else if h == 0x4 then 0x09091b1283839e1d2c2c74581a1a2e341b1b2d366e6eb2dc5a5aeeb4a0a0fb5b5252f6a43b3b4d76d6d661b7b3b3ce7d29297b52e3e33edd2f2f715e84849713
    else if h == 0x5 then 0x5353f5a6d1d168b900000000eded2cc120206040fcfc1fe3b1b1c8795b5bedb66a6abed4cbcb468dbebed96739394b724a4ade944c4cd4985858e8b0cfcf4a85
    else if h == 0x6 then 0xd0d06bbbefef2ac5aaaae54ffbfb16ed4343c5864d4dd79a33335566858594114545cf8af9f910e9020206047f7f81fe5050f0a03c3c44789f9fba25a8a8e34b
    else if h == 0x7 then 0x5151f3a2a3a3fe5d4040c0808f8f8a059292ad3f9d9dbc2138384870f5f504f1bcbcdf63b6b6c177dada75af2121634210103020ffff1ae5f3f30efdd2d26dbf
    else if h == 0x8 then 0xcdcd4c810c0c141813133526ecec2fc35f5fe1be9797a2354444cc881717392ec4c45793a7a7f2557e7e82fc3d3d477a6464acc85d5de7ba19192b32737395e6
    else if h == 0x9 then 0x6060a0c0818198194f4fd19edcdc7fa3222266442a2a7e549090ab3b8888830b4646ca8ceeee29c7b8b8d36b14143c28dede79a75e5ee2bc0b0b1d16dbdb76ad
    else if h == 0xa then 0xe0e03bdb323256643a3a4e740a0a1e144949db9206060a0c24246c485c5ce4b8c2c25d9fd3d36ebdacacef436262a6c49191a8399595a431e4e437d379798bf2
    else if h == 0xb then 0xe7e732d5c8c8438b3737596e6d6db7da8d8d8c01d5d564b14e4ed29ca9a9e0496c6cb4d85656faacf4f407f3eaea25cf6565afca7a7a8ef4aeaee94708081810
    else if h == 0xc then 0xbabad56f787888f025256f4a2e2e725c1c1c2438a6a6f157b4b4c773c6c65197e8e823cbdddd7ca174749ce81f1f213e4b4bdd96bdbddc618b8b860d8a8a850f
    else if h == 0xd then 0x707090e03e3e427cb5b5c4716666aacc4848d89003030506f6f601f70e0e121c6161a3c235355f6a5757f9aeb9b9d06986869117c1c158991d1d273a9e9eb927
    else if h == 0xe then 0xe1e138d9f8f813eb9898b32b111133226969bbd2d9d970a98e8e89079494a7339b9bb62d1e1e223c87879215e9e920c9cece49875555ffaa28287850dfdf7aa5
    else 0x8c8c8f03a1a1f859898980090d0d171abfbfda65e6e631d74242c6846868b8d04141c3829999b0292d2d775a0f0f111eb0b0cb7b5454fca8bbbbd66d16163a2c
  }

  function T5Row(h: bv8): bv512 {
    if h == 0x0 then 0x51f4a7507e4165531a17a4c33a275e963bab6bcb1f9d45f1acfa58ab4be303932030fa55ad766df688cc7691f5024c254fe5d7fcc52acbd726354480b562a38f
    else if h == 0x1 then 0xdeb15a4925ba1b6745ea0e985dfec0e1c32f7502814cf0128d4697a36bd3f9c6038f5fe715929c95bf6d7aeb955259dad4be832d587421d349e069298ec9c844
    else if h == 0x2 then 0x75c2896af48e797899583e6b27b971ddbee14fb6f088ad17c920ac667dce3ab463df4a18e51a31829751336062537f45b16477e0bb6bae84fe81a01cf9082b94
    else if h == 0x3 then 0x704868588f45fd1994de6c87527bf8b7ab73d323724b02e2e31f8f576655ab2ab2eb28072fb5c20386c57b9ad33708a5302887f223bfa5b202036abaed16825c
    else if h == 0x4 then 0x8acf1c2ba779b492f307f2f04e69e2a165daf4cd0605bed5d134621fc4a6fe8a342e539da2f355a0058ae132a4f6eb750b83ec394060efaa5e719f06bd6e1051
    else if h == 0x5 then 0x3e218af996dd063ddd3e05ae4de6bd4691548db571c45d050406d46f605015ff1998fb24d6bde997894043cc67d99e77b0e842bd07898b88e7195b3879c8eedb
    else if h == 0x6 then 0xa17c0a477c420fe9f8841ec90000000009808683322bed481e1170ac6c5a724efd0efffb0f8538563daed51e362d39270a0fd964685ca6219b5b54d124362e3a
    else if h == 0x7 then 0x0c0a67b19357e70fb4ee96d21b9b919e80c0c54f61dc20a25a774b691c121a16e293ba0ac0a02ae53c22e043121b171d0e090d0bf28bc7ad2db6a8b9141ea9c8
    else if h == 0x8 then 0x57f11985af75074cee99ddbba37f60fdf701269f5c72f5bc44663bc55bfb7e348b432976cb23c6dcb6edfc68b8e4f163d731dcca426385101397224084c61120
    else if h == 0x9 then 0x854a247dd2bb3df8aef93211c729a16d1d9e2f4bdcb230f30d8652ec77c1e3d02bb3166ca970b999119448fa47e96422a8fc8cc4a0f03f1a567d2cd8223390ef
    else if h == 0xa then 0x87494ec7d938d1c18ccaa2fe98d40b36a6f581cfa57ade28dab78e263fadbfa42c3a9de45078920d6a5fcc9b547e4662f68d13c290d8b8e82e39f75e82c3aff5
    else if h == 0xb then 0x9f5d80be69d0937c6fd52da9cf2512b3c8ac993b10187da7e89c636edb3bbb7bcd2678096e5918f4ec9ab701834f9aa8e6956e65aaffe67e21bccf08ef15e8e6
    else if h == 0xc then 0xbae79bd94a6f36ceea9f09d429b07cd631a4b2af2a3f2331c6a5943035a266c0744ebc37fc82caa6e090d0b033a7d815f104984a41ecdaf77fcd500e1791f62f
    else if h == 0xd then 0x764dd68d43efb04dccaa4d54e49604df9ed1b5e34c6a881bc12c1fb84665517f9d5eea04018c355dfa877473fb0b412eb3671d5a92dbd252e91056336dd64713
    else if h == 0xe then 0x9ad7618c37a10c7a59f8148eeb133c89cea927eeb761c935e11ce5ed7a47b13c9cd2df5955f2733f1814ce7973c737bf53f7cdea5ffdaa5bdf3d6f147844db86
    else 0xcaaff381b968c43e3824342cc2a3405f161dc372bce2250c283c498bff0d954139a80171080cb3ded8b4e49c6456c1907bcb8461d532b670486c5c74d0b85742
  }

  function T6Row(h: bv8): bv512 {
    if h == 0x0 then 0x5051f4a7537e4165c31a17a4963a275ecb3bab6bf11f9d45abacfa58934be303552030faf6ad766d9188cc7625f5024cfc4fe5d7d7c52acb802635448fb562a3
    else if h == 0x1 then 0x49deb15a6725ba1b9845ea0ee15dfec002c32f7512814cf0a38d4697c66bd3f9e7038f5f9515929cebbf6d7ada9552592dd4be83d35874212949e069448ec9c8
    else if h == 0x2 then 0x6a75c28978f48e796b99583edd27b971b6bee14f17f088ad66c920acb47dce3a1863df4a82e51a31609751334562537fe0b1647784bb6bae1cfe81a094f9082b
    else if h == 0x3 then 0x58704868198f45fd8794de6cb7527bf823ab73d3e2724b0257e31f8f2a6655ab07b2eb28032fb5c29a86c57ba5d33708f2302887b223bfa5ba02036a5ced1682
    else if h == 0x4 then 0x2b8acf1c92a779b4f0f307f2a14e69e2cd65daf4d50605be1fd134628ac4a6fe9d342e53a0a2f35532058ae175a4f6eb390b83ecaa4060ef065e719f51bd6e10
    else if h == 0x5 then 0xf93e218a3d96dd06aedd3e05464de6bdb591548d0571c45d6f0406d4ff605015241998fb97d6bde9cc8940437767d99ebdb0e8428807898b38e7195bdb79c8ee
    else if h == 0x6 then 0x47a17c0ae97c420fc9f8841e000000008309808648322bedac1e11704e6c5a72fbfd0eff560f85381e3daed527362d39640a0fd921685ca6d19b5b543a24362e
    else if h == 0x7 then 0xb10c0a670f9357e7d2b4ee969e1b9b914f80c0c5a261dc20695a774b161c121a0ae293bae5c0a02a433c22e01d121b170b0e090dadf28bc7b92db6a8c8141ea9
    else if h == 0x8 then 0x8557f1194caf7507bbee99ddfda37f609ff70126bc5c72f5c544663b345bfb7e768b4329dccb23c668b6edfc63b8e4f1cad731dc10426385401397222084c611
    else if h == 0x9 then 0x7d854a24f8d2bb3d11aef9326dc729a14b1d9e2ff3dcb230ec0d8652d077c1e36c2bb31699a970b9fa1194482247e964c4a8fc8c1aa0f03fd8567d2cef223390
    else if h == 0xa then 0xc787494ec1d938d1fe8ccaa23698d40bcfa6f58128a57ade26dab78ea43fadbfe42c3a9d0d5078929b6a5fcc62547e46c2f68d13e890d8b85e2e39f7f582c3af
    else if h == 0xb then 0xbe9f5d807c69d093a96fd52db3cf25123bc8ac99a710187d6ee89c637bdb3bbb09cd2678f46e591801ec9ab7a8834f9a65e6956e7eaaffe60821bccfe6ef15e8
    else if h == 0xc then 0xd9bae79bce4a6f36d4ea9f09d629b07caf31a4b2312a3f2330c6a594c035a26637744ebca6fc82cab0e090d01533a7d84af10498f741ecda0e7fcd502f1791f6
    else if h == 0xd then 0x8d764dd64d43efb054ccaa4ddfe49604e39ed1b51b4c6a88b8c12c1f7f466551049d5eea5d018c3573fa87742efb0b415ab3671d5292dbd233e91056136dd647
    else if h == 0xe then 0x8c9ad7617a37a10c8e59f81489eb133ceecea92735b761c9ede11ce53c7a47b1599cd2df3f55f273791814cebf73c737ea53f7cd5b5ffdaa14df3d6f867844db
    else 0x81caaff33eb968c42c3824345fc2a34072161dc30cbce2258b283c4941ff0d957139a801de080cb39cd8b4e4906456c1617bcb8470d532b674486c5c42d0b857
  }

  function T7Row(h: bv8): bv512 {
    if h == 0x0 then 0xa75051f465537e41a4c31a175e963a276bcb3bab45f11f9d58abacfa03934be3fa5520306df6ad76769188cc4c25f502d7fc4fe5cbd7c52a44802635a38fb562
    else if h == 0x1 then 0x5a49deb11b6725ba0e9845eac0e15dfe7502c32ff012814c97a38d46f9c66bd35fe7038f9c9515927aebbf6d59da9552832dd4be21d35874692949e0c8448ec9
    else if h == 0x2 then 0x896a75c27978f48e3e6b995871dd27b94fb6bee1ad17f088ac66c9203ab47dce4a1863df3182e51a336097517f45625377e0b164ae84bb6ba01cfe812b94f908
    else if h == 0x3 then 0x68587048fd198f456c8794def8b7527bd323ab7302e2724b8f57e31fab2a66552807b2ebc2032fb57b9a86c508a5d33787f23028a5b223bf6aba0203825ced16
    else if h == 0x4 then 0x1c2b8acfb492a779f2f0f307e2a14e69f4cd65dabed50605621fd134fe8ac4a6539d342e55a0a2f3e132058aeb75a4f6ec390b83efaa40609f065e711051bd6e
    else if h == 0x5 then 0x8af93e21063d96dd05aedd3ebd464de68db591545d0571c4d46f040615ff6050fb241998e997d6bd43cc89409e7767d942bdb0e88b8807895b38e719eedb79c8
    else if h == 0x6 then 0x0a47a17c0fe97c421ec9f8840000000086830980ed48322b70ac1e11724e6c5afffbfd0e38560f85d51e3dae3927362dd9640a0fa621685c54d19b5b2e3a2436
    else if h == 0x7 then 0x67b10c0ae70f935796d2b4ee919e1b9bc54f80c020a261dc4b695a771a161c12ba0ae2932ae5c0a0e0433c22171d121b0d0b0e09c7adf28ba8b92db6a9c8141e
    else if h == 0x8 then 0x198557f1074caf75ddbbee9960fda37f269ff701f5bc5c723bc544667e345bfb29768b43c6dccb23fc68b6edf163b8e4dccad7318510426322401397112084c6
    else if h == 0x9 then 0x247d854a3df8d2bb3211aef9a16dc7292f4b1d9e30f3dcb252ec0d86e3d077c1166c2bb3b999a97048fa1194642247e98cc4a8fc3f1aa0f02cd8567d90ef2233
    else if h == 0xa then 0x4ec78749d1c1d938a2fe8cca0b3698d481cfa6f5de28a57a8e26dab7bfa43fad9de42c3a920d5078cc9b6a5f4662547e13c2f68db8e890d8f75e2e39aff582c3
    else if h == 0xb then 0x80be9f5d937c69d02da96fd512b3cf25993bc8ac7da71018636ee89cbb7bdb3b7809cd2618f46e59b701ec9a9aa8834f6e65e695e67eaaffcf0821bce8e6ef15
    else if h == 0xc then 0x9bd9bae736ce4a6f09d4ea9f7cd629b0b2af31a423312a3f9430c6a566c035a2bc37744ecaa6fc82d0b0e090d81533a7984af104daf741ec500e7fcdf62f1791
    else if h == 0xd then 0xd68d764db04d43ef4d54ccaa04dfe496b5e39ed1881b4c6a1fb8c12c517f4665ea049d5e355d018c7473fa87412efb0b1d5ab367d25292db5633e91047136dd6
    else if h == 0xe then 0x618c9ad70c7a37a1148e59f83c89eb1327eecea9c935b761e5ede11cb13c7a47df599cd2733f55f2ce79181437bf73c7cdea53f7aa5b5ffd6f14df3ddb867844
    else 0xf381caafc43eb968342c3824405fc2a3c372161d250cbce2498b283c9541ff0d017139a8b3de080ce49cd8b4c190645684617bcbb670d5325c74486c5742d0b8
  }

  function T8Row(h: bv8): bv512 {
    if h == 0x0 then 0xf4a750514165537e17a4c31a275e963aab6bcb3b9d45f11ffa58abace303934b30fa5520766df6adcc769188024c25f5e5d7fc4f2acbd7c53544802662a38fb5
    else if h == 0x1 then 0xb15a49deba1b6725ea0e9845fec0e15d2f7502c34cf012814697a38dd3f9c66b8f5fe703929c95156d7aebbf5259da95be832dd47421d358e0692949c9c8448e
    else if h == 0x2 then 0xc2896a758e7978f4583e6b99b971dd27e14fb6be88ad17f020ac66c9ce3ab47ddf4a18631a3182e551336097537f45626477e0b16bae84bb81a01cfe082b94f9
    else if h == 0x3 then 0x4868587045fd198fde6c87947bf8b75273d323ab4b02e2721f8f57e355ab2a66eb2807b2b5c2032fc57b9a863708a5d32887f230bfa5b223036aba0216825ced
    else if h == 0x4 then 0xcf1c2b8a79b492a707f2f0f369e2a14edaf4cd6505bed50634621fd1a6fe8ac42e539d34f355a0a28ae13205f6eb75a483ec390b60efaa40719f065e6e1051bd
    else if h == 0x5 then 0x218af93edd063d963e05aedde6bd464d548db591c45d057106d46f045015ff6098fb2419bde997d64043cc89d99e7767e842bdb0898b8807195b38e7c8eedb79
    else if h == 0x6 then 0x7c0a47a1420fe97c841ec9f800000000808683092bed48321170ac1e5a724e6c0efffbfd8538560faed51e3d2d3927360fd9640a5ca621685b54d19b362e3a24
    else if h == 0x7 then 0x0a67b10c57e70f93ee96d2b49b919e1bc0c54f80dc20a261774b695a121a161c93ba0ae2a02ae5c022e0433c1b171d12090d0b0e8bc7adf2b6a8b92d1ea9c814
    else if h == 0x8 then 0xf119855775074caf99ddbbee7f60fda301269ff772f5bc5c663bc544fb7e345b4329768b23c6dccbedfc68b6e4f163b831dccad76385104297224013c6112084
    else if h == 0x9 then 0x4a247d85bb3df8d2f93211ae29a16dc79e2f4b1db230f3dc8652ec0dc1e3d077b3166c2b70b999a99448fa11e9642247fc8cc4a8f03f1aa07d2cd8563390ef22
    else if h == 0xa then 0x494ec78738d1c1d9caa2fe8cd40b3698f581cfa67ade28a5b78e26daadbfa43f3a9de42c78920d505fcc9b6a7e4662548d13c2f6d8b8e89039f75e2ec3aff582
    else if h == 0xb then 0x5d80be9fd0937c69d52da96f2512b3cfac993bc8187da7109c636ee83bbb7bdb267809cd5918f46e9ab701ec4f9aa883956e65e6ffe67eaabccf082115e8e6ef
    else if h == 0xc then 0xe79bd9ba6f36ce4a9f09d4eab07cd629a4b2af313f23312aa59430c6a266c0354ebc377482caa6fc90d0b0e0a7d8153304984af1ecdaf741cd500e7f91f62f17
    else if h == 0xd then 0x4dd68d76efb04d43aa4d54cc9604dfe4d1b5e39e6a881b4c2c1fb8c165517f465eea049d8c355d01877473fa0b412efb671d5ab3dbd25292105633e9d647136d
    else if h == 0xe then 0xd7618c9aa10c7a37f8148e59133c89eba927eece61c935b71ce5ede147b13c7ad2df599cf2733f5514ce7918c737bf73f7cdea53fdaa5b5f3d6f14df44db8678
    else 0xaff381ca68c43eb924342c38a3405fc21dc37216e2250cbc3c498b280d9541ffa80171390cb3de08b4e49cd856c19064cb84617b32b670d56c5c7448b85742d0
  }

  function U1Row(h: bv8): bv512 {
    if h == 0x0 then 0x000000000e090d0b1c121a16121b171d3824342c362d392724362e3a2a3f2331704868587e4165536c5a724e62537f45486c5c744665517f547e46625a774b69
    else if h == 0x1 then 0xe090d0b0ee99ddbbfc82caa6f28bc7add8b4e49cd6bde997c4a6fe8acaaff38190d8b8e89ed1b5e38ccaa2fe82c3aff5a8fc8cc4a6f581cfb4ee96d2bae79bd9
    else if h == 0x2 then 0xdb3bbb7bd532b670c729a16dc920ac66e31f8f57ed16825cff0d9541f104984aab73d323a57ade28b761c935b968c43e9357e70f9d5eea048f45fd19814cf012
    else if h == 0x3 then 0x3bab6bcb35a266c027b971dd29b07cd6038f5fe70d8652ec1f9d45f1119448fa4be3039345ea0e9857f1198559f8148e73c737bf7dce3ab46fd52da961dc20a2
    else if h == 0x4 then 0xad766df6a37f60fdb16477e0bf6d7aeb955259da9b5b54d1894043cc87494ec7dd3e05aed33708a5c12c1fb8cf2512b3e51a3182eb133c89f9082b94f701269f
    else if h == 0x5 then 0x4de6bd4643efb04d51f4a7505ffdaa5b75c2896a7bcb846169d0937c67d99e773daed51e33a7d81521bccf082fb5c203058ae1320b83ec391998fb241791f62f
    else if h == 0x6 then 0x764dd68d7844db866a5fcc9b6456c1904e69e2a14060efaa527bf8b75c72f5bc0605bed5080cb3de1a17a4c3141ea9c83e218af9302887f2223390ef2c3a9de4
    else if h == 0x7 then 0x96dd063d98d40b368acf1c2b84c61120aef93211a0f03f1ab2eb2807bce2250ce6956e65e89c636efa877473f48e7978deb15a49d0b85742c2a3405fccaa4d54
    else if h == 0x8 then 0x41ecdaf74fe5d7fc5dfec0e153f7cdea79c8eedb77c1e3d065daf4cd6bd3f9c631a4b2af3fadbfa42db6a8b923bfa5b20980868307898b8815929c951b9b919e
    else if h == 0x9 then 0xa17c0a47af75074cbd6e1051b3671d5a99583e6b97513360854a247d8b432976d134621fdf3d6f14cd267809c32f7502e9105633e7195b38f5024c25fb0b412e
    else if h == 0xa then 0x9ad7618c94de6c8786c57b9a88cc7691a2f355a0acfa58abbee14fb6b0e842bdea9f09d4e49604dff68d13c2f8841ec9d2bb3df8dcb230f3cea927eec0a02ae5
    else if h == 0xb then 0x7a47b13c744ebc376655ab2a685ca621426385104c6a881b5e719f065078920d0a0fd9640406d46f161dc3721814ce79322bed483c22e0432e39f75e2030fa55
    else if h == 0xc then 0xec9ab701e293ba0af088ad17fe81a01cd4be832ddab78e26c8ac993bc6a594309cd2df5992dbd25280c0c54f8ec9c844a4f6eb75aaffe67eb8e4f163b6edfc68
    else if h == 0xd then 0x0c0a67b102036aba10187da71e1170ac342e539d3a275e96283c498b263544807c420fe9724b02e2605015ff6e5918f444663bc54a6f36ce587421d3567d2cd8
    else if h == 0xe then 0x37a10c7a39a801712bb3166c25ba1b670f853856018c355d139722401d9e2f4b47e9642249e069295bfb7e3455f2733f7fcd500e71c45d0563df4a186dd64713
    else 0xd731dccad938d1c1cb23c6dcc52acbd7ef15e8e6e11ce5edf307f2f0fd0efffba779b492a970b999bb6bae84b562a38f9f5d80be91548db5834f9aa88d4697a3
  }

  function U2Row(h: bv8): bv512 {
    if h == 0x0 then 0x000000000b0e090d161c121a1d121b172c38243427362d393a24362e312a3f2358704868537e41654e6c5a724562537f74486c5c7f46655162547e46695a774b
    else if h == 0x1 then 0xb0e090d0bbee99dda6fc82caadf28bc79cd8b4e497d6bde98ac4a6fe81caaff3e890d8b8e39ed1b5fe8ccaa2f582c3afc4a8fc8ccfa6f581d2b4ee96d9bae79b
    else if h == 0x2 then 0x7bdb3bbb70d532b66dc729a166c920ac57e31f8f5ced168241ff0d954af1049823ab73d328a57ade35b761c93eb968c40f9357e7049d5eea198f45fd12814cf0
    else if h == 0x3 then 0xcb3bab6bc035a266dd27b971d629b07ce7038f5fec0d8652f11f9d45fa119448934be3039845ea0e8557f1198e59f814bf73c737b47dce3aa96fd52da261dc20
    else if h == 0x4 then 0xf6ad766dfda37f60e0b16477ebbf6d7ada955259d19b5b54cc894043c787494eaedd3e05a5d33708b8c12c1fb3cf251282e51a3189eb133c94f9082b9ff70126
    else if h == 0x5 then 0x464de6bd4d43efb05051f4a75b5ffdaa6a75c289617bcb847c69d0937767d99e1e3daed51533a7d80821bccf032fb5c232058ae1390b83ec241998fb2f1791f6
    else if h == 0x6 then 0x8d764dd6867844db9b6a5fcc906456c1a14e69e2aa4060efb7527bf8bc5c72f5d50605bede080cb3c31a17a4c8141ea9f93e218af2302887ef223390e42c3a9d
    else if h == 0x7 then 0x3d96dd063698d40b2b8acf1c2084c61111aef9321aa0f03f07b2eb280cbce22565e6956e6ee89c6373fa877478f48e7949deb15a42d0b8575fc2a34054ccaa4d
    else if h == 0x8 then 0xf741ecdafc4fe5d7e15dfec0ea53f7cddb79c8eed077c1e3cd65daf4c66bd3f9af31a4b2a43fadbfb92db6a8b223bfa5830980868807898b9515929c9e1b9b91
    else if h == 0x9 then 0x47a17c0a4caf750751bd6e105ab3671d6b99583e609751337d854a24768b43291fd1346214df3d6f09cd267802c32f7533e9105638e7195b25f5024c2efb0b41
    else if h == 0xa then 0x8c9ad7618794de6c9a86c57b9188cc76a0a2f355abacfa58b6bee14fbdb0e842d4ea9f09dfe49604c2f68d13c9f8841ef8d2bb3df3dcb230eecea927e5c0a02a
    else if h == 0xb then 0x3c7a47b137744ebc2a6655ab21685ca6104263851b4c6a88065e719f0d507892640a0fd96f0406d472161dc3791814ce48322bed433c22e05e2e39f7552030fa
    else if h == 0xc then 0x01ec9ab70ae293ba17f088ad1cfe81a02dd4be8326dab78e3bc8ac9930c6a594599cd2df5292dbd24f80c0c5448ec9c875a4f6eb7eaaffe663b8e4f168b6edfc
    else if h == 0xd then 0xb10c0a67ba02036aa710187dac1e11709d342e53963a275e8b283c4980263544e97c420fe2724b02ff605015f46e5918c544663bce4a6f36d3587421d8567d2c
    else if h == 0xe then 0x7a37a10c7139a8016c2bb3166725ba1b560f85385d018c35401397224b1d9e2f2247e9642949e069345bfb7e3f55f2730e7fcd500571c45d1863df4a136dd647
    else 0xcad731dcc1d938d1dccb23c6d7c52acbe6ef15e8ede11ce5f0f307f2fbfd0eff92a779b499a970b984bb6bae8fb562a3be9f5d80b591548da8834f9aa38d4697
  }

  function U3Row(h: bv8): bv512 {
    if h == 0x0 then 0x000000000d0b0e091a161c12171d121b342c38243927362d2e3a243623312a3f6858704865537e41724e6c5a7f4562535c74486c517f46654662547e4b695a77
    else if h == 0x1 then 0xd0b0e090ddbbee99caa6fc82c7adf28be49cd8b4e997d6bdfe8ac4a6f381caafb8e890d8b5e39ed1a2fe8ccaaff582c38cc4a8fc81cfa6f596d2b4ee9bd9bae7
    else if h == 0x2 then 0xbb7bdb3bb670d532a16dc729ac66c9208f57e31f825ced169541ff0d984af104d323ab73de28a57ac935b761c43eb968e70f9357ea049d5efd198f45f012814c
    else if h == 0x3 then 0x6bcb3bab66c035a271dd27b97cd629b05fe7038f52ec0d8645f11f9d48fa119403934be30e9845ea198557f1148e59f837bf73c73ab47dce2da96fd520a261dc
    else if h == 0x4 then 0x6df6ad7660fda37f77e0b1647aebbf6d59da955254d19b5b43cc89404ec7874905aedd3e08a5d3371fb8c12c12b3cf253182e51a3c89eb132b94f908269ff701
    else if h == 0x5 then 0xbd464de6b04d43efa75051f4aa5b5ffd896a75c284617bcb937c69d09e7767d9d51e3daed81533a7cf0821bcc2032fb5e132058aec390b83fb241998f62f1791
    else if h == 0x6 then 0xd68d764ddb867844cc9b6a5fc1906456e2a14e69efaa4060f8b7527bf5bc5c72bed50605b3de080ca4c31a17a9c8141e8af93e2187f2302890ef22339de42c3a
    else if h == 0x7 then 0x063d96dd0b3698d41c2b8acf112084c63211aef93f1aa0f02807b2eb250cbce26e65e695636ee89c7473fa877978f48e5a49deb15742d0b8405fc2a34d54ccaa
    else if h == 0x8 then 0xdaf741ecd7fc4fe5c0e15dfecdea53f7eedb79c8e3d077c1f4cd65daf9c66bd3b2af31a4bfa43fada8b92db6a5b223bf868309808b8807899c951592919e1b9b
    else if h == 0x9 then 0x0a47a17c074caf751051bd6e1d5ab3673e6b995833609751247d854a29768b43621fd1346f14df3d7809cd267502c32f5633e9105b38e7194c25f502412efb0b
    else if h == 0xa then 0x618c9ad76c8794de7b9a86c5769188cc55a0a2f358abacfa4fb6bee142bdb0e809d4ea9f04dfe49613c2f68d1ec9f8843df8d2bb30f3dcb227eecea92ae5c0a0
    else if h == 0xb then 0xb13c7a47bc37744eab2a6655a621685c85104263881b4c6a9f065e71920d5078d9640a0fd46f0406c372161dce791814ed48322be0433c22f75e2e39fa552030
    else if h == 0xc then 0xb701ec9aba0ae293ad17f088a01cfe81832dd4be8e26dab7993bc8ac9430c6a5df599cd2d25292dbc54f80c0c8448ec9eb75a4f6e67eaafff163b8e4fc68b6ed
    else if h == 0xd then 0x67b10c0a6aba02037da7101870ac1e11539d342e5e963a27498b283c448026350fe97c4202e2724b15ff605018f46e593bc5446636ce4a6f21d358742cd8567d
    else if h == 0xe then 0x0c7a37a1017139a8166c2bb31b6725ba38560f85355d018c224013972f4b1d9e642247e9692949e07e345bfb733f55f2500e7fcd5d0571c44a1863df47136dd6
    else 0xdccad731d1c1d938c6dccb23cbd7c52ae8e6ef15e5ede11cf2f0f307fffbfd0eb492a779b999a970ae84bb6ba38fb56280be9f5d8db591549aa8834f97a38d46
  }

  function U4Row(h: bv8): bv512 {
    if h == 0x0 then 0x00000000090d0b0e121a161c1b171d1224342c382d392736362e3a243f23312a486858704165537e5a724e6c537f45626c5c744865517f467e466254774b695a
    else if h == 0x1 then 0x90d0b0e099ddbbee82caa6fc8bc7adf2b4e49cd8bde997d6a6fe8ac4aff381cad8b8e890d1b5e39ecaa2fe8cc3aff582fc8cc4a8f581cfa6ee96d2b4e79bd9ba
    else if h == 0x2 then 0x3bbb7bdb32b670d529a16dc720ac66c91f8f57e316825ced0d9541ff04984af173d323ab7ade28a561c935b768c43eb957e70f935eea049d45fd198f4cf01281
    else if h == 0x3 then 0xab6bcb3ba266c035b971dd27b07cd6298f5fe7038652ec0d9d45f11f9448fa11e303934bea0e9845f1198557f8148e59c737bf73ce3ab47dd52da96fdc20a261
    else if h == 0x4 then 0x766df6ad7f60fda36477e0b16d7aebbf5259da955b54d19b4043cc89494ec7873e05aedd3708a5d32c1fb8c12512b3cf1a3182e5133c89eb082b94f901269ff7
    else if h == 0x5 then 0xe6bd464defb04d43f4a75051fdaa5b5fc2896a75cb84617bd0937c69d99e7767aed51e3da7d81533bccf0821b5c2032f8ae1320583ec390b98fb241991f62f17
    else if h == 0x6 then 0x4dd68d7644db86785fcc9b6a56c1906469e2a14e60efaa407bf8b75272f5bc5c05bed5060cb3de0817a4c31a1ea9c814218af93e2887f2303390ef223a9de42c
    else if h == 0x7 then 0xdd063d96d40b3698cf1c2b8ac6112084f93211aef03f1aa0eb2807b2e2250cbc956e65e69c636ee8877473fa8e7978f4b15a49deb85742d0a3405fc2aa4d54cc
    else if h == 0x8 then 0xecdaf741e5d7fc4ffec0e15df7cdea53c8eedb79c1e3d077daf4cd65d3f9c66ba4b2af31adbfa43fb6a8b92dbfa5b22380868309898b8807929c95159b919e1b
    else if h == 0x9 then 0x7c0a47a175074caf6e1051bd671d5ab3583e6b99513360974a247d854329768b34621fd13d6f14df267809cd2f7502c3105633e9195b38e7024c25f50b412efb
    else if h == 0xa then 0xd7618c9ade6c8794c57b9a86cc769188f355a0a2fa58abace14fb6bee842bdb09f09d4ea9604dfe48d13c2f6841ec9f8bb3df8d2b230f3dca927eecea02ae5c0
    else if h == 0xb then 0x47b13c7a4ebc377455ab2a665ca62168638510426a881b4c719f065e78920d500fd9640a06d46f041dc3721614ce79182bed483222e0433c39f75e2e30fa5520
    else if h == 0xc then 0x9ab701ec93ba0ae288ad17f081a01cfebe832dd4b78e26daac993bc8a59430c6d2df599cdbd25292c0c54f80c9c8448ef6eb75a4ffe67eaae4f163b8edfc68b6
    else if h == 0xd then 0x0a67b10c036aba02187da7101170ac1e2e539d34275e963a3c498b2835448026420fe97c4b02e2725015ff605918f46e663bc5446f36ce4a7421d3587d2cd856
    else if h == 0xe then 0xa10c7a37a8017139b3166c2bba1b67258538560f8c355d01972240139e2f4b1de9642247e0692949fb7e345bf2733f55cd500e7fc45d0571df4a1863d647136d
    else 0x31dccad738d1c1d923c6dccb2acbd7c515e8e6ef1ce5ede107f2f0f30efffbfd79b492a770b999a96bae84bb62a38fb55d80be9f548db5914f9aa8834697a38d
  }
}
