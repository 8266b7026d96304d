/** Base64 as xyssl's base64.c encodes and decodes it (RFC 1521, section 5.2), line breaks and size reports included. */
module Base64 {

  const BUFFER_TOO_SMALL := -0x0010
  const INVALID_CHARACTER := -0x0012

  const CR: bv8 := 0x0D
  const LF: bv8 := 0x0A
  const PAD: bv8 := 0x3D

  // ----- The alphabet -----

  function EncMap(v: bv8): bv8
    requires v < 64
  {
    if v < 26 then 0x41 + v
    else if v < 52 then 0x61 + (v - 26)
    else if v < 62 then 0x30 + (v - 52)
    else if v == 62 then 0x2B
    else 0x2F
  }

  /** The value of a character: 64 for the pad, 127 for what is no character of the encoding. */
  function DecMap(c: bv8): bv8 {
    if 0x41 <= c <= 0x5A then c - 0x41
    else if 0x61 <= c <= 0x7A then c - 0x61 + 26
    else if 0x30 <= c <= 0x39 then c - 0x30 + 52
    else if c == 0x2B then 62
    else if c == 0x2F then 63
    else if c == PAD then 64
    else 127
  }

  /** The letters, small letters, digits, plus and slash of RFC 1521, in their order. */
  const ALPHABET: seq<bv8> := [
    0x41, 0x42, 0x43, 0x44, 0x45, 0x46, 0x47, 0x48, 0x49, 0x4A, 0x4B, 0x4C, 0x4D, 0x4E, 0x4F, 0x50,
    0x51, 0x52, 0x53, 0x54, 0x55, 0x56, 0x57, 0x58, 0x59, 0x5A, 0x61, 0x62, 0x63, 0x64, 0x65, 0x66,
    0x67, 0x68, 0x69, 0x6A, 0x6B, 0x6C, 0x6D, 0x6E, 0x6F, 0x70, 0x71, 0x72, 0x73, 0x74, 0x75, 0x76,
    0x77, 0x78, 0x79, 0x7A, 0x30, 0x31, 0x32, 0x33, 0x34, 0x35, 0x36, 0x37, 0x38, 0x39, 0x2B, 0x2F
  ]

  lemma EncMapIsAlphabet()
    ensures [EncMap(0), EncMap(1), EncMap(2), EncMap(3), EncMap(4), EncMap(5), EncMap(6), EncMap(7),
             EncMap(8), EncMap(9), EncMap(10), EncMap(11), EncMap(12), EncMap(13), EncMap(14), EncMap(15),
             EncMap(16), EncMap(17), EncMap(18), EncMap(19), EncMap(20), EncMap(21), EncMap(22), EncMap(23),
             EncMap(24), EncMap(25), EncMap(26), EncMap(27), EncMap(28), EncMap(29), EncMap(30), EncMap(31),
             EncMap(32), EncMap(33), EncMap(34), EncMap(35), EncMap(36), EncMap(37), EncMap(38), EncMap(39),
             EncMap(40), EncMap(41), EncMap(42), EncMap(43), EncMap(44), EncMap(45), EncMap(46), EncMap(47),
             EncMap(48), EncMap(49), EncMap(50), EncMap(51), EncMap(52), EncMap(53), EncMap(54), EncMap(55),
             EncMap(56), EncMap(57), EncMap(58), EncMap(59), EncMap(60), EncMap(61), EncMap(62), EncMap(63)] == ALPHABET
  {}

  lemma MapsAreInverse(v: bv8)
    requires v < 64
    ensures DecMap(EncMap(v)) == v && EncMap(v) != PAD && EncMap(v) != CR && EncMap(v) != LF
  {}

  // ----- Three bytes and four values -----

  function V1(c1: bv8): bv8 { (c1 >> 2) & 0x3F }
  function V2(c1: bv8, c2: bv8): bv8 { (((c1 & 3) << 4) + (c2 >> 4)) & 0x3F }
  function V3(c2: bv8, c3: bv8): bv8 { (((c2 & 15) << 2) + (c3 >> 6)) & 0x3F }
  function V4(c3: bv8): bv8 { c3 & 0x3F }

  /** Three bytes and their four values are the same 24 bits. */
  lemma SameBits(c1: bv8, c2: bv8, c3: bv8)
    ensures (c1 as bv32 << 16) | (c2 as bv32 << 8) | c3 as bv32
         == (V1(c1) as bv32 << 18) | (V2(c1, c2) as bv32 << 12) | (V3(c2, c3) as bv32 << 6) | V4(c3) as bv32
  {}

  function Char(v: bv8): bv8 { EncMap(v & 0x3F) }

  /** RFC 1521: 24-bit groups as four characters; a last group of one or two bytes is filled up with pads. */
  function Encode(s: seq<bv8>): seq<bv8> {
    if s == [] then []
    else if |s| == 1 then [Char(V1(s[0])), Char(V2(s[0], 0)), PAD, PAD]
    else if |s| == 2 then [Char(V1(s[0])), Char(V2(s[0], s[1])), Char(V3(s[1], 0)), PAD]
    else [Char(V1(s[0])), Char(V2(s[0], s[1])), Char(V3(s[1], s[2])), Char(V4(s[2]))] + Encode(s[3..])
  }

  function Value(c: bv8): bv8 { DecMap(c) & 0x3F }

  function O1(v1: bv8, v2: bv8): bv8 { (v1 << 2) | (v2 >> 4) }
  function O2(v2: bv8, v3: bv8): bv8 { (v2 << 4) | (v3 >> 2) }
  function O3(v3: bv8, v4: bv8): bv8 { (v3 << 6) | v4 }

  /** The bytes of four characters. */
  function Group(g: seq<bv8>): (b: seq<bv8>)
    requires |g| == 4
    ensures |b| == 3
  {
    [O1(Value(g[0]), Value(g[1])), O2(Value(g[1]), Value(g[2])), O3(Value(g[2]), Value(g[3]))]
  }

  function Pads(u: seq<bv8>): nat { if u == [] then 0 else Pads(u[..|u| - 1]) + if u[|u| - 1] == PAD then 1 else 0 }

  /** The bytes of the first k groups; every pad met so far takes one from what a group yields. */
  function Groups(u: seq<bv8>, k: nat): seq<bv8>
    requires 4 * k <= |u|
  {
    if k == 0 then [] else
      var j := 3 - Pads(u[..4 * k]);
      Groups(u, k - 1) + Group(u[4 * k - 4..4 * k])[..if j > 0 then j else 0]
  }

  function Decoded(u: seq<bv8>): seq<bv8> { Groups(u, |u| / 4) }

  // ----- Line breaks and well-formed text -----

  function Filter(t: seq<bv8>): seq<bv8> {
    if t == [] then [] else
      Filter(t[..|t| - 1]) + if t[|t| - 1] == CR || t[|t| - 1] == LF then [] else [t[|t| - 1]]
  }

  predicate NoLoneCr(t: seq<bv8>) { forall i :: 0 <= i < |t| && t[i] == CR ==> i + 1 < |t| && t[i + 1] == LF }

  /** Characters of the alphabet, then at most two pads. */
  predicate Ok(u: seq<bv8>) {
    u == [] ||
    var front, c := u[..|u| - 1], u[|u| - 1];
    Ok(front) && if c == PAD then Pads(front) < 2 else DecMap(c) < 64 && Pads(front) == 0
  }

  predicate WellFormed(t: seq<bv8>) { NoLoneCr(t) && Ok(Filter(t)) }

  // ----- Decoding what was encoded -----

  lemma OctetsOfValues(c1: bv8, c2: bv8, c3: bv8)
    ensures V1(c1) < 64 && V2(c1, c2) < 64 && V3(c2, c3) < 64 && V4(c3) < 64
    ensures O1(V1(c1), V2(c1, c2)) == c1 && O2(V2(c1, c2), V3(c2, c3)) == c2 && O3(V3(c2, c3), V4(c3)) == c3
  {}

  lemma CharValue(v: bv8)
    requires v < 64
    ensures Value(Char(v)) == v && DecMap(Char(v)) < 64 && Char(v) != PAD && Char(v) != CR && Char(v) != LF
  {
    MapsAreInverse(v);
  }

  /** Encoding goes three bytes at a time. */
  lemma {:induction false} EncodeConcat(a: seq<bv8>, b: seq<bv8>)
    requires |a| % 3 == 0
    ensures Encode(a + b) == Encode(a) + Encode(b)
  {
    hide Char, V1, V2, V3, V4;
    if a == [] {
      assert a + b == b;
    } else {
      EncodeConcat(a[3..], b);
      FirstThree(a, b);
      Regroup(Encode(a)[..4], Encode(a[3..]), Encode(b));
    }
  }

  lemma FirstThree<T>(a: seq<T>, b: seq<T>)
    requires |a| >= 3
    ensures (a + b)[3..] == a[3..] + b && (a + b)[0] == a[0] && (a + b)[1] == a[1] && (a + b)[2] == a[2]
  {}

  lemma Regroup<T>(a: seq<T>, b: seq<T>, c: seq<T>)
    ensures a + b + c == a + (b + c)
  {}

  lemma PadsConcat(u: seq<bv8>, w: seq<bv8>)
    ensures Pads(u + w) == Pads(u) + Pads(w)
  {
    if w == [] {
      assert u + w == u;
    } else {
      PadsConcat(u, w[..|w| - 1]);
      assert (u + w)[..|u + w| - 1] == u + w[..|w| - 1];
    }
  }

  lemma {:induction false} GroupsOfPrefix(u: seq<bv8>, w: seq<bv8>, k: nat)
    requires 4 * k <= |u|
    ensures Groups(u + w, k) == Groups(u, k)
  {
    hide Group, Pads;
    if k > 0 {
      GroupsOfPrefix(u, w, k - 1);
      PartOfFront(u, w, 0, 4 * k);
      PartOfFront(u, w, 4 * k - 4, 4 * k);
    }
  }

  lemma PartOfFront<T>(u: seq<T>, w: seq<T>, i: nat, j: nat)
    requires i <= j <= |u|
    ensures (u + w)[i..j] == u[i..j] && (i == 0 ==> (u + w)[..j] == u[..j])
  {}

  /** One more character of the alphabet, or pad. */
  lemma OkSnoc(u: seq<bv8>, c: bv8)
    ensures Ok(u + [c]) <==> Ok(u) && if c == PAD then Pads(u) < 2 else DecMap(c) < 64 && Pads(u) == 0
    ensures Pads(u + [c]) == Pads(u) + if c == PAD then 1 else 0
  {
    assert (u + [c])[..|u|] == u;
  }

  lemma OkFour(u: seq<bv8>, g: seq<bv8>)
    requires Ok(u) && Pads(u) == 0 && |g| == 4 && DecMap(g[0]) < 64 && DecMap(g[1]) < 64
    requires g[3] == PAD || (DecMap(g[3]) < 64 && g[2] != PAD)
    requires g[2] == PAD || DecMap(g[2]) < 64
    ensures Ok(u + g) && Pads(u + g) == (if g[2] == PAD then 2 else if g[3] == PAD then 1 else 0)
  {
    hide DecMap;
    assert DecMap(PAD) == 64 by { PadValue(); }
    var u1 := u + [g[0]];
    var u2 := u1 + [g[1]];
    var u3 := u2 + [g[2]];
    OkSnoc(u, g[0]);
    OkSnoc(u1, g[1]);
    OkSnoc(u2, g[2]);
    OkSnoc(u3, g[3]);
    hide Ok, Pads;
    OneByOne(u, g);
  }

  lemma OneByOne<T>(u: seq<T>, g: seq<T>)
    requires |g| == 4
    ensures u + g == u + [g[0]] + [g[1]] + [g[2]] + [g[3]]
  {}

  lemma PadValue()
    ensures DecMap(PAD) == 64
  {}

  /** Text without line breaks. */
  predicate OneLine(t: seq<bv8>) { forall i :: 0 <= i < |t| ==> t[i] != CR && t[i] != LF }

  /** What one to three bytes are encoded as, and decoded from. */
  lemma LastGroup(b: seq<bv8>)
    requires 1 <= |b| <= 3
    ensures var g := Encode(b);
            && |g| == 4 && DecMap(g[0]) < 64 && DecMap(g[1]) < 64
            && (if |b| == 1 then g[2] == PAD else DecMap(g[2]) < 64 && g[2] != PAD)
            && (if |b| < 3 then g[3] == PAD else DecMap(g[3]) < 64 && g[3] != PAD)
            && OneLine(g) && Group(g)[..|b|] == b
  {
    hide Char, Value, DecMap, V1, V2, V3, V4, O1, O2, O3;
    var c1, c2, c3 := b[0], if |b| > 1 then b[1] else 0, if |b| > 2 then b[2] else 0;
    OctetsOfValues(c1, c2, c3);
    CharValue(V1(c1));
    CharValue(V2(c1, c2));
    CharValue(V3(c2, c3));
    CharValue(V4(c3));
    assert Encode([]) == [];
  }

  lemma EncodeNothing()
    ensures Encode([]) == [] && Decoded([]) == [] && Ok([]) && Pads([]) == 0
  {}

  /** The encoding is well-formed, of the length reported, and decodes to the bytes. */
  lemma {:induction false} EncodingDecodes(s: seq<bv8>)
    ensures |Encode(s)| == 4 * ((|s| + 2) / 3) && Ok(Encode(s)) && Decoded(Encode(s)) == s
    ensures Pads(Encode(s)) == (if |s| % 3 == 0 then 0 else 3 - |s| % 3)
    ensures OneLine(Encode(s))
    decreases |s|
  {
    hide DecMap, Encode, Decoded, Group, Ok, Pads;
    EncodeNothing();
    if s != [] {
      var n := (|s| - 1) / 3;
      var a, b := s[..3 * n], s[3 * n..];
      assert s == a + b;
      EncodingDecodes(a);
      LastGroup(b);
      EncodeConcat(a, b);
      var u, g := Encode(a), Encode(b);
      OkFour(u, g);
      OneMoreGroup(u, g, n);
    }
  }

  lemma OneMoreGroup(u: seq<bv8>, g: seq<bv8>, n: nat)
    requires |u| == 4 * n && |g| == 4 && Pads(u + g) <= 2
    ensures Decoded(u + g) == Decoded(u) + Group(g)[..3 - Pads(u + g)]
  {
    hide Group, Pads, Groups;
    GroupsOfPrefix(u, g, n);
    Parts(u, g);
    GroupsOneMore(u + g, n + 1);
  }

  lemma Parts<T>(u: seq<T>, g: seq<T>)
    ensures (u + g)[|u|..|u| + |g|] == g && (u + g)[..|u| + |g|] == u + g
  {}

  lemma {:induction false} FilterKeeps(t: seq<bv8>)
    requires OneLine(t)
    ensures Filter(t) == t
  {
    if t != [] { FilterKeeps(t[..|t| - 1]); }
  }

  lemma {:induction false} FilterConcat(t: seq<bv8>, w: seq<bv8>)
    ensures Filter(t + w) == Filter(t) + Filter(w)
  {
    if w == [] {
      assert t + w == t;
    } else {
      FilterConcat(t, w[..|w| - 1]);
      assert (t + w)[..|t + w| - 1] == t + w[..|w| - 1];
    }
  }

  /** An encoding with LF or CR LF put in anywhere decodes to the bytes encoded. */
  lemma BrokenTextDecodes(s: seq<bv8>, t: seq<bv8>)
    requires NoLoneCr(t) && Filter(t) == Encode(s)
    ensures WellFormed(t) && Decoded(Filter(t)) == s
  {
    EncodingDecodes(s);
  }

  /** Putting a line break into a text, though not between a CR and its LF, keeps it one to which the last lemma applies. */
  lemma BreakInserted(t: seq<bv8>, i: nat, b: seq<bv8>)
    requires NoLoneCr(t) && i <= |t| && (b == [LF] || b == [CR, LF]) && (i > 0 ==> t[i - 1] != CR)
    ensures NoLoneCr(t[..i] + b + t[i..]) && Filter(t[..i] + b + t[i..]) == Filter(t)
  {
    assert t[..i] + t[i..] == t;
    FilterConcat(t[..i], t[i..]);
    FilterConcat(t[..i], b);
    FilterConcat(t[..i] + b, t[i..]);
    BreakIsFiltered(b);
    CrsKeepTheirLfs(t, i, b);
  }

  lemma CrsKeepTheirLfs(t: seq<bv8>, i: nat, b: seq<bv8>)
    requires NoLoneCr(t) && i <= |t| && (b == [LF] || b == [CR, LF]) && (i > 0 ==> t[i - 1] != CR)
    ensures NoLoneCr(t[..i] + b + t[i..])
  {
    var w := t[..i] + b + t[i..];
    forall k | 0 <= k < |w| && w[k] == CR ensures k + 1 < |w| && w[k + 1] == LF {
      if k < i {
        assert t[k] == CR;
      } else if k >= i + |b| {
        assert w[k] == t[k - |b|];
      }
    }
  }

  lemma BreakIsFiltered(b: seq<bv8>)
    requires b == [LF] || b == [CR, LF]
    ensures Filter(b) == []
  {
    var none: seq<bv8> := [];
    assert Filter(none) == [];
    assert [CR][..0] == none && [LF][..0] == none;
    assert Filter([CR]) == [] && Filter([LF]) == [];
    assert [CR, LF][..1] == [CR];
  }

  // ----- Which texts are encodings -----

  /** What of the last group's bits no byte takes is zero. */
  predicate NothingUnderPads(u: seq<bv8>)
    requires |u| >= 4
  {
    if Pads(u) == 2 then Value(u[|u| - 3]) & 15 == 0 else if Pads(u) == 1 then Value(u[|u| - 2]) & 3 == 0 else true
  }

  /** A text is an encoding exactly if it is well-formed, of whole groups, and has no bits under its pads. */
  lemma {:induction false} EncodedExactly(u: seq<bv8>)
    ensures Encode(Decoded(u)) == u <==> Ok(u) && |u| % 4 == 0 && (u != [] ==> NothingUnderPads(u))
  {
    hide Ok, Pads, Encode, Decoded, NothingUnderPads;
    EncodingDecodes(Decoded(u));
    EncodeNothing();
    if u != [] && Ok(u) && |u| % 4 == 0 {
      var n := |u| / 4 - 1;
      var front, g := u[..4 * n], u[4 * n..];
      assert u == front + g;
      OkFourOnly(front, g);
      PadsOfGroup(front, g);
      PlainGroups(front);
      OneMoreGroup(front, g, n);
      EncodeConcat(Decoded(front), Group(g)[..3 - Pads(u)]);
      GroupEncodes(g, Pads(u));
      LastBits(front, g);
      SameFront(front, Encode(Group(g)[..3 - Pads(u)]), g);
    }
  }

  lemma SameFront<T>(a: seq<T>, b: seq<T>, c: seq<T>)
    ensures a + b == a + c <==> b == c
  {
    assert (a + b)[|a|..] == b && (a + c)[|a|..] == c;
  }

  lemma LastBits(u: seq<bv8>, g: seq<bv8>)
    requires |g| == 4
    ensures NothingUnderPads(u + g) <==>
              if Pads(u + g) == 2 then Value(g[1]) & 15 == 0 else if Pads(u + g) == 1 then Value(g[2]) & 3 == 0 else true
  {
    hide Pads, Value;
  }

  /** A last group has no pad before it, and pads in its last two places only. */
  lemma OkFourOnly(u: seq<bv8>, g: seq<bv8>)
    requires Ok(u + g) && |g| == 4
    ensures Ok(u) && Pads(u) == 0 && DecMap(g[0]) < 64 && DecMap(g[1]) < 64
    ensures (g[2] == PAD || DecMap(g[2]) < 64) && (g[3] == PAD || (DecMap(g[3]) < 64 && g[2] != PAD))
  {
    hide DecMap;
    var u1 := u + [g[0]];
    var u2 := u1 + [g[1]];
    var u3 := u2 + [g[2]];
    OkSnoc(u, g[0]);
    OkSnoc(u1, g[1]);
    OkSnoc(u2, g[2]);
    OkSnoc(u3, g[3]);
    hide Ok, Pads;
    OneByOne(u, g);
  }

  lemma PadsOfGroup(u: seq<bv8>, g: seq<bv8>)
    requires Ok(u + g) && |g| == 4
    ensures Pads(u + g) == if g[2] == PAD then 2 else if g[3] == PAD then 1 else 0
  {
    hide Ok, Pads, DecMap;
    OkFourOnly(u, g);
    OkFour(u, g);
  }

  /** Groups without pads are an encoding, of three bytes each. */
  lemma {:induction false} PlainGroups(u: seq<bv8>)
    requires Ok(u) && Pads(u) == 0 && |u| % 4 == 0
    ensures Encode(Decoded(u)) == u && |Decoded(u)| % 3 == 0
    decreases |u|
  {
    hide Ok, Pads, Encode, Decoded, Group, DecMap;
    EncodeNothing();
    if u != [] {
      var n := |u| / 4 - 1;
      var front, g := u[..4 * n], u[4 * n..];
      assert u == front + g;
      OkFourOnly(front, g);
      PadsOfGroup(front, g);
      PlainGroups(front);
      OneMoreGroup(front, g, n);
      GroupEncodes(g, 0);
      EncodeConcat(Decoded(front), Group(g)[..3]);
    }
  }

  lemma CharOfValue(c: bv8)
    requires DecMap(c) < 64
    ensures Value(c) < 64 && Char(Value(c)) == c
  {}

  lemma ValuesOfOctets(v1: bv8, v2: bv8, v3: bv8, v4: bv8)
    requires v1 < 64 && v2 < 64 && v3 < 64 && v4 < 64
    ensures V1(O1(v1, v2)) == v1 && V2(O1(v1, v2), O2(v2, v3)) == v2
    ensures V3(O2(v2, v3), O3(v3, v4)) == v3 && V4(O3(v3, v4)) == v4
    ensures V2(O1(v1, v2), 0) == v2 & 0x30 && V3(O2(v2, v3), 0) == v3 & 0x3C
    ensures (v2 & 0x30 == v2 <==> v2 & 15 == 0) && (v3 & 0x3C == v3 <==> v3 & 3 == 0)
  {}

  /** A group is what its bytes are encoded as, exactly if it has no bits under its pads. */
  lemma GroupEncodes(g: seq<bv8>, pads: nat)
    requires |g| == 4 && DecMap(g[0]) < 64 && DecMap(g[1]) < 64 && pads <= 2
    requires if pads == 2 then g[2] == PAD else DecMap(g[2]) < 64
    requires if pads > 0 then g[3] == PAD else DecMap(g[3]) < 64
    ensures Encode(Group(g)[..3 - pads]) == g <==>
              if pads == 2 then Value(g[1]) & 15 == 0 else if pads == 1 then Value(g[2]) & 3 == 0 else true
  {
    hide Char, Value, DecMap, V1, V2, V3, V4, O1, O2, O3;
    var v1, v2, v3, v4 := Value(g[0]), Value(g[1]), Value(g[2]), Value(g[3]);
    CharOfValue(g[0]);
    CharOfValue(g[1]);
    if pads < 2 { CharOfValue(g[2]); }
    if pads < 1 { CharOfValue(g[3]); }
    ValueIsSmall(g[2]);
    ValueIsSmall(g[3]);
    ValuesOfOctets(v1, v2, v3, v4);
    SameCharSameValue(v2 & 0x30, v2);
    SameCharSameValue(v3 & 0x3C, v3);
    EncodeNothing();
    assert Encode([]) == [];
  }

  lemma SameCharSameValue(v: bv8, w: bv8)
    requires w < 64 && v <= w
    ensures Char(v) == Char(w) <==> v == w
  {
    CharValue(v);
    CharValue(w);
  }

  /** What an incomplete last group holds is lost. */
  lemma HalfAGroupIsLost()
    ensures Ok([0x51, 0x51]) && Decoded([0x51, 0x51]) == []
  {
    hide Ok, Pads, Groups, DecMap, Group, Encode;
    var none: seq<bv8> := [];
    EncodeNothing();
    FirstOfGroup();
    var one := none + [0x51];
    OkSnoc(none, 0x51);
    OkSnoc(one, 0x51);
    assert one + [0x51] == [0x51, 0x51];
    NoGroups([0x51, 0x51]);
  }

  lemma NoGroups(u: seq<bv8>)
    ensures Groups(u, 0) == []
  {}

  /** And so is what stands under pads: QR== decodes as QQ== does. */
  lemma BitsUnderPadsAreLost()
    ensures Ok([0x51, 0x52, PAD, PAD]) && Decoded([0x51, 0x52, PAD, PAD]) == [0x41]
    ensures Encode([0x41]) == [0x51, 0x51, PAD, PAD]
  {
    hide Ok, Pads, DecMap, Encode, Group, Decoded;
    var g := [0x51, 0x52, PAD, PAD];
    EncodeNothing();
    FirstOfGroup();
    OkFour([], g);
    OneMoreGroup([], g, 0);
    assert [] + g == g;
  }

  lemma FirstOfGroup()
    ensures DecMap(0x51) == 16 && DecMap(0x52) == 17 && Group([0x51, 0x52, PAD, PAD])[..1] == [0x41]
    ensures Encode([0x41]) == [0x51, 0x51, PAD, PAD]
  {}

  // ----- base64_encode -----

  /** The size worked out from the bits of the input. */
  method EncodedSize(slen: nat) returns (n: nat)
    ensures n == 4 * ((slen + 2) / 3)
  {
    n := 8 * slen / 6;
    var rest := 8 * slen - n * 6;
    if rest == 2 { n := n + 3; } else if rest == 4 { n := n + 2; }
  }

  method Base64Encode(dst: array<bv8>, dlen: int, src: array<bv8>, slen: nat) returns (ret: int, dlen': int)
    requires slen <= src.Length && slen < 0x1000_0000 && dlen <= dst.Length && dst != src
    modifies dst
    ensures slen == 0 ==> ret == 0 && dlen' == dlen && dst[..] == old(dst[..])
    ensures slen > 0 && dlen < |Encode(src[..slen])| + 1 ==>
              ret == BUFFER_TOO_SMALL && dlen' == |Encode(src[..slen])| + 1 && dst[..] == old(dst[..])
    ensures slen > 0 && dlen >= |Encode(src[..slen])| + 1 ==>
              && ret == 0 && dlen' == |Encode(src[..slen])| && dst[..dlen'] == Encode(src[..slen]) && dst[dlen'] == 0
              && dst[dlen' + 1..] == old(dst[dlen' + 1..])
  {
    hide Encode, Ok, Pads, Decoded;
    if slen == 0 { return 0, dlen; }
    EncodingDecodes(src[..slen]);
    var n := EncodedSize(slen);
    if dlen < n + 1 { return BUFFER_TOO_SMALL, n + 1; }
    var p := EncodeBytes(dst, src, slen);
    dlen' := p;
    dst[p] := 0;
    return 0, dlen';
  }

  method EncodeBytes(dst: array<bv8>, src: array<bv8>, slen: nat) returns (p: nat)
    requires 0 < slen <= src.Length && 4 * ((slen + 2) / 3) < dst.Length && dst != src
    modifies dst
    ensures p == 4 * ((slen + 2) / 3) && dst[..p] == Encode(src[..slen])
    ensures dst[p..] == old(dst[p..])
  {
    hide Encode, Char, V1, V2, V3, V4;
    ghost var start, s := dst[..], src[..];
    var n := slen / 3 * 3;
    var i := 0;
    p := 0;
    EncodeNothing();
    ghost var k := 0;
    assert s[..0] == [] && dst[..0] == [];
    while i < n
      invariant 0 <= k <= slen / 3 && i == 3 * k && p == 4 * k
      invariant dst[..p] == Encode(s[..i]) && dst[p..] == start[p..]
    {
      FourFewer(start, p);
      var c1, c2, c3 := src[i], src[i + 1], src[i + 2];
      EncodeThree(s, i);
      PutFour(dst, p, Char(V1(c1)), Char(V2(c1, c2)), Char(V3(c2, c3)), Char(V4(c3)));
      assert dst[..p + 4] == Encode(s[..i + 3]);
      i, p, k := i + 3, p + 4, k + 1;
    }
    if i < slen {
      var c1 := src[i];
      var c2 := if i + 1 < slen then src[i + 1] else 0;
      EncodeRest(s, i, slen);
      FourFewer(start, p);
      PutFour(dst, p, Char(V1(c1)), Char(V2(c1, c2)), if i + 1 < slen then Char(V3(c2, 0)) else PAD, PAD);
      p := p + 4;
    }
  }

  method PutFour(dst: array<bv8>, p: nat, a: bv8, b: bv8, c: bv8, d: bv8)
    requires p + 4 <= dst.Length
    modifies dst
    ensures dst[..p + 4] == old(dst[..p]) + [a, b, c, d] && dst[p + 4..] == old(dst[p..])[4..]
  {
    dst[p], dst[p + 1], dst[p + 2], dst[p + 3] := a, b, c, d;
  }

  lemma FourFewer<T>(s: seq<T>, p: nat)
    requires p + 4 <= |s|
    ensures s[p..][4..] == s[p + 4..]
  {}

  lemma EncodeThree(src: seq<bv8>, i: nat)
    requires i + 3 <= |src| && i % 3 == 0
    ensures Encode(src[..i + 3]) == Encode(src[..i])
              + [Char(V1(src[i])), Char(V2(src[i], src[i + 1])), Char(V3(src[i + 1], src[i + 2])), Char(V4(src[i + 2]))]
  {
    hide Char, V1, V2, V3, V4;
    EncodeConcat(src[..i], src[i..i + 3]);
    assert src[..i] + src[i..i + 3] == src[..i + 3] && src[i..i + 3][3..] == [];
  }

  lemma EncodeRest(src: seq<bv8>, i: nat, slen: nat)
    requires i < slen <= |src| && slen < i + 3 && i % 3 == 0
    ensures Encode(src[..slen]) == Encode(src[..i])
              + [Char(V1(src[i])), Char(V2(src[i], if i + 1 < slen then src[i + 1] else 0)),
                 if i + 1 < slen then Char(V3(src[i + 1], 0)) else PAD, PAD]
  {
    hide Char, V1, V2, V3, V4;
    EncodeConcat(src[..i], src[i..slen]);
    assert src[..i] + src[i..slen] == src[..slen];
  }

  // ----- base64_decode -----

  lemma {:induction false} OkOfPrefix(u: seq<bv8>, w: seq<bv8>)
    requires Ok(u + w)
    ensures Ok(u)
  {
    hide DecMap;
    if w == [] {
      assert u + w == u;
    } else {
      assert (u + w)[..|u + w| - 1] == u + w[..|w| - 1];
      OkOfPrefix(u, w[..|w| - 1]);
    }
  }

  /** A text is refused when any of its first parts is. */
  lemma RefusedAt(t: seq<bv8>, i: nat)
    requires i <= |t| && !Ok(Filter(t[..i]))
    ensures !WellFormed(t)
  {
    hide Ok;
    assert t[..i] + t[i..] == t;
    FilterConcat(t[..i], t[i..]);
    if Ok(Filter(t)) { OkOfPrefix(Filter(t[..i]), Filter(t[i..])); }
  }

  lemma FilterSnoc(t: seq<bv8>, i: nat)
    requires i < |t|
    ensures Filter(t[..i + 1]) == if t[i] == CR || t[i] == LF then Filter(t[..i]) else Filter(t[..i]) + [t[i]]
  {
    assert t[..i + 1][..i] == t[..i];
  }

  /** Counts the characters, and refuses what is not well-formed. */
  method Scan(src: array<bv8>, slen: nat) returns (ok: bool, n: nat)
    requires slen <= src.Length
    ensures ok <==> WellFormed(src[..slen])
    ensures ok ==> n == |Filter(src[..slen])|
  {
    hide Ok, Filter, Pads, DecMap;
    ghost var t := src[..slen];
    var i, j := 0, 0;
    n := 0;
    ScanNothing(t);
    while i < slen
      invariant 0 <= i <= slen && n == |Filter(t[..i])| && j == Pads(Filter(t[..i])) && Ok(Filter(t[..i]))
      invariant forall k :: 0 <= k < i && t[k] == CR ==> k + 1 < slen && t[k + 1] == LF
    {
      FilterSnoc(t, i);
      if slen - i >= 2 && src[i] == CR && src[i + 1] == LF {
        i := i + 1;
        continue;
      }
      if src[i] == LF {
        i := i + 1;
        continue;
      }
      OkSnoc(Filter(t[..i]), src[i]);
      CharKinds(src[i]);
      if src[i] == PAD {
        j := j + 1;
        if j > 2 { RefusedAt(t, i + 1); return false, n; }
      }
      if src[i] > 127 || DecMap(src[i]) == 127 {
        if src[i] != CR { RefusedAt(t, i + 1); }
        return false, n;
      }
      if DecMap(src[i]) < 64 && j != 0 { RefusedAt(t, i + 1); return false, n; }
      n := n + 1;
      i := i + 1;
    }
    assert t[..slen] == t;
    return true, n;
  }

  lemma ScanNothing(t: seq<bv8>)
    ensures Filter(t[..0]) == [] && Pads([]) == 0 && Ok([])
  {}

  lemma CharKinds(c: bv8)
    ensures DecMap(c) < 64 || DecMap(c) == 64 || DecMap(c) == 127
    ensures DecMap(c) == 64 <==> c == PAD
    ensures c > 127 || c == CR || c == LF ==> DecMap(c) == 127
  {}

  function ShiftIn(x: bv32, v: bv8): bv32 { (x << 6) | (v as bv32) }

  function Out(x: bv32, shift: nat): bv8
    requires shift == 0 || shift == 8 || shift == 16
  {
    ((if shift == 16 then x >> 16 else if shift == 8 then x >> 8 else x) & 0xFF) as bv8
  }

  /** Whatever was shifted in before, the last four values decide the low 24 bits. */
  lemma FourShifted(x: bv32, v1: bv8, v2: bv8, v3: bv8, v4: bv8)
    requires v1 < 64 && v2 < 64 && v3 < 64 && v4 < 64
    ensures var y := ShiftIn(ShiftIn(ShiftIn(ShiftIn(x, v1), v2), v3), v4);
            Out(y, 16) == O1(v1, v2) && Out(y, 8) == O2(v2, v3) && Out(y, 0) == O3(v3, v4)
  {}

  /** The accumulator once the last characters have been shifted in. */
  function ShiftAll(x: bv32, g: seq<bv8>): bv32 {
    if g == [] then x else ShiftIn(ShiftAll(x, g[..|g| - 1]), Value(g[|g| - 1]))
  }

  lemma ShiftOneMore(x: bv32, g: seq<bv8>, k: nat)
    requires k < |g|
    ensures ShiftAll(x, g[..k + 1]) == ShiftIn(ShiftAll(x, g[..k]), Value(g[k]))
  {
    hide ShiftIn, Value;
    Prefix(g, k);
  }

  lemma Prefix<T>(g: seq<T>, k: nat)
    requires k < |g|
    ensures g[..k + 1][..k] == g[..k] && g[..k + 1][k] == g[k]
  {}

  lemma GroupShifted(x: bv32, g: seq<bv8>)
    requires |g| == 4
    ensures var y := ShiftAll(x, g); Group(g) == [Out(y, 16), Out(y, 8), Out(y, 0)]
  {
    hide ShiftIn, Value, Out, O1, O2, O3;
    assert g[..4] == g && g[..0] == [];
    ShiftOneMore(x, g, 0);
    ShiftOneMore(x, g, 1);
    ShiftOneMore(x, g, 2);
    ShiftOneMore(x, g, 3);
    hide ShiftAll;
    ValueIsSmall(g[0]);
    ValueIsSmall(g[1]);
    ValueIsSmall(g[2]);
    ValueIsSmall(g[3]);
    FourShifted(x, Value(g[0]), Value(g[1]), Value(g[2]), Value(g[3]));
  }

  lemma ValueIsSmall(c: bv8)
    ensures Value(c) < 64
  {}

  lemma GroupsLength(u: seq<bv8>, k: nat)
    requires 4 * k <= |u|
    ensures |Groups(u, k)| <= 3 * k
  {
    hide Group, Pads;
    if k > 0 { GroupsLength(u, k - 1); }
  }

  method Base64Decode(dst: array<bv8>, dlen: int, src: array<bv8>, slen: nat) returns (ret: int, dlen': int)
    requires slen <= src.Length && dlen <= dst.Length && dst != src
    modifies dst
    ensures var t := src[..slen];
            var u := Filter(t);
            var need := (6 * |u| + 7) / 8;
            if !WellFormed(t) then ret == INVALID_CHARACTER && dlen' == dlen && dst[..] == old(dst[..])
            else if u == [] then ret == 0 && dlen' == dlen && dst[..] == old(dst[..])
            else if dlen < need then ret == BUFFER_TOO_SMALL && dlen' == need && dst[..] == old(dst[..])
            else ret == 0 && dlen' == |Decoded(u)| && 0 <= dlen' <= dlen && dst[..dlen'] == Decoded(u)
                 && dst[dlen'..] == old(dst[dlen'..])
  {
    hide WellFormed, Filter, Decoded;
    var ok, n := Scan(src, slen);
    if !ok { return INVALID_CHARACTER, dlen; }
    if n == 0 { return 0, dlen; }
    n := (n * 6 + 7) / 8;
    if dlen < n { return BUFFER_TOO_SMALL, n; }
    dlen' := DecodeBytes(dst, src, slen);
    return 0, dlen';
  }

  /** What the second loop has come to after `cnt` characters of the text u. */
  ghost predicate Decoding(u: seq<bv8>, cnt: nat, out: seq<bv8>, x: bv32, x0: bv32, j: int, n: nat) {
    && cnt <= |u| && n == cnt % 4 && j == 3 - Pads(u[..cnt])
    && out == Groups(u, cnt / 4) && x == ShiftAll(x0, u[cnt - n..cnt])
  }

  lemma DecodingStarts(u: seq<bv8>, x: bv32)
    ensures Decoding(u, 0, [], x, x, 3, 0)
  {
    assert u[..0] == [] && u[0..0] == [];
  }

  lemma DecodingStep(u: seq<bv8>, cnt: nat, out: seq<bv8>, x: bv32, x0: bv32, j: int, n: nat)
    requires Decoding(u, cnt, out, x, x0, j, n) && cnt < |u|
    ensures var j', x' := if u[cnt] == PAD then j - 1 else j, ShiftIn(x, Value(u[cnt]));
            var b := [Out(x', 16), Out(x', 8), Out(x', 0)];
            if n < 3 then Decoding(u, cnt + 1, out, x', x0, j', n + 1)
            else j' <= 3 && Decoding(u, cnt + 1, out + b[..if j' > 0 then j' else 0], x', x', j', 0)
  {
    hide ShiftIn, Value, Out, Group, Groups, ShiftAll, Pads;
    PadsOfPrefix(u, cnt);
    var g := u[cnt - n..cnt + 1];
    WithNext(u, cnt - n, cnt);
    ShiftOneMore(x0, g, n);
    WholeOf(g);
    if n == 3 {
      GroupShifted(x0, g);
      StartOver(u, cnt + 1, ShiftIn(x, Value(u[cnt])));
      GroupsOneMore(u, cnt / 4 + 1);
    }
  }

  lemma WithNext<T>(u: seq<T>, i: nat, j: nat)
    requires i <= j < |u|
    ensures u[i..j + 1][..j - i] == u[i..j] && u[i..j + 1][j - i] == u[j]
  {}

  lemma WholeOf<T>(g: seq<T>)
    ensures g[..|g|] == g
  {}

  lemma PadsOfPrefix(u: seq<bv8>, k: nat)
    requires k < |u|
    ensures Pads(u[..k + 1]) == Pads(u[..k]) + if u[k] == PAD then 1 else 0
  {
    Prefix(u, k);
  }

  lemma StartOver(u: seq<bv8>, k: nat, x: bv32)
    requires k <= |u|
    ensures ShiftAll(x, u[k..k]) == x
  {}

  lemma GroupsOneMore(u: seq<bv8>, m: nat)
    requires 0 < m && 4 * m <= |u|
    ensures var j := 3 - Pads(u[..4 * m]);
            Groups(u, m) == Groups(u, m - 1) + Group(u[4 * m - 4..4 * m])[..if j > 0 then j else 0]
  {
    hide Group, Pads;
  }

  lemma DecodingLength(u: seq<bv8>, cnt: nat, out: seq<bv8>, x: bv32, x0: bv32, j: int, n: nat)
    requires Decoding(u, cnt, out, x, x0, j, n)
    ensures |out| <= 3 * (cnt / 4) && n == cnt % 4
    ensures cnt == |u| ==> out == Decoded(u)
  {
    hide Groups;
    GroupsLength(u, cnt / 4);
  }

  lemma FilterOfPrefix(t: seq<bv8>, i: nat)
    requires i < |t|
    ensures var u, a := Filter(t), Filter(t[..i]);
            && |a| <= |u| && a == u[..|a|]
            && (t[i] != CR && t[i] != LF ==> |a| < |u| && u[|a|] == t[i] && Filter(t[..i + 1]) == u[..|a| + 1])
            && (t[i] == CR || t[i] == LF ==> Filter(t[..i + 1]) == a)
  {
    hide Filter;
    FilterSnoc(t, i);
    FilterConcat(t[..i], t[i..]);
    FilterConcat(t[..i + 1], t[i + 1..]);
    assert t[..i] + t[i..] == t == t[..i + 1] + t[i + 1..];
  }

  /** The second loop: four values at a time, as many bytes of them as pads allow. */
  method DecodeBytes(dst: array<bv8>, src: array<bv8>, slen: nat) returns (p: nat)
    requires slen <= src.Length && dst != src
    requires (6 * |Filter(src[..slen])| + 7) / 8 <= dst.Length
    modifies dst
    ensures p <= (6 * |Filter(src[..slen])| + 7) / 8 && dst[..p] == Decoded(Filter(src[..slen])) && dst[p..] == old(dst[p..])
  {
    hide Filter, Decoded, Decoding, DecMap, ShiftIn, Out;
    ghost var t := src[..slen];
    ghost var u := Filter(t);
    var i, j, n, x: bv32 := 0, 3, 0, 0;
    p := 0;
    ghost var x0, cnt := x, 0;
    ScanNothing(t);
    DecodingStarts(u, x);
    assert dst[..0] == [];
    while i < slen
      invariant 0 <= i <= slen && 0 <= n < 4 && cnt == |Filter(t[..i])| <= |u|
      invariant p <= dst.Length && Decoding(u, cnt, dst[..p], x, x0, j, n)
      invariant dst[p..] == old(dst[p..])
    {
      FilterOfPrefix(t, i);
      if src[i] == CR || src[i] == LF {
        i := i + 1;
        continue;
      }
      DecodingStep(u, cnt, dst[..p], x, x0, j, n);
      DecodingLength(u, cnt, dst[..p], x, x0, j, n);
      CharKinds(src[i]);
      j := j - if DecMap(src[i]) == 64 then 1 else 0;
      x := ShiftIn(x, Value(src[i]));
      n := n + 1;
      cnt := cnt + 1;
      if n == 4 {
        n := 0;
        x0 := x;
        assert p + 3 <= dst.Length;
        p := PutGroup(dst, p, j, x);
      }
      i := i + 1;
    }
    assert t[..slen] == t;
    DecodingLength(u, cnt, dst[..p], x, x0, j, n);
  }

  method PutGroup(dst: array<bv8>, at: nat, j: int, x: bv32) returns (p: nat)
    requires at + 3 <= dst.Length && j <= 3
    modifies dst
    ensures p == at + (if j > 0 then j else 0)
    ensures dst[..p] == old(dst[..at]) + [Out(x, 16), Out(x, 8), Out(x, 0)][..if j > 0 then j else 0]
    ensures dst[p..] == old(dst[p..])
  {
    hide Out;
    p := at;
    if j > 0 {
      dst[p] := Out(x, 16);
      p := p + 1;
    }
    if j > 1 {
      dst[p] := Out(x, 8);
      p := p + 1;
    }
    if j > 2 {
      dst[p] := Out(x, 0);
      p := p + 1;
    }
  }
}
