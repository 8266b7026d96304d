/**
 * The CRC-16 of Modbus RTU (MODBUS over Serial Line V1.02, section 6.2.2): the bitwise definition with the
 * reflected polynomial 0xA001, the table-driven loops of mbcrc.c, modbus-rtu.cpp and Check.cpp that compute it,
 * and what it detects.
 */
module Crc16 {

  // ----- The bitwise definition -----

  function BitStep(crc: bv16): bv16 { if crc & 1 == 0 then crc >> 1 else (crc >> 1) ^ 0xA001 }

  function EightSteps(crc: bv16): bv16 {
    BitStep(BitStep(BitStep(BitStep(BitStep(BitStep(BitStep(BitStep(crc))))))))
  }

  function Mix(crc: bv16, b: bv8): bv16 { crc ^ (b as bv16) }

  function ByteStep(crc: bv16, b: bv8): bv16 { EightSteps(Mix(crc, b)) }

  function CrcFrom(crc: bv16, s: seq<bv8>): bv16 {
    if s == [] then crc else ByteStep(CrcFrom(crc, s[..|s| - 1]), s[|s| - 1])
  }

  /** The checksum of a byte string. */
  function Crc(s: seq<bv8>): bv16 { CrcFrom(0xFFFF, s) }

  /** The checksum of the response to reading one register, byte after byte. */
  lemma CrcOfResponse()
    ensures Crc([0x01, 0x03, 0x02, 0x00, 0x05]) == 0x4778
  {
    hide ByteStep, Crc;
    var s0: seq<bv8> := [];
    var s1 := s0 + [0x01];
    var s2 := s1 + [0x03];
    var s3 := s2 + [0x02];
    var s4 := s3 + [0x00];
    CrcOfNothing();
    ByteSteps();
    CrcSnoc(s0, 0x01);
    CrcSnoc(s1, 0x03);
    CrcSnoc(s2, 0x02);
    CrcSnoc(s3, 0x00);
    CrcSnoc(s4, 0x05);
    assert s4 + [0x05] == [0x01, 0x03, 0x02, 0x00, 0x05];
  }

  lemma CrcOfNothing()
    ensures Crc([]) == 0xFFFF
  {}

  lemma CrcSnoc(s: seq<bv8>, b: bv8)
    ensures Crc(s + [b]) == ByteStep(Crc(s), b)
  {
    hide ByteStep;
    assert (s + [b])[..|s|] == s;
  }

  lemma ByteSteps()
    ensures ByteStep(0xFFFF, 0x01) == 0x807E && ByteStep(0x807E, 0x03) == 0x2140 && ByteStep(0x2140, 0x02) == 0x31A1
    ensures ByteStep(0x31A1, 0x00) == 0xB8F0 && ByteStep(0xB8F0, 0x05) == 0x4778
  {}

  // ----- The tables -----

  function Hi(x: bv8): bv8 { ((HiRow(x >> 4) >> (8 * (15 - (x & 15)))) & 0xff) as bv8 }

  function Lo(x: bv8): bv8 { ((LoRow(x >> 4) >> (8 * (15 - (x & 15)))) & 0xff) as bv8 }

  function Join(high: bv8, low: bv8): bv16 { (high as bv16 << 8) | (low as bv16) }

  function High(w: bv16): bv8 { (w >> 8) as bv8 }

  function Low(w: bv16): bv8 { (w & 0xff) as bv8 }

  /** The contribution of one byte, as the tables hold it. */
  function Table(x: bv8): bv16 { EightSteps(x as bv16) }

  lemma TableEntries(x: bv8)
    ensures High(Table(x)) == Lo(x) && Low(Table(x)) == Hi(x)
  {}

  function Xor(a: bv8, b: bv8): bv8 { a ^ b }

  /** Eight steps shift the high byte down and add the table entry of the low byte. */
  lemma EightStepsOfJoin(h: bv8, x: bv8)
    ensures EightSteps(Join(h, x)) == Join(High(Table(x)), Xor(h, Low(Table(x))))
  {
    hide EightSteps, Join, High, Low, Xor;
    EightStepsShift(Join(h, x));
    JoinShift(h, x);
    JoinXor(h, Table(x));
  }

  lemma JoinShift(h: bv8, x: bv8)
    ensures Join(h, x) >> 8 == h as bv16 && Join(h, x) & 0xff == x as bv16
  {}

  lemma JoinXor(h: bv8, t: bv16)
    ensures (h as bv16) ^ t == Join(High(t), Xor(h, Low(t)))
  {}

  lemma EightStepsShift(crc: bv16)
    ensures EightSteps(crc) == (crc >> 8) ^ EightSteps(crc & 0xff)
  {}

  lemma MixJoin(h: bv8, l: bv8, b: bv8)
    ensures Mix(Join(h, l), b) == Join(h, Xor(l, b))
  {}

  lemma JoinParts(w: bv16)
    ensures Join(High(w), Low(w)) == w
  {}

  lemma JoinIsInjective(h: bv8, l: bv8)
    ensures High(Join(h, l)) == h && Low(Join(h, l)) == l
  {}

  /** One turn of the table loops is one byte of the bitwise definition. */
  lemma TableStep(high: bv8, low: bv8, b: bv8)
    ensures ByteStep(Join(high, low), b) == var x := Xor(low, b); Join(Lo(x), Xor(high, Hi(x)))
  {
    hide EightSteps, Hi, Lo, Table, Xor, Join, Mix, High, Low;
    var x := Xor(low, b);
    MixJoin(high, low, b);
    EightStepsOfJoin(high, x);
    TableEntries(x);
  }

  // ----- The three table loops -----

  /** The checksum of FreeModbus, over a frame starting at an offset of a buffer. */
  method UsMBCRC16(frame: array<bv8>, o: nat, len: nat) returns (crc: bv16)
    requires o + len <= frame.Length
    ensures crc == Crc(frame[o..o + len])
  {
    hide ByteStep, Hi, Lo, Join, Xor;
    var crcHi, crcLo: bv8 := 0xFF, 0xFF;
    InitialValue();
    var i := 0;
    while i < len
      invariant 0 <= i <= len
      invariant Join(crcHi, crcLo) == Crc(frame[o..o + i])
    {
      var index := Xor(crcLo, frame[o + i]);
      TableStep(crcHi, crcLo, frame[o + i]);
      assert frame[o..o + i + 1] == frame[o..o + i] + [frame[o + i]];
      crcLo := Xor(crcHi, Hi(index));
      crcHi := Lo(index);
      i := i + 1;
    }
    return Join(crcHi, crcLo);
  }

  /** The checksum of libmodbus: the same value with its bytes in the order of transmission. */
  method Crc16(buffer: array<bv8>, length: nat) returns (crc: bv16)
    requires length <= buffer.Length
    ensures crc == Swap(Crc(buffer[..length]))
  {
    hide ByteStep, Hi, Lo, Join, Xor;
    var crcHi, crcLo: bv8 := 0xFF, 0xFF;
    InitialValue();
    var i := 0;
    while i < length
      invariant 0 <= i <= length
      invariant Join(crcLo, crcHi) == Crc(buffer[..i])
    {
      var index := Xor(crcHi, buffer[i]);
      TableStep(crcLo, crcHi, buffer[i]);
      assert buffer[..i + 1] == buffer[..i] + [buffer[i]];
      crcHi := Xor(crcLo, Hi(index));
      crcLo := Lo(index);
      i := i + 1;
    }
    SwapJoin(crcLo, crcHi);
    return Join(crcHi, crcLo);
  }

  /** The checksum of class Check, over a byte vector. */
  method CheckCrc16(data: seq<bv8>) returns (crc: bv16)
    ensures crc == Crc(data)
  {
    hide ByteStep, Hi, Lo, Join, Xor;
    var crcHi, crcLo: bv8 := 0xFF, 0xFF;
    InitialValue();
    var i := 0;
    while i < |data|
      invariant 0 <= i <= |data|
      invariant Join(crcHi, crcLo) == Crc(data[..i])
    {
      var index := Xor(crcLo, data[i]);
      TableStep(crcHi, crcLo, data[i]);
      assert data[..i + 1] == data[..i] + [data[i]];
      crcLo := Xor(crcHi, Hi(index));
      crcHi := Lo(index);
      i := i + 1;
    }
    assert data[..|data|] == data;
    return Join(crcHi, crcLo);
  }

  function Swap(w: bv16): bv16 { Join(Low(w), High(w)) }

  // ----- Sealing and checking a frame -----

  /** The frame body followed by its checksum, low byte first. */
  function Sealed(s: seq<bv8>): seq<bv8> { s + [Low(Crc(s)), High(Crc(s))] }

  lemma CrcOfAppend(s: seq<bv8>, b: bv8)
    ensures Crc(s + [b]) == ByteStep(Crc(s), b)
  {
    hide ByteStep;
    assert (s + [b])[..|s|] == s;
  }

  /** The checksum over a frame with its last two bytes is zero exactly when they are the checksum of the rest. */
  lemma ResidueIsZeroExactlyWhenSealed(s: seq<bv8>, a: bv8, b: bv8)
    ensures Crc(s + [a, b]) == 0 <==> s + [a, b] == Sealed(s)
  {
    hide CrcFrom, ByteStep;
    var c := Crc(s);
    assert s + [a, b] == (s + [a]) + [b];
    CrcOfAppend(s, a);
    CrcOfAppend(s + [a], b);
    TwoByteResidue(c, a, b);
    assert s + [a, b] == Sealed(s) <==> (s + [a, b])[|s|] == Sealed(s)[|s|] && (s + [a, b])[|s| + 1] == Sealed(s)[|s| + 1];
  }

  lemma TwoByteResidue(c: bv16, a: bv8, b: bv8)
    ensures ByteStep(ByteStep(c, a), b) == 0 <==> a == Low(c) && b == High(c)
  {
    hide EightSteps, Join, High, Low, Hi, Lo, Mix, Xor;
    var h, l := High(c), Low(c);
    var x := Xor(l, a);
    var y := Xor(Xor(h, Hi(x)), b);
    JoinParts(c);
    TableStep(h, l, a);
    MixJoin(Lo(x), Xor(h, Hi(x)), b);
    EightStepsIsInjective(Join(Lo(x), y), Join(0, 0));
    JoinOfZeros();
    JoinIsInjective(Lo(x), y);
    JoinIsInjective(0, 0);
    LoIsInjective(x, 0);
    TablesAtZero();
    XorIsZero(l, a);
    XorIsZero(h, b);
  }

  lemma JoinOfZeros()
    ensures EightSteps(Join(0, 0)) == 0
  {}

  lemma TablesAtZero()
    ensures Lo(0) == 0 && Hi(0) == 0
  {}

  lemma XorIsZero(a: bv8, b: bv8)
    ensures (Xor(a, b) == 0 <==> a == b) && Xor(a, 0) == a
  {}

  lemma InitialValue()
    ensures Join(0xFF, 0xFF) == 0xFFFF
  {}

  lemma SwapJoin(h: bv8, l: bv8)
    ensures Swap(Join(h, l)) == Join(l, h)
  {}

  /** A step can be undone: its top bit is the bit shifted out. */
  lemma BitStepIsInjective(c: bv16, d: bv16)
    ensures BitStep(c) == BitStep(d) ==> c == d
  {}

  lemma EightStepsIsInjective(c: bv16, d: bv16)
    ensures EightSteps(c) == EightSteps(d) ==> c == d
  {
    hide BitStep;
    var c1, d1 := BitStep(c), BitStep(d);
    var c2, d2 := BitStep(c1), BitStep(d1);
    var c3, d3 := BitStep(c2), BitStep(d2);
    var c4, d4 := BitStep(c3), BitStep(d3);
    var c5, d5 := BitStep(c4), BitStep(d4);
    var c6, d6 := BitStep(c5), BitStep(d5);
    var c7, d7 := BitStep(c6), BitStep(d6);
    BitStepIsInjective(c, d); BitStepIsInjective(c1, d1); BitStepIsInjective(c2, d2); BitStepIsInjective(c3, d3);
    BitStepIsInjective(c4, d4); BitStepIsInjective(c5, d5); BitStepIsInjective(c6, d6); BitStepIsInjective(c7, d7);
  }

  /** Distinct bytes have distinct low table entries. */
  lemma LoIsInjective(x: bv8, y: bv8)
    ensures Lo(x) == Lo(y) ==> x == y
  {
    hide Lo, High;
    TableEntries(x);
    TableEntries(y);
    HighByteIsInjective(x, y);
  }

  lemma HighByteIsInjective(x: bv8, y: bv8)
    ensures High(Table(x)) == High(Table(y)) ==> x == y
  {}

  // ----- What the checksum detects -----

  lemma ByteStepIsInjective(c: bv16, d: bv16, b: bv8)
    ensures ByteStep(c, b) == ByteStep(d, b) ==> c == d
  {
    hide EightSteps;
    EightStepsIsInjective(Mix(c, b), Mix(d, b));
  }

  /** The same bytes appended to different states keep them different. */
  lemma {:induction false} CrcFromIsInjective(c: bv16, d: bv16, s: seq<bv8>)
    requires c != d
    ensures CrcFrom(c, s) != CrcFrom(d, s)
  {
    hide ByteStep;
    if s != [] {
      CrcFromIsInjective(c, d, s[..|s| - 1]);
      ByteStepIsInjective(CrcFrom(c, s[..|s| - 1]), CrcFrom(d, s[..|s| - 1]), s[|s| - 1]);
    }
  }

  lemma {:induction false} CrcFromConcat(c: bv16, s: seq<bv8>, t: seq<bv8>)
    ensures CrcFrom(c, s + t) == CrcFrom(CrcFrom(c, s), t)
  {
    hide ByteStep;
    if t == [] {
      assert s + t == s;
    } else {
      CrcFromConcat(c, s, t[..|t| - 1]);
      assert (s + t)[..|s + t| - 1] == s + t[..|t| - 1];
    }
  }

  /** From one state, two different pairs of bytes lead to different states. */
  lemma TwoBytesAreInjective(c: bv16, a1: bv8, a2: bv8, b1: bv8, b2: bv8)
    ensures ByteStep(ByteStep(c, a1), a2) == ByteStep(ByteStep(c, b1), b2) ==> a1 == b1 && a2 == b2
  {
    hide EightSteps, Join, High, Low, Hi, Lo, Mix, Xor;
    var h, l := High(c), Low(c);
    var x, y := Xor(l, a1), Xor(l, b1);
    JoinParts(c);
    TableStep(h, l, a1); TableStep(h, l, b1);
    MixJoin(Lo(x), Xor(h, Hi(x)), a2); MixJoin(Lo(y), Xor(h, Hi(y)), b2);
    var u, v := Xor(Xor(h, Hi(x)), a2), Xor(Xor(h, Hi(y)), b2);
    EightStepsIsInjective(Join(Lo(x), u), Join(Lo(y), v));
    JoinIsInjective(Lo(x), u); JoinIsInjective(Lo(y), v);
    LoIsInjective(x, y);
    XorIsInjective(l, a1, b1);
    XorIsInjective(Xor(h, Hi(x)), a2, b2);
  }

  lemma XorIsInjective(a: bv8, b: bv8, c: bv8)
    ensures Xor(a, b) == Xor(a, c) ==> b == c
  {}

  /** A frame and a copy of it that differ, but only within two adjacent bytes, have different checksums. */
  lemma AdjacentChangeIsDetected(s: seq<bv8>, t: seq<bv8>, i: nat)
    requires |s| == |t| && i + 2 <= |s| && s != t
    requires s[..i] == t[..i] && s[i + 2..] == t[i + 2..]
    ensures Crc(s) != Crc(t)
  {
    hide ByteStep, CrcFrom;
    var c := Crc(s[..i]);
    CrcOfWindow(s, i);
    CrcOfWindow(t, i);
    var p, q := ByteStep(ByteStep(c, s[i]), s[i + 1]), ByteStep(ByteStep(c, t[i]), t[i + 1]);
    assert s == s[..i] + [s[i], s[i + 1]] + s[i + 2..];
    assert t == t[..i] + [t[i], t[i + 1]] + t[i + 2..];
    TwoBytesAreInjective(c, s[i], s[i + 1], t[i], t[i + 1]);
    CrcFromIsInjective(p, q, s[i + 2..]);
  }

  lemma CrcOfWindow(s: seq<bv8>, i: nat)
    requires i + 2 <= |s|
    ensures Crc(s) == CrcFrom(ByteStep(ByteStep(Crc(s[..i]), s[i]), s[i + 1]), s[i + 2..])
  {
    hide ByteStep, CrcFrom;
    assert s[..i + 2] == (s[..i] + [s[i]]) + [s[i + 1]];
    assert s == s[..i + 2] + s[i + 2..];
    CrcOfAppend(s[..i], s[i]);
    CrcOfAppend(s[..i] + [s[i]], s[i + 1]);
    CrcFromConcat(0xFFFF, s[..i + 2], s[i + 2..]);
  }

  function HiRow(h: bv8): bv128 {
    if h == 0x0 then 0x00c1814001c0804101c0804100c18140
    else if h == 0x1 then 0x01c0804100c1814000c1814001c08041
    else if h == 0x2 then 0x01c0804100c1814000c1814001c08041
    else if h == 0x3 then 0x00c1814001c0804101c0804100c18140
    else if h == 0x4 then 0x01c0804100c1814000c1814001c08041
    else if h == 0x5 then 0x00c1814001c0804101c0804100c18140
    else if h == 0x6 then 0x00c1814001c0804101c0804100c18140
    else if h == 0x7 then 0x01c0804100c1814000c1814001c08041
    else if h == 0x8 then 0x01c0804100c1814000c1814001c08041
    else if h == 0x9 then 0x00c1814001c0804101c0804100c18140
    else if h == 0xa then 0x00c1814001c0804101c0804100c18140
    else if h == 0xb then 0x01c0804100c1814000c1814001c08041
    else if h == 0xc then 0x00c1814001c0804101c0804100c18140
    else if h == 0xd then 0x01c0804100c1814000c1814001c08041
    else if h == 0xe then 0x01c0804100c1814000c1814001c08041
    else 0x00c1814001c0804101c0804100c18140
  }

  function LoRow(h: bv8): bv128 {
    if h == 0x0 then 0x00c0c101c30302c2c60607c705c5c404
    else if h == 0x1 then 0xcc0c0dcd0fcfce0e0acacb0bc90908c8
    else if h == 0x2 then 0xd81819d91bdbda1a1ededf1fdd1d1cdc
    else if h == 0x3 then 0x14d4d515d71716d6d21213d311d1d010
    else if h == 0x4 then 0xf03031f133f3f23236f6f737f53534f4
    else if h == 0x5 then 0x3cfcfd3dff3f3efefa3a3bfb39f9f838
    else if h == 0x6 then 0x28e8e929eb2b2aeaee2e2fef2dedec2c
    else if h == 0x7 then 0xe42425e527e7e62622e2e323e12120e0
    else if h == 0x8 then 0xa06061a163a3a26266a6a767a56564a4
    else if h == 0x9 then 0x6cacad6daf6f6eaeaa6a6bab69a9a868
    else if h == 0xa then 0x78b8b979bb7b7ababe7e7fbf7dbdbc7c
    else if h == 0xb then 0xb47475b577b7b67672b2b373b17170b0
    else if h == 0xc then 0x50909151935352929656579755959454
    else if h == 0xd then 0x9c5c5d9d5f9f9e5e5a9a9b5b99595898
    else if h == 0xe then 0x884849894b8b8a4a4e8e8f4f8d4d4c8c
    else 0x44848545874746868242438341818040
  }
}
