/**
 * The frames the controllers exchange, an APCI head around an IEC 60870-5-103 style ASDU, and the numbering of frames
 * (Iec103.cpp). Strings are vectors of bytes.
 */
module Iec103 {
  import opened Octets
  import opened Options

  const APCI_HEAD: bv8 := 0x55
  const FIXED_HEAD: bv8 := 0x10
  const VARIABLE_HEAD: bv8 := 0x68
  const END: bv8 := 0x16
  const TYP_TIME_SYNC: bv8 := 0x06
  const TYP_REAL_DATA: bv8 := 0x09
  const TYP_CTRL_DATA: bv8 := 0x14
  const ALONE_ADDR := 1

  datatype PacketFormat = FixedLength | VariableLength

  datatype PacketType = TypeNull | Confirm | TimeSync | RealData | CtrlData

  datatype PacketHead = PacketHead(length: int, srcAddr: int, srcType: int, destAddr: int, destType: int, dataNumber: nat,
                                   networkA: int, networkB: int, backup1: int, backup2: int)

  datatype PacketData = PacketData(packetType: PacketType, destAddr: int, dataStart: int, dataLength: int, continuous: int,
                                   prm: int, fcb: int, fcv: int, fun: int, data: seq<bv8>)

  /** The low byte of an int. */
  function ToByte(n: int): bv8 { Byte(n % 256) }

  lemma ToByteValue(n: int)
    ensures ToByte(n) as int == n % 256
    ensures 0 <= n < 256 ==> ToByte(n) as int == n
  {
    hide Byte;
    ByteValue(n % 256);
  }

  // ----- ASDU -----

  function Sum(s: seq<bv8>): bv8 { if s == [] then 0 else Sum(s[..|s| - 1]) + s[|s| - 1] }

  /** The bytes of the variable-length format, whatever the body. */
  function Variable(d: seq<bv8>): seq<bv8> {
    [VARIABLE_HEAD, ToByte(|d|), ToByte(|d| / 256), VARIABLE_HEAD] + d + [Sum(d), END]
  }

  function Fixed(d: seq<bv8>): seq<bv8> { [FIXED_HEAD] + d + [Sum(d), END] }

  function PackedAsdu(d: seq<bv8>, format: PacketFormat): seq<bv8> {
    if d == [] then [] else if format == FixedLength then Fixed(d) else Variable(d)
  }

  /** The loop that copies bytes to the end of a string. */
  method Append(str: seq<bv8>, data: seq<bv8>, from: nat, to: nat) returns (r: seq<bv8>)
    requires from <= to <= |data|
    ensures r == str + data[from..to]
  {
    r := str;
    var i := from;
    while i < to
      invariant from <= i <= to && r == str + data[from..i]
    {
      r := r + [data[i]];
      i := i + 1;
    }
  }

  method Checksum(data: seq<bv8>, from: nat, to: nat) returns (sum: bv8)
    requires from <= to <= |data|
    ensures sum == Sum(data[from..to])
  {
    sum := 0;
    var i := from;
    while i < to
      invariant from <= i <= to && sum == Sum(data[from..i])
    {
      assert data[from..i + 1][..i - from] == data[from..i];
      sum := sum + data[i];
      i := i + 1;
    }
  }

  method PackAsdu(data: seq<bv8>, format: PacketFormat) returns (str: seq<bv8>)
    ensures str == PackedAsdu(data, format)
  {
    hide ToByte, Sum;
    str := [];
    if data == [] { return; }
    match format {
      case FixedLength => str := [FIXED_HEAD];
      case VariableLength => str := [VARIABLE_HEAD, ToByte(|data|), ToByte(|data| / 256), VARIABLE_HEAD];
    }
    ghost var head := str;
    str := Append(str, data, 0, |data|);
    var sum := Checksum(data, 0, |data|);
    assert data[0..|data|] == data;
    str := str + [sum];
    str := str + [END];
    assert str == head + data + [Sum(data), END];
  }

  /** The body of an ASDU that is accepted, and its format. */
  function UnpackedAsdu(s: seq<bv8>): Option<(seq<bv8>, PacketFormat)> {
    if |s| < 5 then None
    else if s[0] == FIXED_HEAD then
      if s[4] != END || s[1] + s[2] != s[3] then None else Some((s[1..3], FixedLength))
    else if s[0] == VARIABLE_HEAD then
      if |s| < 6 || s[3] != VARIABLE_HEAD || s[|s| - 1] != END || Word(s[2], s[1]) != |s| - 6
         || Sum(s[4..|s| - 2]) != s[|s| - 2] then None
      else Some((s[4..|s| - 2], VariableLength))
    else None
  }

  method UnpackAsdu(s: seq<bv8>) returns (r: Option<(seq<bv8>, PacketFormat)>)
    ensures r == UnpackedAsdu(s)
  {
    hide Sum, Word;
    if |s| < 5 { return None; }
    if s[0] == FIXED_HEAD {
      if s[4] != END { return None; }
      var checksum := s[1] + s[2];
      if checksum != s[3] { return None; }
      var data := [s[1]];
      data := data + [s[2]];
      assert data == s[1..3];
      return Some((data, FixedLength));
    } else if s[0] == VARIABLE_HEAD {
      if s[3] != VARIABLE_HEAD || s[|s| - 1] != END { return None; }
      var len := Word(s[2], s[1]);
      if len != |s| - 6 { return None; }
      var checksum := Checksum(s, 4, |s| - 2);
      if checksum != s[|s| - 2] { return None; }
      var data := Append([], s, 4, |s| - 2);
      assert data == s[4..|s| - 2];
      return Some((data, VariableLength));
    }
    return None;
  }

  /** A variable-length ASDU is accepted exactly if it is what its body is framed as. */
  lemma VariableAccepted(s: seq<bv8>, d: seq<bv8>)
    ensures UnpackedAsdu(s) == Some((d, VariableLength)) <==> s == Variable(d) && |d| < 65536
  {
    hide Byte, Sum;
    LengthBytes(|d|);
    if |s| >= 6 {
      WordBytes(s[2], s[1]);
      if s == Variable(d) { assert s[4..|s| - 2] == d; }
      if UnpackedAsdu(s) == Some((d, VariableLength)) { assert s == Variable(d); }
    }
  }

  lemma LengthBytes(n: nat)
    ensures n < 65536 ==> Word(ToByte(n / 256), ToByte(n)) == n
  {
    ToByteValue(n / 256);
    ToByteValue(n);
  }

  lemma WordBytes(high: bv8, low: bv8)
    ensures ToByte(Word(high, low)) == low && ToByte(Word(high, low) / 256) == high
  {
    hide Byte;
    var n := Word(high, low);
    assert n % 256 == low as nat && n / 256 == high as nat && high as nat % 256 == high as nat;
    ByteOfValue(high);
    ByteOfValue(low);
  }

  lemma SumOf(s: seq<bv8>)
    requires s != []
    ensures Sum(s) == PlusByte(Sum(s[..|s| - 1]), s[|s| - 1])
  {}

  /** The checksum is the sum of the bytes modulo 256. */
  lemma {:induction false} SumIsAdded(s: seq<bv8>)
    ensures Value(Sum(s)) == Added(s) % 256
  {
    hide PlusByte, Value;
    PlusZero(0);
    if s != [] {
      var front, last := s[..|s| - 1], s[|s| - 1];
      SumIsAdded(front);
      SumOf(s);
      PlusWraps(Sum(front), last);
      AddedRemainder(Added(front), Value(last));
    }
  }

  /** Bodies that differ in one byte have different sums. */
  lemma {:induction false} SumTells(s: seq<bv8>, k: nat, b: bv8)
    requires k < |s| && Sum(s[k := b]) == Sum(s)
    ensures b == s[k]
  {
    hide Sum, PlusByte;
    var front, last, g := s[..|s| - 1], s[|s| - 1], s[k := b];
    SumOf(s);
    SumOf(g);
    if k < |front| {
      assert g[..|g| - 1] == front[k := b];
      PlusTells(Sum(front[k := b]), Sum(front), last, last);
      SumTells(front, k, b);
    } else {
      assert g[..|g| - 1] == front;
      PlusTells(Sum(front), Sum(front), b, last);
    }
  }

  /** A variable-length ASDU in which any one byte has changed is refused, but for the first, which makes it another format. */
  lemma ChangedByteIsRefused(d: seq<bv8>, k: nat, b: bv8)
    requires |d| < 65536 && 0 < k < |d| + 6 && b != Variable(d)[k]
    ensures UnpackedAsdu(Variable(d)[k := b]) == None
  {
    hide Sum, Word, ToByte;
    var s := Variable(d);
    var t := s[k := b];
    assert s[4..|s| - 2] == d;
    LengthBytes(|d|);
    if 4 <= k < 4 + |d| {
      assert t[4..|t| - 2] == d[k - 4 := b];
      if Sum(d[k - 4 := b]) == Sum(d) { SumTells(d, k - 4, b); }
    } else {
      assert t[4..|t| - 2] == d;
      if k == 1 || k == 2 { OtherLength(s[2], s[1], t[2], t[1]); }
    }
  }

  lemma OtherLength(high: bv8, low: bv8, high': bv8, low': bv8)
    requires high != high' || low != low'
    ensures Word(high, low) != Word(high', low')
  {
    hide Byte, HighByte, LowByte, Word;
    BytesOfWord(high, low);
    BytesOfWord(high', low');
  }

  /** An accepted variable-length ASDU is packed again byte for byte exactly if its body is not empty. */
  lemma RepackedAsdu(s: seq<bv8>, d: seq<bv8>)
    requires UnpackedAsdu(s) == Some((d, VariableLength))
    ensures PackedAsdu(d, VariableLength) == s <==> d != []
  {
    hide Byte, Sum;
    VariableAccepted(s, d);
  }

  /** A fixed-length ASDU is accepted exactly if its first five bytes are what its two are framed as, whatever follows. */
  lemma FixedAccepted(s: seq<bv8>, d: seq<bv8>)
    ensures UnpackedAsdu(s) == Some((d, FixedLength)) <==> |d| == 2 && |s| >= 5 && s[..5] == Fixed(d)
  {
    hide UnpackedAsdu, Fixed;
    FixedBytes(s, d);
    if |d| == 2 && |s| >= 5 { FixedFive(s, d); }
  }

  predicate HasFixed(s: seq<bv8>, a: bv8, b: bv8)
    requires |s| >= 5
  {
    s[0] == FIXED_HEAD && s[1] == a && s[2] == b && s[3] == a + b && s[4] == END
  }

  lemma FixedBytes(s: seq<bv8>, d: seq<bv8>)
    ensures UnpackedAsdu(s) == Some((d, FixedLength)) <==> |d| == 2 && |s| >= 5 && HasFixed(s, d[0], d[1])
  {
    hide Sum, Word;
    if |s| >= 5 && |d| == 2 { SecondAndThird(s, d); }
  }

  lemma FixedFive(s: seq<bv8>, d: seq<bv8>)
    requires |s| >= 5 && |d| == 2
    ensures s[..5] == Fixed(d) <==> HasFixed(s, d[0], d[1])
  {
    hide Sum;
    SumOfTwo(d);
    SecondAndThird([FIXED_HEAD] + d, d);
    FirstFive(s, FIXED_HEAD, d[0], d[1], d[0] + d[1], END);
  }

  lemma FirstFive<T>(s: seq<T>, a: T, b: T, c: T, d: T, e: T)
    requires |s| >= 5
    ensures s[..5] == [a] + [b, c] + [d, e] <==> s[0] == a && s[1] == b && s[2] == c && s[3] == d && s[4] == e
  {
    assert s[..5] == [s[0]] + [s[1], s[2]] + [s[3], s[4]];
    var t := [a] + [b, c] + [d, e];
    assert t[0] == a && t[1] == b && t[2] == c && t[3] == d && t[4] == e;
    assert forall i :: 0 <= i < 5 ==> s[..5][i] == s[i];
  }

  lemma SecondAndThird<T>(s: seq<T>, d: seq<T>)
    requires |s| >= 3 && |d| == 2
    ensures s[1..3] == d <==> s[1] == d[0] && s[2] == d[1]
    ensures d == [d[0], d[1]]
  {
    assert s[1..3][0] == s[1] && s[1..3][1] == s[2];
  }

  lemma SumOfTwo(d: seq<bv8>)
    requires |d| == 2
    ensures Sum(d) == d[0] + d[1]
  {
    assert d[..1][..0] == [] && Sum(d[..1]) == d[0];
  }

  // ----- APCI head -----

  function HeadBytes(h: PacketHead, length: int): (s: seq<bv8>)
    ensures |s| == 14
  {
    [APCI_HEAD, ToByte(length), ToByte(length / 256), APCI_HEAD,
     ToByte(h.srcAddr), ToByte(h.srcType), ToByte(h.destAddr), ToByte(h.destType),
     ToByte(h.dataNumber), ToByte(h.dataNumber / 256),
     ToByte(h.networkA), ToByte(h.networkB), ToByte(h.backup1), ToByte(h.backup2)]
  }

  method PackHead(head: Option<PacketHead>, data: Option<seq<bv8>>) returns (str: seq<bv8>)
    ensures str == if head == None then []
                   else if data == None then HeadBytes(head.value, 10)
                   else HeadBytes(head.value, 10 + |data.value|) + data.value
  {
    hide ToByte;
    if head == None { return []; }
    var len := 10;
    if data != None { len := len + |data.value|; }
    str := HeadBytes(head.value, len);
    if data != None && data.value != [] {
      str := Append(str, data.value, 0, |data.value|);
      assert data.value[0..|data.value|] == data.value;
    }
  }

  function UnpackedHead(s: seq<bv8>): Option<(PacketHead, seq<bv8>)> {
    if |s| < 14 || s[0] != APCI_HEAD || s[3] != APCI_HEAD then None
    else
      var length := Word(s[2], s[1]);
      if length > |s| - 4 then None
      else
        var h := PacketHead(length, s[4] as int, s[5] as int, s[6] as int, s[7] as int, Word(s[9], s[8]),
                            s[10] as int, s[11] as int, s[12] as int, s[13] as int);
        Some((h, if length <= 10 then [] else s[14..]))
  }

  method UnpackHead(s: seq<bv8>) returns (r: Option<(PacketHead, seq<bv8>)>)
    ensures r == UnpackedHead(s)
  {
    hide Word;
    if |s| < 14 { return None; }
    if s[0] != APCI_HEAD || s[3] != APCI_HEAD { return None; }
    var length := Word(s[2], s[1]);
    if length > |s| - 4 { return None; }
    var head := PacketHead(length, s[4] as int, s[5] as int, s[6] as int, s[7] as int, Word(s[9], s[8]),
                           s[10] as int, s[11] as int, s[12] as int, s[13] as int);
    if length <= 10 { return Some((head, [])); }
    var data := Append([], s, 14, |s|);
    assert data == s[14..];
    return Some((head, data));
  }

  /** The fields that are sent as one byte each, and the frame number, are in range. */
  predicate HeadFits(h: PacketHead) {
    && 0 <= h.srcAddr < 256 && 0 <= h.srcType < 256 && 0 <= h.destAddr < 256 && 0 <= h.destType < 256
    && h.dataNumber < 65536
    && 0 <= h.networkA < 256 && 0 <= h.networkB < 256 && 0 <= h.backup1 < 256 && 0 <= h.backup2 < 256
  }

  lemma HeadRoundTrip(h: PacketHead, d: seq<bv8>)
    requires HeadFits(h) && 10 + |d| < 65536
    ensures UnpackedHead(HeadBytes(h, 10 + |d|) + d) == Some((h.(length := 10 + |d|), d))
  {
    hide ToByte, Word;
    var s := HeadBytes(h, 10 + |d|) + d;
    LengthBytes(10 + |d|);
    LengthBytes(h.dataNumber);
    ToByteValue(h.srcAddr);
    ToByteValue(h.srcType);
    ToByteValue(h.destAddr);
    ToByteValue(h.destType);
    ToByteValue(h.networkA);
    ToByteValue(h.networkB);
    ToByteValue(h.backup1);
    ToByteValue(h.backup2);
    assert s[14..] == d;
  }

  // ----- Frames -----

  function Control(prm: bv8, fcb: bv8, fcv: bv8, fun: bv8): bv8 { (prm << 6) | (fcb << 5) | (fcv << 4) | fun }

  function Qualifier(continuous: bv8, dataLength: bv8): bv8 { ((continuous & 0x01) << 7) + dataLength }

  /** The control byte of a frame. */
  function ControlOf(d: PacketData, fun: int): bv8 { Control(ToByte(d.prm), ToByte(d.fcb), ToByte(d.fcv), ToByte(fun)) }

  /** The eight bytes before the data of a variable-length frame. */
  function Header(d: PacketData, fun: int, typ: bv8, vsq: bv8, cot: bv8, functionType: bv8): (s: seq<bv8>)
    ensures |s| == 8
  {
    [ControlOf(d, fun), ToByte(d.destAddr), typ, vsq, cot, ToByte(d.destAddr), functionType, 0]
  }

  function Body(d: PacketData): seq<bv8> {
    match d.packetType
    case TypeNull => []
    case Confirm => [ControlOf(d, d.fun), ToByte(d.destAddr)]
    case TimeSync => Header(d, 0x03, TYP_TIME_SYNC, 0x81, 0x08, 255) + d.data
    case RealData => Header(d, 0x04, TYP_REAL_DATA, Qualifier(ToByte(d.continuous), ToByte(d.dataLength)), 0x02, 144) + d.data
    case CtrlData => Header(d, 0x03, TYP_CTRL_DATA, Qualifier(ToByte(d.continuous), ToByte(d.dataLength)), 20, 16) + d.data
  }

  function Packed(head: PacketHead, d: PacketData): seq<bv8> {
    if d.packetType == TypeNull then []
    else
      var asdu := PackedAsdu(Body(d), if d.packetType == Confirm then FixedLength else VariableLength);
      HeadBytes(head, 10 + |asdu|) + asdu
  }

  method Pack(head: Option<PacketHead>, data: Option<PacketData>) returns (str: seq<bv8>)
    ensures str == if head == None then [] else if data == None then HeadBytes(head.value, 10) else Packed(head.value, data.value)
  {
    hide ToByte, HeadBytes, PackedAsdu, Control, Qualifier;
    if head == None { return []; }
    if data == None {
      str := PackHead(head, None);
      return;
    }
    var d := data.value;
    var asdu: seq<bv8>;
    match d.packetType {
      case TypeNull => return [];
      case Confirm => asdu := [ControlOf(d, d.fun), ToByte(d.destAddr)];
      case TimeSync => asdu := Header(d, 0x03, TYP_TIME_SYNC, 0x81, 0x08, 255);
      case RealData =>
        asdu := Header(d, 0x04, TYP_REAL_DATA, Qualifier(ToByte(d.continuous), ToByte(d.dataLength)), 0x02, 144);
      case CtrlData =>
        asdu := Header(d, 0x03, TYP_CTRL_DATA, Qualifier(ToByte(d.continuous), ToByte(d.dataLength)), 20, 16);
    }
    if d.packetType != Confirm {
      asdu := Append(asdu, d.data, 0, |d.data|);
      assert d.data[0..|d.data|] == d.data;
    }
    str := PackAsdu(asdu, if d.packetType == Confirm then FixedLength else VariableLength);
    str := PackHead(head, Some(str));
  }

  /** What unpacking comes to; a frame too short for its type makes the source read beyond its end. */
  datatype Unpacked = Refused | BeyondMessage | Accepted(head: PacketHead, data: PacketData)

  function Bit(b: bv8, shift: nat): int
    requires 4 <= shift <= 7
  {
    (if shift == 4 then (b >> 4) & 1 else if shift == 5 then (b >> 5) & 1 else if shift == 6 then (b >> 6) & 1 else b >> 7) as int
  }

  /** The parts of a body that every frame has; fields it does not carry keep their values. */
  function Common(was: PacketData, t: seq<bv8>): PacketData
    requires |t| >= 2
  {
    was.(packetType := Confirm, prm := Bit(t[0], 6), fcb := Bit(t[0], 5), fcv := Bit(t[0], 4),
         fun := (t[0] & 0x0F) as int, destAddr := t[1] as int, data := [])
  }

  /** The meaning of a variable-length body by its type identification. */
  function OfVariable(was: PacketData, t: seq<bv8>): Option<PacketData> {
    if |t| < 6 then None
    else
      var d := Common(was, t).(destAddr := t[5] as int);
      if t[2] == TYP_TIME_SYNC then Some(d.(packetType := TimeSync, data := From(t, 8)))
      else if t[2] != TYP_REAL_DATA && t[2] != TYP_CTRL_DATA then Some(d)
      else if |t| < 10 then None
      else
        var e := d.(continuous := Bit(t[3], 7), dataLength := (t[3] & 0x7F) as int, dataStart := Word(t[9], t[8]));
        if t[2] == TYP_CTRL_DATA then Some(e.(packetType := CtrlData, data := From(t, 8)))
        else Some(e.(packetType := RealData, data := From(t, if e.continuous == ALONE_ADDR then 8 else 10)))
  }

  function From(t: seq<bv8>, k: nat): seq<bv8> { if k <= |t| then t[k..] else [] }

  function Unpack(was: PacketData, s: seq<bv8>): Unpacked {
    var head := UnpackedHead(s);
    if head == None then Refused
    else if head.value.1 == [] then Accepted(head.value.0, was.(packetType := TypeNull))
    else
      var asdu := UnpackedAsdu(head.value.1);
      if asdu == None then Refused
      else if asdu.value.1 == FixedLength then Accepted(head.value.0, Common(was, asdu.value.0))
      else
        var d := OfVariable(was, asdu.value.0);
        if d == None then BeyondMessage else Accepted(head.value.0, d.value)
  }

  /** The method of the source; `data` keeps the fields a frame does not carry. */
  method UnpackFrame(was: PacketData, s: seq<bv8>) returns (r: Unpacked)
    ensures r == Unpack(was, s)
  {
    hide UnpackedHead, UnpackedAsdu, Word, Bit;
    var head := UnpackHead(s);
    if head == None { return Refused; }
    var (h, str) := head.value;
    if str == [] { return Accepted(h, was.(packetType := TypeNull)); }
    var asdu := UnpackAsdu(str);
    if asdu == None { return Refused; }
    var (tmp, format) := asdu.value;
    BodyLength(str);
    if |tmp| < 2 { return BeyondMessage; }
    var data := was.(packetType := Confirm, prm := Bit(tmp[0], 6), fcb := Bit(tmp[0], 5), fcv := Bit(tmp[0], 4),
                     fun := (tmp[0] & 0x0F) as int, destAddr := tmp[1] as int, data := []);
    if format == VariableLength {
      if |tmp| < 6 { return BeyondMessage; }
      data := data.(destAddr := tmp[5] as int);
      var typ := tmp[2];
      if typ == TYP_TIME_SYNC {
        data := data.(packetType := TimeSync);
        var rest := CopyFrom(tmp, 8);
        data := data.(data := rest);
      } else if typ == TYP_REAL_DATA {
        data := data.(packetType := RealData, continuous := Bit(tmp[3], 7), dataLength := (tmp[3] & 0x7F) as int);
        if |tmp| < 10 { return BeyondMessage; }
        data := data.(dataStart := Word(tmp[9], tmp[8]));
        var rest;
        if data.continuous == ALONE_ADDR { rest := CopyFrom(tmp, 8); } else { rest := CopyFrom(tmp, 10); }
        data := data.(data := rest);
      } else if typ == TYP_CTRL_DATA {
        if |tmp| < 10 { return BeyondMessage; }
        data := data.(packetType := CtrlData, continuous := Bit(tmp[3], 7), dataLength := (tmp[3] & 0x7F) as int,
                      dataStart := Word(tmp[9], tmp[8]));
        var rest := CopyFrom(tmp, 8);
        data := data.(data := rest);
      }
    }
    return Accepted(h, data);
  }

  lemma BodyLength(s: seq<bv8>)
    ensures UnpackedAsdu(s).Some? && UnpackedAsdu(s).value.1 == FixedLength ==> |UnpackedAsdu(s).value.0| == 2
  {}

  method CopyFrom(t: seq<bv8>, k: nat) returns (r: seq<bv8>)
    ensures r == From(t, k)
  {
    r := [];
    if k <= |t| {
      r := Append([], t, k, |t|);
      assert t[k..|t|] == t[k..];
    }
  }

  // ----- What is packed is what is unpacked -----

  /** The fields a frame carries are in the ranges it has room for. */
  predicate DataFits(d: PacketData) {
    && 0 <= d.prm <= 1 && 0 <= d.fcb <= 1 && 0 <= d.fcv <= 1 && 0 <= d.fun < 16 && 0 <= d.destAddr < 256
    && 0 <= d.continuous <= 1 && 0 <= d.dataLength < 128 && |d.data| < 65512
  }

  /** A frame with data that has no room for the address they start with. */
  predicate LacksAddress(d: PacketData) { (d.packetType == RealData || d.packetType == CtrlData) && |d.data| < 2 }

  /** What the receiver gets; a frame with data starts with the address they belong to. */
  function Received(was: PacketData, d: PacketData): PacketData
    requires DataFits(d) && d.packetType != TypeNull && !LacksAddress(d)
  {
    var c := was.(packetType := d.packetType, prm := d.prm, fcb := d.fcb, fcv := d.fcv, destAddr := d.destAddr);
    match d.packetType
    case Confirm => c.(fun := d.fun, data := [])
    case TimeSync => c.(fun := 3, data := d.data)
    case CtrlData =>
      c.(fun := 3, continuous := d.continuous, dataLength := d.dataLength, dataStart := Word(d.data[1], d.data[0]), data := d.data)
    case RealData =>
      c.(fun := 4, continuous := d.continuous, dataLength := d.dataLength, dataStart := Word(d.data[1], d.data[0]),
         data := if d.continuous == ALONE_ADDR then d.data else d.data[2..])
  }

  lemma ControlBits(p: bv8, b: bv8, v: bv8, f: bv8)
    requires p <= 1 && b <= 1 && v <= 1 && f <= 15
    ensures var c := Control(p, b, v, f);
            (c >> 6) & 1 == p && (c >> 5) & 1 == b && (c >> 4) & 1 == v && c & 0x0F == f
  {}

  lemma QualifierBits(c: bv8, l: bv8)
    requires c <= 1 && l < 128
    ensures var q := Qualifier(c, l); q >> 7 == c && q & 0x7F == l
  {}

  lemma SmallByte(n: int, limit: bv8)
    requires 0 <= n <= limit as int
    ensures ToByte(n) <= limit && ToByte(n) as int == n
  {
    hide ToByte;
    ToByteValue(n);
  }

  lemma ControlFields(d: PacketData, fun: int)
    requires DataFits(d) && 0 <= fun < 16
    ensures var c := ControlOf(d, fun);
            Bit(c, 6) == d.prm && Bit(c, 5) == d.fcb && Bit(c, 4) == d.fcv && (c & 0x0F) as int == fun
  {
    hide ToByte, Control;
    SmallByte(d.prm, 1);
    SmallByte(d.fcb, 1);
    SmallByte(d.fcv, 1);
    SmallByte(fun, 15);
    ControlBits(ToByte(d.prm), ToByte(d.fcb), ToByte(d.fcv), ToByte(fun));
  }

  lemma QualifierFields(d: PacketData)
    requires DataFits(d)
    ensures var q := Qualifier(ToByte(d.continuous), ToByte(d.dataLength));
            Bit(q, 7) == d.continuous && (q & 0x7F) as int == d.dataLength
  {
    hide ToByte, Qualifier;
    SmallByte(d.continuous, 1);
    SmallByte(d.dataLength, 127);
    QualifierBits(ToByte(d.continuous), ToByte(d.dataLength));
  }

  // ----- The frame byte by byte -----

  /** The number of two bytes, the low one first. */
  function Pair(low: bv8, high: bv8): int { low as int + 256 * (high as int) }

  lemma PairOfBytes(n: int)
    requires 0 <= n < 65536
    ensures Pair(ToByte(n), ToByte(n / 256)) == n
  {
    hide ToByte;
    ToByteValue(n);
    ToByteValue(n / 256);
  }

  /** Which byte of the head is which field. */
  lemma HeadLayout(h: PacketHead, length: int)
    requires HeadFits(h) && 0 <= length < 65536
    ensures var s := HeadBytes(h, length);
            && s[0] == 0x55 && Pair(s[1], s[2]) == length && s[3] == 0x55
            && s[4] as int == h.srcAddr && s[5] as int == h.srcType && s[6] as int == h.destAddr && s[7] as int == h.destType
            && Pair(s[8], s[9]) == h.dataNumber
            && s[10] as int == h.networkA && s[11] as int == h.networkB && s[12] as int == h.backup1 && s[13] as int == h.backup2
  {
    hide ToByte, Pair;
    PairOfBytes(length);
    PairOfBytes(h.dataNumber);
    SmallByte(h.srcAddr, 255);
    SmallByte(h.srcType, 255);
    SmallByte(h.destAddr, 255);
    SmallByte(h.destType, 255);
    SmallByte(h.networkA, 255);
    SmallByte(h.networkB, 255);
    SmallByte(h.backup1, 255);
    SmallByte(h.backup2, 255);
  }

  /** Bit 6 is prm, bit 5 fcb, bit 4 fcv, and the low four bits the function. */
  predicate IsControl(c: bv8, d: PacketData, fun: int) {
    c < 0x80 && ((c >> 6) & 1) as int == d.prm && ((c >> 5) & 1) as int == d.fcb && ((c >> 4) & 1) as int == d.fcv
    && (c & 0x0F) as int == fun
  }

  /** Bit 7 says whether data are continuous, the others how many there are. */
  predicate IsQualifier(q: bv8, d: PacketData) { (q >> 7) as int == d.continuous && (q & 0x7F) as int == d.dataLength }

  /** The eight bytes before the data, of the type, cause and function type of the frame. */
  predicate IsHeader(t: seq<bv8>, d: PacketData, fun: int, typ: bv8, cause: bv8, functionType: bv8) {
    && |t| >= 8 && IsControl(t[0], d, fun) && t[1] as int == d.destAddr && t[2] == typ && t[4] == cause
    && t[5] as int == d.destAddr && t[6] == functionType && t[7] == 0
  }

  lemma HeaderLayout(d: PacketData, fun: int, typ: bv8, vsq: bv8, cause: bv8, functionType: bv8)
    requires DataFits(d) && 0 <= fun < 16
    ensures var t := Header(d, fun, typ, vsq, cause, functionType); IsHeader(t, d, fun, typ, cause, functionType) && t[3] == vsq
  {
    hide ToByte, ControlOf, IsControl;
    SmallByte(d.destAddr, 255);
    ControlLayout(d, fun);
  }

  lemma ControlLayout(d: PacketData, fun: int)
    requires DataFits(d) && 0 <= fun < 16
    ensures IsControl(ControlOf(d, fun), d, fun)
  {
    hide ToByte, Control;
    SmallByte(d.prm, 1);
    SmallByte(d.fcb, 1);
    SmallByte(d.fcv, 1);
    SmallByte(fun, 15);
    ControlBits(ToByte(d.prm), ToByte(d.fcb), ToByte(d.fcv), ToByte(fun));
    ControlTop(ToByte(d.prm), ToByte(d.fcb), ToByte(d.fcv), ToByte(fun));
  }

  lemma ControlTop(p: bv8, b: bv8, v: bv8, f: bv8)
    requires p <= 1 && b <= 1 && v <= 1 && f <= 15
    ensures Control(p, b, v, f) < 0x80
  {}

  lemma QualifierLayout(d: PacketData)
    requires DataFits(d)
    ensures IsQualifier(Qualifier(ToByte(d.continuous), ToByte(d.dataLength)), d)
  {
    hide ToByte, Qualifier;
    SmallByte(d.continuous, 1);
    SmallByte(d.dataLength, 127);
    QualifierBits(ToByte(d.continuous), ToByte(d.dataLength));
  }

  /** What is sent behind the head, for every kind of frame. */
  lemma BodyLayout(d: PacketData)
    requires DataFits(d)
    ensures var t := Body(d);
            match d.packetType
            case TypeNull => t == []
            case Confirm => |t| == 2 && IsControl(t[0], d, d.fun) && t[1] as int == d.destAddr
            case TimeSync => IsHeader(t, d, 3, 0x06, 0x08, 0xFF) && t[3] == 0x81 && t[8..] == d.data
            case RealData => IsHeader(t, d, 4, 0x09, 0x02, 0x90) && IsQualifier(t[3], d) && t[8..] == d.data
            case CtrlData => IsHeader(t, d, 3, 0x14, 0x14, 0x10) && IsQualifier(t[3], d) && t[8..] == d.data
  {
    hide ToByte, ControlOf, Qualifier, IsControl, IsQualifier, Header;
    var vsq := Qualifier(ToByte(d.continuous), ToByte(d.dataLength));
    QualifierLayout(d);
    match d.packetType
    case TypeNull =>
    case Confirm => SmallByte(d.destAddr, 255); ControlLayout(d, d.fun);
    case TimeSync => HeaderLayout(d, 3, 0x06, 0x81, 0x08, 0xFF);
    case RealData => HeaderLayout(d, 4, 0x09, vsq, 0x02, 0x90);
    case CtrlData => HeaderLayout(d, 3, 0x14, vsq, 0x14, 0x10);
  }

  /** A body in its frame: of fixed length, or between its length, twice the start byte and the end. */
  lemma AsduLayout(t: seq<bv8>)
    requires 0 < |t| < 65536
    ensures PackedAsdu(t, FixedLength) == [0x10] + t + [Sum(t), 0x16]
    ensures var s := PackedAsdu(t, VariableLength);
            && |s| == |t| + 6 && s[0] == 0x68 && Pair(s[1], s[2]) == |t| && s[3] == 0x68
            && s[4..|t| + 4] == t && s[|t| + 4] == Sum(t) && s[|t| + 5] == 0x16
  {
    hide ToByte, Sum, Pair;
    PairOfBytes(|t|);
  }

  lemma BodyRead(was: PacketData, d: PacketData)
    requires DataFits(d) && d.packetType != TypeNull
    ensures d.packetType == Confirm ==> |Body(d)| == 2 && Common(was, Body(d)) == Received(was, d)
    ensures d.packetType != Confirm ==> OfVariable(was, Body(d)) == if LacksAddress(d) then None else Some(Received(was, d))
  {
    hide ToByte, ControlOf, Qualifier, Bit, Word;
    if LacksAddress(d) {
      BodySize(d);
    } else {
      var t, k := Body(d), |d.data|;
      ControlFields(d, if d.packetType == Confirm then d.fun else if d.packetType == RealData then 4 else 3);
      QualifierFields(d);
      SmallByte(d.destAddr, 255);
      if d.packetType != Confirm {
        BehindHeader(t[..8], d.data);
        assert t == t[..8] + d.data;
      }
    }
  }

  lemma BehindHeader(head: seq<bv8>, data: seq<bv8>)
    requires |head| == 8
    ensures (head + data)[8..] == data
    ensures |data| >= 2 ==>
              (head + data)[10..] == data[2..] && (head + data)[8] == data[0] && (head + data)[9] == data[1]
  {}

  /**
   * Unpacking a packed frame recovers its head and what it carries, and keeps the receiver's other fields; but it reads
   * beyond a frame with data that lacks their address.
   */
  lemma FrameRoundTrip(was: PacketData, h: PacketHead, d: PacketData)
    requires HeadFits(h) && DataFits(d) && d.packetType != TypeNull
    ensures Unpack(was, Packed(h, d))
         == if LacksAddress(d) then BeyondMessage else Accepted(h.(length := |Packed(h, d)| - 4), Received(was, d))
  {
    hide HeadBytes, UnpackedHead, UnpackedAsdu, ToByte, Sum, Common, OfVariable, Received, Header, ControlOf;
    var b := Body(d);
    BodyRead(was, d);
    BodySize(d);
    if d.packetType == Confirm { FixedFrame(b); } else { VariableAccepted(Variable(b), b); }
    var asdu := PackedAsdu(b, if d.packetType == Confirm then FixedLength else VariableLength);
    HeadRoundTrip(h, asdu);
  }

  lemma FixedFrame(d: seq<bv8>)
    requires |d| == 2
    ensures UnpackedAsdu(Fixed(d)) == Some((d, FixedLength))
  {
    FixedAccepted(Fixed(d), d);
    assert Fixed(d)[..5] == Fixed(d);
  }

  // ----- When unpacking reads beyond the frame -----

  /** A body too short for the type it names, or for naming one. */
  predicate TooShort(t: seq<bv8>) { |t| < 6 || ((t[2] == TYP_REAL_DATA || t[2] == TYP_CTRL_DATA) && |t| < 10) }

  /** The string is a head and the variable-length framing of the body. */
  predicate Carries(s: seq<bv8>, t: seq<bv8>) {
    |t| < 65536 && UnpackedHead(s).Some? && UnpackedHead(s).value.1 == Variable(t)
  }

  /** Of all strings of bytes those make the source read beyond their end that carry a body too short. */
  lemma BeyondExactly(was: PacketData, s: seq<bv8>)
    ensures Unpack(was, s) == BeyondMessage <==> exists t :: Carries(s, t) && TooShort(t)
  {
    hide UnpackedHead, UnpackedAsdu, Variable, Common, Word, Bit;
    var head := UnpackedHead(s);
    if head != None {
      var rest := head.value.1;
      forall t ensures UnpackedAsdu(rest) == Some((t, VariableLength)) <==> rest == Variable(t) && |t| < 65536 {
        VariableAccepted(rest, t);
      }
      NotEmpty(rest);
      if Unpack(was, s) == BeyondMessage {
        var t := UnpackedAsdu(rest).value.0;
        assert Carries(s, t) && TooShort(t);
      }
    }
  }

  lemma NotEmpty(s: seq<bv8>)
    ensures forall t :: s == Variable(t) ==> s != []
  {}

  /** A head and a length are read back whatever the head's fields. */
  lemma HeadSplits(h: PacketHead, d: seq<bv8>)
    requires 10 + |d| < 65536
    ensures var u := UnpackedHead(HeadBytes(h, 10 + |d|) + d); u.Some? && u.value.1 == d
  {
    hide ToByte, Word;
    LengthBytes(10 + |d|);
    assert (HeadBytes(h, 10 + |d|) + d)[14..] == d;
  }

  /** For a framed body, under any head. */
  lemma FramedBeyondExactly(was: PacketData, h: PacketHead, t: seq<bv8>)
    requires |t| < 65520
    ensures Unpack(was, HeadBytes(h, 16 + |t|) + Variable(t)) == BeyondMessage <==> TooShort(t)
  {
    hide UnpackedHead, UnpackedAsdu, Variable, HeadBytes, Common, Word, Bit;
    VariableSize(t);
    HeadSplits(h, Variable(t));
    VariableAccepted(Variable(t), t);
  }

  lemma VariableSize(t: seq<bv8>)
    ensures |Variable(t)| == |t| + 6
  {}

  /** For what is packed, whatever the fields: exactly the frames with data that lack their address. */
  lemma PackedBeyondExactly(was: PacketData, h: PacketHead, d: PacketData)
    requires |d.data| < 65512 && d.packetType != TypeNull
    ensures Unpack(was, Packed(h, d)) == BeyondMessage <==> LacksAddress(d)
  {
    hide UnpackedHead, UnpackedAsdu, Variable, HeadBytes, Common, Word, Bit, Sum, ToByte, ControlOf, Qualifier;
    var b := Body(d);
    if d.packetType == Confirm {
      FixedFrame(b);
      HeadSplits(h, Fixed(b));
    } else {
      VariableSize(b);
      FramedBeyondExactly(was, h, b);
    }
  }

  /** An ASDU without a body, correctly framed, is enough. */
  lemma EmptyBodyIsBeyond(was: PacketData, h: PacketHead)
    ensures Unpack(was, HeadBytes(h, 16) + [VARIABLE_HEAD, 0, 0, VARIABLE_HEAD, 0, END]) == BeyondMessage
  {
    hide Unpack, HeadBytes;
    assert Variable([]) == [VARIABLE_HEAD, 0, 0, VARIABLE_HEAD, 0, END];
    FramedBeyondExactly(was, h, []);
  }

  lemma BodySize(d: PacketData)
    requires DataFits(d) && d.packetType != TypeNull
    ensures |Body(d)| == if d.packetType == Confirm then 2 else 8 + |d.data|
  {
    hide ToByte, ControlOf, Qualifier;
  }

  /** A head alone is unpacked as a frame without type. */
  lemma HeadAlone(was: PacketData, h: PacketHead)
    requires HeadFits(h)
    ensures Unpack(was, HeadBytes(h, 10)) == Accepted(h.(length := 10), was.(packetType := TypeNull))
  {
    hide HeadBytes, UnpackedHead;
    HeadRoundTrip(h, []);
    assert HeadBytes(h, 10) + [] == HeadBytes(h, 10);
  }

  // ----- Frame numbers -----

  predicate DataComparison(n1: int, n2: int) { (n1 < 10000 && n2 > 60000) || n1 > n2 }

  method DataNumber(n: int) returns (next: int)
    ensures 0 <= n < 65536 ==> next == (n + 1) % 65536
    ensures n >= 65535 ==> next == 0
    ensures n < 65535 ==> next == n + 1
  {
    if n >= 65535 { next := 0; } else { next := n + 1; }
  }

  /** A number k increments later counts as newer exactly if there was no wrap, or it went from above 60000 to below 10000. */
  lemma LaterIsNewer(n: nat, k: nat)
    requires n < 65536 && 0 < k < 65536
    ensures DataComparison((n + k) % 65536, n) <==> n + k < 65536 || (n > 60000 && n + k - 65536 < 10000)
  {}

  /** From any number, up to 5535 increments count as newer, and no more than that do from every number. */
  lemma NewerForSure(k: nat)
    requires 0 < k < 65536
    ensures (forall n: nat :: n < 65536 ==> DataComparison(Later(n, k), n)) <==> k <= 5535
  {
    if k > 5535 {
      var n := 60000;
      assert !DataComparison(Later(n, k), n);
    }
  }

  function Later(n: nat, k: nat): nat { (n + k) % 65536 }

  /** Two numbers count as newer than each other exactly across the wrap. */
  lemma NewerThanEachOther(a: int, b: int)
    ensures DataComparison(a, b) && DataComparison(b, a) <==> (a < 10000 && b > 60000) || (b < 10000 && a > 60000)
  {}
}
