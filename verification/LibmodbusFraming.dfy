/**
 * How libmodbus cuts RTU messages out of a byte stream that arrives in pieces of any size (modbus.cpp), and how it
 * seals and checks them (modbus-rtu.cpp).
 */
module LibmodbusFraming {
  import opened Crc16
  import RtuLink

  const MAX_ADU_LENGTH := 256

  const READ_COILS: bv8 := 0x01
  const READ_INPUT_REGISTERS: bv8 := 0x04
  const WRITE_SINGLE_COIL: bv8 := 0x05
  const WRITE_SINGLE_REGISTER: bv8 := 0x06
  const WRITE_MULTIPLE_COILS: bv8 := 0x0F
  const WRITE_MULTIPLE_REGISTERS: bv8 := 0x10
  const REPORT_SLAVE_ID: bv8 := 0x11
  const WRITE_AND_READ_REGISTERS: bv8 := 0x17

  datatype MsgType = Indication | Confirmation

  // ----- Where a message ends -----

  /** The bytes to read after the function code before the rest of the message can be measured. */
  function MetaLength(code: bv8, t: MsgType): (n: nat)
    ensures n <= 9
  {
    match t
    case Indication =>
      if code <= WRITE_SINGLE_REGISTER then 4
      else if code == WRITE_MULTIPLE_COILS || code == WRITE_MULTIPLE_REGISTERS then 5
      else if code == WRITE_AND_READ_REGISTERS then 9
      else 0
    case Confirmation =>
      if code == WRITE_SINGLE_COIL || code == WRITE_SINGLE_REGISTER || code == WRITE_MULTIPLE_COILS
         || code == WRITE_MULTIPLE_REGISTERS then 4
      else 1
  }

  /** Whether a stream reaches to the end of the part that tells a message's length. */
  predicate HasHead(s: seq<bv8>, t: MsgType) { |s| >= 2 && |s| >= HeadLength(s, t) }

  function HeadLength(s: seq<bv8>, t: MsgType): nat
    requires |s| >= 2
  {
    2 + MetaLength(s[1], t)
  }

  /** The bytes that follow the head: data and checksum. */
  function DataLength(s: seq<bv8>, t: MsgType): (n: nat)
    requires HasHead(s, t)
    ensures n >= 2
  {
    var length: int := match t
      case Indication =>
        if s[1] == WRITE_MULTIPLE_COILS || s[1] == WRITE_MULTIPLE_REGISTERS then s[6] as int
        else if s[1] == WRITE_AND_READ_REGISTERS then s[10] as int
        else 0
      case Confirmation =>
        if s[1] <= READ_INPUT_REGISTERS || s[1] == REPORT_SLAVE_ID || s[1] == WRITE_AND_READ_REGISTERS then s[2] as int
        else 0;
    length + 2
  }

  function AduLength(s: seq<bv8>, t: MsgType): nat
    requires HasHead(s, t)
  {
    HeadLength(s, t) + DataLength(s, t)
  }

  /** The stream holds the whole of its first message, or enough of it to see that it is too long. */
  predicate Complete(s: seq<bv8>, t: MsgType) {
    HasHead(s, t) && (AduLength(s, t) <= MAX_ADU_LENGTH ==> |s| >= AduLength(s, t))
  }

  /** The bytes read for the first message of a stream. */
  function Needed(s: seq<bv8>, t: MsgType): nat
    requires HasHead(s, t)
  {
    if AduLength(s, t) <= MAX_ADU_LENGTH then AduLength(s, t) else HeadLength(s, t)
  }

  datatype Received = Message(length: nat) | BadData | BadCrc | ConnectionReset | TimedOut

  predicate IsSealed(s: seq<bv8>) { |s| >= 2 && s == Sealed(s[..|s| - 2]) }

  /** What receiving the first message of a stream comes to, however the stream is cut. */
  function Verdict(s: seq<bv8>, t: MsgType): Received
    requires Complete(s, t)
  {
    if AduLength(s, t) > MAX_ADU_LENGTH then BadData
    else if IsSealed(s[..AduLength(s, t)]) then Message(AduLength(s, t))
    else BadCrc
  }

  lemma LengthOfPrefix(s: seq<bv8>, t: MsgType, k: nat)
    requires 2 <= k <= |s| && HeadLength(s, t) <= k
    ensures HasHead(s[..k], t) && HasHead(s, t) && AduLength(s[..k], t) == AduLength(s, t)
  {}

  lemma LengthIgnoresAddress(s: seq<bv8>, u: seq<bv8>, t: MsgType)
    requires HasHead(s, t) && |s| <= |u| && forall i :: 1 <= i < |s| ==> s[i] == u[i]
    ensures HasHead(u, t) && AduLength(u, t) == AduLength(s, t) && HeadLength(u, t) == HeadLength(s, t)
  {}

  /** A message that tells its own length: its PDU has as many bytes as its head announces. */
  predicate SelfDelimiting(pdu: seq<bv8>, t: MsgType) {
    HasHead([0] + pdu, t) && AduLength([0] + pdu, t) == |pdu| + 3
  }

  /**
   * A frame sealed by either Modbus stack is received by libmodbus as it was sent and leaves whatever follows it, for
   * every self-delimiting PDU of at most 253 bytes.
   */
  lemma FrameIsReceived(address: bv8, pdu: seq<bv8>, next: seq<bv8>, t: MsgType)
    requires SelfDelimiting(pdu, t) && |pdu| <= 253
    ensures var f := RtuLink.Frame(address, pdu);
            Complete(f + next, t) && Verdict(f + next, t) == Message(|f|) && (f + next)[..|f|] == f
    ensures Needed(RtuLink.Frame(address, pdu) + next, t) == |RtuLink.Frame(address, pdu)|
  {
    hide Crc, High, Low, MetaLength, DataLength;
    var f, body := RtuLink.Frame(address, pdu), [0] + pdu;
    assert f == [address] + pdu + f[|pdu| + 1..];
    assert forall i :: 1 <= i <= |pdu| ==> (f + next)[i] == pdu[i - 1] == body[i];
    LengthIgnoresAddress(body, f + next, t);
    assert f[..|f| - 2] == [address] + pdu;
    assert (f + next)[..|f|] == f;
  }

  /** The requests of the Modbus application protocol, byte by byte; other function codes stand alone. */
  predicate IsRequest(pdu: seq<bv8>) {
    |pdu| >= 1 &&
    if pdu[0] <= 0x06 then |pdu| == 5
    else if pdu[0] == 0x0F || pdu[0] == 0x10 then |pdu| >= 6 && |pdu| == 6 + pdu[5] as nat
    else if pdu[0] == 0x17 then |pdu| >= 10 && |pdu| == 10 + pdu[9] as nat
    else |pdu| == 1
  }

  /** Its responses: counted values, echoes, and for all other codes, those of exceptions among them, one byte more. */
  predicate IsResponse(pdu: seq<bv8>) {
    |pdu| >= 1 &&
    if pdu[0] <= 0x04 || pdu[0] == 0x11 || pdu[0] == 0x17 then |pdu| >= 2 && |pdu| == 2 + pdu[1] as nat
    else if pdu[0] == 0x05 || pdu[0] == 0x06 || pdu[0] == 0x0F || pdu[0] == 0x10 then |pdu| == 5
    else |pdu| == 2
  }

  predicate IsPdu(pdu: seq<bv8>, t: MsgType) { if t == Indication then IsRequest(pdu) else IsResponse(pdu) }

  /** These and no other PDUs tell their own length. */
  lemma DelimitsExactly(pdu: seq<bv8>, t: MsgType)
    ensures SelfDelimiting(pdu, t) <==> IsPdu(pdu, t)
  {
    if pdu != [] {
      var s := [0] + pdu;
      assert |s| == |pdu| + 1 && forall i :: 0 <= i < |pdu| ==> s[i + 1] == pdu[i];
    }
  }

  /** Every request and every response of up to 253 bytes is received as it was sent, and nothing of what follows it is read. */
  lemma EveryMessageIsReceived(address: bv8, pdu: seq<bv8>, next: seq<bv8>, t: MsgType)
    requires IsPdu(pdu, t) && |pdu| <= 253
    ensures var f := RtuLink.Frame(address, pdu);
            && Complete(f + next, t) && Verdict(f + next, t) == Message(|pdu| + 3) && (f + next)[..|f|] == f
            && Needed(f + next, t) == |f| == |pdu| + 3
  {
    hide Crc, High, Low, SelfDelimiting, Complete, Verdict;
    DelimitsExactly(pdu, t);
    FrameIsReceived(address, pdu, next, t);
  }

  /** The response to reading one register, as seven bytes. */
  lemma RegisterIsReceived(next: seq<bv8>)
    ensures var pdu := [0x03, 0x02, 0x00, 0x05];
            && RtuLink.Frame(0x01, pdu) == [0x01, 0x03, 0x02, 0x00, 0x05, 0x78, 0x47]
            && Verdict(RtuLink.Frame(0x01, pdu) + next, Confirmation) == Message(7)
  {
    hide Crc, Verdict;
    var pdu := [0x03, 0x02, 0x00, 0x05];
    CrcOfResponse();
    assert [0x01] + pdu == [0x01, 0x03, 0x02, 0x00, 0x05];
    assert Low(0x4778) == 0x78 && High(0x4778) == 0x47;
    EveryMessageIsReceived(0x01, pdu, next, Confirmation);
  }

  /** What libmodbus seals is what FreeModbus takes as a frame for the address in its first byte. */
  lemma SealedIsFrame(body: seq<bv8>)
    requires 2 <= |body| <= 253
    ensures Sealed(body) == RtuLink.Frame(body[0], body[1..])
    ensures RtuLink.Decode(Sealed(body)) == RtuLink.Accepted(body[0], body[1..])
  {
    hide Crc;
    assert body == [body[0]] + body[1..];
    RtuLink.DeliveryOfFrames(body[0], body[1..]);
  }

  // ----- Sealing and checking -----

  /** A message is sealed exactly if its checksum over all of it is zero. */
  lemma SealedExactly(s: seq<bv8>)
    requires |s| >= 2
    ensures IsSealed(s) <==> Crc(s) == 0
  {
    hide Crc, Low, High;
    var front, a, b := s[..|s| - 2], s[|s| - 2], s[|s| - 1];
    assert s == front + [a, b];
    ResidueIsZeroExactlyWhenSealed(front, a, b);
    LastTwo(s, front, Low(Crc(front)), High(Crc(front)));
  }

  lemma LastTwo<T>(s: seq<T>, front: seq<T>, a: T, b: T)
    requires |s| == |front| + 2 && s[..|front|] == front
    ensures s == front + [a, b] <==> s[|s| - 2] == a && s[|s| - 1] == b
  {
    if s[|s| - 2] == a && s[|s| - 1] == b { assert s == front + [a, b]; }
  }

  /** Appends the checksum. */
  method SendMsgPre(req: array<bv8>, length: nat) returns (total: nat)
    requires length + 2 <= req.Length
    modifies req
    ensures total == length + 2 && req[..total] == Sealed(old(req[..length]))
    ensures req[total..] == old(req[total..])
  {
    hide Crc, Join, High, Low;
    var crc := Crc16.Crc16(req, length);
    ghost var c := Crc(req[..length]);
    JoinIsInjective(Low(c), High(c));
    req[length] := High(crc);
    req[length + 1] := Low(crc);
    total := length + 2;
  }

  method CheckIntegrity(msg: array<bv8>, length: nat) returns (rc: Received)
    requires 2 <= length <= msg.Length
    ensures rc == if IsSealed(msg[..length]) then Message(length) else BadCrc
  {
    hide Crc, Join, High, Low;
    var calculated := Crc16.Crc16(msg, length - 2);
    var received := Join(msg[length - 2], msg[length - 1]);
    ghost var c := Crc(msg[..length - 2]);
    JoinIsInjective(Low(c), High(c));
    JoinIsInjective(msg[length - 2], msg[length - 1]);
    assert msg[..length][..length - 2] == msg[..length - 2];
    if calculated == received { return Message(length); }
    return BadCrc;
  }

  // ----- Receiving -----

  /** The receiving end of a line: the bytes on their way and how many each read will find of them. */
  class Link {
    var incoming: seq<bv8>
    var pieces: seq<nat>

    constructor (incoming: seq<bv8>, pieces: seq<nat>)
      ensures this.incoming == incoming && this.pieces == pieces
    {
      this.incoming, this.pieces := incoming, pieces;
    }

    /** Waits and pieces up to the number of bytes wanted; -1 when the wait times out. */
    method Recv(buf: array<bv8>, at: nat, wanted: nat) returns (rc: int)
      requires at + wanted <= buf.Length
      modifies this, buf
      ensures pieces == if old(pieces) == [] then [] else old(pieces)[1..]
      ensures old(pieces) == [] ==> rc == -1 && incoming == old(incoming) && buf[..] == old(buf[..])
      ensures old(pieces) != [] ==> rc == Least(old(pieces[0]), wanted, |old(incoming)|)
      ensures old(pieces) != [] ==>
                && incoming == old(incoming)[rc..]
                && buf[..] == old(buf[..at]) + old(incoming)[..rc] + old(buf[at + rc..])
    {
      if pieces == [] { return -1; }
      var n := Least(pieces[0], wanted, |incoming|);
      forall k | 0 <= k < n { buf[at + k] := incoming[k]; }
      pieces, incoming := pieces[1..], incoming[n..];
      return n;
    }
  }

  function Least(a: nat, b: nat, c: nat): nat {
    if a <= b && a <= c then a else if b <= c then b else c
  }

  /** Every read finds something, and there are enough of them for any message. */
  predicate Healthy(pieces: seq<nat>, n: nat) {
    |pieces| >= n && forall i :: 0 <= i < |pieces| ==> pieces[i] >= 1
  }

  datatype Step = StepFunction | StepMeta | StepData

  /** How far reading has come: what has been read decides what is still to be read. */
  ghost predicate Reading(s: seq<bv8>, t: MsgType, step: Step, n: nat, toRead: nat) {
    && n <= |s| && n + toRead <= MAX_ADU_LENGTH
    && match step
       case StepFunction => n + toRead == 2
       case StepMeta => n >= 2 && n + toRead == HeadLength(s, t)
       case StepData => HasHead(s, t) && n >= HeadLength(s, t) && n + toRead == AduLength(s, t)
  }

  /** What is to be read once the present step's bytes have all arrived; nothing when the message is too long. */
  method Advance(msg: array<bv8>, length: nat, t: MsgType, step: Step, ghost s: seq<bv8>) returns (next: Step, toRead: nat)
    requires length <= |s| && length <= msg.Length && msg[..length] == s[..length]
    requires step != StepData && Reading(s, t, step, length, 0)
    ensures toRead == 0 ==> HasHead(s, t) && AduLength(s, t) > MAX_ADU_LENGTH && length == HeadLength(s, t)
    ensures toRead > 0 ==> Reading(s, t, next, length, toRead)
  {
    hide DataLength, MetaLength;
    assert msg[1] == s[1];
    if step == StepFunction {
      toRead := MetaLength(msg[1], t);
      if toRead != 0 { return StepMeta, toRead; }
    }
    LengthOfPrefix(s, t, length);
    toRead := DataLength(msg[..length], t);
    next := StepData;
    if length + toRead > MAX_ADU_LENGTH { toRead := 0; }
  }

  /** The first n bytes of the stream are in the message buffer, and as many pieces at most have been used up. */
  ghost predicate HasRead(link: Link, msg: array<bv8>, s: seq<bv8>, pieces: seq<nat>, n: nat)
    reads link, msg
  {
    && n <= |s| && n <= msg.Length && link.incoming == s[n..] && msg[..n] == s[..n]
    && |link.pieces| <= |pieces| <= |link.pieces| + n && link.pieces == pieces[|pieces| - |link.pieces|..]
  }

  /** One read; it finds nothing only when the pieces or the stream are at an end. */
  method ReadMore(link: Link, msg: array<bv8>, n: nat, toRead: nat, ghost s: seq<bv8>, ghost pieces: seq<nat>)
    returns (rc: int)
    requires HasRead(link, msg, s, pieces, n) && 0 < toRead && n + toRead <= msg.Length
    modifies link, msg
    ensures rc <= 0 ==> n == |s| || !Healthy(pieces, n + 1)
    ensures rc == -1 ==> link.pieces == []
    ensures rc > 0 ==> rc <= toRead && HasRead(link, msg, s, pieces, n + rc) && |link.pieces| < |old(link.pieces)|
  {
    assert link.pieces != [] ==> link.pieces[0] == pieces[|pieces| - |link.pieces|];
    rc := link.Recv(msg, n, toRead);
    assert rc > 0 ==> s[..n + rc] == s[..n] + s[n..][..rc];
  }

  /** Reads one message, and of the bytes that follow it none. */
  method ReceiveMsg(link: Link, msg: array<bv8>, t: MsgType) returns (rc: Received)
    requires msg.Length >= MAX_ADU_LENGTH
    modifies link, msg
    ensures var s := old(link.incoming);
            if rc.Message? || rc.BadData? || rc.BadCrc?
            then && Complete(s, t) && rc == Verdict(s, t) && Needed(s, t) <= |s|
                 && HasRead(link, msg, s, old(link.pieces), Needed(s, t))
            else !(Complete(s, t) && Healthy(old(link.pieces), Needed(s, t)))
    ensures rc.TimedOut? ==> link.pieces == []
  {
    hide DataLength, MetaLength, HasRead;
    ghost var s, pieces := link.incoming, link.pieces;
    StartRead(link, msg);
    var msgLength, toRead := 0, 2;
    var step := StepFunction;
    while toRead != 0
      invariant 0 <= msgLength && 0 <= toRead && Reading(s, t, step, msgLength, toRead)
      invariant toRead == 0 ==> step == StepData
      invariant HasRead(link, msg, s, pieces, msgLength)
      decreases |link.pieces|
    {
      var n := ReadMore(link, msg, msgLength, toRead, s, pieces);
      if n == -1 { return TimedOut; }
      if n <= 0 { return ConnectionReset; }
      msgLength := msgLength + n;
      toRead := toRead - n;
      if toRead == 0 && step != StepData {
        SameBytes(link, msg, s, pieces, msgLength);
        step, toRead := Advance(msg, msgLength, t, step, s);
        if toRead == 0 { return BadData; }
      }
    }
    SameBytes(link, msg, s, pieces, msgLength);
    rc := CheckIntegrity(msg, msgLength);
  }

  lemma StartRead(link: Link, msg: array<bv8>)
    ensures HasRead(link, msg, link.incoming, link.pieces, 0)
  {}

  lemma SameBytes(link: Link, msg: array<bv8>, s: seq<bv8>, pieces: seq<nat>, n: nat)
    requires HasRead(link, msg, s, pieces, n)
    ensures n <= |s| && n <= msg.Length && msg[..n] == s[..n]
  {}
}
