/** libmodbus client and server over RTU, as far as coils go: requests, replies, confirmations (modbus.cpp). */
module LibmodbusCoils {
  import opened Crc16
  import opened Octets
  import opened Sequences
  import opened BitPacking
  import opened LibmodbusFraming
  import RtuLink

  const MAX_MESSAGE_LENGTH := 260
  const MAX_READ_BITS := 2000
  const MAX_WRITE_BITS := 1968
  const BROADCAST: bv8 := 0
  const ILLEGAL_DATA_ADDRESS: bv8 := 2
  const ILLEGAL_DATA_VALUE: bv8 := 3
  const EXCEPTION_MAX: bv8 := 12

  const READ_DISCRETE_INPUTS: bv8 := 0x02
  const READ_HOLDING_REGISTERS: bv8 := 0x03
  const READ_EXCEPTION_STATUS: bv8 := 0x07

  // ----- Messages -----

  /** A request header: slave, function, address, quantity or value. */
  function Basis(slave: bv8, code: bv8, addr: nat, nb: nat): (s: seq<bv8>)
    requires addr < 65536 && nb < 65536
  {
    [slave, code, HighByte(addr), LowByte(addr), HighByte(nb), LowByte(nb)]
  }

  function WriteRequest(slave: bv8, addr: nat, bits: seq<bool>): seq<bv8>
    requires addr < 65536 && |bits| <= MAX_WRITE_BITS
  {
    Basis(slave, WRITE_MULTIPLE_COILS, addr, |bits|) + [Byte(Bytes(|bits|))] + Pack(bits)
  }

  /** What receive_msg takes for a request about coils: as long as it says itself. */
  predicate CoilMessage(req: seq<bv8>) {
    && |req| >= 6
    && if req[1] == WRITE_MULTIPLE_COILS then |req| >= 7 && |req| == 7 + req[6] as nat
       else |req| == 6 && (req[1] == READ_COILS || req[1] == WRITE_SINGLE_COIL)
  }

  /** A request about coils whose values are all there and whose response fits the response buffer. */
  predicate CoilRequest(req: seq<bv8>) {
    && CoilMessage(req)
    && var nb := Word(req[4], req[5]);
       && (req[1] == READ_COILS ==> 3 + Bytes(nb) + 2 <= MAX_MESSAGE_LENGTH)
       && (req[1] == WRITE_MULTIPLE_COILS ==> Bytes(nb) <= req[6] as nat)
  }

  // ----- What the server does -----

  datatype Served = Served(coils: seq<bool>, response: seq<bv8>)

  function ExceptionResponse(req: seq<bv8>, code: bv8): seq<bv8>
    requires |req| >= 2
  {
    [req[0], req[1] + 0x80, code]
  }

  function ServeRead(coils: seq<bool>, head: seq<bv8>, addr: nat, nb: nat): (r: Served)
    requires |head| == 6 && (addr + nb <= |coils| ==> 3 + Bytes(nb) + 2 <= MAX_MESSAGE_LENGTH)
    ensures |r.coils| == |coils|
  {
    if addr + nb > |coils| then Served(coils, ExceptionResponse(head, ILLEGAL_DATA_ADDRESS))
    else Served(coils, [head[0], head[1], Byte(Bytes(nb))] + Pack(coils[addr..addr + nb]))
  }

  function ServeWriteBit(coils: seq<bool>, head: seq<bv8>, addr: nat, value: nat): (r: Served)
    requires |head| == 6
    ensures |r.coils| == |coils|
  {
    if addr >= |coils| then Served(coils, ExceptionResponse(head, ILLEGAL_DATA_ADDRESS))
    else if value == 0xFF00 || value == 0 then Served(coils[addr := value != 0], head)
    else Served(coils, ExceptionResponse(head, ILLEGAL_DATA_VALUE))
  }

  function ServeWrite(coils: seq<bool>, head: seq<bv8>, addr: nat, nb: nat, data: seq<bv8>): (r: Served)
    requires |head| == 6 && (addr + nb <= |coils| ==> nb <= 8 * |data|)
    ensures |r.coils| == |coils|
  {
    if addr + nb > |coils| then Served(coils, ExceptionResponse(head, ILLEGAL_DATA_ADDRESS))
    else Served(Overwritten(coils, addr, Unpack(data, nb)), head)
  }

  /** The coils after a request, and the response without its checksum; none to a request for another slave. */
  function Serve(own: bv8, coils: seq<bool>, req: seq<bv8>): (r: Served)
    requires CoilRequest(req)
    ensures |r.coils| == |coils|
  {
    var addr, value := Word(req[2], req[3]), Word(req[4], req[5]);
    if req[0] != own && req[0] != BROADCAST then Served(coils, [])
    else if req[1] == READ_COILS then ServeRead(coils, req[..6], addr, value)
    else if req[1] == WRITE_SINGLE_COIL then ServeWriteBit(coils, req[..6], addr, value)
    else ServeWrite(coils, req[..6], addr, value, req[7..7 + Bytes(value)])
  }

  /** For this server, of n coils, the message makes it write behind its response buffer or read behind the request buffer. */
  predicate Overruns(own: bv8, n: nat, req: seq<bv8>)
    requires CoilMessage(req)
  {
    var addr, nb := Word(req[2], req[3]), Word(req[4], req[5]);
    && (req[0] == own || req[0] == BROADCAST) && addr + nb <= n
    && if req[1] == READ_COILS then 3 + Bytes(nb) + 2 > MAX_MESSAGE_LENGTH
       else req[1] == WRITE_MULTIPLE_COILS && 7 + Bytes(nb) > MAX_MESSAGE_LENGTH
  }

  /** The same for the first n bytes of a request buffer, whatever their counts say. */
  function ServeBuffer(own: bv8, coils: seq<bool>, buf: seq<bv8>, n: nat): (r: Served)
    requires n <= |buf| == MAX_MESSAGE_LENGTH && CoilMessage(buf[..n]) && !Overruns(own, |coils|, buf[..n])
    ensures |r.coils| == |coils|
  {
    var addr, value := Word(buf[2], buf[3]), Word(buf[4], buf[5]);
    if buf[0] != own && buf[0] != BROADCAST then Served(coils, [])
    else if buf[1] == READ_COILS then ServeRead(coils, buf[..6], addr, value)
    else if buf[1] == WRITE_SINGLE_COIL then ServeWriteBit(coils, buf[..6], addr, value)
    else ServeWrite(coils, buf[..6], addr, value, if addr + value <= |coils| then buf[7..7 + Bytes(value)] else [])
  }

  lemma RequestIsServed(own: bv8, coils: seq<bool>, buf: seq<bv8>, n: nat)
    requires n <= |buf| == MAX_MESSAGE_LENGTH && CoilRequest(buf[..n])
    ensures !Overruns(own, |coils|, buf[..n]) && ServeBuffer(own, coils, buf, n) == Serve(own, coils, buf[..n])
  {
    hide Word, Unpack, Pack, Byte;
    assert buf[..n][..6] == buf[..6];
    if buf[1] == WRITE_MULTIPLE_COILS {
      var nb := Word(buf[4], buf[5]);
      assert buf[..n][7..7 + Bytes(nb)] == buf[7..7 + Bytes(nb)];
    }
  }

  /** The message makes this server write more coils than it has values for. */
  predicate LacksValues(own: bv8, n: nat, req: seq<bv8>)
    requires CoilMessage(req)
  {
    && (req[0] == own || req[0] == BROADCAST) && req[1] == WRITE_MULTIPLE_COILS
    && Word(req[2], req[3]) + Word(req[4], req[5]) <= n && Bytes(Word(req[4], req[5])) > req[6] as nat
  }

  /** What a message does depends on it alone, not on what else is in the buffer, exactly if it does not lack values. */
  lemma ServedByTheMessageAlone(own: bv8, coils: seq<bool>, buf: seq<bv8>, n: nat)
    requires n <= |buf| == MAX_MESSAGE_LENGTH && CoilMessage(buf[..n]) && !Overruns(own, |coils|, buf[..n])
    ensures (forall b | |b| == |buf| && b[..n] == buf[..n] :: ServeBuffer(own, coils, b, n) == ServeBuffer(own, coils, buf, n))
       <==> !LacksValues(own, |coils|, buf[..n])
  {
    hide CoilMessage, Overruns, LacksValues, ServeBuffer;
    if LacksValues(own, |coils|, buf[..n]) {
      var b := ServedOtherwise(own, coils, buf, n);
    } else {
      forall b | |b| == |buf| && b[..n] == buf[..n] ensures ServeBuffer(own, coils, b, n) == ServeBuffer(own, coils, buf, n) {
        ServedAlike(own, coils, buf, b, n);
      }
    }
  }

  lemma ServedAlike(own: bv8, coils: seq<bool>, buf: seq<bv8>, b: seq<bv8>, n: nat)
    requires n <= |buf| == |b| == MAX_MESSAGE_LENGTH && b[..n] == buf[..n]
    requires CoilMessage(buf[..n]) && !Overruns(own, |coils|, buf[..n]) && !LacksValues(own, |coils|, buf[..n])
    ensures ServeBuffer(own, coils, b, n) == ServeBuffer(own, coils, buf, n)
  {
    hide Word, ServeRead, ServeWriteBit, ServeWrite, Bytes;
    forall i | 0 <= i < n ensures b[i] == buf[i] { assert b[..n][i] == buf[..n][i]; }
    assert b[..6] == buf[..6];
    var nb := Word(buf[4], buf[5]);
    if buf[1] == WRITE_MULTIPLE_COILS && Bytes(nb) <= buf[6] as nat {
      assert b[7..7 + Bytes(nb)] == buf[7..7 + Bytes(nb)];
    }
  }

  lemma ServedOtherwise(own: bv8, coils: seq<bool>, buf: seq<bv8>, n: nat) returns (b: seq<bv8>)
    requires n <= |buf| == MAX_MESSAGE_LENGTH && CoilMessage(buf[..n])
    requires !Overruns(own, |coils|, buf[..n]) && LacksValues(own, |coils|, buf[..n])
    ensures |b| == |buf| && b[..n] == buf[..n] && ServeBuffer(own, coils, b, n) != ServeBuffer(own, coils, buf, n)
  {
    hide Word, Unpack, Overwritten;
    var addr, nb := Word(buf[2], buf[3]), Word(buf[4], buf[5]);
    b := OtherData(buf, nb);
    assert b[..n] == buf[..n] && b[..6] == buf[..6];
    OverwrittenDiffers(coils, addr, Unpack(b[7..7 + Bytes(nb)], nb), Unpack(buf[7..7 + Bytes(nb)], nb));
  }

  /** The same buffer but for the byte with the last of nb coils, in which that coil differs. */
  lemma OtherData(buf: seq<bv8>, nb: nat) returns (b: seq<bv8>)
    requires nb > 0 && 7 + Bytes(nb) <= |buf|
    ensures |b| == |buf| && forall i :: 0 <= i < |b| && i != 6 + Bytes(nb) ==> b[i] == buf[i]
    ensures Unpack(b[7..7 + Bytes(nb)], nb) != Unpack(buf[7..7 + Bytes(nb)], nb)
  {
    hide BitOf, WithBit;
    var at, j := 6 + Bytes(nb), (nb - 1) % 8;
    var was := buf[at];
    b := buf[at := if BitOf(was, j) then 0 else WithBit(was, j)];
    BitOfZero(j);
    BitOfWithBit(was, j, j);
    assert (nb - 1) / 8 == Bytes(nb) - 1;
    assert Unpack(b[7..7 + Bytes(nb)], nb)[nb - 1] != Unpack(buf[7..7 + Bytes(nb)], nb)[nb - 1];
  }

  // ----- What the client makes of the response -----

  datatype Error = TooManyData | InvalidData | InvalidCrc | InvalidException | Exception(code: bv8) | LinkError

  datatype Confirmation = Confirmed(count: nat) | Failed(error: Error)

  /** The length of the response to a request; -1 when only the response tells. */
  function ResponseLength(req: seq<bv8>): int
    requires |req| >= 6
  {
    var nb := Word(req[4], req[5]);
    if req[1] == READ_COILS || req[1] == READ_DISCRETE_INPUTS then 1 + 2 + Bytes(nb) + 2
    else if req[1] == WRITE_AND_READ_REGISTERS || req[1] == READ_HOLDING_REGISTERS || req[1] == READ_INPUT_REGISTERS
      then 1 + 2 + 2 * nb + 2
    else if req[1] == READ_EXCEPTION_STATUS then 1 + 3 + 2
    else if req[1] == REPORT_SLAVE_ID then -1
    else 1 + 5 + 2
  }

  /** The quantity asked for and the quantity given. */
  function Counts(req: seq<bv8>, rsp: seq<bv8>): (nat, nat)
    requires |req| >= 6 && |rsp| >= 5
    requires |rsp| == ResponseLength(req) || ResponseLength(req) == -1
    requires req[1] == rsp[1]
  {
    var nb := Word(req[4], req[5]);
    if req[1] == READ_COILS || req[1] == READ_DISCRETE_INPUTS then (Bytes(nb), rsp[2] as nat)
    else if req[1] == WRITE_AND_READ_REGISTERS || req[1] == READ_HOLDING_REGISTERS || req[1] == READ_INPUT_REGISTERS
      then (nb, rsp[2] as nat / 2)
    else if req[1] == WRITE_MULTIPLE_COILS || req[1] == WRITE_MULTIPLE_REGISTERS then (nb, Word(rsp[4], rsp[5]))
    else if req[1] == REPORT_SLAVE_ID then (rsp[2] as nat, rsp[2] as nat)
    else (1, 1)
  }

  /** Checks a response against its request and gives the number of values it is about. */
  function CheckConfirmation(req: seq<bv8>, rsp: seq<bv8>): Confirmation
    requires |req| >= 6 && |rsp| >= 5
  {
    var computed := ResponseLength(req);
    if |rsp| == computed || computed == -1 then
      if rsp[1] != req[1] then Failed(InvalidData)
      else
        var (asked, given) := Counts(req, rsp);
        if asked == given then Confirmed(given) else Failed(InvalidData)
    else if |rsp| == 5 && rsp[1] >= 0x80 && req[1] == rsp[1] - 0x80 then
      if rsp[2] < EXCEPTION_MAX then Failed(Exception(rsp[2])) else Failed(InvalidException)
    else Failed(InvalidData)
  }

  // ----- The messages byte by byte -----

  /** The number of two bytes, the high one first. */
  function Count(high: bv8, low: bv8): nat { high as nat * 256 + low as nat }

  lemma CountIsWord(high: bv8, low: bv8)
    ensures Count(high, low) == Word(high, low)
  {}

  /** A request to write coils, in numbers: flag i is bit i % 8 of byte 7 + i / 8. */
  lemma WriteRequestBytes(slave: bv8, addr: nat, bits: seq<bool>)
    requires addr < 65536 && |bits| <= MAX_WRITE_BITS
    ensures var req := WriteRequest(slave, addr, bits);
            && |req| == 7 + (|bits| + 7) / 8 && req[0] == slave && req[1] == 0x0F
            && Count(req[2], req[3]) == addr && Count(req[4], req[5]) == |bits| && req[6] as nat == (|bits| + 7) / 8
            && forall i :: 0 <= i < |bits| ==> BitOf(req[7 + i / 8], i % 8) == bits[i]
  {
    hide Pack, Byte, BitOf, Word, Count, WriteRequest;
    WriteRequestParts(slave, addr, bits);
    var req := WriteRequest(slave, addr, bits);
    CountIsWord(req[2], req[3]);
    CountIsWord(req[4], req[5]);
    assert req[6] == Byte(Bytes(|bits|)) by { WriteRequestCount(slave, addr, bits); }
    ByteValue(Bytes(|bits|));
    forall i | 0 <= i < |bits| ensures BitOf(req[7 + i / 8], i % 8) == bits[i] {
      PackedBit(bits, i);
      assert req[7..7 + Bytes(|bits|)][i / 8] == req[7 + i / 8];
    }
  }

  lemma WriteRequestCount(slave: bv8, addr: nat, bits: seq<bool>)
    requires addr < 65536 && |bits| <= MAX_WRITE_BITS
    ensures |WriteRequest(slave, addr, bits)| >= 7 && WriteRequest(slave, addr, bits)[6] == Byte(Bytes(|bits|))
  {
    hide Pack, Byte;
  }

  lemma ReadRequestBytes(slave: bv8, addr: nat, nb: nat)
    requires addr < 65536 && nb <= MAX_READ_BITS
    ensures var req := Basis(slave, READ_COILS, addr, nb);
            |req| == 6 && req[0] == slave && req[1] == 0x01 && Count(req[2], req[3]) == addr && Count(req[4], req[5]) == nb
  {
    hide Byte, Word, Count, Basis;
    ReadRequestParts(slave, addr, nb);
    var req := Basis(slave, READ_COILS, addr, nb);
    CountIsWord(req[2], req[3]);
    CountIsWord(req[4], req[5]);
  }

  /** The answer to a read in range: slave, code, number of bytes, and coil addr + i as bit i % 8 of byte 3 + i / 8. */
  lemma ReadResponseBytes(coils: seq<bool>, head: seq<bv8>, addr: nat, nb: nat)
    requires |head| == 6 && addr + nb <= |coils| && nb <= MAX_READ_BITS
    ensures var r := ServeRead(coils, head, addr, nb).response;
            && |r| == 3 + (nb + 7) / 8 && r[0] == head[0] && r[1] == head[1] && r[2] as nat == (nb + 7) / 8
            && forall i :: 0 <= i < nb ==> BitOf(r[3 + i / 8], i % 8) == coils[addr + i]
  {
    hide Pack, Byte, BitOf;
    ByteValue(Bytes(nb));
    var bits := coils[addr..addr + nb];
    forall i | 0 <= i < nb ensures BitOf(Pack(bits)[i / 8], i % 8) == coils[addr + i] { PackedBit(bits, i); }
  }

  /** A request to write one coil switches it on for 0xFF00 and off for 0, changes no other, and comes back; others are refused. */
  lemma SingleWriteIsServed(own: bv8, coils: seq<bool>, req: seq<bv8>)
    requires |req| == 6 && req[1] == 0x05 && (req[0] == own || req[0] == BROADCAST)
    ensures CoilRequest(req)
    ensures var addr, value := Count(req[2], req[3]), Count(req[4], req[5]);
            var r := Serve(own, coils, req);
            if addr >= |coils| then r.coils == coils && r.response == [req[0], 0x85, 2]
            else if value == 0xFF00 || value == 0x0000 then
              && r.response == req && r.coils[addr] == (value == 0xFF00)
              && forall j :: 0 <= j < |coils| && j != addr ==> r.coils[j] == coils[j]
            else r.coils == coils && r.response == [req[0], 0x85, 3]
  {
    hide Word, Count;
    CountIsWord(req[2], req[3]);
    CountIsWord(req[4], req[5]);
    assert req[..6] == req;
  }

  /** A request for another slave does nothing and gets no answer. */
  lemma OtherSlaveIsSilent(own: bv8, coils: seq<bool>, req: seq<bv8>)
    requires CoilRequest(req) && req[0] != own && req[0] != 0
    ensures Serve(own, coils, req) == Served(coils, [])
  {
    hide Word, Unpack, Pack;
  }

  /** What a response says of the values asked for, and how many it confirms. */
  predicate Agrees(req: seq<bv8>, rsp: seq<bv8>, n: nat)
    requires |req| >= 6 && |rsp| >= 5
  {
    var nb := Count(req[4], req[5]);
    if req[1] == 0x01 || req[1] == 0x02 then |rsp| == 5 + (nb + 7) / 8 && rsp[2] as nat == (nb + 7) / 8 == n
    else if req[1] == 0x03 || req[1] == 0x04 || req[1] == 0x17 then |rsp| == 5 + 2 * nb && rsp[2] as nat / 2 == nb == n
    else if req[1] == 0x0F || req[1] == 0x10 then |rsp| == 8 && Count(rsp[4], rsp[5]) == nb == n
    else if req[1] == 0x11 then rsp[2] as nat == n
    else |rsp| == (if req[1] == 0x07 then 6 else 8) && n == 1
  }

  /** For every function code, a response is confirmed exactly if it has the code, the length and the number asked for. */
  lemma ConfirmedExactly(req: seq<bv8>, rsp: seq<bv8>, n: nat)
    requires |req| >= 6 && |rsp| >= 5
    ensures CheckConfirmation(req, rsp) == Confirmed(n) <==> rsp[1] == req[1] && Agrees(req, rsp, n)
  {
    hide Word, Count;
    CountIsWord(req[4], req[5]);
    if |rsp| >= 6 { CountIsWord(rsp[4], rsp[5]); }
  }

  // ----- The two together -----

  lemma WriteRequestParts(slave: bv8, addr: nat, bits: seq<bool>)
    requires addr < 65536 && |bits| <= MAX_WRITE_BITS
    ensures var req := WriteRequest(slave, addr, bits);
            && CoilRequest(req) && Word(req[2], req[3]) == addr && Word(req[4], req[5]) == |bits|
            && |req| == 7 + Bytes(|bits|) && req[0] == slave && req[1] == WRITE_MULTIPLE_COILS
            && req[7..7 + Bytes(|bits|)] == Pack(bits)
  {
    hide Pack, Byte;
    WordOfBytes(addr);
    WordOfBytes(|bits|);
    ByteValue(Bytes(|bits|));
  }

  lemma WriteIsConfirmed(req: seq<bv8>, rsp: seq<bv8>)
    requires |req| >= 6 && |rsp| == 8 && rsp[..6] == req[..6] && req[1] == WRITE_MULTIPLE_COILS
    ensures CheckConfirmation(req, rsp) == Confirmed(Word(req[4], req[5]))
  {
    hide Word;
    assert forall i :: 0 <= i < 6 ==> rsp[..6][i] == rsp[i] && req[..6][i] == req[i];
  }

  lemma ReadIsConfirmed(req: seq<bv8>, rsp: seq<bv8>)
    requires |req| == 6 && |rsp| >= 5 && rsp[1] == req[1] == READ_COILS
    requires |rsp| == 5 + Bytes(Word(req[4], req[5])) && rsp[2] as nat == Bytes(Word(req[4], req[5]))
    ensures CheckConfirmation(req, rsp) == Confirmed(Bytes(Word(req[4], req[5])))
  {
    hide Word;
  }

  /** A write of coils in range sets exactly these and is confirmed with their number. */
  lemma WriteIsServed(slave: bv8, own: bv8, coils: seq<bool>, addr: nat, bits: seq<bool>)
    requires addr + |bits| <= |coils| && addr < 65536 && |bits| <= MAX_WRITE_BITS
    requires slave == own || slave == BROADCAST
    ensures var req := WriteRequest(slave, addr, bits);
            && CoilRequest(req)
            && var r := Serve(own, coils, req);
               && r.coils == Overwritten(coils, addr, bits)
               && |r.response| == 6 && CheckConfirmation(req, Sealed(r.response)) == Confirmed(|bits|)
  {
    hide Pack, Unpack, Sealed, Word, CheckConfirmation, WriteRequest, CoilRequest, Overwritten;
    WriteRequestParts(slave, addr, bits);
    UnpackPack(bits);
    var req := WriteRequest(slave, addr, bits);
    SealedStartsWith(req[..6]);
    WriteIsConfirmed(req, Sealed(req[..6]));
  }

  lemma SealedStartsWith(s: seq<bv8>)
    ensures |Sealed(s)| == |s| + 2 && Sealed(s)[..|s|] == s
  {
    hide Crc, High, Low;
  }

  /** A write that reaches beyond the coils changes none and is reported as an illegal address. */
  lemma WriteOutOfRange(slave: bv8, own: bv8, coils: seq<bool>, addr: nat, bits: seq<bool>)
    requires addr + |bits| > |coils| && addr < 65536 && |bits| <= MAX_WRITE_BITS
    requires slave == own || slave == BROADCAST
    ensures var req := WriteRequest(slave, addr, bits);
            && CoilRequest(req)
            && var r := Serve(own, coils, req);
               && r.coils == coils && |r.response| == 3
               && CheckConfirmation(req, Sealed(r.response)) == Failed(Exception(ILLEGAL_DATA_ADDRESS))
  {
    hide Pack, Unpack, Crc, High, Low, Word;
    WriteRequestParts(slave, addr, bits);
  }

  lemma ReadRequestParts(slave: bv8, addr: nat, nb: nat)
    requires addr < 65536 && nb <= MAX_READ_BITS
    ensures var req := Basis(slave, READ_COILS, addr, nb);
            && CoilRequest(req) && Word(req[2], req[3]) == addr && Word(req[4], req[5]) == nb
            && |req| == 6 && req[0] == slave && req[1] == READ_COILS
  {
    hide Byte;
    WordOfBytes(addr);
    WordOfBytes(nb);
  }

  /** A read of coils in range changes none, is confirmed, and carries their values. */
  lemma ReadIsServed(slave: bv8, own: bv8, coils: seq<bool>, addr: nat, nb: nat)
    requires addr + nb <= |coils| && addr < 65536 && nb <= MAX_READ_BITS
    requires slave == own || slave == BROADCAST
    ensures var req := Basis(slave, READ_COILS, addr, nb);
            && CoilRequest(req)
            && var r := Serve(own, coils, req);
               && r.coils == coils && |r.response| == 3 + Bytes(nb)
               && CheckConfirmation(req, Sealed(r.response)) == Confirmed(Bytes(nb))
               && Unpack(r.response[3..], nb) == coils[addr..addr + nb]
  {
    hide Pack, Unpack, Sealed, Word, Byte, CheckConfirmation, Basis, CoilRequest;
    ReadRequestParts(slave, addr, nb);
    ByteValue(Bytes(nb));
    UnpackPack(coils[addr..addr + nb]);
    var req := Basis(slave, READ_COILS, addr, nb);
    var r := Serve(own, coils, req);
    assert r.response[3..] == Pack(coils[addr..addr + nb]);
    SealedStartsWith(r.response);
    assert Sealed(r.response)[1] == r.response[1] && Sealed(r.response)[2] == r.response[2];
    ReadIsConfirmed(req, Sealed(r.response));
  }

  /**
   * A read that reaches beyond the coils is reported as an illegal address exactly when it asks for something: for no
   * coils at all the exception is as long as the response expected, and is taken for one with a wrong function code.
   */
  lemma ReadOutOfRange(slave: bv8, own: bv8, coils: seq<bool>, addr: nat, nb: nat)
    requires addr + nb > |coils| && addr < 65536 && nb <= MAX_READ_BITS
    requires slave == own || slave == BROADCAST
    ensures var req := Basis(slave, READ_COILS, addr, nb);
            && CoilRequest(req)
            && var r := Serve(own, coils, req);
               && r.coils == coils && |r.response| == 3
               && CheckConfirmation(req, Sealed(r.response))
                  == Failed(if nb > 0 then Exception(ILLEGAL_DATA_ADDRESS) else InvalidData)
  {
    hide Pack, Unpack, Crc, High, Low, Word;
    ReadRequestParts(slave, addr, nb);
  }

  /** What has been written is read back, whatever else was there, and the coils around it are as before. */
  lemma WrittenIsRead(slave: bv8, own: bv8, coils: seq<bool>, addr: nat, bits: seq<bool>)
    requires addr + |bits| <= |coils| && addr < 65536 && |bits| <= MAX_WRITE_BITS
    requires slave == own || slave == BROADCAST
    ensures var write, read := WriteRequest(slave, addr, bits), Basis(slave, READ_COILS, addr, |bits|);
            CoilRequest(write) && CoilRequest(read) &&
            var after := Serve(own, coils, write).coils;
            var r := Serve(own, after, read);
            && |r.response| == 3 + Bytes(|bits|) && Unpack(r.response[3..], |bits|) == bits
            && r.coils[..addr] == coils[..addr] && r.coils[addr + |bits|..] == coils[addr + |bits|..]
  {
    hide CheckConfirmation, Serve, Unpack, CoilRequest, WriteRequest, Basis, Sealed;
    WriteIsServed(slave, own, coils, addr, bits);
    var after := Overwritten(coils, addr, bits);
    ReadIsServed(slave, own, after, addr, |bits|);
    assert after[addr..addr + |bits|] == bits;
  }

  /** Every request the client builds and every response to it tells its own length and fits a frame. */
  lemma RequestsDelimit(req: seq<bv8>)
    requires CoilRequest(req) && |req| <= 254
    ensures SelfDelimiting(req[1..], Indication) && Sealed(req) == RtuLink.Frame(req[0], req[1..])
  {
    hide Crc, High, Low, Word;
    assert req == [req[0]] + req[1..];
  }

  lemma ResponsesDelimit(own: bv8, coils: seq<bool>, req: seq<bv8>)
    requires CoilRequest(req) && (req[0] == own || req[0] == BROADCAST)
    requires req[1] == READ_COILS ==> Word(req[4], req[5]) <= MAX_READ_BITS
    ensures var rsp := Serve(own, coils, req).response;
            && 3 <= |rsp| <= 253 && SelfDelimiting(rsp[1..], Confirmation)
            && Sealed(rsp) == RtuLink.Frame(rsp[0], rsp[1..])
  {
    hide Crc, High, Low, Pack, Unpack, Byte, Word;
    var rsp := Serve(own, coils, req).response;
    assert rsp == [rsp[0]] + rsp[1..];
    var nb := Word(req[4], req[5]);
    if req[1] == READ_COILS { ByteValue(Bytes(nb)); }
  }
}
