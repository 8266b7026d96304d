/** The libmodbus server and client as they work on their buffers and on the coil table (modbus.cpp, modbus-rtu.cpp). */
module LibmodbusPeers {
  import opened Crc16
  import opened Octets
  import opened Sequences
  import opened BitPacking
  import opened LibmodbusFraming
  import opened LibmodbusCoils

  class Server {
    const slave: bv8
    /** One coil a cell. */
    const tabBits: array<bv8>

    /** Every cell holds a bit, which packing responses relies on. */
    ghost predicate Valid()
      reads tabBits
    {
      AllBits(tabBits[..])
    }

    ghost function Coils(): seq<bool>
      reads tabBits
    {
      Bits(tabBits[..])
    }

    constructor (slave: bv8, coils: nat)
      ensures Valid() && this.slave == slave && fresh(tabBits) && |Coils()| == coils
    {
      this.slave := slave;
      tabBits := new bv8[coils](_ => 0);
    }

    method ResponseException(req: array<bv8>, code: bv8, rsp: array<bv8>) returns (length: nat)
      requires req.Length >= 2 && rsp.Length == MAX_MESSAGE_LENGTH && req != rsp
      modifies rsp
      ensures length == 3 && rsp[..3] == [req[0], req[1] + 0x80, code]
    {
      rsp[0], rsp[1], rsp[2] := req[0], req[1] + 0x80, code;
      length := 3;
    }

    method ReplyToRead(req: array<bv8>, address: nat, nb: nat, rsp: array<bv8>, ghost head: seq<bv8>)
      returns (length: nat)
      requires Valid() && req.Length >= 6 && req[..6] == head
      requires address + nb <= tabBits.Length ==> 3 + Bytes(nb) + 2 <= MAX_MESSAGE_LENGTH
      requires rsp.Length == MAX_MESSAGE_LENGTH && rsp != req && rsp != tabBits && req != tabBits
      modifies rsp
      ensures length + 2 <= rsp.Length
      ensures Served(Coils(), rsp[..length]) == ServeRead(Coils(), head, address, nb)
    {
      hide Pack, Byte, Bits;
      if address + nb > tabBits.Length {
        length := ResponseException(req, ILLEGAL_DATA_ADDRESS, rsp);
      } else {
        rsp[0], rsp[1], rsp[2] := req[0], req[1], Byte(Bytes(nb));
        BitsOfRange(tabBits[..], address, nb);
        assert tabBits[..][address..address + nb] == tabBits[address..address + nb];
        length := ResponseIoStatus(tabBits, address, nb, rsp, 3);
      }
    }

    method ReplyToWriteBit(req: array<bv8>, reqLength: nat, address: nat, data: nat, rsp: array<bv8>,
                           ghost head: seq<bv8>)
      returns (length: nat)
      requires Valid() && reqLength == 6 <= req.Length && req[..6] == head
      requires rsp.Length == MAX_MESSAGE_LENGTH && rsp != req && rsp != tabBits && req != tabBits
      modifies rsp, tabBits
      ensures Valid() && length + 2 <= rsp.Length
      ensures Served(Coils(), rsp[..length]) == ServeWriteBit(old(Coils()), head, address, data)
    {
      if address >= tabBits.Length {
        length := ResponseException(req, ILLEGAL_DATA_ADDRESS, rsp);
      } else if data == 0xFF00 || data == 0x0 {
        tabBits[address] := if data != 0 then 1 else 0;
        assert Coils() == old(Coils())[address := data != 0];
        forall i | 0 <= i < reqLength { rsp[i] := req[i]; }
        length := reqLength;
        assert rsp[..length] == head;
      } else {
        length := ResponseException(req, ILLEGAL_DATA_VALUE, rsp);
      }
    }

    method ReplyToWrite(req: array<bv8>, address: nat, nb: nat, rsp: array<bv8>, ghost head: seq<bv8>, ghost data: seq<bv8>)
      returns (length: nat)
      requires Valid() && req.Length >= 6 && req[..6] == head
      requires address + nb <= tabBits.Length ==> 7 + Bytes(nb) <= req.Length && req[7..7 + Bytes(nb)] == data
      requires rsp.Length == MAX_MESSAGE_LENGTH && rsp != req && rsp != tabBits && req != tabBits
      modifies rsp, tabBits
      ensures Valid() && length + 2 <= rsp.Length
      ensures Served(Coils(), rsp[..length]) == ServeWrite(old(Coils()), head, address, nb, data)
    {
      hide Unpack, Bits;
      if address + nb > tabBits.Length {
        length := ResponseException(req, ILLEGAL_DATA_ADDRESS, rsp);
      } else {
        ghost var was := tabBits[..];
        SetBitsFromBytes(tabBits, address, nb, req, 7);
        BitsReplaced(was, tabBits[..], address, nb);
        assert tabBits[..][address..address + nb] == tabBits[address..address + nb];
        rsp[0], rsp[1] := req[0], req[1];
        rsp[2], rsp[3], rsp[4], rsp[5] := req[2], req[3], req[4], req[5];
        length := 6;
        assert rsp[..6] == head;
      }
    }

    /**
     * Carries out a request about coils and sends its response. It overruns a buffer exactly for a count in range that is
     * too large for the response, or whose values would reach beyond the request buffer.
     */
    method Reply(req: array<bv8>, reqLength: nat) returns (overrun: bool, wire: seq<bv8>)
      requires Valid() && req.Length == MAX_MESSAGE_LENGTH && 2 <= reqLength <= req.Length && req != tabBits
      requires CoilMessage(req[..reqLength - 2])
      modifies tabBits
      ensures Valid() && (overrun <==> Overruns(slave, |old(Coils())|, req[..reqLength - 2]))
      ensures !overrun ==>
                var r := ServeBuffer(slave, old(Coils()), req[..], reqLength - 2);
                Coils() == r.coils && wire == if r.response == [] then [] else Sealed(r.response)
    {
      hide ServeBuffer, CoilMessage, Overruns, ServeRead, ServeWriteBit, ServeWrite, Crc, High, Low, Word, AllBits;
      ghost var buf, n := req[..], reqLength - 2;
      BufferForm(slave, Coils(), buf, n);
      assert buf[..n] == req[..n];
      ghost var head := buf[..6];
      var rsp := new bv8[MAX_MESSAGE_LENGTH];
      overrun := false;
      if req[0] != slave && req[0] != BROADCAST { return false, []; }
      var address, value := Word(req[2], req[3]), Word(req[4], req[5]);
      var length;
      if req[1] == READ_COILS {
        if address + value <= tabBits.Length && 3 + Bytes(value) + 2 > MAX_MESSAGE_LENGTH { return true, []; }
        length := ReplyToRead(req, address, value, rsp, head);
      } else if req[1] == WRITE_SINGLE_COIL {
        length := ReplyToWriteBit(req, reqLength - 2, address, value, rsp, head);
      } else {
        if address + value <= tabBits.Length && 7 + Bytes(value) > MAX_MESSAGE_LENGTH { return true, []; }
        ghost var data := if address + value <= tabBits.Length then buf[7..7 + Bytes(value)] else [];
        length := ReplyToWrite(req, address, value, rsp, head, data);
      }
      var total := SendMsgPre(rsp, length);
      wire := rsp[..total];
    }

    /** One turn of a server: waits for a request and replies to it. */
    method ReceiveAndReply(wire: seq<bv8>, pieces: seq<nat>, ghost request: seq<bv8>) returns (reply: seq<bv8>)
      requires Valid() && CoilRequest(request) && |request| <= 254 && wire == Sealed(request)
      modifies tabBits
      ensures Valid()
      ensures var r := Serve(slave, old(Coils()), request);
              || (Coils() == r.coils && reply == if r.response == [] then [] else Sealed(r.response))
              || (Coils() == old(Coils()) && reply == [] && !Healthy(pieces, |wire|))
    {
      hide Serve, ServeBuffer, Overruns, Crc, High, Low, CoilMessage, IsSealed, Complete, Needed, HasRead;
      var line := new Link(wire, pieces);
      var req := new bv8[MAX_MESSAGE_LENGTH];
      RequestsDelimit(request);
      FrameIsReceived(request[0], request[1..], [], Indication);
      assert wire + [] == wire;
      var rc := ReceiveMsg(line, req, Indication);
      if rc.Message? {
        SameBytes(line, req, wire, pieces, rc.length);
        assert req[..rc.length - 2] == request by {
          assert wire[..rc.length - 2] == request;
          PrefixOfPrefix(req[..], rc.length, rc.length - 2);
        }
        RequestIsServed(slave, Coils(), req[..], rc.length - 2);
        var overrun;
        overrun, reply := Reply(req, rc.length);
      } else {
        reply := [];
      }
    }
  }

  class Client {
    /** The slave spoken to. */
    const slave: bv8

    constructor (slave: bv8)
      ensures this.slave == slave
    {
      this.slave := slave;
    }

    method BuildRequestBasis(code: bv8, addr: nat, nb: nat, req: array<bv8>) returns (length: nat)
      requires addr < 65536 && nb < 65536 && req.Length >= 6
      modifies req
      ensures length == 6 && req[..6] == Basis(slave, code, addr, nb)
    {
      req[0], req[1], req[2], req[3] := slave, code, HighByte(addr), LowByte(addr);
      req[4], req[5] := HighByte(nb), LowByte(nb);
      length := 6;
    }

    /** Waits for the response to a request and checks it. */
    method ReceiveConfirmed(request: seq<bv8>, reply: seq<bv8>, pieces: seq<nat>, rsp: array<bv8>, ghost response: seq<bv8>)
      returns (c: Confirmation)
      requires rsp.Length == MAX_MESSAGE_LENGTH && |request| >= 6
      requires reply == [] || (3 <= |response| <= 253 && reply == Sealed(response) && SelfDelimiting(response[1..], Confirmation))
      modifies rsp
      ensures if reply != [] && c != Failed(LinkError)
              then c == CheckConfirmation(request, reply) && |reply| <= rsp.Length && rsp[..|reply|] == reply
              else c == Failed(LinkError)
      ensures reply != [] && c == Failed(LinkError) ==> !Healthy(pieces, |reply|)
    {
      hide Crc, High, Low, IsSealed, HasRead, CheckConfirmation, SelfDelimiting;
      var line := new Link(reply, pieces);
      if reply != [] {
        assert response == [response[0]] + response[1..];
        FrameIsReceived(response[0], response[1..], [], Confirmation);
        assert reply + [] == reply;
      }
      var rc := ReceiveMsg(line, rsp, Confirmation);
      match rc {
        case Message(n) =>
          SameBytes(line, rsp, reply, pieces, n);
          assert rsp[..n] == reply;
          c := CheckConfirmation(request, rsp[..n]);
          NoLinkError(request, rsp[..n]);
        case BadData => c := Failed(InvalidData);
        case BadCrc => c := Failed(InvalidCrc);
        case ConnectionReset => c := Failed(LinkError);
        case TimedOut => c := Failed(LinkError);
      }
    }

    /**
     * Writes coils. Confirmed means done, and anything else than a broken line means that the address range was not the
     * server's; in no case has the server changed anything but the coils asked for.
     */
    method WriteBits(server: Server, addr: nat, nb: nat, src: array<bv8>, up: seq<nat>, down: seq<nat>)
      returns (c: Confirmation)
      requires server.Valid() && addr < 65536 && nb <= src.Length && src != server.tabBits
      modifies server.tabBits
      ensures server.Valid()
      ensures nb > MAX_WRITE_BITS ==> c == Failed(TooManyData) && server.Coils() == old(server.Coils())
      ensures nb <= MAX_WRITE_BITS ==>
                var coils, bits := old(server.Coils()), Bits(src[..nb]);
                var inRange := addr + nb <= |coils| && (slave == server.slave || slave == BROADCAST);
                && (c.Confirmed? ==> c == Confirmed(nb) && inRange && server.Coils() == Overwritten(coils, addr, bits))
                && (server.Coils() == coils || (inRange && server.Coils() == Overwritten(coils, addr, bits)))
                && (Healthy(up, MAX_ADU_LENGTH) && Healthy(down, MAX_ADU_LENGTH) && (slave == server.slave || slave == BROADCAST) ==>
                      c == if inRange then Confirmed(nb) else Failed(Exception(ILLEGAL_DATA_ADDRESS)))
    {
      hide Serve, CheckConfirmation, Crc, High, Low, Pack, Byte, Basis, CoilRequest, SelfDelimiting, Bits, Overwritten;
      if nb > MAX_WRITE_BITS { return Failed(TooManyData); }
      ghost var coils, bits := server.Coils(), Bits(src[..nb]);
      var req := new bv8[MAX_MESSAGE_LENGTH];
      var length := BuildRequestBasis(WRITE_MULTIPLE_COILS, addr, nb, req);
      req[length] := Byte(Bytes(nb));
      assert req[..7] == Basis(slave, WRITE_MULTIPLE_COILS, addr, nb) + [Byte(Bytes(nb))];
      length := PackBits(src, nb, req, length + 1);
      ghost var request := WriteRequest(slave, addr, bits);
      assert req[..length] == request;
      WriteRequestParts(slave, addr, bits);
      var rsp := new bv8[MAX_MESSAGE_LENGTH];
      c := Transact(server, req, length, up, down, rsp, request);
      if slave == server.slave || slave == BROADCAST {
        if addr + nb <= |coils| {
          WriteIsServed(slave, server.slave, coils, addr, bits);
        } else {
          WriteOutOfRange(slave, server.slave, coils, addr, bits);
        }
      } else {
        Filtered(server.slave, coils, request);
      }
    }

    /** Reads coils: the server's are not changed, and what is read is what they are. */
    method ReadBits(server: Server, addr: nat, nb: nat, dest: array<bv8>, up: seq<nat>, down: seq<nat>)
      returns (c: Confirmation)
      requires server.Valid() && addr < 65536 && nb <= dest.Length && dest != server.tabBits
      modifies dest, server.tabBits
      ensures server.Valid() && server.Coils() == old(server.Coils()) && dest[nb..] == old(dest[nb..])
      ensures nb > MAX_READ_BITS ==> c == Failed(TooManyData)
      ensures c.Confirmed? ==>
                && c == Confirmed(nb) && addr + nb <= |server.Coils()| && AllBits(dest[..nb])
                && Bits(dest[..nb]) == server.Coils()[addr..addr + nb]
      ensures nb <= MAX_READ_BITS && Healthy(up, MAX_ADU_LENGTH) && Healthy(down, MAX_ADU_LENGTH)
              && (slave == server.slave || slave == BROADCAST) ==>
                c == if addr + nb <= |server.Coils()| then Confirmed(nb)
                     else if nb > 0 then Failed(Exception(ILLEGAL_DATA_ADDRESS)) else Failed(InvalidData)
    {
      hide Serve, CheckConfirmation, Crc, High, Low, Pack, Byte, Basis, CoilRequest, SelfDelimiting, Bits, Unpack;
      if nb > MAX_READ_BITS { return Failed(TooManyData); }
      ghost var coils := server.Coils();
      var req := new bv8[MAX_MESSAGE_LENGTH];
      var length := BuildRequestBasis(READ_COILS, addr, nb, req);
      ghost var request := Basis(slave, READ_COILS, addr, nb);
      ReadRequestParts(slave, addr, nb);
      var rsp := new bv8[MAX_MESSAGE_LENGTH];
      c := Transact(server, req, length, up, down, rsp, request);
      if slave == server.slave || slave == BROADCAST {
        if addr + nb <= |coils| {
          ReadIsServed(slave, server.slave, coils, addr, nb);
        } else {
          ReadOutOfRange(slave, server.slave, coils, addr, nb);
        }
      } else {
        Filtered(server.slave, coils, request);
      }
      if c.Confirmed? {
        ghost var response := Serve(server.slave, coils, request).response;
        assert rsp[3..3 + c.count] == rsp[..|response|][3..];
        UnpackBits(rsp, 3, c.count, nb, dest);
        c := Confirmed(nb);
      }
    }

    /** Sends a request, lets the server answer it, and checks the response. */
    method Transact(server: Server, req: array<bv8>, length: nat, up: seq<nat>, down: seq<nat>, rsp: array<bv8>,
                    ghost request: seq<bv8>)
      returns (c: Confirmation)
      requires server.Valid() && rsp.Length == req.Length == MAX_MESSAGE_LENGTH && rsp != req
      requires req != server.tabBits && rsp != server.tabBits
      requires CoilRequest(request) && 6 <= length == |request| <= 254 && req[..length] == request
      requires request[1] == READ_COILS ==> Word(request[4], request[5]) <= MAX_READ_BITS
      modifies req, rsp, server.tabBits
      ensures server.Valid()
      ensures var r := Serve(server.slave, old(server.Coils()), request);
              && (server.Coils() == r.coils || server.Coils() == old(server.Coils()))
              && (if c == Failed(LinkError)
                  then r.response == [] || !Healthy(up, MAX_ADU_LENGTH) || !Healthy(down, MAX_ADU_LENGTH)
                  else && server.Coils() == r.coils && 3 <= |r.response| <= 253
                       && c == CheckConfirmation(request, Sealed(r.response))
                       && rsp[..|r.response|] == r.response)
    {
      hide Serve, CheckConfirmation, Crc, High, Low, CoilRequest, SelfDelimiting, Word;
      ghost var coils := server.Coils();
      ghost var served := Serve(server.slave, coils, request);
      if request[0] == server.slave || request[0] == BROADCAST {
        ResponsesDelimit(server.slave, coils, request);
        SealedStartsWith(served.response);
      } else {
        Filtered(server.slave, coils, request);
      }
      var total := SendMsgPre(req, length);
      SealedStartsWith(request);
      var reply := server.ReceiveAndReply(req[..total], up, request);
      assert req[..length] == req[..total][..length];
      c := ReceiveConfirmed(req[..length], reply, down, rsp, served.response);
      assert c != Failed(LinkError) ==> rsp[..|served.response|] == rsp[..|reply|][..|served.response|];
    }
  }

  lemma NoLinkError(req: seq<bv8>, rsp: seq<bv8>)
    requires |req| >= 6 && |rsp| >= 5
    ensures CheckConfirmation(req, rsp) != Failed(LinkError)
  {
    hide Word;
  }

  lemma Filtered(own: bv8, coils: seq<bool>, req: seq<bv8>)
    requires CoilRequest(req) && req[0] != own && req[0] != BROADCAST
    ensures Serve(own, coils, req) == Served(coils, [])
  {}

  lemma BitsOfRange(tab: seq<bv8>, address: nat, nb: nat)
    requires address + nb <= |tab|
    ensures Bits(tab[address..address + nb]) == Bits(tab)[address..address + nb]
  {}

  lemma BitsReplaced(was: seq<bv8>, now: seq<bv8>, address: nat, nb: nat)
    requires |was| == |now| && address + nb <= |was|
    requires was[..address] == now[..address] && was[address + nb..] == now[address + nb..]
    ensures Bits(now) == Overwritten(Bits(was), address, Bits(now[address..address + nb]))
    ensures AllBits(was) && AllBits(now[address..address + nb]) ==> AllBits(now)
  {
    assert forall i :: 0 <= i < address ==> was[..address][i] == now[..address][i];
    forall i | address + nb <= i < |was| ensures was[i] == now[i] {
      var j := i - (address + nb);
      assert was[address + nb..][j] == now[address + nb..][j];
    }
    assert forall i :: address <= i < address + nb ==> now[i] == now[address..address + nb][i - address];
  }

  /** What a message's function code says about its length, whether it overruns, and which part of ServeBuffer answers it. */
  lemma BufferForm(own: bv8, coils: seq<bool>, buf: seq<bv8>, n: nat)
    requires n <= |buf| == MAX_MESSAGE_LENGTH && CoilMessage(buf[..n])
    ensures n >= 6
    ensures var addr, value, r := Word(buf[2], buf[3]), Word(buf[4], buf[5]), Overruns(own, |coils|, buf[..n]);
            var inRange := addr + value <= |coils|;
            if buf[0] != own && buf[0] != BROADCAST then
              !r && ServeBuffer(own, coils, buf, n) == Served(coils, [])
            else
              && (!r ==> ServeBuffer(own, coils, buf, n).response != [])
              && if buf[1] == READ_COILS then
                   && (r <==> inRange && 3 + Bytes(value) + 2 > MAX_MESSAGE_LENGTH)
                   && (!r ==> ServeBuffer(own, coils, buf, n) == ServeRead(coils, buf[..6], addr, value))
                 else if buf[1] == WRITE_SINGLE_COIL then
                   n == 6 && !r && ServeBuffer(own, coils, buf, n) == ServeWriteBit(coils, buf[..6], addr, value)
                 else
                   && (r <==> inRange && 7 + Bytes(value) > MAX_MESSAGE_LENGTH)
                   && (!r ==> ServeBuffer(own, coils, buf, n)
                              == ServeWrite(coils, buf[..6], addr, value, if inRange then buf[7..7 + Bytes(value)] else []))
  {
    hide Word, Pack, Unpack, Byte, Overwritten;
  }
}
