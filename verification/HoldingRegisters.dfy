/** The holding registers of the FreeModbus slave (freemodbus.cpp) and the requests that read and write them (mbfuncholding.c). */
module HoldingRegisters {
  import opened Octets
  import opened Sequences

  const REG_HOLDING_START := 2000
  const REG_HOLDING_NREGS := 130
  const REGCNT_READ_MAX := 0x7D
  const REGCNT_WRITE_MAX := 0x78
  const MAX_PDU := 253
  const READ_HOLDING_REGISTER: bv8 := 0x03
  const READWRITE_MULTIPLE_REGISTERS: bv8 := 0x17

  datatype Exception = NoException | IllegalDataAddress | IllegalDataValue

  datatype Mode = Read | Write

  // ----- Registers as bytes -----

  predicate Sixteen(r: seq<nat>) { forall i :: 0 <= i < |r| ==> r[i] < 65536 }

  /** Each register high byte first. */
  function RegBytes(r: seq<nat>): (s: seq<bv8>)
    requires Sixteen(r)
    ensures |s| == 2 * |r|
  {
    if r == [] then [] else RegBytes(r[..|r| - 1]) + [HighByte(r[|r| - 1]), LowByte(r[|r| - 1])]
  }

  function RegsOf(s: seq<bv8>, n: nat): (r: seq<nat>)
    requires 2 * n <= |s|
    ensures |r| == n && Sixteen(r)
  {
    seq(n, i requires 0 <= i < n => Word(s[2 * i], s[2 * i + 1]))
  }

  lemma {:induction false} BytesOfRegs(s: seq<bv8>, n: nat)
    requires |s| == 2 * n
    ensures RegBytes(RegsOf(s, n)) == s
  {
    hide Word, HighByte, LowByte;
    if n > 0 {
      var k := n - 1;
      BytesOfRegs(s[..2 * k], k);
      assert RegsOf(s, n)[..k] == RegsOf(s[..2 * k], k);
      BytesOfWord(s[2 * k], s[2 * k + 1]);
      assert s == s[..2 * k] + [s[2 * k], s[2 * k + 1]];
    }
  }

  /** The register number of a request's address: one more, in sixteen bits. */
  function Number(high: bv8, low: bv8): nat { (Word(high, low) + 1) % 65536 }

  predicate InRange(number: nat, n: nat) {
    REG_HOLDING_START <= number && number + n <= REG_HOLDING_START + REG_HOLDING_NREGS
  }

  /** Bytes written to a range of registers are what is read from it, and the registers around it are as before. */
  lemma WrittenIsRead(regs: seq<nat>, at: nat, s: seq<bv8>, n: nat)
    requires |s| == 2 * n && at + n <= |regs|
    ensures var r := Overwritten(regs, at, RegsOf(s, n));
            && Sixteen(r[at..at + n]) && RegBytes(r[at..at + n]) == s
            && r[..at] == regs[..at] && r[at + n..] == regs[at + n..]
  {
    hide RegBytes, RegsOf;
    BytesOfRegs(s, n);
    assert Overwritten(regs, at, RegsOf(s, n))[at..at + n] == RegsOf(s, n);
  }

  // ----- What a request does -----

  /** The exception, the registers afterwards, and the response if there is no exception. */
  datatype Outcome = Outcome(ex: Exception, regs: seq<nat>, response: seq<bv8>)

  type Bank = r: seq<nat> | |r| == REG_HOLDING_NREGS && Sixteen(r) witness seq(REG_HOLDING_NREGS, i => 0)

  function Refused(ex: Exception, regs: Bank): Outcome { Outcome(ex, regs, []) }

  function RegResponse(code: bv8, regs: Bank, number: nat, n: nat): seq<bv8>
    requires 2 * n < 256 && InRange(number, n)
  {
    var i := number - REG_HOLDING_START;
    [code, Byte(2 * n)] + RegBytes(regs[i..i + n])
  }

  /** Reading n registers. */
  function ReadOf(regs: Bank, number: nat, n: nat): Outcome {
    if !(1 <= n <= REGCNT_READ_MAX) then Refused(IllegalDataValue, regs)
    else if !InRange(number, n) then Refused(IllegalDataAddress, regs)
    else Outcome(NoException, regs, RegResponse(READ_HOLDING_REGISTER, regs, number, n))
  }

  /** A read request, answered for the low byte of its count. */
  function ReadRequest(regs: Bank, pdu: seq<bv8>): Outcome {
    if |pdu| != 5 then Refused(IllegalDataValue, regs)
    else ReadOf(regs, Number(pdu[1], pdu[2]), pdu[4] as nat)
  }

  /** A read request, answered for its whole count. */
  function ReadAsked(regs: Bank, pdu: seq<bv8>): Outcome {
    if |pdu| != 5 then Refused(IllegalDataValue, regs)
    else ReadOf(regs, Number(pdu[1], pdu[2]), Word(pdu[3], pdu[4]))
  }

  /** A read request is answered as asked exactly if its count is below 256 or its low byte is a count refused anyway. */
  lemma ReadCountKept(regs: Bank, pdu: seq<bv8>)
    ensures ReadRequest(regs, pdu) == ReadAsked(regs, pdu)
       <==> |pdu| != 5 || Word(pdu[3], pdu[4]) < 256 || pdu[4] == 0 || pdu[4] as nat > REGCNT_READ_MAX
  {
    hide RegBytes, Number;
    if |pdu| == 5 && pdu[4] != 0 { NotZero(pdu[4]); }
  }

  // ----- Which registers a request is about -----

  /** A place in the registers: the address of the request counts from 1999. */
  function Place(high: bv8, low: bv8): int { (Count(high, low) + 1) % 65536 - 2000 }

  function Count(high: bv8, low: bv8): nat { high as nat * 256 + low as nat }

  lemma CountIsWord(high: bv8, low: bv8)
    ensures Count(high, low) == Word(high, low) && Place(high, low) == Number(high, low) - 2000
  {}

  /** The response holds n registers from place i on, two bytes each and the high one first. */
  predicate Answers(response: seq<bv8>, code: bv8, regs: seq<nat>, i: int, n: nat) {
    && |response| == 2 + 2 * n && response[0] == code && response[1] as nat == 2 * n && 0 <= i && i + n <= |regs|
    && forall k :: 0 <= k < n ==> response[2 + 2 * k] as nat * 256 + response[3 + 2 * k] as nat == regs[i + k]
  }

  /** The registers from place i on are n pairs of bytes of the frame, and all others are as they were. */
  predicate Stores(frame: seq<bv8>, at: nat, n: nat, was: seq<nat>, regs: seq<nat>, i: int) {
    && at + 2 * n <= |frame| && |regs| == |was| && 0 <= i && i + n <= |regs|
    && (forall k :: 0 <= k < n ==> regs[i + k] == frame[at + 2 * k] as nat * 256 + frame[at + 2 * k + 1] as nat)
    && forall j :: 0 <= j < |regs| && !(i <= j < i + n) ==> regs[j] == was[j]
  }

  lemma {:induction false} RegBytesAt(r: seq<nat>, k: nat)
    requires Sixteen(r) && k < |r|
    ensures Word(RegBytes(r)[2 * k], RegBytes(r)[2 * k + 1]) == r[k]
  {
    hide HighByte, LowByte, Word;
    var front := r[..|r| - 1];
    if k < |front| { RegBytesAt(front, k); } else { WordOfBytes(r[k]); }
  }

  lemma ResponseAnswers(code: bv8, regs: Bank, number: nat, n: nat)
    requires 2 * n < 256 && InRange(number, n)
    ensures Answers(RegResponse(code, regs, number, n), code, regs, number - 2000, n)
  {
    hide RegBytes, Byte, RegResponse;
    var i, r := number - 2000, RegResponse(code, regs, number, n);
    ResponseHead(code, regs, number, n);
    ResponseIs(code, regs, number, n);
    forall k | 0 <= k < n ensures r[2 + 2 * k] as nat * 256 + r[3 + 2 * k] as nat == regs[i + k] {
      RegBytesAt(regs[i..i + n], k);
      assert r[2 + 2 * k] == r[2..][2 * k] && r[3 + 2 * k] == r[2..][2 * k + 1];
      assert regs[i..i + n][k] == regs[i + k];
    }
  }

  lemma ResponseHead(code: bv8, regs: Bank, number: nat, n: nat)
    requires 2 * n < 256 && InRange(number, n)
    ensures var r := RegResponse(code, regs, number, n); |r| >= 2 && r[0] == code && r[1] as nat == 2 * n
  {
    hide RegBytes, Byte;
    ByteValue(2 * n);
  }

  /** A read is answered with the registers asked for, or refused for its count or its range; registers stay as they are. */
  lemma ReadAnswers(regs: Bank, pdu: seq<bv8>)
    ensures var o := ReadRequest(regs, pdu);
            && o.regs == regs
            && if |pdu| != 5 || !(1 <= pdu[4] as nat <= 125) then o.ex == IllegalDataValue
               else
                 var i, n := Place(pdu[1], pdu[2]), pdu[4] as nat;
                 if !(0 <= i && i + n <= 130) then o.ex == IllegalDataAddress
                 else o.ex == NoException && Answers(o.response, 0x03, regs, i, n)
  {
    hide RegResponse, Answers, Word, Number, Count, Place, Sixteen;
    if |pdu| == 5 { CountIsWord(pdu[1], pdu[2]); }
    if |pdu| == 5 && InRange(Number(pdu[1], pdu[2]), pdu[4] as nat) && 1 <= pdu[4] as nat <= 125 {
      ResponseAnswers(0x03, regs, Number(pdu[1], pdu[2]), pdu[4] as nat);
    }
  }

  lemma WriteStores(regs: Bank, frame: seq<bv8>, at: nat, number: nat, n: nat)
    requires InRange(number, n) && at + 2 * n <= |frame|
    ensures Stores(frame, at, n, regs, WriteOf(regs, frame, at, number, n), number - 2000)
  {
    hide RegsOf;
    var i, part := number - 2000, RegsOf(frame[at..at + 2 * n], n);
    forall k | 0 <= k < n ensures Overwritten(regs, i, part)[i + k] == frame[at + 2 * k] as nat * 256 + frame[at + 2 * k + 1] as nat {
      RegAt(frame, at, n, k);
    }
  }

  /** A multiple write stores the bytes behind its head in the registers of its range, and is confirmed with its first five. */
  lemma MultipleWriteStores(regs: Bank, frame: seq<bv8>, len: nat)
    requires |frame| >= MAX_PDU
    ensures var o := WriteRequest(regs, frame, len);
            var n := Count(frame[3], frame[4]);
            var i := Place(frame[1], frame[2]);
            if len < 6 || !(1 <= n <= 120) || frame[5] as nat != 2 * n then o.ex == IllegalDataValue && o.regs == regs
            else if !(0 <= i && i + n <= 130) then o.ex == IllegalDataAddress && o.regs == regs
            else o.ex == NoException && o.response == frame[..5] && Stores(frame, 6, n, regs, o.regs, i)
  {
    hide WriteOf, Stores, Word, Number, Count, Place, Sixteen;
    CountIsWord(frame[1], frame[2]);
    CountIsWord(frame[3], frame[4]);
    var number, n := Number(frame[1], frame[2]), Word(frame[3], frame[4]);
    if WriteAllowed(frame, len) && InRange(number, n) { WriteStores(regs, frame, 6, number, n); }
  }

  /** A write and read stores first and answers from the registers as stored. */
  lemma WriteAndReadStores(regs: Bank, frame: seq<bv8>, len: nat)
    requires len <= MAX_PDU <= |frame|
    ensures var o := ReadWriteRequest(regs, frame, len);
            var n, w := Count(frame[3], frame[4]), Count(frame[7], frame[8]);
            var i, j := Place(frame[1], frame[2]), Place(frame[5], frame[6]);
            if len < 10 then o == Outcome(NoException, regs, frame[..len])
            else if !(1 <= n <= 125) || !(1 <= w <= 121) || frame[9] as nat != 2 * w then o.ex == IllegalDataValue && o.regs == regs
            else if !(0 <= j && j + w <= 130) then o.ex == IllegalDataAddress && o.regs == regs
            else
              && Stores(frame, 10, w, regs, o.regs, j)
              && if !(0 <= i && i + n <= 130) then o.ex == IllegalDataAddress
                 else o.ex == NoException && Answers(o.response, 0x17, o.regs, i, n)
  {
    hide WriteOf, Stores, Answers, RegResponse, Word, Number, Count, Place, Sixteen;
    CountIsWord(frame[1], frame[2]);
    CountIsWord(frame[3], frame[4]);
    CountIsWord(frame[5], frame[6]);
    CountIsWord(frame[7], frame[8]);
    var r, w := Word(frame[3], frame[4]), Word(frame[7], frame[8]);
    var number, writeNumber := Number(frame[1], frame[2]), Number(frame[5], frame[6]);
    if ReadWriteAllowed(frame, len) && InRange(writeNumber, w) {
      WriteStores(regs, frame, 10, writeNumber, w);
      if InRange(number, r) { ResponseAnswers(0x17, WriteOf(regs, frame, 10, writeNumber, w), number, r); }
    }
  }

  /** What a multiple write has stored, a read of the same range answers with, byte for byte. */
  lemma ReadBackAnswers(regs: Bank, frame: seq<bv8>, len: nat)
    requires |frame| >= MAX_PDU && WriteRequest(regs, frame, len).ex == NoException
    ensures var n := Count(frame[3], frame[4]);
            var after := WriteRequest(regs, frame, len).regs;
            var read := ReadRequest(after, [0x03, frame[1], frame[2], frame[3], frame[4]]);
            && read.ex == NoException && read.regs == after && |read.response| == 2 + 2 * n
            && read.response[2..] == frame[6..6 + 2 * n]
  {
    hide RegResponse, WriteOf, Byte, Word, Number, Count, Sixteen;
    CountIsWord(frame[3], frame[4]);
    var number, n := Number(frame[1], frame[2]), Word(frame[3], frame[4]);
    LowOfSmall(frame[3], frame[4]);
    StoredIsAnswered(regs, frame, 6, number, n);
  }

  lemma StoredIsAnswered(regs: Bank, frame: seq<bv8>, at: nat, number: nat, n: nat)
    requires InRange(number, n) && at + 2 * n <= |frame| && 2 * n < 256
    ensures var response := RegResponse(READ_HOLDING_REGISTER, WriteOf(regs, frame, at, number, n), number, n);
            |response| == 2 + 2 * n && response[2..] == frame[at..at + 2 * n]
  {
    hide RegResponse, RegBytes, RegsOf, Byte, Word, Overwritten;
    WrittenIsRead(regs, number - REG_HOLDING_START, frame[at..at + 2 * n], n);
    ResponseIs(READ_HOLDING_REGISTER, WriteOf(regs, frame, at, number, n), number, n);
  }

  lemma LowOfSmall(high: bv8, low: bv8)
    requires Word(high, low) < 256
    ensures low as nat == Word(high, low)
  {}

  lemma ResponseIs(code: bv8, regs: Bank, number: nat, n: nat)
    requires 2 * n < 256 && InRange(number, n)
    ensures var i, r := number - REG_HOLDING_START, RegResponse(code, regs, number, n);
            |r| == 2 + 2 * n && r[2..] == RegBytes(regs[i..i + n])
  {
    hide RegBytes, Byte;
  }

  /** Asked for the 257 registers from the first on, which are not there, the slave answers with the first one. */
  lemma ManyAskedOneAnswered(regs: Bank)
    ensures var pdu := [READ_HOLDING_REGISTER, 0x07, 0xCF, 0x01, 0x01];
            && ReadAsked(regs, pdu) == Refused(IllegalDataValue, regs)
            && ReadRequest(regs, pdu)
               == Outcome(NoException, regs, [READ_HOLDING_REGISTER, 2, HighByte(regs[0]), LowByte(regs[0])])
  {
    hide Byte;
    assert Number(0x07, 0xCF) == REG_HOLDING_START;
    assert regs[0..1] == [regs[0]];
    NoRegs();
    OneMoreReg([], regs[0]);
    assert [] + [regs[0]] == [regs[0]];
    ByteOfValue(2);
  }

  /** A write: the values are the bytes behind the head of the frame, as many as the head says. */
  function WriteOf(regs: Bank, frame: seq<bv8>, at: nat, number: nat, n: nat): (r: Bank)
    requires InRange(number, n) && at + 2 * n <= |frame|
  {
    var r := Overwritten(regs, number - REG_HOLDING_START, RegsOf(frame[at..at + 2 * n], n));
    OverwrittenSixteen(regs, number - REG_HOLDING_START, RegsOf(frame[at..at + 2 * n], n));
    r
  }

  lemma OverwrittenSixteen(regs: Bank, at: nat, part: seq<nat>)
    requires at + |part| <= |regs| && Sixteen(part)
    ensures Sixteen(Overwritten(regs, at, part))
  {}

  /** The head of a write request is all there and its counts are allowed and agree. */
  predicate WriteAllowed(frame: seq<bv8>, len: nat)
    requires |frame| >= MAX_PDU
  {
    len >= 6 && 1 <= Word(frame[3], frame[4]) <= REGCNT_WRITE_MAX && frame[5] as nat == 2 * Word(frame[3], frame[4])
  }

  function WriteRequest(regs: Bank, frame: seq<bv8>, len: nat): Outcome
    requires |frame| >= MAX_PDU
  {
    var number, n := Number(frame[1], frame[2]), Word(frame[3], frame[4]);
    if !WriteAllowed(frame, len) then Refused(IllegalDataValue, regs)
    else if !InRange(number, n) then Refused(IllegalDataAddress, regs)
    else Outcome(NoException, WriteOf(regs, frame, 6, number, n), frame[..5])
  }

  predicate ReadWriteAllowed(frame: seq<bv8>, len: nat)
    requires |frame| >= MAX_PDU
  {
    len >= 10 && 1 <= Word(frame[3], frame[4]) <= 0x7D && 1 <= Word(frame[7], frame[8]) <= 0x79
    && 2 * Word(frame[7], frame[8]) == frame[9] as nat
  }

  /** Writing and then reading. A request too short for this is answered by itself, without exception. */
  function ReadWriteRequest(regs: Bank, frame: seq<bv8>, len: nat): Outcome
    requires len <= MAX_PDU <= |frame|
  {
    var readNumber, r := Number(frame[1], frame[2]), Word(frame[3], frame[4]);
    var writeNumber, w := Number(frame[5], frame[6]), Word(frame[7], frame[8]);
    if len < 10 then Outcome(NoException, regs, frame[..len])
    else if !ReadWriteAllowed(frame, len) then Refused(IllegalDataValue, regs)
    else if !InRange(writeNumber, w) then Refused(IllegalDataAddress, regs)
    else
      var regs' := WriteOf(regs, frame, 10, writeNumber, w);
      if !InRange(readNumber, r) then Refused(IllegalDataAddress, regs')
      else Outcome(NoException, regs', RegResponse(READWRITE_MULTIPLE_REGISTERS, regs', readNumber, r))
  }

  /** Two frame buffers that hold the same request. */
  predicate SameRequest(f: seq<bv8>, g: seq<bv8>, len: nat) { |f| == |g| && len <= |f| && f[..len] == g[..len] }

  /** A multiple write is decided by the request alone exactly if it is refused or all its values were received. */
  lemma WriteDependsOnTheRequest(regs: Bank, frame: seq<bv8>, len: nat)
    requires 1 <= len <= MAX_PDU <= |frame|
    ensures (forall f :: SameRequest(f, frame, len) ==> WriteRequest(regs, f, len) == WriteRequest(regs, frame, len))
       <==> || !WriteAllowed(frame, len) || !InRange(Number(frame[1], frame[2]), Word(frame[3], frame[4]))
            || len >= 6 + 2 * Word(frame[3], frame[4])
  {
    hide WriteOf, Number, Word, Sixteen, InRange;
    var number, n := Number(frame[1], frame[2]), Word(frame[3], frame[4]);
    if WriteRequest(regs, frame, len).ex == NoException && len < 6 + 2 * n {
      var f := OtherValues(frame, 6, n);
      assert SameRequest(f, frame, len);
      OtherWrite(regs, f, frame, 6, number, n);
    } else {
      forall f | SameRequest(f, frame, len) ensures WriteRequest(regs, f, len) == WriteRequest(regs, frame, len) {
        if len >= 6 { SameHead(f, frame, len, 6); }
        if WriteRequest(regs, frame, len).ex == NoException { SameWrite(regs, f, frame, len, 6, number, n); }
      }
    }
  }

  /** So is a write and read. */
  lemma ReadWriteDependsOnTheRequest(regs: Bank, frame: seq<bv8>, len: nat)
    requires 1 <= len <= MAX_PDU <= |frame|
    ensures (forall f :: SameRequest(f, frame, len) ==> ReadWriteRequest(regs, f, len) == ReadWriteRequest(regs, frame, len))
       <==> || !ReadWriteAllowed(frame, len) || !InRange(Number(frame[5], frame[6]), Word(frame[7], frame[8]))
            || len >= 10 + 2 * Word(frame[7], frame[8])
  {
    hide WriteOf, Number, Word, Sixteen, RegResponse, InRange;
    var number, w := Number(frame[5], frame[6]), Word(frame[7], frame[8]);
    if ReadWriteAllowed(frame, len) && InRange(number, w) {
      if len < 10 + 2 * w {
        var f := OtherValues(frame, 10, w);
        assert SameRequest(f, frame, len);
        OtherWrite(regs, f, frame, 10, number, w);
      } else {
        forall f | SameRequest(f, frame, len) ensures ReadWriteRequest(regs, f, len) == ReadWriteRequest(regs, frame, len) {
          SameHead(f, frame, len, 10);
          SameWrite(regs, f, frame, len, 10, number, w);
        }
      }
    } else {
      forall f | SameRequest(f, frame, len) ensures ReadWriteRequest(regs, f, len) == ReadWriteRequest(regs, frame, len) {
        if len >= 10 { SameHead(f, frame, len, 10); }
      }
    }
  }

  lemma SameHead(f: seq<bv8>, g: seq<bv8>, len: nat, n: nat)
    requires SameRequest(f, g, len) && n <= len
    ensures forall i :: 0 <= i < n ==> f[i] == g[i]
  {
    forall i | 0 <= i < n ensures f[i] == g[i] { assert f[..len][i] == g[..len][i]; }
  }

  lemma SameWrite(regs: Bank, f: seq<bv8>, g: seq<bv8>, len: nat, at: nat, number: nat, n: nat)
    requires SameRequest(f, g, len) && at + 2 * n <= len && InRange(number, n)
    ensures WriteOf(regs, f, at, number, n) == WriteOf(regs, g, at, number, n)
  {
    hide RegsOf, Overwritten, InRange;
    SameHead(f, g, len, len);
    assert f[at..at + 2 * n] == g[at..at + 2 * n];
  }

  lemma OtherWrite(regs: Bank, f: seq<bv8>, g: seq<bv8>, at: nat, number: nat, n: nat)
    requires |f| == |g| && at + 2 * n <= |f| && InRange(number, n)
    requires RegsOf(f[at..at + 2 * n], n) != RegsOf(g[at..at + 2 * n], n)
    ensures WriteOf(regs, f, at, number, n) != WriteOf(regs, g, at, number, n)
  {
    hide RegsOf;
    OverwrittenDiffers(regs, number - REG_HOLDING_START, RegsOf(f[at..at + 2 * n], n), RegsOf(g[at..at + 2 * n], n));
  }

  /** The same frame but for the last byte of n values. */
  lemma OtherValues(frame: seq<bv8>, at: nat, n: nat) returns (f: seq<bv8>)
    requires n >= 1 && at + 2 * n <= |frame|
    ensures |f| == |frame| && forall i :: 0 <= i < |f| && i != at + 2 * n - 1 ==> f[i] == frame[i]
    ensures RegsOf(f[at..at + 2 * n], n) != RegsOf(frame[at..at + 2 * n], n)
  {
    hide Word, Byte, RegsOf;
    var k := at + 2 * n - 1;
    var b := Another(frame[k]);
    f := frame[k := b];
    RegAt(f, at, n, n - 1);
    RegAt(frame, at, n, n - 1);
    if RegsOf(f[at..at + 2 * n], n) == RegsOf(frame[at..at + 2 * n], n) {
      BytesOfWord(f[k - 1], b);
      BytesOfWord(frame[k - 1], frame[k]);
    }
  }

  function Another(b: bv8): (c: bv8)
    ensures c != b
  {
    if b == 0 then 1 else 0
  }

  lemma NotZero(b: bv8)
    requires b != 0
    ensures b as nat >= 1
  {
    ByteOfValue(b);
  }

  /** A request of six bytes for one register stores two bytes that were never received. */
  lemma ShortWriteStoresWhatWasThere(regs: Bank, rest: seq<bv8>)
    requires |rest| >= MAX_PDU - 6
    ensures var head := [0x10, 0x07, 0xCF, 0x00, 0x01, 0x02];
            WriteRequest(regs, head + rest, 6) == Outcome(NoException, regs[0 := Word(rest[0], rest[1])], head[..5])
  {
    hide Word, Number, RegsOf;
    var head: seq<bv8> := [0x10, 0x07, 0xCF, 0x00, 0x01, 0x02];
    var frame := head + rest;
    FirstAndOnly();
    RegAt(frame, 6, 1, 0);
    assert RegsOf(frame[6..6 + 2 * 1], 1) == [Word(rest[0], rest[1])];
    assert frame[..5] == head[..5];
  }

  lemma FirstAndOnly()
    ensures Number(0x07, 0xCF) == REG_HOLDING_START && Word(0x00, 0x01) == 1 && (0x02 as bv8) as nat == 2
  {}

  class Registers {
    const buf: array<nat>

    ghost predicate Valid()
      reads buf
    {
      buf.Length == REG_HOLDING_NREGS && Sixteen(buf[..])
    }

    /** A frame is not the register buffer. */
    predicate Apart(frame: array<bv8>) { (frame as object) != (buf as object) }

    constructor ()
      ensures Valid() && fresh(buf)
    {
      buf := new nat[REG_HOLDING_NREGS](i => 0);
    }

    /** The callback: copies registers out of or into a frame, if they are all there. */
    method HoldingCB(frame: array<bv8>, at: nat, number: nat, n: nat, mode: Mode) returns (ok: bool)
      requires Valid() && Apart(frame) && at + 2 * n <= frame.Length
      modifies buf, frame
      ensures Valid() && ok == InRange(number, n)
      ensures !ok || mode == Read ==> buf[..] == old(buf[..])
      ensures !ok || mode == Write ==> frame[..] == old(frame[..])
      ensures ok && mode == Read ==>
                var i := number - REG_HOLDING_START;
                && frame[..at] == old(frame[..at]) && frame[at + 2 * n..] == old(frame[at + 2 * n..])
                && Sixteen(old(buf[i..i + n])) && frame[at..at + 2 * n] == RegBytes(old(buf[i..i + n]))
      ensures ok && mode == Write ==>
                buf[..] == WriteOf(old(buf[..]), old(frame[..]), at, number, n)
    {
      if !InRange(number, n) { return false; }
      match mode {
        case Read => ReadRegs(frame, at, number - REG_HOLDING_START, n);
        case Write =>
          assert frame[..][at..at + 2 * n] == frame[at..at + 2 * n];
          WriteRegs(frame, at, number - REG_HOLDING_START, n);
      }
      return true;
    }

    method ReadRegs(frame: array<bv8>, at: nat, start: nat, n: nat)
      requires Valid() && Apart(frame) && at + 2 * n <= frame.Length && start + n <= REG_HOLDING_NREGS
      modifies frame
      ensures buf[..] == old(buf[..]) && Valid()
      ensures frame[..at] == old(frame[..at]) && frame[at + 2 * n..] == old(frame[at + 2 * n..])
      ensures Sixteen(buf[start..start + n]) && frame[at..at + 2 * n] == RegBytes(buf[start..start + n])
    {
      hide HighByte, LowByte, RegBytes;
      ghost var regs, f := buf[..], frame[..];
      var index, left, p := start, n, at;
      NoRegs();
      assert buf[start..index] == [] && frame[at..p] == [];
      while left > 0
        invariant 0 <= left <= n && index == start + n - left && p == at + 2 * (n - left)
        invariant buf[..] == regs && (forall i :: 0 <= i < at || p <= i < frame.Length ==> frame[i] == f[i])
        invariant Sixteen(buf[start..index]) && frame[at..p] == RegBytes(buf[start..index])
      {
        OneMoreReg(buf[start..index], buf[index]);
        assert buf[start..index] + [buf[index]] == buf[start..index + 1];
        PutWord(frame, p, buf[index], at);
        p := p + 2;
        index := index + 1;
        left := left - 1;
      }
      assert frame[..at] == f[..at] && frame[p..] == f[p..];
    }

    method PutWord(frame: array<bv8>, p: nat, value: nat, ghost at: nat)
      requires at <= p && p + 2 <= frame.Length && value < 65536
      modifies frame
      ensures frame[at..p + 2] == old(frame[at..p]) + [HighByte(value), LowByte(value)]
      ensures forall i :: 0 <= i < p || p + 2 <= i < frame.Length ==> frame[i] == old(frame[i])
    {
      hide HighByte, LowByte;
      frame[p] := HighByte(value);
      frame[p + 1] := LowByte(value);
    }

    method WriteRegs(frame: array<bv8>, at: nat, start: nat, n: nat)
      requires Valid() && Apart(frame) && at + 2 * n <= frame.Length && start + n <= REG_HOLDING_NREGS
      modifies buf
      ensures frame[..] == old(frame[..]) && Valid()
      ensures buf[..] == Overwritten(old(buf[..]), start, RegsOf(frame[at..at + 2 * n], n))
    {
      hide Word, RegsOf, Overwritten;
      ghost var f, regs, want := frame[..], buf[..], RegsOf(frame[at..at + 2 * n], n);
      var index, left, p := start, n, at;
      while left > 0
        invariant 0 <= left <= n && index == start + n - left && p == at + 2 * (n - left)
        invariant frame[..] == f && Valid()
        invariant buf[..start] == regs[..start] && buf[index..] == regs[index..]
        invariant buf[start..index] == want[..index - start]
      {
        RegAt(f, at, n, index - start);
        assert frame[p] == f[p] && frame[p + 1] == f[p + 1];
        buf[index] := Word(frame[p], frame[p + 1]);
        p := p + 2;
        index := index + 1;
        left := left - 1;
      }
      assert want[..n] == want && frame[at..at + 2 * n] == f[at..at + 2 * n];
      Assembled(buf[..], regs, start, want);
    }

    /** Writes one register; the response is the request. */
    method WriteHoldingRegister(frame: array<bv8>, len: nat) returns (ex: Exception)
      requires Valid() && Apart(frame) && 1 <= len <= MAX_PDU <= frame.Length
      modifies buf, frame
      ensures Valid() && frame[..] == old(frame[..])
      ensures var number := Number(old(frame[1]), old(frame[2]));
              if len == 5 && InRange(number, 1)
              then ex == NoException && buf[..] == old(buf[..])[number - REG_HOLDING_START := Word(old(frame[3]), old(frame[4]))]
              else ex == (if len == 5 then IllegalDataAddress else IllegalDataValue) && buf[..] == old(buf[..])
    {
      hide Word;
      if len == 4 + 1 {
        var number := Number(frame[1], frame[2]);
        var ok := HoldingCB(frame, 3, number, 1, Write);
        return if ok then NoException else IllegalDataAddress;
      }
      return IllegalDataValue;
    }

    /**
     * Writes several registers from the bytes behind the head of the frame, as many as the head says, whether or not
     * they were part of the request; the response is the first five bytes of the request.
     */
    method WriteMultipleHoldingRegister(frame: array<bv8>, len: nat) returns (ex: Exception, newLen: nat)
      requires Valid() && Apart(frame) && 1 <= len <= MAX_PDU <= frame.Length
      modifies buf, frame
      ensures Valid() && frame[..] == old(frame[..]) && 1 <= newLen <= MAX_PDU
      ensures Outcome(ex, buf[..], if ex == NoException then frame[..newLen] else [])
           == WriteRequest(old(buf[..]), old(frame[..]), len)
      ensures ex != NoException ==> newLen == len
    {
      hide Word, RegsOf;
      newLen := len;
      if len >= 5 + 1 {
        var number := Number(frame[1], frame[2]);
        var n := Word(frame[3], frame[4]);
        var byteCount := frame[5];
        if n >= 1 && n <= REGCNT_WRITE_MAX && byteCount == Byte(2 * n) {
          ByteValue(2 * n);
          var ok := HoldingCB(frame, 6, number, n, Write);
          if !ok { return IllegalDataAddress, newLen; }
          return NoException, 5;
        }
        if n >= 1 && n <= REGCNT_WRITE_MAX { SameByte(byteCount, 2 * n); }
      }
      return IllegalDataValue, newLen;
    }

    /** Builds the response to a read: function code, byte count, registers. */
    method RespondRegs(code: bv8, frame: array<bv8>, number: nat, n: nat) returns (ok: bool, newLen: nat)
      requires Valid() && Apart(frame) && MAX_PDU <= frame.Length && 1 <= n <= REGCNT_READ_MAX
      modifies buf, frame
      ensures Valid() && buf[..] == old(buf[..]) && ok == InRange(number, n)
      ensures newLen == if ok then 2 + 2 * n else 2
      ensures ok ==>
                frame[..newLen] == RegResponse(code, buf[..], number, n)
    {
      hide RegBytes, Byte, Sixteen;
      frame[0] := code;
      frame[1] := Byte(2 * n);
      newLen := 2;
      ghost var regs := buf[..];
      ok := HoldingCB(frame, 2, number, n, Read);
      if ok {
        newLen := newLen + 2 * n;
        ghost var i := number - REG_HOLDING_START;
        assert buf[i..i + n] == regs[i..i + n];
        assert frame[..2] == [code, Byte(2 * n)];
        assert frame[..newLen] == frame[..2] + frame[2..2 + 2 * n];
      }
    }

    /** Reads registers, as many as the low byte of the request's count says. */
    method ReadHoldingRegister(frame: array<bv8>, len: nat) returns (ex: Exception, newLen: nat)
      requires Valid() && Apart(frame) && 1 <= len <= MAX_PDU <= frame.Length
      modifies buf, frame
      ensures Valid() && buf[..] == old(buf[..]) && 1 <= newLen <= MAX_PDU
      ensures Outcome(ex, buf[..], if ex == NoException then frame[..newLen] else [])
           == ReadRequest(old(buf[..]), old(frame[..len]))
    {
      hide Word, RegBytes, Byte, Sixteen;
      newLen := len;
      if len == 4 + 1 {
        var number := Number(frame[1], frame[2]);
        var n := frame[4] as nat;
        if n >= 1 && n <= REGCNT_READ_MAX {
          var ok;
          ok, newLen := RespondRegs(READ_HOLDING_REGISTER, frame, number, n);
          return if ok then NoException else IllegalDataAddress, newLen;
        }
      }
      return IllegalDataValue, newLen;
    }

    /**
     * Writes registers and then reads some. A request too short for this is answered by itself, without exception; one
     * whose second range is not there has already written the first.
     */
    method ReadWriteMultipleHoldingRegister(frame: array<bv8>, len: nat) returns (ex: Exception, newLen: nat)
      requires Valid() && Apart(frame) && 1 <= len <= MAX_PDU <= frame.Length
      modifies buf, frame
      ensures Valid() && 1 <= newLen <= MAX_PDU
      ensures Outcome(ex, buf[..], if ex == NoException then frame[..newLen] else [])
           == ReadWriteRequest(old(buf[..]), old(frame[..]), len)
    {
      hide Word, RegBytes, RegsOf, Byte, Sixteen, Overwritten, Number, InRange;
      newLen := len;
      ex := NoException;
      if len >= 9 + 1 {
        var readNumber, r := Number(frame[1], frame[2]), Word(frame[3], frame[4]);
        var writeNumber, w := Number(frame[5], frame[6]), Word(frame[7], frame[8]);
        if r >= 1 && r <= 0x7D && w >= 1 && w <= 0x79 && 2 * w == frame[9] as nat {
          var ok := HoldingCB(frame, 10, writeNumber, w, Write);
          if ok {
            ok, newLen := RespondRegs(READWRITE_MULTIPLE_REGISTERS, frame, readNumber, r);
          }
          if !ok { ex := IllegalDataAddress; }
        } else {
          ex := IllegalDataValue;
        }
      }
    }
  }

  lemma RegAt(f: seq<bv8>, at: nat, n: nat, k: nat)
    requires at + 2 * n <= |f| && k < n
    ensures RegsOf(f[at..at + 2 * n], n)[k] == Word(f[at + 2 * k], f[at + 2 * k + 1])
  {
    hide Word;
  }

  lemma NoRegs()
    ensures RegBytes([]) == []
  {}

  lemma OneMoreReg(r: seq<nat>, value: nat)
    requires Sixteen(r) && value < 65536
    ensures Sixteen(r + [value]) && RegBytes(r + [value]) == RegBytes(r) + [HighByte(value), LowByte(value)]
  {
    hide HighByte, LowByte;
    assert (r + [value])[..|r|] == r;
  }

  lemma SameByte(b: bv8, n: nat)
    requires n < 256
    ensures b == Byte(n) <==> b as nat == n
  {
    ByteValue(n);
    if b as nat == n { ByteOfValue(b); }
  }
}
