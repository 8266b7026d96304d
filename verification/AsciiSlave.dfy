/**
 * The FreeModbus slave in ASCII mode as mb.c, mbascii.c, portserial.c, portevent.c and porttimer.c implement it: their
 * static variables are the fields, one method a function. Serial reads and writes succeed; the characters read and the
 * timer's expiry are inputs of each poll.
 */
module AsciiSlave {
  import opened AsciiLink
  import opened AsciiRun
  import opened ModbusHandlers
  import opened ModbusPort
  import opened Options
  import opened Sequences

  datatype SndState = TxIdle | TxStart | TxData | TxEnd | TxNotify
  datatype BytePos = HighNibble | LowNibble

  function Rank(s: SndState): nat {
    match s
    case TxStart => 4
    case TxData => 3
    case TxEnd => 2
    case TxNotify => 1
    case TxIdle => 0
  }

  /** The characters a transmission has yet to put out, of a frame of which some bytes are pending. */
  function ToCome(s: SndState, p: BytePos, pending: seq<bv8>): seq<bv8>
    requires s == TxData && p == LowNibble ==> pending != []
  {
    match s
    case TxStart => Line(pending)
    case TxData => (if p == HighNibble then HexChars(pending) else HexChars(pending)[1..]) + [CR, LF]
    case TxEnd => [LF]
    case TxNotify => []
    case TxIdle => []
  }

  lemma ToComeStep(pending: seq<bv8>)
    ensures forall p :: ToCome(TxStart, p, pending) == [COLON] + ToCome(TxData, HighNibble, pending)
    ensures pending == [] ==> ToCome(TxData, HighNibble, pending) == [CR] + ToCome(TxEnd, HighNibble, pending)
    ensures pending != [] ==>
              && ToCome(TxData, HighNibble, pending) == [HighChar(pending[0])] + ToCome(TxData, LowNibble, pending)
              && ToCome(TxData, LowNibble, pending) == [LowChar(pending[0])] + ToCome(TxData, HighNibble, pending[1..])
  {
    hide HexChars, HighChar, LowChar;
    LineFirst(pending);
    if pending == [] { NoHexChars(pending, [CR, LF]); } else { NextNibbles(pending, [CR, LF]); }
  }

  lemma ToComeEnds(p: BytePos, pending: seq<bv8>)
    ensures ToCome(TxEnd, p, pending) == [LF] + ToCome(TxNotify, p, pending)
    ensures ToCome(TxNotify, p, pending) == [] && ToCome(TxIdle, p, pending) == []
  {}

  /** The longest PDU a frame is accepted with. */
  const MAX_REQUEST := 253

  class AsciiSlave {
    // mb.c
    const address: bv8
    const handlers: seq<Handler>
    var mbState: MbState
    var rcvAddress: bv8
    var length: nat
    // mbascii.c
    var rcvState: State
    var sndState: SndState
    const buf: array<bv8>
    var rcvPos: nat
    var bytePos: BytePos
    var sndCur: nat
    var sndCount: nat
    // portserial.c
    var rxEnabled: bool
    var txEnabled: bool
    const serialBuf: array<bv8>
    var rxPos: nat
    var txPos: nat
    // porttimer.c
    var timerArmed: bool
    // portevent.c
    var event: Event
    var eventInQueue: bool

    /** A C assertion has failed and the process has stopped. */
    var aborted: bool
    /** An event was posted over one still in the queue. */
    ghost var overwritten: bool
    /** How many replies eMBASCIISend has refused to send. */
    ghost var dropped: nat

    ghost predicate Shape()
      reads this
    {
      && buf.Length == MAX_FRAME && serialBuf.Length == BUF_SIZE && buf != serialBuf
      && rcvPos <= MAX_FRAME && sndCur + sndCount <= MAX_FRAME
    }

    /** What holds while the receiver is enabled. */
    ghost predicate Listening()
      reads this
    {
      && Shape() && !aborted && rxEnabled && !txEnabled && sndState == TxIdle
      && (rcvState == RxRcv && bytePos == LowNibble ==> rcvPos < MAX_FRAME)
      && (rcvState != RxIdle ==> timerArmed)
    }

    /** The receiver's part of the state. */
    ghost function Receiver(): AsciiLink.Receiver
      requires Shape()
      reads this, buf
    {
      AsciiLink.Receiver(rcvState, buf[..rcvPos],
                         if bytePos == LowNibble && rcvPos < MAX_FRAME then Some(buf[rcvPos]) else None, timerArmed)
    }

    ghost predicate Configured() { 1 <= address <= 247 && WellBehaved(handlers, MAX_REQUEST) }

    /** What holds between polls of an enabled slave. */
    ghost predicate Live()
      reads this, buf
    {
      && Configured() && mbState == Enabled
      && if txEnabled then Transmitting() && sndState == TxStart && txPos == 0 && !eventInQueue else Quiet()
    }

    ghost predicate Quiet()
      reads this
    {
      Listening() && rxPos == 0 && (eventInQueue && event == EvExecute ==> 1 <= length <= MAX_REQUEST)
    }

    ghost function Phase(): Phase
      requires aborted || Live()
      reads this, buf
    {
      if aborted then Aborted
      else if eventInQueue then
        match event
        case EvReady => Started(Calm(Receiver()))
        case EvFrameReceived => Arrived(Receiver())
        case EvExecute => Executing(Calm(Receiver()), rcvAddress, buf[1..1 + length])
        case EvFrameSent => Sent(Calm(Receiver()))
      else if txEnabled then AsciiRun.Sending(Calm(Receiver()), Remaining())
      else AsciiRun.Listening(Calm(Receiver()))
    }

    /** A slave as eMBInit leaves it. */
    constructor (address: bv8, handlers: seq<Handler>)
      requires 1 <= address <= 247 && WellBehaved(handlers, MAX_REQUEST)
      ensures AtRest() && !overwritten && dropped == 0
      ensures fresh(buf) && fresh(serialBuf) && this.address == address && this.handlers == handlers
    {
      this.address, this.handlers := address, handlers;
      mbState := Disabled;
      rcvAddress, length := 0, 0;
      rcvState, sndState, bytePos := RxIdle, TxIdle, HighNibble;
      buf := new bv8[MAX_FRAME];
      sndCur, sndCount, rcvPos := 0, 0, 0;
      rxEnabled, txEnabled := false, false;
      serialBuf := new bv8[BUF_SIZE];
      rxPos, txPos := 0, 0;
      timerArmed := false;
      event, eventInQueue := EvReady, false;
      aborted, overwritten, dropped := false, false, 0;
    }

    // ----- portevent.c, portserial.c -----

    method EventPost(e: Event)
      modifies this`event, this`eventInQueue, this`overwritten
      ensures event == e && eventInQueue
      ensures overwritten == (old(overwritten) || old(eventInQueue))
    {
      overwritten := overwritten || eventInQueue;
      eventInQueue := true;
      event := e;
    }

    method SerialEnable(rx: bool, tx: bool)
      requires !rx || !tx
      modifies this`rxEnabled, this`txEnabled, this`rxPos, this`txPos
      ensures rxEnabled == rx && txEnabled == tx
      ensures rxPos == if rx then 0 else old(rxPos)
      ensures txPos == if tx then 0 else old(txPos)
    {
      if rx { rxPos := 0; }
      rxEnabled := rx;
      if tx { txPos := 0; }
      txEnabled := tx;
    }

    /** Moves the first of the characters to come into the buffer. */
    method PutByte(b: bv8, ghost rest: seq<bv8>, ghost line: seq<bv8>)
      requires Shape() && txPos < BUF_SIZE && serialBuf[..txPos] + ([b] + rest) == line
      modifies this`txPos, serialBuf
      ensures txPos == old(txPos) + 1 && serialBuf[..txPos] + rest == line
    {
      ghost var done := serialBuf[..txPos];
      serialBuf[txPos] := b;
      txPos := txPos + 1;
      assert serialBuf[..txPos] == done + [b];
      PutFirst(done, b, rest);
    }

    // ----- mbascii.c -----

    method Start()
      requires Shape() && !aborted && sndState == TxIdle && !timerArmed
      modifies this`rcvState, this`rxEnabled, this`txEnabled, this`rxPos, this`txPos,
               this`event, this`eventInQueue, this`overwritten
      ensures Listening() && rcvState == RxIdle && rxPos == 0
      ensures eventInQueue && event == EvReady && overwritten == (old(overwritten) || old(eventInQueue))
    {
      SerialEnable(true, false);
      rcvState := RxIdle;
      EventPost(EvReady);
    }

    method LrcOf(start: nat, len: nat) returns (lrc: bv8)
      requires start + len <= buf.Length
      ensures lrc == Lrc(buf[start..start + len])
    {
      var sum: bv8, p, left := 0, start, len;
      while left > 0
        invariant p + left == start + len && start <= p
        invariant sum == Total(buf[start..p])
      {
        left := left - 1;
        assert buf[start..p + 1] == buf[start..p] + [buf[p]];
        TotalOfAppend(buf[start..p], buf[p]);
        sum := sum + buf[p];
        p := p + 1;
      }
      return Negate(sum);
    }

    /** Decodes the frame in the buffer; the process stops when the frame fills it. */
    method Receive() returns (status: Status, address: bv8, length: nat)
      requires Shape() && !aborted
      modifies this`aborted
      ensures match Decode(buf[..rcvPos])
              case AssertFails => aborted
              case Rejected => !aborted && status == IoErr
              case Accepted(a, pdu) => !aborted && status == NoErr && address == a && length == |pdu| && buf[1..1 + length] == pdu
    {
      hide Lrc;
      if rcvPos >= MAX_FRAME {
        aborted := true;
        return IoErr, 0, 0;
      }
      var lrc := LrcOf(0, rcvPos);
      assert buf[0..rcvPos] == buf[..rcvPos];
      if rcvPos >= MIN_FRAME && lrc == 0 {
        assert buf[..rcvPos][1..rcvPos - 1] == buf[1..rcvPos - 1];
        return NoErr, buf[0], rcvPos - 1 - 1;
      }
      return IoErr, 0, 0;
    }

    /** Seals the PDU at place 1 of the buffer and starts sending, unless a new frame has begun to arrive. */
    method Send(slave: bv8, len: nat) returns (status: Status)
      requires Listening() && 1 <= len <= 253
      modifies this`sndCur, this`sndCount, this`sndState, this`rxEnabled, this`txEnabled, this`rxPos, this`txPos,
               this`dropped, buf
      ensures rcvState != RxIdle ==>
                && status == IoErr && dropped == old(dropped) + 1 && unchanged(buf)
                && unchanged(this`sndCur, this`sndCount, this`sndState, this`rxEnabled, this`txEnabled, this`rxPos, this`txPos)
      ensures rcvState == RxIdle ==>
                status == NoErr && dropped == old(dropped) && Transmitting() && sndState == TxStart && txPos == 0
      ensures rcvState == RxIdle ==> Remaining() == Line(Frame(slave, old(buf[1..1 + len])))
    {
      hide Lrc, HexChars, Hex, BinToChar;
      if rcvState == RxIdle {
        ghost var pdu := buf[1..1 + len];
        sndCur, sndCount := 0, 1;
        buf[sndCur] := slave;
        sndCount := sndCount + len;
        var lrc := LrcOf(sndCur, sndCount);
        assert buf[0..1 + len] == [slave] + pdu;
        buf[sndCount] := lrc;
        sndCount := sndCount + 1;
        assert buf[sndCur..sndCur + sndCount] == [slave] + pdu + [lrc];
        sndState := TxStart;
        SerialEnable(false, true);
        return NoErr;
      } else {
        dropped := dropped + 1;
        return IoErr;
      }
    }

    method TakeNibble(nibble: bv8)
      requires Listening() && rcvState == RxRcv && timerArmed
      modifies this`rcvState, this`rcvPos, this`bytePos, this`timerArmed, buf
      ensures Listening() && Receiver() == ReceiveNibble(old(Receiver()), nibble)
    {
      match bytePos {
        case HighNibble =>
          if rcvPos < MAX_FRAME {
            buf[rcvPos] := nibble << 4;
            bytePos := LowNibble;
          } else {
            rcvState := RxIdle;
            timerArmed := false;
          }
        case LowNibble =>
          buf[rcvPos] := buf[rcvPos] | nibble;
          rcvPos := rcvPos + 1;
          bytePos := HighNibble;
      }
    }

    /** Handles one character; a completed frame is announced, over any event still queued. */
    method ReceiveFSM()
      requires Listening() && rxPos < BUF_SIZE
      modifies this`rxPos, this`rcvState, this`rcvPos, this`bytePos, this`timerArmed,
               this`event, this`eventInQueue, this`overwritten, buf
      ensures Listening() && rxPos == old(rxPos) + 1
      ensures Receiver() == ReceiveChar(old(Receiver()), old(serialBuf[rxPos]))
      ensures if Completes(old(Receiver()), old(serialBuf[rxPos]))
              then eventInQueue && event == EvFrameReceived && overwritten == (old(overwritten) || old(eventInQueue))
              else eventInQueue == old(eventInQueue) && event == old(event) && overwritten == old(overwritten)
    {
      hide CharToBin, ReceiveNibble;
      assert sndState == TxIdle;
      var b := serialBuf[rxPos];
      rxPos := rxPos + 1;
      match rcvState {
        case RxRcv =>
          timerArmed := true;
          if b == COLON {
            bytePos := HighNibble;
            rcvPos := 0;
          } else if b == CR {
            rcvState := RxWaitEof;
          } else {
            TakeNibble(CharToBin(b));
          }
        case RxWaitEof =>
          if b == LF {
            timerArmed := false;
            rcvState := RxIdle;
            EventPost(EvFrameReceived);
          } else if b == COLON {
            bytePos := HighNibble;
            rcvPos := 0;
            rcvState := RxRcv;
            timerArmed := true;
          } else {
            rcvState := RxIdle;
          }
        case RxIdle =>
          if b == COLON {
            timerArmed := true;
            rcvPos := 0;
            bytePos := HighNibble;
            rcvState := RxRcv;
          }
      }
    }

    /** The characters the transmit state machine has yet to put out. */
    ghost function Remaining(): seq<bv8>
      requires Shape() && (sndState == TxData && bytePos == LowNibble ==> sndCount > 0)
      reads this, buf
    {
      ToCome(sndState, bytePos, buf[sndCur..sndCur + sndCount])
    }

    /** What the transmit state machine needs while it fills the serial buffer. */
    ghost predicate Transmitting()
      reads this, buf
    {
      && Shape() && !aborted && txEnabled && !rxEnabled && rcvState == RxIdle
      && (sndState == TxData && bytePos == LowNibble ==> sndCount > 0)
      && txPos + |Remaining()| <= BUF_SIZE
    }

    /** The characters already in the serial buffer and those to come make up the line. */
    ghost predicate Sending(line: seq<bv8>)
      reads this, buf, serialBuf
    {
      Transmitting() && serialBuf[..txPos] + Remaining() == line
    }

    method PutHighNibble(ghost line: seq<bv8>)
      requires Sending(line) && sndState == TxData && sndCount > 0 && bytePos == HighNibble
      modifies this`txPos, this`bytePos, serialBuf
      ensures Sending(line) && bytePos == LowNibble
    {
      hide ToCome, HighChar;
      ghost var pending := buf[sndCur..sndCur + sndCount];
      ToComeStep(pending);
      PutByte(HighChar(buf[sndCur]), ToCome(TxData, LowNibble, pending), line);
      bytePos := LowNibble;
    }

    method PutLowNibble(ghost line: seq<bv8>)
      requires Sending(line) && sndState == TxData && sndCount > 0 && bytePos == LowNibble
      modifies this`txPos, this`sndCur, this`sndCount, this`bytePos, serialBuf
      ensures Sending(line) && bytePos == HighNibble && sndCount == old(sndCount) - 1
    {
      hide ToCome, LowChar;
      ghost var pending := buf[sndCur..sndCur + sndCount];
      ToComeStep(pending);
      PutByte(LowChar(buf[sndCur]), ToCome(TxData, HighNibble, pending[1..]), line);
      BehindFirst(buf[..], sndCur, sndCount);
      sndCur := sndCur + 1;
      bytePos := HighNibble;
      sndCount := sndCount - 1;
      assert buf[sndCur..sndCur + sndCount] == pending[1..];
    }

    method PutStart(ghost line: seq<bv8>)
      requires Sending(line) && sndState == TxStart
      modifies this`txPos, this`sndState, this`bytePos, serialBuf
      ensures Sending(line) && sndState == TxData && bytePos == HighNibble
    {
      hide ToCome;
      ghost var pending := buf[sndCur..sndCur + sndCount];
      ToComeStep(pending);
      PutByte(COLON, ToCome(TxData, HighNibble, pending), line);
      sndState := TxData;
      bytePos := HighNibble;
    }

    method PutEnd(ghost line: seq<bv8>)
      requires Sending(line) && sndState == TxData && sndCount == 0
      modifies this`txPos, this`sndState, serialBuf
      ensures Sending(line) && sndState == TxEnd
    {
      hide ToCome;
      ghost var pending := buf[sndCur..sndCur + sndCount];
      assert pending == [] && bytePos == HighNibble;
      ToComeStep(pending);
      PutByte(CR, ToCome(TxEnd, HighNibble, pending), line);
      sndState := TxEnd;
    }

    method PutLast(ghost line: seq<bv8>)
      requires Sending(line) && sndState == TxEnd
      modifies this`txPos, this`sndState, serialBuf
      ensures Sending(line) && sndState == TxNotify
    {
      hide ToCome;
      ghost var pending := buf[sndCur..sndCur + sndCount];
      ToComeEnds(bytePos, pending);
      PutByte(LF, ToCome(TxNotify, bytePos, pending), line);
      sndState := TxNotify;
    }

    /** Puts out one more character, or turns the line round once all are out. */
    method TransmitFSM(ghost line: seq<bv8>)
      requires Sending(line)
      modifies this`txPos, this`sndCur, this`sndCount, this`sndState, this`bytePos,
               this`event, this`eventInQueue, this`overwritten, this`rxEnabled, this`txEnabled, this`rxPos, serialBuf
      ensures old(Rank(sndState)) >= 2 ==>
                && Sending(line) && Rank(sndState) >= 1
                && eventInQueue == old(eventInQueue) && event == old(event) && overwritten == old(overwritten)
                && Left() < old(Left())
      ensures old(Rank(sndState)) <= 1 ==>
                && Listening() && sndState == TxIdle && rcvState == RxIdle && rxPos == 0
                && txPos <= BUF_SIZE && serialBuf[..txPos] == line
      ensures old(sndState) == TxNotify ==>
                eventInQueue && event == EvFrameSent && overwritten == (old(overwritten) || old(eventInQueue))
      ensures old(sndState) == TxIdle ==>
                eventInQueue == old(eventInQueue) && event == old(event) && overwritten == old(overwritten)
    {
      hide ToCome;
      if Rank(sndState) <= 1 { ToComeEnds(bytePos, buf[sndCur..sndCur + sndCount]); }
      match sndState {
        case TxStart => PutStart(line);
        case TxData =>
          if sndCount > 0 {
            match bytePos {
              case HighNibble => PutHighNibble(line);
              case LowNibble => PutLowNibble(line);
            }
          } else {
            PutEnd(line);
          }
        case TxEnd => PutLast(line);
        case TxNotify =>
          sndState := TxIdle;
          EventPost(EvFrameSent);
          SerialEnable(true, false);
        case TxIdle => SerialEnable(true, false);
      }
    }

    /** The steps the transmit state machine has left. */
    ghost function Left(): nat
      reads this
    {
      match sndState
      case TxStart => 2 * sndCount + 5
      case TxData => 2 * sndCount + 3 - (if bytePos == LowNibble then 1 else 0)
      case TxEnd => 2
      case TxNotify => 1
      case TxIdle => 0
    }

    method TimerT1SExpired()
      requires Shape()
      modifies this`rcvState, this`timerArmed, this`aborted
      ensures old(rcvState) == RxIdle ==> aborted && rcvState == RxIdle
      ensures old(rcvState) != RxIdle ==> aborted == old(aborted) && rcvState == RxIdle && !timerArmed
    {
      match rcvState {
        case RxRcv => rcvState := RxIdle;
        case RxWaitEof => rcvState := RxIdle;
        case RxIdle =>
          aborted := true;
          return;
      }
      timerArmed := false;
    }

    // ----- portserial.c: polling -----

    /** Hands over the characters of one read. */
    method ReceiveChunk(c: seq<bv8>)
      requires Listening() && rxPos == 0 && |c| <= BUF_SIZE
      modifies this`rxPos, this`rcvState, this`rcvPos, this`bytePos, this`timerArmed,
               this`event, this`eventInQueue, this`overwritten, buf, serialBuf
      ensures Listening() && rxPos == 0
      ensures Receiver() == ReceiveChars(old(Receiver()), c)
      ensures Posted(Completions(old(Receiver()), c), old(event), old(eventInQueue), old(overwritten))
    {
      hide ReceiveChar, Completes;
      forall i | 0 <= i < |c| { serialBuf[i] := c[i]; }
      var i := 0;
      ghost var r, e, q, o := Receiver(), event, eventInQueue, overwritten;
      while i < |c|
        modifies this`rxPos, this`rcvState, this`rcvPos, this`bytePos, this`timerArmed,
                 this`event, this`eventInQueue, this`overwritten, buf
        invariant 0 <= i <= |c| && Listening() && rxPos == i
        invariant Receiver() == ReceiveChars(r, c[..i])
        invariant Posted(Completions(r, c[..i]), e, q, o)
      {
        assert serialBuf[i] == c[i];
        ReceiveFSM();
        i := i + 1;
        assert c[..i][..i - 1] == c[..i - 1];
      }
      assert c[..|c|] == c;
      rxPos := 0;
    }

    /** The queue after n frames were announced: the slot is taken if any was, and an event is lost unless it was free for one. */
    ghost predicate Posted(n: nat, was: Event, queued: bool, lost: bool)
      reads this
    {
      && eventInQueue == (queued || n > 0)
      && event == (if n > 0 then EvFrameReceived else was)
      && overwritten == (lost || n > 1 || (n == 1 && queued))
    }

    /** Reads until the line is quiet; a frame's announcement is lost exactly when a second one completes meanwhile. */
    method ReceiveAll(chunks: seq<seq<bv8>>)
      requires Listening() && rxPos == 0 && !eventInQueue
      requires forall c :: c in chunks ==> 1 <= |c| <= BUF_SIZE
      modifies this`rxPos, this`rcvState, this`rcvPos, this`bytePos, this`timerArmed,
               this`event, this`eventInQueue, this`overwritten, buf, serialBuf
      ensures Listening() && rxPos == 0
      ensures Receiver() == ReceiveChars(old(Receiver()), Flatten(chunks))
      ensures eventInQueue <==> Completions(old(Receiver()), Flatten(chunks)) >= 1
      ensures eventInQueue ==> event == EvFrameReceived
      ensures overwritten <==> old(overwritten) || Completions(old(Receiver()), Flatten(chunks)) >= 2
    {
      hide ReceiveChars, Completions;
      var k := 0;
      ghost var r, e, o := Receiver(), event, overwritten;
      assert ReceiveChars(r, Flatten(chunks[..0])) == r && Completions(r, Flatten(chunks[..0])) == 0 by {
        assert chunks[..0] == [];
        ReceiveNone(r);
      }
      while k < |chunks|
        invariant 0 <= k <= |chunks| && Listening() && rxPos == 0
        invariant Receiver() == ReceiveChars(r, Flatten(chunks[..k]))
        invariant Posted(Completions(r, Flatten(chunks[..k])), e, false, o)
      {
        ReceiveChunk(chunks[k]);
        ReceiveCharsConcat(r, Flatten(chunks[..k]), chunks[k]);
        k := k + 1;
        assert chunks[..k][..k - 1] == chunks[..k - 1];
      }
      assert chunks[..k] == chunks;
    }

    /** Runs the transmit state machine until it turns the line round, and writes what it left in the buffer. */
    method TransmitAll() returns (written: seq<bv8>)
      requires Transmitting() && sndState == TxStart && txPos == 0
      modifies this`txPos, this`sndCur, this`sndCount, this`sndState, this`bytePos,
               this`event, this`eventInQueue, this`overwritten, this`rxEnabled, this`txEnabled, this`rxPos, serialBuf
      ensures Listening() && rcvState == RxIdle && rxPos == 0
      ensures written == old(Remaining())
      ensures eventInQueue && event == EvFrameSent && overwritten == (old(overwritten) || old(eventInQueue))
    {
      hide HexChars, Line;
      ghost var line, q, o := Remaining(), eventInQueue, overwritten;
      assert serialBuf[..0] == [];
      while txEnabled
        invariant txPos <= BUF_SIZE && rcvState == RxIdle
        invariant txEnabled ==> Sending(line) && sndState != TxIdle && eventInQueue == q && overwritten == o
        invariant !txEnabled ==>
                    && Listening() && rxPos == 0 && serialBuf[..txPos] == line
                    && eventInQueue && event == EvFrameSent && overwritten == (o || q)
        decreases txEnabled, Left()
      {
        TransmitFSM(line);
      }
      written := serialBuf[..txPos];
    }

    // ----- porttimer.c -----

    method TimerPoll(expired: bool)
      requires Listening()
      modifies this`rcvState, this`timerArmed, this`aborted
      ensures match TimedOut(old(Receiver()), expired)
              case None => aborted
              case Some(q) => Listening() && Receiver() == q && (old(rcvState) == RxIdle ==> rcvState == RxIdle)
    {
      if timerArmed && expired {
        timerArmed := false;
        TimerT1SExpired();
      }
    }

    // ----- mb.c -----

    /** A poll that finds the queue empty. */
    method PollSerial(input: PollInput) returns (written: seq<bv8>)
      requires Live() && !aborted && !eventInQueue && ReadableAt(input)
      modifies this, buf, serialBuf
      ensures mbState == Enabled && (aborted || Live()) && dropped == old(dropped)
      ensures Phase() == Next(old(Phase()), input, address, handlers)
      ensures written == Written(old(Phase())) && overwritten == (old(overwritten) || Loses(old(Phase()), input))
      ensures !DropsReply(old(Phase()))
    {
      hide Next, WellBehaved, ToCome, Line;
      if rxEnabled {
        PollReading(input);
        written := [];
      } else {
        written := PollWriting(input);
      }
    }

    method PollReading(input: PollInput)
      requires Live() && Quiet() && !eventInQueue && ReadableAt(input)
      modifies this, buf, serialBuf
      ensures mbState == Enabled && (aborted || Live()) && dropped == old(dropped)
      ensures Phase() == Next(old(Phase()), input, address, handlers)
      ensures Written(old(Phase())) == [] && overwritten == (old(overwritten) || Loses(old(Phase()), input))
      ensures !DropsReply(old(Phase()))
    {
      hide ReceiveChars, Completions, WellBehaved, Calm, Transmitting, ToCome, Line;
      ghost var r := Receiver();
      AfterReadingCalm(r, Flatten(input.chunks), input.expired);
      CalmReceives(r, Flatten(input.chunks));
      ReceiveAll(input.chunks);
      TimerPoll(input.expired);
    }

    method PollWriting(input: PollInput) returns (written: seq<bv8>)
      requires Live() && !eventInQueue && !rxEnabled
      modifies this, serialBuf
      ensures mbState == Enabled && (aborted || Live()) && dropped == old(dropped)
      ensures Phase() == Next(old(Phase()), input, address, handlers)
      ensures written == Written(old(Phase())) && overwritten == old(overwritten)
      ensures !Loses(old(Phase()), input) && !DropsReply(old(Phase()))
    {
      hide Completions, WellBehaved, Line, ToCome;
      written := TransmitAll();
      TimerPoll(input.expired);
    }

    method OnFrameReceived()
      requires Quiet() && !eventInQueue
      modifies this`aborted, this`rcvAddress, this`length, this`event, this`eventInQueue, this`overwritten
      ensures (aborted || Quiet()) && overwritten == old(overwritten)
      ensures match Decode(buf[..rcvPos])
              case AssertFails => aborted
              case Rejected => !aborted && !eventInQueue
              case Accepted(a, pdu) =>
                && !aborted && (eventInQueue <==> a == address || a == BROADCAST)
                && (eventInQueue ==> event == EvExecute && rcvAddress == a && buf[1..1 + length] == pdu)
    {
      hide Lrc;
      var status, a, n := Receive();
      if !aborted && status == NoErr {
        rcvAddress, length := a, n;
        if rcvAddress == address || rcvAddress == BROADCAST { EventPost(EvExecute); }
      }
    }

    method SendReply()
      requires Live() && Quiet() && !eventInQueue && 1 <= length <= MAX_REQUEST
      modifies this`sndCur, this`sndCount, this`sndState, this`rxEnabled, this`txEnabled, this`rxPos, this`txPos,
               this`dropped, buf
      ensures Live() && (txEnabled <==> rcvState == RxIdle)
      ensures txEnabled ==> Remaining() == Line(Frame(address, old(buf[1..1 + length]))) && dropped == old(dropped)
      ensures !txEnabled ==> buf[..] == old(buf[..]) && dropped == old(dropped) + 1
    {
      hide Frame, Line, ToCome, WellBehaved;
      var status := Send(address, length);
    }

    /** Executes the request in the buffer, and sends its response unless another frame has begun. */
    method OnExecute()
      requires Live() && Quiet() && !eventInQueue && 1 <= length <= MAX_REQUEST
      modifies this`length, this`sndCur, this`sndCount, this`sndState, this`rxEnabled, this`txEnabled, this`rxPos, this`txPos,
               this`dropped, buf
      ensures Live() && (txEnabled <==> rcvAddress != BROADCAST && rcvState == RxIdle)
      ensures txEnabled ==> Remaining() == Line(Frame(address, Response(handlers, old(buf[1..1 + length]))))
      ensures |Leaves(handlers, old(buf[1..1 + length]), rcvAddress)| <= 253
      ensures !txEnabled ==> buf[..] == Overwritten(old(buf[..]), 1, Leaves(handlers, old(buf[1..1 + length]), rcvAddress))
      ensures dropped == old(dropped) + if rcvAddress != BROADCAST && rcvState != RxIdle then 1 else 0
    {
      hide Response, Frame, Line, Remaining, Transmitting, WellBehaved, Leaves, Overwritten;
      length := ExecuteRequest(handlers, buf, length, rcvAddress, MAX_REQUEST);
      if rcvAddress != BROADCAST { SendReply(); }
    }

    /** A poll that takes an event from the queue. */
    method PollEvent(ghost input: PollInput)
      requires Live() && !aborted && eventInQueue
      modifies this, buf
      ensures mbState == Enabled && (aborted || Live()) && overwritten == old(overwritten)
      ensures Phase() == Next(old(Phase()), input, address, handlers)
      ensures dropped == old(dropped) + if DropsReply(old(Phase())) then 1 else 0
    {
      hide Decode, Response, Frame, Line, WellBehaved, ToCome, Leaves;
      match event {
        case EvReady => eventInQueue := false;
        case EvFrameReceived => PollFrameReceived(input);
        case EvExecute => PollExecute(input);
        case EvFrameSent => eventInQueue := false;
      }
    }

    method PollFrameReceived(ghost input: PollInput)
      requires Live() && !aborted && eventInQueue && event == EvFrameReceived
      modifies this, buf
      ensures mbState == Enabled && (aborted || Live()) && overwritten == old(overwritten)
      ensures Phase() == Next(old(Phase()), input, address, handlers)
      ensures dropped == old(dropped) + if DropsReply(old(Phase())) then 1 else 0
    {
      hide Decode, Response, Frame, Line, WellBehaved, ToCome, Leaves;
      eventInQueue := false;
      OnFrameReceived();
    }

    method PollExecute(ghost input: PollInput)
      requires Live() && !aborted && eventInQueue && event == EvExecute
      modifies this, buf
      ensures mbState == Enabled && (aborted || Live()) && overwritten == old(overwritten)
      ensures Phase() == Next(old(Phase()), input, address, handlers)
      ensures dropped == old(dropped) + if DropsReply(old(Phase())) then 1 else 0
    {
      hide Decode, Response, Frame, Line, WellBehaved, ToCome, Leaves, Patched, Overwritten, AfterReading, AfterArrival, TimedOut;
      ghost var r, was, w := Receiver(), buf[..], Leaves(handlers, buf[1..1 + length], rcvAddress);
      eventInQueue := false;
      assert |buf[1..1 + length]| >= 1;
      OnExecute();
      if rcvState != RxIdle { PatchedBuffer(r, was, buf[..], w); }
    }

    /** One poll is one step of the machine. */
    method Poll(input: PollInput) returns (status: Status, written: seq<bv8>)
      requires mbState == Enabled ==> Live() && !aborted
      requires ReadableAt(input)
      modifies this, buf, serialBuf
      ensures old(mbState) == Disabled ==> status == IllState && written == [] && unchanged(this)
      ensures old(mbState) == Enabled ==>
                && status == NoErr && mbState == Enabled && (aborted || Live())
                && Phase() == Next(old(Phase()), input, address, handlers)
                && written == Written(old(Phase()))
                && overwritten == (old(overwritten) || Loses(old(Phase()), input))
                && dropped == old(dropped) + if DropsReply(old(Phase())) then 1 else 0
    {
      hide Next, WellBehaved;
      if mbState != Enabled { return IllState, []; }
      status := NoErr;
      if eventInQueue {
        PollEvent(input);
        written := [];
      } else {
        written := PollSerial(input);
      }
    }

    /** Disabled with nothing left over from a run. */
    ghost predicate AtRest()
      reads this
    {
      Configured() && Shape() && mbState == Disabled && !aborted && sndState == TxIdle && !eventInQueue && !timerArmed
    }

    method Enable() returns (status: Status)
      requires mbState == Disabled ==> AtRest()
      modifies this`mbState, this`rcvState, this`rxEnabled, this`txEnabled, this`rxPos, this`txPos,
               this`event, this`eventInQueue, this`overwritten
      ensures old(mbState) == Enabled ==> status == IllState && unchanged(this)
      ensures old(mbState) == Disabled ==>
                status == NoErr && Live() && !aborted && Phase() == Started(READY) && overwritten == old(overwritten)
    {
      if mbState == Disabled {
        Start();
        mbState := Enabled;
        return NoErr;
      }
      return IllState;
    }

    method Disable() returns (status: Status)
      requires mbState == Enabled ==> Live() && !aborted
      modifies this`mbState, this`timerArmed, this`rxEnabled, this`txEnabled, this`rxPos, this`txPos
      ensures status == NoErr && mbState == Disabled
      ensures old(mbState) == Enabled ==> (AtRest() <==> old(Phase()).Listening?)
    {
      if mbState == Enabled {
        SerialEnable(false, false);
        timerArmed := false;
        mbState := Disabled;
      }
      return NoErr;
    }

    /** One run of the polling thread; it ends when told to, or with the process. */
    method PollingThread(inputs: seq<PollInput>) returns (written: seq<bv8>)
      requires AtRest() && Readable(inputs)
      modifies this, buf, serialBuf
      ensures written == Transcript(Started(READY), inputs, address, handlers)
      ensures aborted <==> PhaseAfter(Started(READY), inputs, address, handlers) == Aborted
      ensures dropped == old(dropped) + Dropped(Started(READY), inputs, address, handlers)
      ensures overwritten == (old(overwritten) || LosesOne(Started(READY), inputs, address, handlers))
      ensures !aborted ==> (AtRest() <==> PhaseAfter(Started(READY), inputs, address, handlers).Listening?)
    {
      hide PhaseAfter, Transcript, Dropped, LosesOne, WellBehaved;
      var status := Enable();
      written := PollUntilDone(inputs);
      if !aborted {
        status := Disable();
      }
    }

    method PollUntilDone(inputs: seq<PollInput>) returns (written: seq<bv8>)
      requires mbState == Enabled && Live() && !aborted && Readable(inputs)
      modifies this, buf, serialBuf
      ensures mbState == Enabled && (aborted || Live())
      ensures Phase() == PhaseAfter(old(Phase()), inputs, address, handlers)
      ensures written == Transcript(old(Phase()), inputs, address, handlers)
      ensures dropped == old(dropped) + Dropped(old(Phase()), inputs, address, handlers)
      ensures overwritten == (old(overwritten) || LosesOne(old(Phase()), inputs, address, handlers))
    {
      hide Next, Written, Live, Loses, DropsReply, PhaseAfter, Transcript, Dropped, LosesOne;
      ghost var p := Phase();
      written := [];
      var k := 0;
      assert inputs[..0] == [];
      NoPolls(p, address, handlers);
      while k < |inputs| && !aborted
        invariant 0 <= k <= |inputs| && mbState == Enabled && (aborted || Live())
        invariant Phase() == PhaseAfter(p, inputs[..k], address, handlers)
        invariant written == Transcript(p, inputs[..k], address, handlers)
        invariant dropped == old(dropped) + Dropped(p, inputs[..k], address, handlers)
        invariant overwritten == (old(overwritten) || LosesOne(p, inputs[..k], address, handlers))
      {
        var status, sent := Poll(inputs[k]);
        written := written + sent;
        OnePollMore(p, inputs, k, address, handlers);
        k := k + 1;
      }
      if aborted {
        StaysStopped(p, inputs, k, address, handlers);
      } else {
        assert inputs[..k] == inputs;
      }
    }
  }

  /** The receiver's part of a buffer whose places from the second on were written. */
  lemma PatchedBuffer(r: Receiver, was: seq<bv8>, now: seq<bv8>, w: seq<bv8>)
    requires 1 + |w| <= |was| && now == Overwritten(was, 1, w)
    requires |r.bytes| <= |was| && r.bytes == was[..|r.bytes|]
    requires r.high.Some? ==> |r.bytes| < |was| && r.high.value == was[|r.bytes|]
    ensures Patched(r, w) == r.(bytes := now[..|r.bytes|], high := if r.high.Some? then Some(now[|r.bytes|]) else None)
  {}

  lemma ReceiveNone(r: Receiver)
    ensures ReceiveChars(r, []) == r && Completions(r, []) == 0
  {}
}
