/**
 * The FreeModbus slave in RTU mode as mb.c, mbrtu.c, portserial.c, portevent.c and porttimer.c implement it: their
 * static variables are the fields, one method a function. Serial reads and writes succeed; the bytes read and the
 * timer's expiry are inputs of each poll.
 */
module RtuSlave {
  import opened Crc16
  import opened ModbusHandlers
  import opened ModbusPort
  import opened Options
  import opened RtuLink
  import opened RtuRestart
  import opened Sequences

  datatype RcvState = RxInit | RxIdle | RxRcv | RxError
  datatype SndState = TxIdle | TxXmit

  /** The longest PDU a frame is accepted with. */
  const MAX_REQUEST := 252

  class RtuSlave {
    // mb.c
    const address: bv8
    const handlers: seq<Handler>
    var mbState: MbState
    var rcvAddress: bv8
    var length: nat
    // mbrtu.c
    var rcvState: RcvState
    var sndState: SndState
    const buf: array<bv8>
    var sndCur: nat
    var sndCount: nat
    var rcvPos: nat
    // portserial.c
    var rxEnabled: bool
    var txEnabled: bool
    const serialBuf: array<bv8>
    var rxPos: nat
    var txPos: nat
    // porttimer.c
    var timerArmed: bool
    // portevent.c
    var event: Event
    var eventInQueue: bool

    /** A C assertion has failed and the process has stopped. */
    var aborted: bool
    /** An event was posted over one still in the queue. */
    ghost var overwritten: bool
    /** How many replies eMBRTUSend has refused to send. */
    ghost var dropped: nat

    ghost predicate Shape() {
      && buf.Length == MAX_FRAME && serialBuf.Length == BUF_SIZE && buf != serialBuf
      && 1 <= address <= 247 && WellBehaved(handlers, MAX_REQUEST)
    }

    /** What holds between polls of an enabled slave. */
    ghost predicate Valid()
      reads this
    {
      && Shape() && mbState == Enabled && !overwritten
      && !(rxEnabled && txEnabled)
      && (sndState == TxXmit ==> txEnabled && rcvState == RxIdle && !eventInQueue)
      && (sndState == TxIdle ==> rxEnabled)
      && (rxEnabled ==> rxPos == 0) && (txEnabled ==> txPos == 0)
      && sndCur + sndCount <= MAX_FRAME && rcvPos <= MAX_FRAME
      && (timerArmed <==> rcvState != RxIdle)
      && (eventInQueue ==> rcvState == RxIdle && sndState == TxIdle)
      && (eventInQueue && event == EvExecute ==> 1 <= length && length + 3 < MAX_FRAME)
    }

    /** The receiver's part of the state. */
    ghost function Receiver(): Receiver
      requires Shape() && rcvPos <= MAX_FRAME
      reads this, buf
    {
      match rcvState
      case RxInit => Init
      case RxIdle => Idle
      case RxRcv => Rcv(buf[..rcvPos])
      case RxError => Error
    }

    ghost function Phase(): Phase
      requires Valid()
      reads this, buf
    {
      if aborted then Aborted
      else if eventInQueue then
        match event
        case EvReady => Started
        case EvFrameReceived => Arrived(buf[..rcvPos])
        case EvExecute => Executing(rcvAddress, buf[1..1 + length])
        case EvFrameSent => Sent
      else if sndState == TxXmit then Sending(buf[sndCur..sndCur + sndCount])
      else Listening(Receiver())
    }

    ghost predicate Bounded()
      reads this
    {
      && Shape() && sndCur + sndCount <= MAX_FRAME && rcvPos <= MAX_FRAME
      && (eventInQueue && event == EvExecute ==> 1 <= length && length + 3 < MAX_FRAME)
    }

    /** The event in the queue. */
    ghost function Queue(): Option<Queued>
      requires Bounded()
      reads this, buf
    {
      if !eventInQueue then None
      else match event
        case EvReady => Some(QReady)
        case EvFrameReceived => Some(QFrame(buf[..rcvPos]))
        case EvExecute => Some(QExecute(rcvAddress, buf[1..1 + length]))
        case EvFrameSent => Some(QSent)
    }

    /** What holds between polls of a slave that was enabled with something left over. */
    ghost predicate Leftover()
      reads this
    {
      && Bounded() && mbState == Enabled && !overwritten && !aborted
      && rxEnabled && !txEnabled && rxPos == 0
      && (sndState == TxXmit || eventInQueue)
      && (timerArmed <==> rcvState == RxInit)
      && (rcvState == RxInit || (rcvState == RxIdle && sndState == TxXmit && (eventInQueue ==> event == EvReady)))
    }

    ghost predicate Live()
      reads this
    {
      Bounded() && mbState == Enabled && !overwritten && (aborted || Valid() || Leftover())
    }

    ghost function Life(): Life
      requires Live()
      reads this, buf
    {
      if aborted then Stopped
      else if Leftover() then Left(sndState == TxXmit, rcvState == RxIdle, Queue())
      else Normal(Phase())
    }

    /** A slave as eMBInit leaves it. */
    constructor (address: bv8, handlers: seq<Handler>)
      requires 1 <= address <= 247 && WellBehaved(handlers, MAX_REQUEST)
      ensures AtRest() && dropped == 0
      ensures fresh(buf) && fresh(serialBuf) && this.address == address && this.handlers == handlers
    {
      this.address, this.handlers := address, handlers;
      mbState := Disabled;
      rcvAddress, length := 0, 0;
      rcvState, sndState := RxInit, TxIdle;
      buf := new bv8[MAX_FRAME];
      sndCur, sndCount, rcvPos := 0, 0, 0;
      rxEnabled, txEnabled := false, false;
      serialBuf := new bv8[BUF_SIZE];
      rxPos, txPos := 0, 0;
      timerArmed := false;
      event, eventInQueue := EvReady, false;
      aborted, overwritten, dropped := false, false, 0;
    }

    // ----- portevent.c, portserial.c -----

    method EventPost(e: Event)
      modifies this`event, this`eventInQueue, this`overwritten
      ensures event == e && eventInQueue
      ensures overwritten == (old(overwritten) || old(eventInQueue))
    {
      overwritten := overwritten || eventInQueue;
      eventInQueue := true;
      event := e;
    }

    method SerialEnable(rx: bool, tx: bool)
      requires !rx || !tx
      modifies this`rxEnabled, this`txEnabled, this`rxPos, this`txPos
      ensures rxEnabled == rx && txEnabled == tx
      ensures rxPos == if rx then 0 else old(rxPos)
      ensures txPos == if tx then 0 else old(txPos)
    {
      if rx { rxPos := 0; }
      rxEnabled := rx;
      if tx { txPos := 0; }
      txEnabled := tx;
    }

    // ----- mbrtu.c -----

    /** What the receive state machine needs while serial bytes are being handed over. */
    ghost predicate Receiving()
      reads this
    {
      ReceiverOn() && (timerArmed <==> rcvState != RxIdle)
    }

    ghost predicate ReceiverOn()
      reads this
    {
      && Shape() && mbState == Enabled && !overwritten && !aborted && !eventInQueue
      && rxEnabled && !txEnabled
      && rcvPos <= MAX_FRAME && sndCur + sndCount <= MAX_FRAME
    }

    /** Handles one byte; the process stops in the transmit state. */
    method ReceiveFSM()
      requires Receiving() && rxPos < BUF_SIZE
      modifies this`rxPos, this`rcvState, this`rcvPos, this`timerArmed, this`aborted, buf
      ensures rcvPos <= MAX_FRAME && (aborted <==> sndState != TxIdle)
      ensures !aborted ==> Receiving() && rxPos == old(rxPos) + 1
      ensures !aborted ==> Receiver() == ReceiveByte(old(Receiver()), old(serialBuf[rxPos]))
    {
      if sndState != TxIdle {
        aborted := true;
        return;
      }
      var b := serialBuf[rxPos];
      rxPos := rxPos + 1;
      match rcvState {
        case RxInit => timerArmed := true;
        case RxError => timerArmed := true;
        case RxIdle =>
          rcvPos := 0;
          buf[rcvPos] := b;
          rcvPos := rcvPos + 1;
          rcvState := RxRcv;
          timerArmed := true;
        case RxRcv =>
          if rcvPos < MAX_FRAME {
            buf[rcvPos] := b;
            rcvPos := rcvPos + 1;
          } else {
            rcvState := RxError;
          }
          timerArmed := true;
      }
    }

    /** The bytes still to be sent. */
    ghost function Pending(): seq<bv8>
      requires Shape() && sndCur + sndCount <= MAX_FRAME
      reads this, buf
    {
      buf[sndCur..sndCur + sndCount]
    }

    /** What the transmit state machine needs while it fills the serial buffer. */
    ghost predicate Transmitting()
      reads this
    {
      && Shape() && mbState == Enabled && !overwritten && !aborted && !eventInQueue
      && txEnabled && !rxEnabled && rcvState == RxIdle && !timerArmed
      && rcvPos <= MAX_FRAME && sndCur + sndCount <= MAX_FRAME
      && txPos + sndCount <= MAX_FRAME
    }

    method PutByte(b: bv8)
      requires Shape() && txPos < BUF_SIZE
      modifies this`txPos, serialBuf
      ensures txPos == old(txPos) + 1 && serialBuf[..txPos] == old(serialBuf[..txPos]) + [b]
    {
      serialBuf[txPos] := b;
      txPos := txPos + 1;
    }

    method PutNext()
      requires Transmitting() && sndCount > 0
      modifies this`txPos, this`sndCur, this`sndCount, serialBuf
      ensures Transmitting() && sndCount == old(sndCount) - 1
      ensures serialBuf[..txPos] + Pending() == old(serialBuf[..txPos] + Pending())
    {
      hide WellBehaved;
      ghost var done, p := serialBuf[..txPos], Pending();
      MoveFirst(done, p);
      BehindFirst(buf[..], sndCur, sndCount);
      PutByte(buf[sndCur]);
      sndCur := sndCur + 1;
      sndCount := sndCount - 1;
      assert Pending() == p[1..];
    }

    method TransmitFSM()
      requires Transmitting()
      modifies this`txPos, this`sndCur, this`sndCount, this`sndState, this`event, this`eventInQueue, this`overwritten,
               this`rxEnabled, this`txEnabled, this`rxPos, serialBuf
      ensures txPos <= MAX_FRAME && sndCur + sndCount <= MAX_FRAME
      ensures serialBuf[..txPos] + Pending() == old(serialBuf[..txPos] + Pending())
      ensures old(sndState) == TxXmit && old(sndCount) > 0 ==>
                Transmitting() && sndState == TxXmit && sndCount == old(sndCount) - 1
      ensures old(sndState) == TxXmit && old(sndCount) == 0 ==>
                Valid() && !txEnabled && !aborted && sndCount == 0 && eventInQueue && event == EvFrameSent
      ensures old(sndState) == TxIdle ==> Valid() && !txEnabled && !aborted && !eventInQueue
    {
      hide WellBehaved;
      match sndState {
        case TxIdle => SerialEnable(true, false);
        case TxXmit =>
          if sndCount != 0 {
            PutNext();
          } else {
            EventPost(EvFrameSent);
            SerialEnable(true, false);
            sndState := TxIdle;
          }
      }
    }

    method TimerT35Expired()
      requires ReceiverOn() && rxPos == 0 && rcvState != RxIdle
      modifies this`event, this`eventInQueue, this`overwritten, this`timerArmed, this`rcvState
      ensures rcvState == RxIdle && !timerArmed && !overwritten
      ensures eventInQueue <==> old(rcvState) != RxError
      ensures eventInQueue ==> event == if old(rcvState) == RxInit then EvReady else EvFrameReceived
      ensures sndState == TxIdle ==> Valid() && Phase() == Expire(old(Receiver()))
    {
      match rcvState {
        case RxInit => EventPost(EvReady);
        case RxRcv => EventPost(EvFrameReceived);
        case RxError =>
      }
      timerArmed := false;
      rcvState := RxIdle;
    }

    /** Decodes the frame in the buffer; the process stops when the frame fills it. */
    method Receive() returns (status: Status)
      requires Shape() && rcvPos <= MAX_FRAME && !aborted
      modifies this`aborted, this`rcvAddress, this`length
      ensures match Decode(buf[..rcvPos])
              case AssertFails => aborted
              case Rejected => !aborted && status == IoErr && rcvAddress == old(rcvAddress) && length == old(length)
              case Accepted(a, pdu) => !aborted && status == NoErr && rcvAddress == a && length == |pdu| && buf[1..1 + length] == pdu
    {
      hide Crc;
      if rcvPos >= MAX_FRAME {
        aborted := true;
        return IoErr;
      }
      var crc := UsMBCRC16(buf, 0, rcvPos);
      assert buf[0..rcvPos] == buf[..rcvPos];
      if rcvPos >= MIN_FRAME && crc == 0 {
        rcvAddress := buf[0];
        length := rcvPos - 1 - 2;
        assert buf[..rcvPos][1..rcvPos - 2] == buf[1..1 + length];
        return NoErr;
      }
      return IoErr;
    }

    /** Seals the PDU at place 1 of the buffer and starts sending, unless a new frame has begun to arrive. */
    method Send(slave: bv8, len: nat) returns (status: Status)
      requires Shape() && 1 <= len <= 253
      modifies this`sndCur, this`sndCount, this`sndState, this`rxEnabled, this`txEnabled, this`rxPos, this`txPos,
               this`dropped, buf
      ensures rcvState != RxIdle ==>
                && status == IoErr && dropped == old(dropped) + 1 && unchanged(buf)
                && unchanged(this`sndCur, this`sndCount, this`sndState, this`rxEnabled, this`txEnabled, this`rxPos, this`txPos)
      ensures rcvState == RxIdle ==>
                && status == NoErr && dropped == old(dropped)
                && sndState == TxXmit && txEnabled && !rxEnabled && txPos == 0
      ensures rcvState == RxIdle ==>
                sndCur + sndCount <= MAX_FRAME && Pending() == Frame(slave, old(buf[1..1 + len]))
    {
      hide Crc, High, Low;
      if rcvState == RxIdle {
        ghost var pdu := buf[1..1 + len];
        sndCur, sndCount := 0, 1;
        buf[sndCur] := slave;
        sndCount := sndCount + len;
        var crc := UsMBCRC16(buf, sndCur, sndCount);
        assert buf[0..1 + len] == [slave] + pdu;
        buf[sndCount] := Low(crc);
        buf[sndCount + 1] := High(crc);
        sndCount := sndCount + 2;
        assert Pending() == [slave] + pdu + [Low(crc), High(crc)];
        sndState := TxXmit;
        SerialEnable(false, true);
        return NoErr;
      } else {
        dropped := dropped + 1;
        return IoErr;
      }
    }

    // ----- portserial.c, porttimer.c: polling -----

    /** Hands over the bytes of one read. */
    method ReceiveChunk(c: seq<bv8>)
      requires Receiving() && rxPos == 0 && |c| <= BUF_SIZE
      modifies this`rxPos, this`rcvState, this`rcvPos, this`timerArmed, this`aborted, buf, serialBuf
      ensures rcvPos <= MAX_FRAME && (aborted <==> sndState != TxIdle && c != [])
      ensures !aborted ==> Receiving() && rxPos == 0 && Receiver() == ReceiveBytes(old(Receiver()), c)
    {
      forall i | 0 <= i < |c| { serialBuf[i] := c[i]; }
      var i := 0;
      ghost var r := Receiver();
      while i < |c| && !aborted
        modifies this`rxPos, this`rcvState, this`rcvPos, this`timerArmed, this`aborted, buf
        invariant 0 <= i <= |c| && rcvPos <= MAX_FRAME && (aborted <==> sndState != TxIdle && i > 0)
        invariant !aborted ==> Receiving() && rxPos == i && Receiver() == ReceiveBytes(r, c[..i])
      {
        assert serialBuf[i] == c[i];
        ReceiveFSM();
        i := i + 1;
        assert c[..i][..i - 1] == c[..i - 1];
      }
      assert c[..|c|] == c;
      if aborted { return; }
      rxPos := 0;
    }

    /** Reads until the line is quiet. */
    method ReceiveAll(chunks: seq<seq<bv8>>)
      requires Receiving() && rxPos == 0
      requires forall c :: c in chunks ==> 1 <= |c| <= BUF_SIZE
      modifies this`rxPos, this`rcvState, this`rcvPos, this`timerArmed, this`aborted, buf, serialBuf
      ensures rcvPos <= MAX_FRAME && (aborted <==> sndState != TxIdle && Flatten(chunks) != [])
      ensures !aborted ==> Receiving() && rxPos == 0 && Receiver() == ReceiveBytes(old(Receiver()), Flatten(chunks))
    {
      hide ReceiveBytes;
      var k := 0;
      ghost var r := Receiver();
      assert ReceiveBytes(r, Flatten(chunks[..0])) == r by { assert chunks[..0] == []; ReceiveNone(r); }
      while k < |chunks| && !aborted
        invariant 0 <= k <= |chunks| && rcvPos <= MAX_FRAME && (aborted <==> sndState != TxIdle && k > 0)
        invariant !aborted ==> Receiving() && rxPos == 0 && Receiver() == ReceiveBytes(r, Flatten(chunks[..k]))
      {
        ReceiveChunk(chunks[k]);
        ReceiveBytesConcat(r, Flatten(chunks[..k]), chunks[k]);
        k := k + 1;
        assert chunks[..k][..k - 1] == chunks[..k - 1];
      }
      SomethingRead(chunks);
      if !aborted { assert chunks[..k] == chunks; }
    }

    /** Runs the transmit state machine until it turns the line round, and writes what it left in the buffer. */
    method TransmitAll() returns (written: seq<bv8>)
      requires Transmitting() && sndState == TxXmit && txPos == 0
      modifies this`txPos, this`sndCur, this`sndCount, this`sndState, this`event, this`eventInQueue, this`overwritten,
               this`rxEnabled, this`txEnabled, this`rxPos, serialBuf
      ensures Valid() && Phase() == Sent && !aborted
      ensures written == old(Pending())
    {
      ghost var p := Pending();
      assert serialBuf[..0] == [];
      while txEnabled
        invariant if txEnabled then Transmitting() && sndState == TxXmit
                  else Valid() && !aborted && sndCount == 0 && eventInQueue && event == EvFrameSent
        invariant txPos <= MAX_FRAME && sndCur + sndCount <= MAX_FRAME
        invariant serialBuf[..txPos] + Pending() == p
        decreases sndCount, txEnabled
      {
        TransmitFSM();
      }
      written := serialBuf[..txPos];
    }

    method TimerPoll(expired: bool)
      requires Receiving() && rxPos == 0
      modifies this`event, this`eventInQueue, this`overwritten, this`timerArmed, this`rcvState
      ensures sndState == TxIdle ==>
                Valid() && Phase() == if expired then Expire(old(Receiver())) else Listening(old(Receiver()))
      ensures sndState == TxXmit && old(rcvState == RxInit || rcvState == RxIdle) ==>
                && Leftover() && (eventInQueue <==> expired && old(rcvState) == RxInit)
                && rcvState == if expired then RxIdle else old(rcvState)
    {
      if timerArmed && expired {
        timerArmed := false;
        TimerT35Expired();
      }
    }

    // ----- mb.c -----

    /** A poll that finds the queue empty. */
    method PollSerial(input: PollInput) returns (written: seq<bv8>)
      requires Live() && !aborted && !eventInQueue && ReadableAt(input)
      modifies this, buf, serialBuf
      ensures Live() && written == WrittenBy(old(Life())) && dropped == old(dropped)
      ensures Life() == NextLife(old(Life()), input, address, handlers)
      ensures old(Valid()) ==> Valid()
    {
      hide ReceiveBytes, Expire, WellBehaved, Flatten;
      if rxEnabled {
        ReceiveNone(Receiver());
        ReceiveAll(input.chunks);
        if !aborted { TimerPoll(input.expired); }
        written := [];
      } else {
        written := TransmitAll();
      }
    }

    method OnFrameReceived()
      requires Shape() && rcvPos <= MAX_FRAME && !aborted && !eventInQueue
      modifies this`aborted, this`rcvAddress, this`length, this`event, this`eventInQueue, this`overwritten
      ensures overwritten == old(overwritten)
      ensures match Decode(buf[..rcvPos])
              case AssertFails => aborted && !eventInQueue
              case Rejected => !aborted && !eventInQueue
              case Accepted(a, pdu) =>
                && !aborted && 1 <= length && length + 3 < MAX_FRAME
                && (eventInQueue <==> a == address || a == BROADCAST)
                && (eventInQueue ==> event == EvExecute && rcvAddress == a && buf[1..1 + length] == pdu)
    {
      hide Crc, WellBehaved;
      var status := Receive();
      if !aborted && status == NoErr && (rcvAddress == address || rcvAddress == BROADCAST) {
        EventPost(EvExecute);
      }
    }

    /** Executes the request in the buffer; its reply is sent if the line is idle, and dropped if not. */
    method OnExecute()
      requires Shape() && 1 <= length <= 252
      modifies this`length, this`sndCur, this`sndCount, this`sndState, this`rxEnabled, this`txEnabled, this`rxPos, this`txPos,
               this`dropped, buf
      ensures var sends := rcvAddress != BROADCAST && rcvState == RxIdle;
              && (sends ==>
                    && sndState == TxXmit && txEnabled && !rxEnabled && txPos == 0 && sndCur + sndCount <= MAX_FRAME
                    && Pending() == Frame(address, Response(handlers, old(buf[1..1 + length]))))
              && (!sends ==>
                    unchanged(this`sndCur, this`sndCount, this`sndState, this`rxEnabled, this`txEnabled, this`rxPos, this`txPos))
      ensures dropped == old(dropped) + if rcvAddress != BROADCAST && rcvState != RxIdle then 1 else 0
    {
      hide Response, Frame, WellBehaved;
      length := ExecuteRequest(handlers, buf, length, rcvAddress, MAX_REQUEST);
      if rcvAddress != BROADCAST {
        var status := Send(address, length);
      }
    }

    /** A poll that takes an event from the queue. */
    method PollEvent(ghost input: PollInput)
      requires Live() && !aborted && eventInQueue
      modifies this, buf
      ensures Live() && dropped == old(dropped) + if DropsReply(old(Life())) then 1 else 0
      ensures Life() == NextLife(old(Life()), input, address, handlers)
      ensures old(Valid()) ==> Valid()
    {
      hide Decode, Response, Frame, WellBehaved, ReceiveBytes, Expire, Flatten;
      match event {
        case EvReady => eventInQueue := false;
        case EvFrameReceived => PollFrameReceived(input);
        case EvExecute => PollExecute(input);
        case EvFrameSent => eventInQueue := false;
      }
    }

    method PollFrameReceived(ghost input: PollInput)
      requires Live() && !aborted && eventInQueue && event == EvFrameReceived
      modifies this, buf
      ensures Live() && dropped == old(dropped) + if DropsReply(old(Life())) then 1 else 0
      ensures Life() == NextLife(old(Life()), input, address, handlers)
      ensures old(Valid()) ==> Valid()
    {
      hide Decode, Response, Frame, WellBehaved, ReceiveBytes, Expire, Flatten;
      eventInQueue := false;
      OnFrameReceived();
    }

    method PollExecute(ghost input: PollInput)
      requires Live() && !aborted && eventInQueue && event == EvExecute
      modifies this, buf
      ensures Live() && dropped == old(dropped) + if DropsReply(old(Life())) then 1 else 0
      ensures Life() == NextLife(old(Life()), input, address, handlers)
      ensures old(Valid()) ==> Valid()
    {
      hide Decode, Response, Frame, WellBehaved, ReceiveBytes, Expire, Flatten;
      eventInQueue := false;
      assert |buf[1..1 + length]| >= 1;
      OnExecute();
    }

    /** One poll is one step of the extended link machine; of the link machine itself if nothing was left over. */
    method Poll(input: PollInput) returns (status: Status, written: seq<bv8>)
      requires mbState == Enabled ==> Live() && !aborted
      requires ReadableAt(input)
      modifies this, buf, serialBuf
      ensures old(mbState) == Disabled ==> status == IllState && written == [] && unchanged(this)
      ensures old(mbState) == Enabled ==>
                && status == NoErr && Live() && written == WrittenBy(old(Life()))
                && Life() == NextLife(old(Life()), input, address, handlers)
                && dropped == old(dropped) + if DropsReply(old(Life())) then 1 else 0
      ensures old(mbState == Enabled && Valid()) ==> Valid() && Phase() == Next(old(Phase()), input, address, handlers)
    {
      hide Decode, Response, Frame, WellBehaved, ReceiveBytes, Expire;
      if mbState != Enabled { return IllState, []; }
      status := NoErr;
      if eventInQueue {
        PollEvent(input);
        written := [];
      } else {
        written := PollSerial(input);
      }
    }

    /** Disabled, with nothing said about what is left in the transmit state and the queue. */
    ghost predicate Idling()
      reads this
    {
      Bounded() && mbState == Disabled && !overwritten && !aborted
    }

    /** Disabled with nothing left over. */
    ghost predicate AtRest()
      reads this
    {
      Idling() && sndState == TxIdle && !eventInQueue
    }

    /** What is left over does no harm to the next run: a matter of the transmit state, the event and the frame it is about. */
    ghost predicate Restartable()
      requires Bounded()
      reads this, buf
    {
      && sndState == TxIdle
      && (eventInQueue && event == EvExecute ==> rcvAddress == BROADCAST)
      && (eventInQueue && event == EvFrameReceived ==> NotAsked(buf[..rcvPos], address))
    }

    /** Enabling keeps the transmit state and the queue; the runs that may follow are all sound exactly if they do no harm. */
    method Enable() returns (status: Status)
      requires mbState == Disabled ==> Idling()
      modifies this`mbState, this`rcvState, this`timerArmed, this`rxEnabled, this`txEnabled, this`rxPos, this`txPos
      ensures old(mbState) == Enabled ==> status == IllState && unchanged(this)
      ensures old(mbState) == Disabled ==>
                && status == NoErr && Live()
                && Life() == Restarted(old(sndState) == TxXmit, old(Queue()))
                && (Sound(Life(), address, handlers) <==> old(Restartable()))
    {
      hide Sound, WellBehaved, Decode;
      if mbState == Disabled {
        RestartIsSound(sndState == TxXmit, Queue(), address, handlers);
        rcvState := RxInit;
        SerialEnable(true, false);
        timerArmed := true;
        mbState := Enabled;
        return NoErr;
      }
      return IllState;
    }

    /** Disabling in a phase of the link machine leaves a restartable slave exactly in a phase in which that is safe. */
    method Disable() returns (status: Status)
      requires mbState == Enabled ==> Live() && !aborted
      modifies this`mbState, this`timerArmed, this`rxEnabled, this`txEnabled, this`rxPos, this`txPos
      ensures status == NoErr && mbState == Disabled
      ensures old(mbState) == Enabled ==> Idling() && sndState == old(sndState) && Queue() == old(Queue())
      ensures old(mbState == Enabled && Valid()) ==>
                && (sndState == TxXmit <==> old(Phase()).Sending?) && Queue() == LeftInQueue(old(Phase()))
                && (Restartable() <==> SafeToStop(old(Phase()), address))
    {
      hide WellBehaved, Decode;
      if mbState == Enabled {
        SerialEnable(false, false);
        timerArmed := false;
        mbState := Disabled;
      }
      return NoErr;
    }

    /** One run of the polling thread; it ends when told to, or with the process. */
    method PollingThread(inputs: seq<PollInput>) returns (written: seq<bv8>)
      requires Idling() && Readable(inputs)
      modifies this, buf, serialBuf
      ensures var first := Restarted(old(sndState) == TxXmit, old(Queue()));
              && written == LifeTranscript(first, inputs, address, handlers)
              && dropped == old(dropped) + Dropped(first, inputs, address, handlers)
              && (aborted <==> LifeAfter(first, inputs, address, handlers) == Stopped)
              && (aborted && old(Restartable()) ==> |BytesRead(inputs)| >= MAX_FRAME)
              && (old(Restartable()) ==> dropped == old(dropped))
      ensures old(AtRest()) ==> written == Transcript(Listening(Init), inputs, address, handlers)
      ensures !overwritten && (!aborted ==> Idling())
      ensures old(AtRest()) && !aborted ==>
                (Restartable() <==> SafeToStop(PhaseAfter(Listening(Init), inputs, address, handlers), address))
    {
      hide PhaseAfter, Transcript, LifeAfter, LifeTranscript, Dropped, WellBehaved, Decode;
      ghost var first := Restarted(sndState == TxXmit, Queue());
      NormalRun(Listening(Init), inputs, address, handlers);
      var status := Enable();
      written := PollUntilDone(inputs);
      if !aborted {
        status := Disable();
      }
    }

    method PollUntilDone(inputs: seq<PollInput>) returns (written: seq<bv8>)
      requires Live() && !aborted && Readable(inputs)
      modifies this, buf, serialBuf
      ensures Live()
      ensures Life() == LifeAfter(old(Life()), inputs, address, handlers)
      ensures written == LifeTranscript(old(Life()), inputs, address, handlers)
      ensures dropped == old(dropped) + Dropped(old(Life()), inputs, address, handlers)
    {
      hide NextLife, WrittenBy, DropsReply, LifeAfter, LifeTranscript, Dropped, Leftover, Valid, Bounded, WellBehaved;
      ghost var l := Life();
      written := [];
      var k := 0;
      assert inputs[..0] == [];
      NoPolls(l, address, handlers);
      while k < |inputs| && !aborted
        invariant 0 <= k <= |inputs| && Live()
        invariant Life() == LifeAfter(l, inputs[..k], address, handlers)
        invariant written == LifeTranscript(l, inputs[..k], address, handlers)
        invariant dropped == old(dropped) + Dropped(l, inputs[..k], address, handlers)
      {
        var status, sent := Poll(inputs[k]);
        written := written + sent;
        OneLifePollMore(l, inputs, k, address, handlers);
        k := k + 1;
      }
      assert inputs == inputs[..k] + inputs[k..];
      LifeConcat(l, inputs[..k], inputs[k..], address, handlers);
      if aborted {
        StaysStoppedForever(inputs[k..], address, handlers);
      } else {
        assert inputs[..k] == inputs;
      }
    }
  }

  lemma ReceiveNone(r: Receiver)
    ensures ReceiveBytes(r, []) == r
  {}

  lemma {:induction false} SomethingRead(chunks: seq<seq<bv8>>)
    requires forall c :: c in chunks ==> 1 <= |c|
    ensures Flatten(chunks) == [] <==> chunks == []
  {
    if chunks != [] { assert chunks[|chunks| - 1] in chunks; }
  }
}
