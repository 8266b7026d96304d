/**
 * What a FreeModbus RTU slave does, seen from the line: a state machine over whole frames (MODBUS over Serial Line
 * V1.02, section 2.5.1), which class RtuSlave is shown to follow poll by poll.
 */
module RtuLink {
  import opened Crc16
  import opened ModbusHandlers
  import opened ModbusPort
  import opened Sequences

  const MAX_FRAME := 256
  const MIN_FRAME := 4

  // ----- Receiving bytes -----

  datatype Receiver = Init | Idle | Rcv(frame: seq<bv8>) | Error

  function ReceiveByte(r: Receiver, b: bv8): Receiver {
    match r
    case Init => Init
    case Error => Error
    case Idle => Rcv([b])
    case Rcv(f) => if |f| < MAX_FRAME then Rcv(f + [b]) else Error
  }

  function ReceiveBytes(r: Receiver, s: seq<bv8>): Receiver {
    if s == [] then r else ReceiveByte(ReceiveBytes(r, s[..|s| - 1]), s[|s| - 1])
  }

  // ----- Decoding a frame -----

  datatype Decoded = AssertFails | Rejected | Accepted(address: bv8, pdu: seq<bv8>)

  /** eMBRTUReceive on a frame whose end has been detected. */
  function Decode(f: seq<bv8>): Decoded {
    if |f| >= MAX_FRAME then AssertFails
    else if |f| >= MIN_FRAME && Crc(f) == 0 then Accepted(f[0], f[1..|f| - 2])
    else Rejected
  }

  /** The frame eMBRTUSend puts on the line. */
  function Frame(address: bv8, pdu: seq<bv8>): seq<bv8> { Sealed([address] + pdu) }

  // ----- The slave as the line sees it -----

  datatype Phase =
    | Listening(receiver: Receiver)
    | Started
    | Arrived(frame: seq<bv8>)
    | Executing(address: bv8, pdu: seq<bv8>)
    | Sending(rest: seq<bv8>)
    | Sent
    | Aborted

  function Expire(r: Receiver): Phase {
    match r
    case Init => Started
    case Idle => Listening(Idle)
    case Rcv(f) => Arrived(f)
    case Error => Listening(Idle)
  }

  /** A complete frame is executed when it is sound and for this slave or for all. */
  function AfterArrival(f: seq<bv8>, own: bv8): Phase {
    match Decode(f)
    case AssertFails => Aborted
    case Rejected => Listening(Idle)
    case Accepted(a, pdu) => if a == own || a == BROADCAST then Executing(a, pdu) else Listening(Idle)
  }

  /** The phase after one eMBPoll of a slave with the given address and handlers. */
  function Next(p: Phase, input: PollInput, own: bv8, handlers: seq<Handler>): Phase {
    match p
    case Listening(r) =>
      var r' := ReceiveBytes(r, Flatten(input.chunks));
      if input.expired then Expire(r') else Listening(r')
    case Started => Listening(Idle)
    case Arrived(f) => AfterArrival(f, own)
    case Executing(a, pdu) =>
      if pdu == [] || a == BROADCAST then Listening(Idle) else Sending(Frame(own, Response(handlers, pdu)))
    case Sending(rest) => Sent
    case Sent => Listening(Idle)
    case Aborted => Aborted
  }

  /** The bytes written to the line during that poll. */
  function Written(p: Phase): seq<bv8> { if p.Sending? then p.rest else [] }

  // ----- Runs -----

  function PhaseAfter(p: Phase, inputs: seq<PollInput>, own: bv8, handlers: seq<Handler>): Phase {
    if inputs == [] then p
    else Next(PhaseAfter(p, inputs[..|inputs| - 1], own, handlers), inputs[|inputs| - 1], own, handlers)
  }

  /** Everything written to the line during a run. */
  function Transcript(p: Phase, inputs: seq<PollInput>, own: bv8, handlers: seq<Handler>): seq<bv8> {
    if inputs == [] then []
    else var front := inputs[..|inputs| - 1];
      Transcript(p, front, own, handlers) + Written(PhaseAfter(p, front, own, handlers))
  }

  lemma {:induction false} RunConcat(p: Phase, s: seq<PollInput>, t: seq<PollInput>, own: bv8, handlers: seq<Handler>)
    ensures PhaseAfter(p, s + t, own, handlers) == PhaseAfter(PhaseAfter(p, s, own, handlers), t, own, handlers)
    ensures Transcript(p, s + t, own, handlers)
         == Transcript(p, s, own, handlers) + Transcript(PhaseAfter(p, s, own, handlers), t, own, handlers)
  {
    hide Next, Written;
    if t == [] {
      assert s + t == s;
    } else {
      RunConcat(p, s, t[..|t| - 1], own, handlers);
      assert (s + t)[..|s + t| - 1] == s + t[..|t| - 1];
    }
  }

  lemma {:induction false} ReceiveBytesConcat(r: Receiver, s: seq<bv8>, t: seq<bv8>)
    ensures ReceiveBytes(r, s + t) == ReceiveBytes(ReceiveBytes(r, s), t)
  {
    if t == [] {
      assert s + t == s;
    } else {
      ReceiveBytesConcat(r, s, t[..|t| - 1]);
      assert (s + t)[..|s + t| - 1] == s + t[..|t| - 1];
    }
  }

  /** From an idle line a frame of at most 256 bytes is collected whole; a longer one is dropped. */
  lemma {:induction false} ReceiveFrame(f: seq<bv8>)
    requires f != []
    ensures ReceiveBytes(Idle, f) == if |f| <= MAX_FRAME then Rcv(f) else Error
  {
    if |f| == 1 {
      assert f[..0] == [] && [f[0]] == f;
    } else {
      ReceiveFrame(f[..|f| - 1]);
      assert f[..|f| - 1] + [f[|f| - 1]] == f;
    }
  }

  /** A frame is decoded to the address and PDU it was made of exactly for PDUs of 1 to 252 bytes. */
  lemma DeliveryOfFrames(address: bv8, pdu: seq<bv8>)
    ensures Decode(Frame(address, pdu)) == Accepted(address, pdu) <==> 1 <= |pdu| <= 252
    ensures |pdu| >= 253 ==> Decode(Frame(address, pdu)) == AssertFails
  {
    hide Crc, Low, High;
    var s := [address] + pdu;
    var f := Frame(address, pdu);
    ResidueIsZeroExactlyWhenSealed(s, Low(Crc(s)), High(Crc(s)));
    assert f == s + [Low(Crc(s)), High(Crc(s))];
    assert f[1..|f| - 2] == pdu;
  }

  /** Nothing but a sealed frame of 4 to 255 bytes is accepted. */
  lemma AcceptedExactly(f: seq<bv8>, address: bv8, pdu: seq<bv8>)
    ensures Decode(f) == Accepted(address, pdu) <==> f == Frame(address, pdu) && 1 <= |pdu| <= 252
  {
    hide Crc, Low, High;
    DeliveryOfFrames(address, pdu);
    if Decode(f) == Accepted(address, pdu) {
      var s, n := f[..|f| - 2], |f|;
      assert s == [address] + pdu && f == s + [f[n - 2], f[n - 1]];
      ResidueIsZeroExactlyWhenSealed(s, f[n - 2], f[n - 1]);
    }
  }

  /** What is executed: exactly the sound requests to this slave or to all. */
  lemma ExecutedExactly(f: seq<bv8>, own: bv8, address: bv8, pdu: seq<bv8>)
    ensures AfterArrival(f, own) == Executing(address, pdu)
       <==> f == Frame(address, pdu) && 1 <= |pdu| <= 252 && (address == own || address == 0)
    ensures AfterArrival(f, own) == Aborted <==> |f| >= 256
  {
    hide Crc, Frame;
    AcceptedExactly(f, address, pdu);
  }

  /** Before the start, and behind a frame too long, bytes are not heard until the timer runs out. */
  lemma {:induction false} NotHeard(r: Receiver, s: seq<bv8>)
    requires r.Init? || r.Error?
    ensures ReceiveBytes(r, s) == r
  {
    if s != [] { NotHeard(r, s[..|s| - 1]); }
  }

  /** Polls that read a frame in any number of pieces, the timer running out only after the last of them. */
  ghost predicate Delivers(inputs: seq<PollInput>, f: seq<bv8>) {
    && inputs != [] && BytesRead(inputs) == f
    && forall i :: 0 <= i < |inputs| ==> (inputs[i].expired <==> i == |inputs| - 1)
  }

  lemma {:induction false} ListenUnexpired(r: Receiver, inputs: seq<PollInput>, own: bv8, handlers: seq<Handler>)
    requires forall i :: 0 <= i < |inputs| ==> !inputs[i].expired
    ensures PhaseAfter(Listening(r), inputs, own, handlers) == Listening(ReceiveBytes(r, BytesRead(inputs)))
    ensures Transcript(Listening(r), inputs, own, handlers) == []
  {
    if inputs != [] {
      var front, last := inputs[..|inputs| - 1], inputs[|inputs| - 1];
      ListenUnexpired(r, front, own, handlers);
      ReceiveBytesConcat(r, BytesRead(front), Flatten(last.chunks));
    }
  }

  /** However its bytes are chunked, a delivered frame arrives. */
  lemma FrameArrives(inputs: seq<PollInput>, f: seq<bv8>, own: bv8, handlers: seq<Handler>)
    requires Delivers(inputs, f) && 1 <= |f| <= MAX_FRAME
    ensures PhaseAfter(Listening(Idle), inputs, own, handlers) == Arrived(f)
    ensures Transcript(Listening(Idle), inputs, own, handlers) == []
  {
    var front, last := inputs[..|inputs| - 1], inputs[|inputs| - 1];
    ListenUnexpired(Idle, front, own, handlers);
    ReceiveBytesConcat(Idle, BytesRead(front), Flatten(last.chunks));
    ReceiveFrame(f);
  }

  /** After a delivered frame, four polls of a quiet line answer it if it asks this slave, and are silent if not. */
  lemma RequestIsAnswered(inputs: seq<PollInput>, more: seq<PollInput>, f: seq<bv8>, own: bv8, handlers: seq<Handler>)
    requires Delivers(inputs, f) && 1 <= |f| < MAX_FRAME && |more| == 4 && own != BROADCAST
    requires forall i :: 0 <= i < 4 ==> more[i].chunks == []
    ensures Transcript(Listening(Idle), inputs + more, own, handlers)
         == if Decode(f).Accepted? && Decode(f).address == own && Decode(f).pdu != []
            then Frame(own, Response(handlers, Decode(f).pdu)) else []
    ensures PhaseAfter(Listening(Idle), inputs + more, own, handlers) == Listening(Idle)
  {
    hide *;
    FrameArrives(inputs, f, own, handlers);
    RunConcat(Listening(Idle), inputs, more, own, handlers);
    FourPolls(Arrived(f), more, own, handlers);
    AnswerInFourPolls(f, more[0], more[1], more[2], more[3], own, handlers);
  }

  /** The phases a complete frame leads through while the line is quiet. */
  lemma AnswerInFourPolls(f: seq<bv8>, i0: PollInput, i1: PollInput, i2: PollInput, i3: PollInput, own: bv8, handlers: seq<Handler>)
    requires 1 <= |f| < MAX_FRAME && own != BROADCAST
    requires i0.chunks == [] && i1.chunks == [] && i2.chunks == [] && i3.chunks == []
    ensures var p0 := Arrived(f);
            var p1 := Next(p0, i0, own, handlers);
            var p2 := Next(p1, i1, own, handlers);
            var p3 := Next(p2, i2, own, handlers);
            && Next(p3, i3, own, handlers) == Listening(Idle)
            && Written(p0) + Written(p1) + Written(p2) + Written(p3)
               == if Decode(f).Accepted? && Decode(f).address == own && Decode(f).pdu != []
                  then Frame(own, Response(handlers, Decode(f).pdu)) else []
  {
    hide Frame, Response, Crc, ReceiveBytes;
    ReceiveNothing();
  }

  lemma FourPolls(p: Phase, more: seq<PollInput>, own: bv8, handlers: seq<Handler>)
    requires |more| == 4
    ensures var p1 := Next(p, more[0], own, handlers);
            var p2 := Next(p1, more[1], own, handlers);
            var p3 := Next(p2, more[2], own, handlers);
            && PhaseAfter(p, more, own, handlers) == Next(p3, more[3], own, handlers)
            && Transcript(p, more, own, handlers) == Written(p) + Written(p1) + Written(p2) + Written(p3)
  {
    hide Next, Written;
    assert more == [more[0]] + [more[1]] + [more[2]] + [more[3]];
    OnePoll(p, more[0], own, handlers);
    var p1 := Next(p, more[0], own, handlers);
    OnePoll(p1, more[1], own, handlers);
    RunConcat(p, [more[0]], [more[1]], own, handlers);
    var p2 := Next(p1, more[1], own, handlers);
    OnePoll(p2, more[2], own, handlers);
    RunConcat(p, [more[0]] + [more[1]], [more[2]], own, handlers);
    OnePoll(Next(p2, more[2], own, handlers), more[3], own, handlers);
    RunConcat(p, [more[0]] + [more[1]] + [more[2]], [more[3]], own, handlers);
  }

  lemma OnePoll(p: Phase, input: PollInput, own: bv8, handlers: seq<Handler>)
    ensures PhaseAfter(p, [input], own, handlers) == Next(p, input, own, handlers)
    ensures Transcript(p, [input], own, handlers) == Written(p)
  {
    hide Next, Written;
    assert [input][..0] == [];
  }

  lemma ReceiveNothing()
    ensures Flatten([]) == [] && ReceiveBytes(Idle, []) == Idle
  {}

  /** Whatever a slave writes, at any poll of any run, answers a sound request to it that arrived two polls before. */
  lemma EveryReplyAnswersARequest(inputs: seq<PollInput>, own: bv8, handlers: seq<Handler>)
    requires PhaseAfter(Listening(Init), inputs, own, handlers).Sending?
    ensures |inputs| >= 2
    ensures var before := PhaseAfter(Listening(Init), inputs[..|inputs| - 2], own, handlers);
            && before.Arrived? && Decode(before.frame).Accepted? && Decode(before.frame).address == own
            && |Decode(before.frame).pdu| >= 1
            && PhaseAfter(Listening(Init), inputs, own, handlers).rest
               == Frame(own, Response(handlers, Decode(before.frame).pdu))
  {
    hide Frame, Response, Crc, ReceiveBytes;
    var front := inputs[..|inputs| - 1];
    var q := PhaseAfter(Listening(Init), front, own, handlers);
    assert q.Executing?;
    assert front[..|front| - 1] == inputs[..|inputs| - 2];
  }

  /** The slave is collecting, or has just collected, the frame `f`. */
  predicate Gathering(p: Phase, f: seq<bv8>) { p == Arrived(f) || p == Listening(Rcv(f)) }

  lemma GatheringStep(q: Phase, input: PollInput, f: seq<bv8>, own: bv8, handlers: seq<Handler>)
    requires Gathering(Next(q, input, own, handlers), f)
    ensures || (q == Listening(Idle) && f == Flatten(input.chunks))
            || (q.Listening? && q.receiver.Rcv? && f == q.receiver.frame + Flatten(input.chunks))
  {
    hide Frame, Response, ReceiveBytes, Decode;
    if q.Listening? { ReceivedIsSuffix(q.receiver, Flatten(input.chunks)); }
  }

  /** A frame that has arrived is exactly what was read since the line was last silent. */
  lemma {:induction false} GatheredWasRead(inputs: seq<PollInput>, f: seq<bv8>, own: bv8, handlers: seq<Handler>)
    returns (i: nat)
    requires Gathering(PhaseAfter(Listening(Init), inputs, own, handlers), f)
    ensures i < |inputs| && PhaseAfter(Listening(Init), inputs[..i], own, handlers) == Listening(Idle)
    ensures f == BytesRead(inputs[i..])
  {
    hide Next, Flatten;
    var front, last := inputs[..|inputs| - 1], inputs[|inputs| - 1];
    var q := PhaseAfter(Listening(Init), front, own, handlers);
    GatheringStep(q, last, f, own, handlers);
    if q == Listening(Idle) {
      i := |front|;
      assert inputs[i..] == [] + [last];
      BytesReadStep([], last);
    } else {
      i := GatheredWasRead(front, q.receiver.frame, own, handlers);
      assert inputs[..i] == front[..i];
      assert inputs[i..] == front[i..] + [last];
      BytesReadStep(front[i..], last);
    }
  }

  /** A receiver that ends up collecting has only appended what it read. */
  lemma {:induction false} ReceivedIsSuffix(r: Receiver, s: seq<bv8>)
    ensures var q := ReceiveBytes(r, s);
            q.Rcv? ==> (r == Idle || r.Rcv?) && q.frame == (if r == Idle then [] else r.frame) + s
  {
    if s != [] {
      ReceivedIsSuffix(r, s[..|s| - 1]);
      assert s == s[..|s| - 1] + [s[|s| - 1]];
    }
  }

  lemma {:induction false} StaysAborted(inputs: seq<PollInput>, own: bv8, handlers: seq<Handler>)
    ensures PhaseAfter(Aborted, inputs, own, handlers) == Aborted
    ensures Transcript(Aborted, inputs, own, handlers) == []
  {
    if inputs != [] { StaysAborted(inputs[..|inputs| - 1], own, handlers); }
  }

  /** The longest legal frame, of 253 PDU bytes, is the one on which the slave's own assertion stops the process. */
  lemma LongestFrameStopsTheProcess(inputs: seq<PollInput>, next: PollInput, address: bv8, pdu: seq<bv8>, own: bv8, handlers: seq<Handler>)
    requires |pdu| == 253 && Delivers(inputs, Frame(address, pdu))
    ensures PhaseAfter(Listening(Idle), inputs + [next], own, handlers) == Aborted
  {
    hide Frame, Response, ReceiveBytes, BytesRead;
    var f := Frame(address, pdu);
    assert |f| == MAX_FRAME by { FrameLength(address, pdu); }
    FrameArrives(inputs, f, own, handlers);
    assert (inputs + [next])[..|inputs|] == inputs;
  }

  lemma FrameLength(address: bv8, pdu: seq<bv8>)
    ensures |Frame(address, pdu)| == |pdu| + 3
  {
    hide Crc;
  }
}
