/**
 * Restarting the FreeModbus RTU slave: eMBDisable keeps the transmit state and the event queue, and so does eMBEnable.
 * The link machine extended by what may be left over in them, and when the run that follows is as good as a first one.
 */
module RtuRestart {
  import opened Crc16
  import opened ModbusHandlers
  import opened ModbusPort
  import opened Options
  import opened RtuLink
  import opened Sequences

  /** An event in the queue, with what it refers to. */
  datatype Queued = QReady | QSent | QFrame(frame: seq<bv8>) | QExecute(address: bv8, pdu: seq<bv8>)

  /**
   * An enabled slave: in a phase of the link machine; with something left over from before it was enabled, that is in
   * the transmit state with its transmitter off, or with an event while the line is not yet idle; or stopped by an assertion.
   */
  datatype Life = Normal(phase: Phase) | Left(xmit: bool, idle: bool, queue: Option<Queued>) | Stopped

  /** A slave just enabled. */
  function Restarted(xmit: bool, queue: Option<Queued>): Life {
    if !xmit && queue == None then Normal(Listening(Init)) else Left(xmit, false, queue)
  }

  /** The same once the event has been taken from the queue. */
  function Resume(xmit: bool, idle: bool, queue: Option<Queued>): Life {
    if !xmit && queue == None then Normal(Listening(if idle then Idle else Init)) else Left(xmit, idle, queue)
  }

  function Lift(p: Phase): Life { if p.Aborted? then Stopped else Normal(p) }

  /** The event the poll that takes one from the queue puts there; nothing if the assertion in eMBRTUReceive fails. */
  function Followed(q: Queued, own: bv8): Option<Option<Queued>> {
    match q
    case QReady => Some(None)
    case QSent => Some(None)
    case QExecute(_, _) => Some(None)
    case QFrame(f) =>
      match Decode(f)
      case AssertFails => None
      case Rejected => Some(None)
      case Accepted(a, pdu) => Some(if a == own || a == BROADCAST then Some(QExecute(a, pdu)) else None)
  }

  /** The life after one eMBPoll. In the transmit state the first byte read fails the assertion in xMBRTUReceiveFSM. */
  function NextLife(l: Life, input: PollInput, own: bv8, handlers: seq<Handler>): Life {
    match l
    case Stopped => Stopped
    case Normal(p) => Lift(Next(p, input, own, handlers))
    case Left(xmit, idle, Some(q)) =>
      (match Followed(q, own)
       case None => Stopped
       case Some(queue) => Resume(xmit, idle, queue))
    case Left(xmit, idle, None) =>
      if xmit && Flatten(input.chunks) != [] then Stopped
      else if input.expired && !idle then Left(xmit, true, Some(QReady))
      else l
  }

  /** The next poll executes a request whose reply eMBRTUSend then refuses, the line not being idle. */
  predicate DropsReply(l: Life) {
    l.Left? && !l.idle && l.queue.Some? && l.queue.value.QExecute? && l.queue.value.address != BROADCAST
  }

  function WrittenBy(l: Life): seq<bv8> { if l.Normal? then Written(l.phase) else [] }

  // ----- Runs -----

  function LifeAfter(l: Life, inputs: seq<PollInput>, own: bv8, handlers: seq<Handler>): Life {
    if inputs == [] then l
    else NextLife(LifeAfter(l, inputs[..|inputs| - 1], own, handlers), inputs[|inputs| - 1], own, handlers)
  }

  function LifeTranscript(l: Life, inputs: seq<PollInput>, own: bv8, handlers: seq<Handler>): seq<bv8> {
    if inputs == [] then []
    else var front := inputs[..|inputs| - 1];
      LifeTranscript(l, front, own, handlers) + WrittenBy(LifeAfter(l, front, own, handlers))
  }

  /** How many replies a run drops. */
  function Dropped(l: Life, inputs: seq<PollInput>, own: bv8, handlers: seq<Handler>): nat {
    if inputs == [] then 0
    else var front := inputs[..|inputs| - 1];
      Dropped(l, front, own, handlers) + if DropsReply(LifeAfter(l, front, own, handlers)) then 1 else 0
  }

  /** What a first run never does: stop before a frame of 256 bytes has been read, or drop the reply to a request. */
  ghost predicate Sound(l: Life, own: bv8, handlers: seq<Handler>) {
    forall inputs :: Readable(inputs) ==>
      && (LifeAfter(l, inputs, own, handlers) == Stopped ==> |BytesRead(inputs)| >= MAX_FRAME)
      && Dropped(l, inputs, own, handlers) == 0
  }

  /** A frame that is no request to the slave alone: not sound, or for another one or all. */
  predicate NotAsked(f: seq<bv8>, own: bv8) {
    Decode(f).Rejected? || (Decode(f).Accepted? && Decode(f).address != own)
  }

  /** Nothing is left over but perhaps an event that is consumed without a trace, or a request nobody waits to see answered. */
  predicate Harmless(xmit: bool, queue: Option<Queued>, own: bv8) {
    && !xmit
    && match queue
       case None => true
       case Some(QReady) => true
       case Some(QSent) => true
       case Some(QExecute(a, _)) => a == BROADCAST
       case Some(QFrame(f)) => NotAsked(f, own)
  }

  /** A restarted slave's runs are sound exactly if what was left over is harmless. */
  lemma RestartIsSound(xmit: bool, queue: Option<Queued>, own: bv8, handlers: seq<Handler>)
    requires own != BROADCAST
    ensures Sound(Restarted(xmit, queue), own, handlers) <==> Harmless(xmit, queue, own)
  {
    var l := Restarted(xmit, queue);
    if Harmless(xmit, queue, own) {
      forall inputs | Readable(inputs)
        ensures LifeAfter(l, inputs, own, handlers) == Stopped ==> |BytesRead(inputs)| >= MAX_FRAME
        ensures Dropped(l, inputs, own, handlers) == 0
      {
        HarmlessRun(l, inputs, own, handlers);
      }
    } else {
      var inputs := Fault(xmit, queue, own, handlers);
    }
  }

  /** What a run from a harmless restart leads to. */
  predicate Sane(l: Life, own: bv8) {
    match l
    case Normal(p) => !p.Aborted?
    case Left(xmit, idle, queue) => queue != None && !idle && Harmless(xmit, queue, own)
    case Stopped => false
  }

  lemma SaneStep(l: Life, input: PollInput, own: bv8, handlers: seq<Handler>)
    requires Sane(l, own) && own != BROADCAST
    ensures var m := NextLife(l, input, own, handlers);
            && !DropsReply(l)
            && (Sane(m, own) || (m == Stopped && l.Normal? && l.phase.Arrived? && |l.phase.frame| >= MAX_FRAME))
            && (m.Normal? ==> forall f :: Gathering(m.phase, f) ==> l.Normal? && m.phase == Next(l.phase, input, own, handlers))
  {
    hide Response, Frame, Crc, ReceiveBytes, Flatten;
  }

  lemma {:induction false} HarmlessRun(l: Life, inputs: seq<PollInput>, own: bv8, handlers: seq<Handler>)
    requires Sane(l, own) && own != BROADCAST
    requires l.Normal? ==> l.phase == Listening(Init)
    ensures Dropped(l, inputs, own, handlers) == 0
    ensures var m := LifeAfter(l, inputs, own, handlers);
            && (Sane(m, own) || m == Stopped)
            && (m == Stopped ==> |BytesRead(inputs)| >= MAX_FRAME)
            && (m.Normal? ==> forall f :: Gathering(m.phase, f) ==> |f| <= |BytesRead(inputs)|)
  {
    hide NextLife, Next, Flatten, Harmless, DropsReply;
    if inputs != [] {
      var front, last := inputs[..|inputs| - 1], inputs[|inputs| - 1];
      HarmlessRun(l, front, own, handlers);
      var q := LifeAfter(l, front, own, handlers);
      if q == Stopped {
        StaysStopped(last, own, handlers);
      } else {
        if q.Normal? && q.phase.Arrived? { assert Gathering(q.phase, q.phase.frame); }
        SaneStep(q, last, own, handlers);
        var m := NextLife(q, last, own, handlers);
        if m.Normal? {
          forall f | Gathering(m.phase, f) ensures |f| <= |BytesRead(inputs)| {
            GatheringStep(q.phase, last, f, own, handlers);
          }
        }
      }
    }
  }

  lemma StaysStopped(input: PollInput, own: bv8, handlers: seq<Handler>)
    ensures NextLife(Stopped, input, own, handlers) == Stopped && !DropsReply(Stopped)
  {}

  lemma {:induction false} LifeConcat(l: Life, s: seq<PollInput>, t: seq<PollInput>, own: bv8, handlers: seq<Handler>)
    ensures LifeAfter(l, s + t, own, handlers) == LifeAfter(LifeAfter(l, s, own, handlers), t, own, handlers)
    ensures LifeTranscript(l, s + t, own, handlers)
         == LifeTranscript(l, s, own, handlers) + LifeTranscript(LifeAfter(l, s, own, handlers), t, own, handlers)
    ensures Dropped(l, s + t, own, handlers)
         == Dropped(l, s, own, handlers) + Dropped(LifeAfter(l, s, own, handlers), t, own, handlers)
  {
    hide NextLife, WrittenBy, DropsReply;
    if t == [] {
      assert s + t == s;
    } else {
      var front := t[..|t| - 1];
      LifeConcat(l, s, front, own, handlers);
      Snoc(s, t);
      var m := LifeAfter(l, s, own, handlers);
      Associates(LifeTranscript(l, s, own, handlers), LifeTranscript(m, front, own, handlers),
                 WrittenBy(LifeAfter(m, front, own, handlers)));
    }
  }

  lemma OneLifePoll(l: Life, input: PollInput, own: bv8, handlers: seq<Handler>)
    ensures LifeAfter(l, [input], own, handlers) == NextLife(l, input, own, handlers)
    ensures LifeTranscript(l, [input], own, handlers) == WrittenBy(l)
    ensures Dropped(l, [input], own, handlers) == if DropsReply(l) then 1 else 0
  {
    hide NextLife, WrittenBy, DropsReply;
    assert [input][..0] == [];
  }

  /** One more poll of a run. */
  lemma OneLifePollMore(l: Life, inputs: seq<PollInput>, k: nat, own: bv8, handlers: seq<Handler>)
    requires k < |inputs|
    ensures var m := LifeAfter(l, inputs[..k], own, handlers);
            && LifeAfter(l, inputs[..k + 1], own, handlers) == NextLife(m, inputs[k], own, handlers)
            && LifeTranscript(l, inputs[..k + 1], own, handlers) == LifeTranscript(l, inputs[..k], own, handlers) + WrittenBy(m)
            && Dropped(l, inputs[..k + 1], own, handlers)
               == Dropped(l, inputs[..k], own, handlers) + if DropsReply(m) then 1 else 0
  {
    hide NextLife, WrittenBy, DropsReply;
    assert inputs[..k + 1][..k] == inputs[..k];
  }

  lemma {:induction false} StaysStoppedForever(inputs: seq<PollInput>, own: bv8, handlers: seq<Handler>)
    ensures LifeAfter(Stopped, inputs, own, handlers) == Stopped
    ensures LifeTranscript(Stopped, inputs, own, handlers) == [] && Dropped(Stopped, inputs, own, handlers) == 0
  {
    if inputs != [] { StaysStoppedForever(inputs[..|inputs| - 1], own, handlers); }
  }

  /** From a phase of the link machine the life is its run. */
  lemma {:induction false} NormalRun(p: Phase, inputs: seq<PollInput>, own: bv8, handlers: seq<Handler>)
    ensures LifeAfter(Lift(p), inputs, own, handlers) == Lift(PhaseAfter(p, inputs, own, handlers))
    ensures LifeTranscript(Lift(p), inputs, own, handlers) == Transcript(p, inputs, own, handlers)
    ensures Dropped(Lift(p), inputs, own, handlers) == 0
  {
    hide Response, Frame, Crc, ReceiveBytes, Flatten, Decode;
    if inputs != [] { NormalRun(p, inputs[..|inputs| - 1], own, handlers); }
  }

  const QUIET := PollInput([], false)

  function OneByte(b: bv8): PollInput { PollInput([[b]], false) }

  /** A run of at most three polls that shows what a leftover that is not harmless does. */
  lemma Fault(xmit: bool, queue: Option<Queued>, own: bv8, handlers: seq<Handler>) returns (inputs: seq<PollInput>)
    requires own != BROADCAST && !Harmless(xmit, queue, own)
    ensures var l := Restarted(xmit, queue);
            && Readable(inputs) && |BytesRead(inputs)| <= 1
            && (LifeAfter(l, inputs, own, handlers) == Stopped || Dropped(l, inputs, own, handlers) > 0)
  {
    hide LifeAfter, Dropped, LifeTranscript, Decode;
    var l := Restarted(xmit, queue);
    var m := NextLife(l, QUIET, own, handlers);
    var n := NextLife(m, QUIET, own, handlers);
    OneLifePoll(l, QUIET, own, handlers);
    OneLifePoll(m, QUIET, own, handlers);
    LifeConcat(l, [QUIET], [QUIET], own, handlers);
    inputs := [QUIET] + [QUIET];
    NothingRead();
    assert |inputs| == 2 && inputs[0] == inputs[1] == QUIET;
    if xmit {
      OneLifePoll(n, OneByte(0), own, handlers);
      LifeConcat(l, inputs, [OneByte(0)], own, handlers);
      BytesReadStep(inputs, OneByte(0));
      inputs := inputs + [OneByte(0)];
    }
  }

  /** A transmit state left over makes the process stop at the first byte it reads. */
  lemma StaleTransmissionStopsTheProcess(b: bv8, own: bv8, handlers: seq<Handler>)
    ensures LifeAfter(Restarted(true, None), [OneByte(b)], own, handlers) == Stopped
  {
    OneLifePoll(Restarted(true, None), OneByte(b), own, handlers);
    assert OneByte(b).chunks[..0] == [];
  }

  /** Until then it answers nothing, whatever it is told: it never listens again. */
  lemma {:induction false} StaleTransmissionSilencesTheSlave(queue: Option<Queued>, inputs: seq<PollInput>, own: bv8, handlers: seq<Handler>)
    ensures var l := LifeAfter(Restarted(true, queue), inputs, own, handlers);
            l == Stopped || (l.Left? && l.xmit)
    ensures LifeTranscript(Restarted(true, queue), inputs, own, handlers) == []
  {
    hide Decode, Flatten;
    if inputs != [] { StaleTransmissionSilencesTheSlave(queue, inputs[..|inputs| - 1], own, handlers); }
  }

  /** A request left over is executed and its reply lost, after which the slave starts as usual. */
  lemma StaleRequestIsNotAnswered(pdu: seq<bv8>, input: PollInput, own: bv8, handlers: seq<Handler>)
    requires own != BROADCAST
    ensures var l := Restarted(false, Some(QExecute(own, pdu)));
            && Dropped(l, [input], own, handlers) == 1 && LifeTranscript(l, [input], own, handlers) == []
            && LifeAfter(l, [input], own, handlers) == Normal(Listening(Init))
  {
    OneLifePoll(Restarted(false, Some(QExecute(own, pdu))), input, own, handlers);
  }

  /** The polls that a harmless leftover takes. */
  function Delay(queue: Option<Queued>): nat {
    match queue
    case None => 0
    case Some(QFrame(f)) => if Decode(f).Accepted? && Decode(f).address == BROADCAST then 2 else 1
    case Some(_) => 1
  }

  /** A harmless leftover only delays the start: the run goes on as a first run does. */
  lemma HarmlessDelaysTheStart(queue: Option<Queued>, first: seq<PollInput>, inputs: seq<PollInput>, own: bv8, handlers: seq<Handler>)
    requires own != BROADCAST && Harmless(false, queue, own) && |first| == Delay(queue)
    ensures var l := Restarted(false, queue);
            && LifeAfter(l, first + inputs, own, handlers) == Lift(PhaseAfter(Listening(Init), inputs, own, handlers))
            && LifeTranscript(l, first + inputs, own, handlers) == Transcript(Listening(Init), inputs, own, handlers)
  {
    hide LifeAfter, LifeTranscript, Dropped, PhaseAfter, Transcript, Decode;
    var l := Restarted(false, queue);
    LifeConcat(l, first, inputs, own, handlers);
    NormalRun(Listening(Init), inputs, own, handlers);
    assert LifeAfter(l, first, own, handlers) == Normal(Listening(Init)) && LifeTranscript(l, first, own, handlers) == [] by {
      if |first| == 0 {
        NoPolls(l, own, handlers);
      } else {
        OneLifePoll(l, first[0], own, handlers);
        if |first| == 2 {
          var m := NextLife(l, first[0], own, handlers);
          OneLifePoll(m, first[1], own, handlers);
          LifeConcat(l, [first[0]], [first[1]], own, handlers);
          assert first == [first[0]] + [first[1]];
        } else {
          assert first == [first[0]];
        }
      }
    }
  }

  lemma NoPolls(l: Life, own: bv8, handlers: seq<Handler>)
    ensures LifeAfter(l, [], own, handlers) == l && LifeTranscript(l, [], own, handlers) == []
    ensures Dropped(l, [], own, handlers) == 0
  {}

  // ----- Stopping -----

  /** The event a slave leaves in the queue when it is disabled in a phase of the link machine. */
  function LeftInQueue(p: Phase): Option<Queued> {
    match p
    case Listening(_) => None
    case Started => Some(QReady)
    case Arrived(f) => Some(QFrame(f))
    case Executing(a, pdu) => Some(QExecute(a, pdu))
    case Sending(_) => None
    case Sent => Some(QSent)
    case Aborted => None
  }

  /** The phases in which a slave may be disabled without harm to its next run. */
  predicate SafeToStop(p: Phase, own: bv8) {
    match p
    case Listening(_) => true
    case Started => true
    case Arrived(f) => NotAsked(f, own)
    case Executing(a, _) => a == BROADCAST
    case Sending(_) => false
    case Sent => true
    case Aborted => true
  }

  lemma SafeToStopExactly(p: Phase, own: bv8, handlers: seq<Handler>)
    requires own != BROADCAST
    ensures Sound(Restarted(p.Sending?, LeftInQueue(p)), own, handlers) <==> SafeToStop(p, own)
  {
    hide Sound, Crc;
    RestartIsSound(p.Sending?, LeftInQueue(p), own, handlers);
  }

  lemma NothingRead()
    ensures Flatten(QUIET.chunks) == [] && BytesRead([QUIET] + [QUIET]) == []
    ensures Flatten(OneByte(0).chunks) == [0]
  {
    BytesReadStep([], QUIET);
    BytesReadStep([QUIET], QUIET);
    assert [] + [QUIET] == [QUIET];
    assert OneByte(0).chunks[..0] == [];
  }
}
