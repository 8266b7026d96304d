/**
 * What a FreeModbus ASCII slave does, poll by poll: the link layer of AsciiLink under the event loop of eMBPoll
 * (mb.c), as a state machine that class AsciiSlave is shown to follow.
 */
module AsciiRun {
  import opened AsciiLink
  import opened ModbusHandlers
  import opened ModbusPort
  import opened Options
  import opened Sequences

  /** The receiver goes on in every phase, for a frame may have begun behind the one announced. */
  datatype Phase =
    | Listening(r: Receiver)
    | Started(r: Receiver)
    | Arrived(r: Receiver)
    | Executing(r: Receiver, address: bv8, pdu: seq<bv8>)
    | Sending(r: Receiver, line: seq<bv8>)
    | Sent(r: Receiver)
    | Aborted

  /** In the idle state what is left in the buffer has no meaning. */
  function Calm(r: Receiver): Receiver { if r.state == RxIdle then r.(bytes := [], high := None) else r }

  /** A frame being received when a request is executed in the buffer it shares: what is left there takes part of its place. */
  function Patched(r: Receiver, w: seq<bv8>): Receiver {
    r.(bytes := seq(|r.bytes|, i requires 0 <= i < |r.bytes| => if 1 <= i <= |w| then w[i - 1] else r.bytes[i]),
       high := if r.high.Some? && 1 <= |r.bytes| <= |w| then Some(w[|r.bytes| - 1]) else r.high)
  }

  /** The timer's poll: it gives a frame up; in the idle state its expiry fails an assertion. */
  function TimedOut(r: Receiver, expired: bool): Option<Receiver> {
    if !(expired && r.armed) then Some(r)
    else if r.state == RxIdle then None
    else Some(r.(state := RxIdle, armed := false))
  }

  function AfterReading(r: Receiver, s: seq<bv8>, expired: bool): Phase {
    match TimedOut(ReceiveChars(r, s), expired)
    case None => Aborted
    case Some(q) => if Completions(r, s) >= 1 then Arrived(q) else Listening(Calm(q))
  }

  function AfterArrival(r: Receiver, own: bv8): Phase {
    match Decode(r.bytes)
    case AssertFails => Aborted
    case Rejected => Listening(Calm(r))
    case Accepted(a, pdu) => if a == own || a == BROADCAST then Executing(Calm(r), a, pdu) else Listening(Calm(r))
  }

  function Next(p: Phase, input: PollInput, own: bv8, handlers: seq<Handler>): Phase {
    match p
    case Listening(r) => AfterReading(r, Flatten(input.chunks), input.expired)
    case Started(r) => Listening(r)
    case Arrived(r) => AfterArrival(r, own)
    case Executing(r, a, pdu) =>
      if pdu == [] then Listening(r)
      else if r.state != RxIdle then Listening(Patched(r, Leaves(handlers, pdu, a)))
      else if a == BROADCAST then Listening(r)
      else Sending(r, Line(Frame(own, Response(handlers, pdu))))
    case Sending(r, _) => (match TimedOut(r, input.expired) case None => Aborted case Some(q) => Sent(Calm(q)))
    case Sent(r) => Listening(r)
    case Aborted => Aborted
  }

  function Written(p: Phase): seq<bv8> { if p.Sending? then p.line else [] }

  /** The announcement of a frame is lost during the poll. */
  predicate Loses(p: Phase, input: PollInput) { p.Listening? && Completions(p.r, Flatten(input.chunks)) >= 2 }

  /** The next poll executes a request while another frame is being received, into the same buffer. */
  predicate Clashes(p: Phase) { p.Executing? && p.pdu != [] && p.r.state != RxIdle }

  /** Its reply is refused by eMBASCIISend. */
  predicate DropsReply(p: Phase) { Clashes(p) && p.address != BROADCAST }

  // ----- Runs -----

  function PhaseAfter(p: Phase, inputs: seq<PollInput>, own: bv8, handlers: seq<Handler>): Phase {
    if inputs == [] then p
    else Next(PhaseAfter(p, inputs[..|inputs| - 1], own, handlers), inputs[|inputs| - 1], own, handlers)
  }

  function Transcript(p: Phase, inputs: seq<PollInput>, own: bv8, handlers: seq<Handler>): seq<bv8> {
    if inputs == [] then []
    else var front := inputs[..|inputs| - 1];
      Transcript(p, front, own, handlers) + Written(PhaseAfter(p, front, own, handlers))
  }

  /** How many replies a run drops, and whether it loses an announcement. */
  function Dropped(p: Phase, inputs: seq<PollInput>, own: bv8, handlers: seq<Handler>): nat {
    if inputs == [] then 0
    else var front := inputs[..|inputs| - 1];
      Dropped(p, front, own, handlers) + if DropsReply(PhaseAfter(p, front, own, handlers)) then 1 else 0
  }

  predicate LosesOne(p: Phase, inputs: seq<PollInput>, own: bv8, handlers: seq<Handler>) {
    inputs != [] &&
    var front := inputs[..|inputs| - 1];
    LosesOne(p, front, own, handlers) || Loses(PhaseAfter(p, front, own, handlers), inputs[|inputs| - 1])
  }

  lemma {:induction false} RunConcat(p: Phase, s: seq<PollInput>, t: seq<PollInput>, own: bv8, handlers: seq<Handler>)
    ensures PhaseAfter(p, s + t, own, handlers) == PhaseAfter(PhaseAfter(p, s, own, handlers), t, own, handlers)
    ensures Transcript(p, s + t, own, handlers)
         == Transcript(p, s, own, handlers) + Transcript(PhaseAfter(p, s, own, handlers), t, own, handlers)
  {
    hide Next, Written;
    if t == [] {
      assert s + t == s;
    } else {
      var front := t[..|t| - 1];
      RunConcat(p, s, front, own, handlers);
      Snoc(s, t);
      var q := PhaseAfter(p, s, own, handlers);
      Associates(Transcript(p, s, own, handlers), Transcript(q, front, own, handlers),
                 Written(PhaseAfter(q, front, own, handlers)));
    }
  }

  lemma OnePoll(p: Phase, input: PollInput, own: bv8, handlers: seq<Handler>)
    ensures PhaseAfter(p, [input], own, handlers) == Next(p, input, own, handlers)
    ensures Transcript(p, [input], own, handlers) == Written(p)
  {
    hide Next, Written;
    assert [input][..0] == [];
  }

  lemma NoPolls(p: Phase, own: bv8, handlers: seq<Handler>)
    ensures PhaseAfter(p, [], own, handlers) == p && Transcript(p, [], own, handlers) == []
    ensures Dropped(p, [], own, handlers) == 0 && !LosesOne(p, [], own, handlers)
  {}

  /** One more poll of a run. */
  lemma OnePollMore(p: Phase, inputs: seq<PollInput>, k: nat, own: bv8, handlers: seq<Handler>)
    requires k < |inputs|
    ensures var q := PhaseAfter(p, inputs[..k], own, handlers);
            && PhaseAfter(p, inputs[..k + 1], own, handlers) == Next(q, inputs[k], own, handlers)
            && Transcript(p, inputs[..k + 1], own, handlers) == Transcript(p, inputs[..k], own, handlers) + Written(q)
            && Dropped(p, inputs[..k + 1], own, handlers)
               == Dropped(p, inputs[..k], own, handlers) + (if DropsReply(q) then 1 else 0)
            && LosesOne(p, inputs[..k + 1], own, handlers) == (LosesOne(p, inputs[..k], own, handlers) || Loses(q, inputs[k]))
  {
    hide Next, Written, DropsReply, Loses;
    assert inputs[..k + 1][..k] == inputs[..k];
  }

  lemma {:induction false} StaysStopped(p: Phase, inputs: seq<PollInput>, k: nat, own: bv8, handlers: seq<Handler>)
    requires k <= |inputs| && PhaseAfter(p, inputs[..k], own, handlers) == Aborted
    ensures PhaseAfter(p, inputs, own, handlers) == Aborted
    ensures Transcript(p, inputs, own, handlers) == Transcript(p, inputs[..k], own, handlers)
    ensures Dropped(p, inputs, own, handlers) == Dropped(p, inputs[..k], own, handlers)
    ensures LosesOne(p, inputs, own, handlers) == LosesOne(p, inputs[..k], own, handlers)
    decreases |inputs| - k
  {
    if k == |inputs| {
      assert inputs[..k] == inputs;
    } else {
      OnePollMore(p, inputs, k, own, handlers);
      StaysStopped(p, inputs, k + 1, own, handlers);
    }
  }

  // ----- What is left in an idle receiver's buffer does not matter -----

  /** Equal, or both idle with the timer alike. */
  predicate Alike(a: Receiver, b: Receiver) { a == b || (a.state == b.state == RxIdle && a.armed == b.armed) }

  lemma {:induction false} AlikeReceive(a: Receiver, b: Receiver, s: seq<bv8>)
    requires Alike(a, b)
    ensures Alike(ReceiveChars(a, s), ReceiveChars(b, s)) && Completions(a, s) == Completions(b, s)
    ensures Completions(a, s) >= 1 ==> ReceiveChars(a, s) == ReceiveChars(b, s)
  {
    hide ReceiveNibble, CharToBin;
    if s != [] { AlikeReceive(a, b, s[..|s| - 1]); }
  }

  lemma CalmReceives(r: Receiver, s: seq<bv8>)
    ensures Calm(ReceiveChars(Calm(r), s)) == Calm(ReceiveChars(r, s)) && Completions(Calm(r), s) == Completions(r, s)
    ensures Completions(r, s) >= 1 ==> ReceiveChars(Calm(r), s) == ReceiveChars(r, s)
  {
    hide ReceiveChars, Completions;
    AlikeReceive(Calm(r), r, s);
  }

  lemma AfterReadingCalm(r: Receiver, s: seq<bv8>, expired: bool)
    ensures AfterReading(Calm(r), s, expired) == AfterReading(r, s, expired)
  {
    hide ReceiveChars, Completions;
    AlikeReceive(Calm(r), r, s);
  }

  // ----- A line is answered -----

  /** Before its last character a line completes nothing. */
  lemma OnlyTheLastCompletes(r: Receiver, f: seq<bv8>, s: seq<bv8>, t: seq<bv8>)
    requires |f| <= MAX_FRAME && Line(f) == s + t && t != []
    ensures Completions(r, s) == 0 && Completions(ReceiveChars(r, s), t) == 1
    ensures ReceiveChars(ReceiveChars(r, s), t) == Receiver(RxIdle, f, None, false)
  {
    hide HexChars, Lrc, ReceiveChars, Completions, CharToBin;
    var body := [COLON] + HexChars(f) + [CR];
    BodyOfLine(r, f);
    SelfSynchronising(r, f);
    ReceiveCharsConcat(r, s, t);
    var u := t[..|t| - 1];
    assert body == s + u by { assert Line(f) == body + [LF]; assert (s + t)[..|s + t| - 1] == s + u; }
    ReceiveCharsConcat(r, s, u);
  }

  lemma BodyOfLine(r: Receiver, f: seq<bv8>)
    requires |f| <= MAX_FRAME
    ensures Completions(r, [COLON] + HexChars(f) + [CR]) == 0
  {
    hide HexChars, ReceiveChars, Completions, CharToBin;
    ReceiveOne(r, COLON);
    ReceiveHexChars(f);
    ReceiveOne(Receiver(RxRcv, f, None, true), CR);
    ReceiveCharsConcat(r, [COLON], HexChars(f));
    ReceiveCharsConcat(r, [COLON] + HexChars(f), [CR]);
  }

  lemma {:induction false} ListenUnexpired(r: Receiver, inputs: seq<PollInput>, own: bv8, handlers: seq<Handler>)
    requires forall i :: 0 <= i < |inputs| ==> !inputs[i].expired
    requires Completions(r, BytesRead(inputs)) == 0
    ensures PhaseAfter(Listening(Calm(r)), inputs, own, handlers) == Listening(Calm(ReceiveChars(r, BytesRead(inputs))))
    ensures Transcript(Listening(Calm(r)), inputs, own, handlers) == []
  {
    hide ReceiveChar, Completes, Calm;
    if inputs != [] {
      var front, last := inputs[..|inputs| - 1], inputs[|inputs| - 1];
      var s, t := BytesRead(front), Flatten(last.chunks);
      ReceiveCharsConcat(r, s, t);
      ListenUnexpired(r, front, own, handlers);
      CalmReceives(ReceiveChars(r, s), t);
    }
  }

  /** The polls read the characters, the last of them some, and the timer never runs out. */
  ghost predicate Delivers(inputs: seq<PollInput>, s: seq<bv8>) {
    && inputs != [] && BytesRead(inputs) == s && Flatten(inputs[|inputs| - 1].chunks) != []
    && forall i :: 0 <= i < |inputs| ==> !inputs[i].expired
  }

  /** Whatever was on the line before and however its characters are cut, a line arrives as its frame. */
  lemma LineArrives(r: Receiver, inputs: seq<PollInput>, f: seq<bv8>, own: bv8, handlers: seq<Handler>)
    requires Delivers(inputs, Line(f)) && |f| <= MAX_FRAME
    ensures PhaseAfter(Listening(Calm(r)), inputs, own, handlers) == Arrived(Receiver(RxIdle, f, None, false))
    ensures Transcript(Listening(Calm(r)), inputs, own, handlers) == []
  {
    hide Line, ReceiveChars, Completions, Calm;
    var front, last := inputs[..|inputs| - 1], inputs[|inputs| - 1];
    var s, t := BytesRead(front), Flatten(last.chunks);
    OnlyTheLastCompletes(r, f, s, t);
    ListenUnexpired(r, front, own, handlers);
    CalmReceives(ReceiveChars(r, s), t);
  }

  const READY := Receiver(RxIdle, [], None, false)

  /** After a line, four polls of a quiet line answer it if it asks this slave, and are silent if not. */
  lemma RequestIsAnswered(r: Receiver, inputs: seq<PollInput>, more: seq<PollInput>, f: seq<bv8>, own: bv8, handlers: seq<Handler>)
    requires Delivers(inputs, Line(f)) && |f| < MAX_FRAME && |more| == 4 && own != BROADCAST
    requires forall i :: 0 <= i < 4 ==> more[i].chunks == []
    ensures Transcript(Listening(Calm(r)), inputs + more, own, handlers)
         == if Decode(f).Accepted? && Decode(f).address == own
            then Line(Frame(own, Response(handlers, Decode(f).pdu))) else []
    ensures PhaseAfter(Listening(Calm(r)), inputs + more, own, handlers) == Listening(READY)
  {
    hide *;
    LineArrives(r, inputs, f, own, handlers);
    RunConcat(Listening(Calm(r)), inputs, more, own, handlers);
    AnsweredInFourPolls(f, more, own, handlers);
  }

  lemma AnsweredInFourPolls(f: seq<bv8>, more: seq<PollInput>, own: bv8, handlers: seq<Handler>)
    requires |f| < MAX_FRAME && |more| == 4 && own != BROADCAST && forall i :: 0 <= i < 4 ==> more[i].chunks == []
    ensures var p := Arrived(Receiver(RxIdle, f, None, false));
            && PhaseAfter(p, more, own, handlers) == Listening(READY)
            && Transcript(p, more, own, handlers)
               == if Decode(f).Accepted? && Decode(f).address == own
                  then Line(Frame(own, Response(handlers, Decode(f).pdu))) else []
  {
    hide PhaseAfter, Transcript, Line, Frame, Response, Lrc, ReceiveChars, Completions;
    var p := Arrived(Receiver(RxIdle, f, None, false));
    FourPolls(p, more, own, handlers);
    NothingRead();
  }

  lemma FourPolls(p: Phase, more: seq<PollInput>, own: bv8, handlers: seq<Handler>)
    requires |more| == 4
    ensures var p1 := Next(p, more[0], own, handlers);
            var p2 := Next(p1, more[1], own, handlers);
            var p3 := Next(p2, more[2], own, handlers);
            && PhaseAfter(p, more, own, handlers) == Next(p3, more[3], own, handlers)
            && Transcript(p, more, own, handlers) == Written(p) + Written(p1) + Written(p2) + Written(p3)
  {
    hide Next, Written;
    assert more == [more[0]] + [more[1]] + [more[2]] + [more[3]];
    OnePoll(p, more[0], own, handlers);
    var p1 := Next(p, more[0], own, handlers);
    OnePoll(p1, more[1], own, handlers);
    RunConcat(p, [more[0]], [more[1]], own, handlers);
    var p2 := Next(p1, more[1], own, handlers);
    OnePoll(p2, more[2], own, handlers);
    RunConcat(p, [more[0]] + [more[1]], [more[2]], own, handlers);
    OnePoll(Next(p2, more[2], own, handlers), more[3], own, handlers);
    RunConcat(p, [more[0]] + [more[1]] + [more[2]], [more[3]], own, handlers);
  }

  lemma NothingRead()
    ensures Flatten([]) == [] && forall r :: ReceiveChars(r, []) == r && Completions(r, []) == 0
  {}

  // ----- What goes wrong -----

  /** A line of 254 PDU bytes makes the process stop. */
  lemma FullLineStopsTheSlave(r: Receiver, inputs: seq<PollInput>, next: PollInput, address: bv8, pdu: seq<bv8>, own: bv8, handlers: seq<Handler>)
    requires |pdu| == 254 && Delivers(inputs, Line(Frame(address, pdu)))
    ensures PhaseAfter(Listening(Calm(r)), inputs + [next], own, handlers) == Aborted
  {
    hide Line, Frame, Lrc, ReceiveChars, Completions, Calm;
    assert |Frame(address, pdu)| == MAX_FRAME by { FrameLength(address, pdu); }
    LineArrives(r, inputs, Frame(address, pdu), own, handlers);
    DeliveryOfFrames(address, pdu);
    assert (inputs + [next])[..|inputs|] == inputs;
  }

  lemma FrameLength(address: bv8, pdu: seq<bv8>)
    ensures |Frame(address, pdu)| == |pdu| + 2
  {
    hide Lrc;
  }

  /** Of two lines found by one poll only the second is answered. */
  lemma OnlyTheSecondIsAnswered(r: Receiver, input: PollInput, more: seq<PollInput>, f: seq<bv8>, g: seq<bv8>, own: bv8, handlers: seq<Handler>)
    requires Flatten(input.chunks) == Line(f) + Line(g) && !input.expired && |f| <= MAX_FRAME && |g| < MAX_FRAME
    requires own != BROADCAST && |more| == 4 && forall i :: 0 <= i < 4 ==> more[i].chunks == []
    ensures Loses(Listening(Calm(r)), input)
    ensures Transcript(Listening(Calm(r)), [input] + more, own, handlers)
         == if Decode(g).Accepted? && Decode(g).address == own
            then Line(Frame(own, Response(handlers, Decode(g).pdu))) else []
  {
    hide PhaseAfter, Transcript, Line, Frame, Response, Lrc, ReceiveChars, Completions;
    TwoLinesInOneRead(Calm(r), f, g);
    ReceiveCharsConcat(Calm(r), Line(f), Line(g));
    SelfSynchronising(ReceiveChars(Calm(r), Line(f)), g);
    OnePoll(Listening(Calm(r)), input, own, handlers);
    RunConcat(Listening(Calm(r)), [input], more, own, handlers);
    AnsweredInFourPolls(g, more, own, handlers);
  }

  /**
   * A frame begun behind a complete line takes its place, and the line's own request is not answered. While the timer
   * runs, what has arrived of the frame is executed exactly if it is a request already, its reply dropped, and the slave
   * goes on receiving it, with what the execution left.
   */
  lemma BegunFrameTakesThePlace(r: Receiver, input: PollInput, more: seq<PollInput>, f: seq<bv8>, g: seq<bv8>, own: bv8, handlers: seq<Handler>)
    requires Flatten(input.chunks) == Line(f) + ([COLON] + HexChars(g)) && !input.expired && |more| == 2
    requires |f| <= MAX_FRAME && |g| < MAX_FRAME && forall i :: 0 <= i < 2 ==> more[i].chunks == [] && !more[i].expired
    ensures Transcript(Listening(Calm(r)), [input] + more, own, handlers) == []
    ensures var q := Receiver(RxRcv, g, None, true);
            PhaseAfter(Listening(Calm(r)), [input] + more, own, handlers)
            == Listening(if Asks(g, own) then Patched(q, Leaves(handlers, Decode(g).pdu, Decode(g).address)) else q)
  {
    hide PhaseAfter, Transcript, Line, HexChars, Lrc, ReceiveChars, Completions, Response, Frame, Leaves;
    var p := Listening(Calm(r));
    BegunBehindLine(Calm(r), f, g);
    OnePoll(p, input, own, handlers);
    var p1 := Arrived(Receiver(RxRcv, g, None, true));
    OnePoll(p1, more[0], own, handlers);
    var p2 := Next(p1, more[0], own, handlers);
    OnePoll(p2, more[1], own, handlers);
    RunConcat(p, [input], more, own, handlers);
    RunConcat(p1, [more[0]], [more[1]], own, handlers);
    assert more == [more[0]] + [more[1]];
    NothingRead();
  }

  /** With the timer run out in the same poll the unfinished frame is answered as if its line had ended. */
  lemma UnfinishedFrameIsAnswered(r: Receiver, input: PollInput, more: seq<PollInput>, f: seq<bv8>, g: seq<bv8>, own: bv8, handlers: seq<Handler>)
    requires Flatten(input.chunks) == Line(f) + ([COLON] + HexChars(g)) && input.expired && |f| <= MAX_FRAME && |g| < MAX_FRAME
    requires own != BROADCAST && |more| == 4 && forall i :: 0 <= i < 4 ==> more[i].chunks == []
    ensures Transcript(Listening(Calm(r)), [input] + more, own, handlers)
         == if Decode(g).Accepted? && Decode(g).address == own
            then Line(Frame(own, Response(handlers, Decode(g).pdu))) else []
    ensures PhaseAfter(Listening(Calm(r)), [input] + more, own, handlers) == Listening(READY)
  {
    hide PhaseAfter, Transcript, Line, HexChars, Frame, Response, Lrc, ReceiveChars, Completions;
    BegunBehindLine(Calm(r), f, g);
    OnePoll(Listening(Calm(r)), input, own, handlers);
    RunConcat(Listening(Calm(r)), [input], more, own, handlers);
    AnsweredInFourPolls(g, more, own, handlers);
  }

  /** A frame is a request to this slave or to all. */
  predicate Asks(f: seq<bv8>, own: bv8) { Decode(f).Accepted? && (Decode(f).address == own || Decode(f).address == BROADCAST) }

  /** What is executed: exactly the sound requests to this slave or to all. */
  lemma ExecutedExactly(r: Receiver, own: bv8, address: bv8, pdu: seq<bv8>)
    ensures AfterArrival(r, own) == Executing(Calm(r), address, pdu)
       <==> r.bytes == Frame(address, pdu) && 1 <= |pdu| <= 253 && (address == own || address == 0)
    ensures AfterArrival(r, own) == Aborted <==> |r.bytes| >= 256
  {
    hide Lrc, Frame;
    AcceptedExactly(r.bytes, address, pdu);
  }

  lemma BegunBehindLine(r: Receiver, f: seq<bv8>, g: seq<bv8>)
    requires |f| <= MAX_FRAME && |g| <= MAX_FRAME
    ensures var s := Line(f) + ([COLON] + HexChars(g));
            ReceiveChars(r, s) == Receiver(RxRcv, g, None, true) && Completions(r, s) == 1
  {
    hide Line, HexChars, ReceiveChars, Completions, CharToBin;
    var q := ReceiveChars(r, Line(f));
    SelfSynchronising(r, f);
    ReceiveOne(q, COLON);
    ReceiveHexChars(g);
    ReceiveCharsConcat(q, [COLON], HexChars(g));
    ReceiveCharsConcat(r, Line(f), [COLON] + HexChars(g));
  }

  // ----- What a run has heard -----

  /** Nothing the timer or the state machine goes by is different. */
  predicate Similar(a: Receiver, b: Receiver) {
    && a.state == b.state && a.armed == b.armed
    && (a.state != RxIdle ==> |a.bytes| == |b.bytes| && a.high.Some? == b.high.Some?)
  }

  lemma {:induction false} SimilarReceive(a: Receiver, b: Receiver, s: seq<bv8>)
    requires Similar(a, b)
    ensures Similar(ReceiveChars(a, s), ReceiveChars(b, s)) && Completions(a, s) == Completions(b, s)
  {
    hide ReceiveChar, Similar, Completes;
    if s != [] {
      SimilarReceive(a, b, s[..|s| - 1]);
      SimilarStep(ReceiveChars(a, s[..|s| - 1]), ReceiveChars(b, s[..|s| - 1]), s[|s| - 1]);
    }
  }

  lemma SimilarStep(a: Receiver, b: Receiver, c: bv8)
    requires Similar(a, b)
    ensures Similar(ReceiveChar(a, c), ReceiveChar(b, c)) && Completes(a, c) == Completes(b, c)
  {
    hide CharToBin;
  }

  /** The characters read since the timer last gave up a frame. */
  function HeardNext(p: Phase, heard: seq<bv8>, input: PollInput): seq<bv8> {
    if !p.Listening? then heard
    else if input.expired && ReceiveChars(p.r, Flatten(input.chunks)).state != RxIdle then []
    else heard + Flatten(input.chunks)
  }

  function Heard(inputs: seq<PollInput>, own: bv8, handlers: seq<Handler>): seq<bv8> {
    if inputs == [] then []
    else var front := inputs[..|inputs| - 1];
      HeardNext(PhaseAfter(Started(READY), front, own, handlers), Heard(front, own, handlers), inputs[|inputs| - 1])
  }

  /** In every run the receiver is in the state that the characters heard have brought it to. */
  lemma {:induction false} ReceiverOfHeard(inputs: seq<PollInput>, own: bv8, handlers: seq<Handler>)
    requires PhaseAfter(Started(READY), inputs, own, handlers) != Aborted
    ensures var p := PhaseAfter(Started(READY), inputs, own, handlers);
            Similar(p.r, ReceiveChars(READY, Heard(inputs, own, handlers))) && TimerCovers(p.r)
  {
    hide Decode, Response, Frame, Line, Leaves, ReceiveChars, Completions, Flatten;
    NothingRead();
    if inputs != [] {
      var front, last := inputs[..|inputs| - 1], inputs[|inputs| - 1];
      var p, s := PhaseAfter(Started(READY), front, own, handlers), Flatten(last.chunks);
      ReceiverOfHeard(front, own, handlers);
      if p.Listening? {
        var h := Heard(front, own, handlers);
        ReceiveCharsConcat(READY, h, s);
        SimilarReceive(p.r, ReceiveChars(READY, h), s);
        TimerAlwaysCovers(p.r, s);
      }
    }
  }

  /** The next poll stops the process: by the timer in the idle state, or at a frame that fills the buffer. */
  predicate StopsNext(p: Phase, input: PollInput, idleArmed: bool) {
    match p
    case Listening(_) => input.expired && idleArmed
    case Sending(_, _) => input.expired && idleArmed
    case Arrived(r) => |r.bytes| >= MAX_FRAME
    case _ => false
  }

  /**
   * A poll stops the process exactly if the timer expires when the last line heard went wrong between CR and LF, in this
   * poll or in an earlier one, with no colon since; or if the frame to be decoded fills the buffer.
   */
  lemma StoppedExactlyWhenDerailed(p: Phase, input: PollInput, own: bv8, handlers: seq<Handler>)
    requires p != Aborted && TimerCovers(p.r)
    ensures var s := if p.Listening? then Flatten(input.chunks) else [];
            (Next(p, input, own, handlers) == Aborted
             <==> StopsNext(p, input, HasDerailed(p.r, s) || (IdleArmed(p.r) && COLON !in s)))
  {
    hide ReceiveChars, Completions, HasDerailed, Response, Frame, Line, Leaves, Lrc;
    var s := if p.Listening? then Flatten(input.chunks) else [];
    IdleTimerArmedExactlyWhenDerailed(p.r, s);
    TimerAlwaysCovers(p.r, s);
    NothingRead();
  }

  /** In terms of a whole run: of the characters heard since its start, or since the timer gave up a frame. */
  lemma RunStoppedExactlyWhenDerailed(inputs: seq<PollInput>, next: PollInput, own: bv8, handlers: seq<Handler>)
    requires PhaseAfter(Started(READY), inputs, own, handlers) != Aborted
    ensures var p := PhaseAfter(Started(READY), inputs, own, handlers);
            var heard := Heard(inputs, own, handlers) + if p.Listening? then Flatten(next.chunks) else [];
            (PhaseAfter(Started(READY), inputs + [next], own, handlers) == Aborted
             <==> StopsNext(p, next, HasDerailed(READY, heard)))
  {
    hide ReceiveChars, Completions, HasDerailed, Next, Flatten, StopsNext;
    var p, h := PhaseAfter(Started(READY), inputs, own, handlers), Heard(inputs, own, handlers);
    var s := if p.Listening? then Flatten(next.chunks) else [];
    assert (inputs + [next])[..|inputs|] == inputs;
    ReceiverOfHeard(inputs, own, handlers);
    StoppedExactlyWhenDerailed(p, next, own, handlers);
    IdleTimerArmedExactlyWhenDerailed(p.r, s);
    IdleTimerArmedExactlyWhenDerailed(READY, h + s);
    ReceiveCharsConcat(READY, h, s);
    SimilarReceive(p.r, ReceiveChars(READY, h), s);
  }

  /** A line that goes wrong in one poll stops the process in a later one that reads nothing. */
  lemma DerailedNowStopsLater(quiet: PollInput, input: PollInput, last: PollInput, c: bv8, own: bv8, handlers: seq<Handler>)
    requires quiet.chunks == [] && Flatten(input.chunks) == [COLON, CR, c] && c != LF && c != COLON && !input.expired
    requires last.chunks == [] && last.expired
    ensures PhaseAfter(Started(READY), [quiet] + [input], own, handlers) == Listening(Receiver(RxIdle, [], None, true))
    ensures PhaseAfter(Started(READY), [quiet] + [input] + [last], own, handlers) == Aborted
  {
    hide PhaseAfter, Transcript, ReceiveChars, Completions, Flatten;
    ReceiveThree(c);
    NothingRead();
    OnePoll(Started(READY), quiet, own, handlers);
    OnePoll(Listening(READY), input, own, handlers);
    RunConcat(Started(READY), [quiet], [input], own, handlers);
    OnePoll(Listening(Receiver(RxIdle, [], None, true)), last, own, handlers);
    RunConcat(Started(READY), [quiet] + [input], [last], own, handlers);
  }

  lemma ReceiveThree(c: bv8)
    requires c != LF && c != COLON
    ensures ReceiveChars(READY, [COLON, CR, c]) == Receiver(RxIdle, [], None, true)
    ensures Completions(READY, [COLON, CR, c]) == 0
  {
    ReceiveTwo(READY, COLON, CR);
    var q := ReceiveChars(READY, [COLON, CR]);
    ReceiveOne(q, c);
    ReceiveCharsConcat(READY, [COLON, CR], [c]);
    assert [COLON, CR] + [c] == [COLON, CR, c];
  }

  /** In which runs a request is executed while another frame is being received: what was decoded had not ended. */
  lemma ClashesExactly(inputs: seq<PollInput>, own: bv8, handlers: seq<Handler>)
    ensures Clashes(PhaseAfter(Started(READY), inputs, own, handlers))
       <==> && |inputs| >= 2
            && var before := PhaseAfter(Started(READY), inputs[..|inputs| - 2], own, handlers);
               var input := inputs[|inputs| - 2];
               var s := Flatten(input.chunks);
               && before.Listening? && !input.expired && Completions(before.r, s) >= 1
               && ReceiveChars(before.r, s).state != RxIdle && Asks(ReceiveChars(before.r, s).bytes, own)
  {
    hide ReceiveChars, Completions, Response, Frame, Line, Leaves, Lrc, Flatten;
    var n := |inputs|;
    if n >= 2 {
      var p := PhaseAfter(Started(READY), inputs[..n - 2], own, handlers);
      assert inputs[..n - 1][..n - 2] == inputs[..n - 2];
      if p.Listening? {
        ReceiverOfHeard(inputs[..n - 2], own, handlers);
        TimerAlwaysCovers(p.r, Flatten(inputs[n - 2].chunks));
      }
    }
  }

  // ----- Which replies answer a completed line -----

  /** The bytes are what stands behind the last colon of t, where no line has ended. */
  predicate Unfinished(t: seq<bv8>, j: nat, f: seq<bv8>) {
    && j < |t| && t[j] == COLON && COLON !in t[j + 1..]
    && Completions(StartFrame(), t[j + 1..]) == 0 && ReceiveChars(StartFrame(), t[j + 1..]).bytes == f
  }

  /**
   * Whatever a slave writes, at any poll of any run, answers a request to it that it decoded two polls before, when a line
   * had ended in the poll before that. It is that line's exactly if no colon followed its LF; otherwise it is what stood
   * behind the last colon, of a line that had not ended but whose time had run out, or that had gone wrong.
   */
  lemma EveryReplyAnswersARequest(inputs: seq<PollInput>, own: bv8, handlers: seq<Handler>)
    requires PhaseAfter(Started(READY), inputs, own, handlers).Sending?
    ensures |inputs| >= 3
    ensures var i := |inputs| - 3;
            var before, arrived := PhaseAfter(Started(READY), inputs[..i], own, handlers), PhaseAfter(Started(READY), inputs[..i + 1], own, handlers);
            && before.Listening? && arrived.Arrived? && Answers(before.r, inputs[i], arrived.r)
            && Decode(arrived.r.bytes).Accepted? && Decode(arrived.r.bytes).address == own
            && |Decode(arrived.r.bytes).pdu| >= 1
            && PhaseAfter(Started(READY), inputs, own, handlers).line
               == Line(Frame(own, Response(handlers, Decode(arrived.r.bytes).pdu)))
  {
    hide Line, Frame, Response, Lrc, ReceiveChars, Completions, Leaves, Flatten, Answers;
    var n := |inputs|;
    assert PhaseAfter(Started(READY), inputs[..n - 1], own, handlers).Executing?;
    assert inputs[..n - 1][..n - 2] == inputs[..n - 2];
    assert PhaseAfter(Started(READY), inputs[..n - 2], own, handlers).Arrived?;
    assert inputs[..n - 2][..n - 3] == inputs[..n - 3];
    var before := PhaseAfter(Started(READY), inputs[..n - 3], own, handlers);
    ReceiverOfHeard(inputs[..n - 3], own, handlers);
    IdleArrivalAnswers(before.r, inputs[n - 3]);
  }

  /** What the receiver x holds that a poll of receiver r has announced. */
  ghost predicate Answers(r: Receiver, input: PollInput, x: Receiver) {
    var s := Flatten(input.chunks);
    && Completions(r, s) >= 1
    && var k := LastEnd(r, s);
       && k < |s|
       && var q, t := ReceiveChars(r, s[..k + 1]), s[k + 1..];
          if COLON !in t then x == q
          else (input.expired || HasDerailed(q, t)) && exists j: nat :: Unfinished(t, j, x.bytes)
  }

  lemma IdleArrivalAnswers(r: Receiver, input: PollInput)
    requires TimerCovers(r) && AfterReading(r, Flatten(input.chunks), input.expired).Arrived?
    requires var x := AfterReading(r, Flatten(input.chunks), input.expired).r; x.state == RxIdle && |x.bytes| < MAX_FRAME
    ensures Answers(r, input, AfterReading(r, Flatten(input.chunks), input.expired).r)
  {
    hide ReceiveChars, Completions, Flatten, HasDerailed;
    var s := Flatten(input.chunks);
    AnnouncedIsTheLastCompleted(r, s);
    LastEndCompletes(r, s);
    var k := LastEnd(r, s);
    var q, t := ReceiveChars(r, s[..k + 1]), s[k + 1..];
    if COLON in t {
      var j := LastColon(t);
      RestartsAtColon(q, t, j);
      RestartCompletes(q, t, j);
      BusyAfterColon(q, t);
      IdleTimerArmedExactlyWhenDerailed(q, t);
      assert Unfinished(t, j, ReceiveChars(q, t).bytes);
    } else {
      IdleIgnores(q, t);
    }
  }

  lemma {:induction false} LastColon(t: seq<bv8>) returns (j: nat)
    requires COLON in t
    ensures j < |t| && t[j] == COLON && COLON !in t[j + 1..]
  {
    if t[|t| - 1] == COLON {
      j := |t| - 1;
    } else {
      j := LastColon(t[..|t| - 1]);
      assert t[j + 1..] == t[..|t| - 1][j + 1..] + [t[|t| - 1]];
    }
  }

  lemma RestartCompletes(q: Receiver, t: seq<bv8>, j: nat)
    requires j < |t| && t[j] == COLON && Completions(q, t) == 0
    ensures Completions(StartFrame(), t[j + 1..]) == 0
  {
    hide ReceiveChars, Completions;
    assert t == t[..j + 1] + t[j + 1..];
    ReceiveCharsConcat(q, t[..j + 1], t[j + 1..]);
    RestartsAtColon(q, t[..j + 1], j);
    assert t[..j + 1][j + 1..] == [];
    NothingRead();
  }

  /** No request has been executed while another frame was being received. */
  ghost predicate Clean(inputs: seq<PollInput>, own: bv8, handlers: seq<Handler>) {
    forall i :: 0 <= i <= |inputs| ==> !Clashes(PhaseAfter(Started(READY), inputs[..i], own, handlers))
  }

  lemma {:induction false} ReceiverIsHeard(inputs: seq<PollInput>, own: bv8, handlers: seq<Handler>)
    requires Clean(inputs, own, handlers) && PhaseAfter(Started(READY), inputs, own, handlers) != Aborted
    ensures Alike(PhaseAfter(Started(READY), inputs, own, handlers).r, ReceiveChars(READY, Heard(inputs, own, handlers)))
  {
    hide Decode, Response, Frame, Line, Leaves, ReceiveChars, Completions, Flatten;
    NothingRead();
    if inputs != [] {
      var front, last := inputs[..|inputs| - 1], inputs[|inputs| - 1];
      var p, s := PhaseAfter(Started(READY), front, own, handlers), Flatten(last.chunks);
      forall i | 0 <= i <= |front| ensures !Clashes(PhaseAfter(Started(READY), front[..i], own, handlers)) {
        assert front[..i] == inputs[..i];
      }
      assert front[..|front|] == front;
      ReceiverIsHeard(front, own, handlers);
      if p.Listening? {
        var h := Heard(front, own, handlers);
        ReceiveCharsConcat(READY, h, s);
        AlikeReceive(p.r, ReceiveChars(READY, h), s);
        ReceiverOfHeard(front, own, handlers);
        TimerAlwaysCovers(p.r, s);
      }
    }
  }

  /** In a run without a clash a frame completed while listening is the body of the line that the characters heard end with. */
  lemma CompletedLineWasHeard(inputs: seq<PollInput>, s: seq<bv8>, own: bv8, handlers: seq<Handler>) returns (j: nat)
    requires Clean(inputs, own, handlers) && PhaseAfter(Started(READY), inputs, own, handlers).Listening?
    requires s != [] && var r := PhaseAfter(Started(READY), inputs, own, handlers).r;
             Completes(ReceiveChars(r, s[..|s| - 1]), s[|s| - 1])
    ensures var heard := Heard(inputs, own, handlers) + s;
            && LineAt(heard, j, |heard| - 1)
            && ReceiveChars(PhaseAfter(Started(READY), inputs, own, handlers).r, s).bytes == HexBytes(heard[j + 1..|heard| - 2])
  {
    hide PhaseAfter, Heard, LineAt, ReceiveChars, HexBytes;
    ReceiverIsHeard(inputs, own, handlers);
    j := LineBehind(PhaseAfter(Started(READY), inputs, own, handlers).r, Heard(inputs, own, handlers), s);
  }

  lemma LineBehind(r: Receiver, h: seq<bv8>, s: seq<bv8>) returns (j: nat)
    requires Alike(r, ReceiveChars(READY, h))
    requires s != [] && Completes(ReceiveChars(r, s[..|s| - 1]), s[|s| - 1])
    ensures LineAt(h + s, j, |h + s| - 1)
    ensures ReceiveChars(r, s).bytes == HexBytes((h + s)[j + 1..|h + s| - 2])
  {
    hide CharToBin, HexBytes, IsBody, ReceiveChar;
    var q, k, front := ReceiveChars(READY, h), |h + s| - 1, s[..|s| - 1];
    assert (h + s)[..k] == h + front && (h + s)[..k + 1] == h + s && (h + s)[k] == s[|s| - 1];
    ReceiveCharsConcat(READY, h, front);
    AlikeReceive(r, q, front);
    assert Completions(r, s) >= 1;
    AlikeReceive(r, q, s);
    ReceiveCharsConcat(READY, h, s);
    j := LineOf(READY, h + s, k);
    LineCompletes(READY, h + s, j, k);
  }
}
