/**
 * What the RTU and the ASCII slave of FreeModbus share: the size of the port's buffer, the events, the error codes, and
 * what the port gives them to read.
 */
module ModbusPort {
  import opened Sequences

  const BUF_SIZE := 513

  datatype Event = EvReady | EvFrameReceived | EvExecute | EvFrameSent

  datatype Status = NoErr | IoErr | IllState

  datatype MbState = Enabled | Disabled

  /** What one poll may find: the byte chunks read before the line is quiet, and whether the timer has run out. */
  datatype PollInput = PollInput(chunks: seq<seq<bv8>>, expired: bool)

  /** Every read gives at least one byte and at most as many as the port's buffer holds. */
  ghost predicate Readable(inputs: seq<PollInput>) {
    forall i :: 0 <= i < |inputs| ==> ReadableAt(inputs[i])
  }

  ghost predicate ReadableAt(input: PollInput) {
    forall c :: c in input.chunks ==> 1 <= |c| <= BUF_SIZE
  }

  /** The bytes read during a run, as far as the receiver is on. */
  function BytesRead(inputs: seq<PollInput>): seq<bv8> {
    if inputs == [] then [] else BytesRead(inputs[..|inputs| - 1]) + Flatten(inputs[|inputs| - 1].chunks)
  }

  lemma BytesReadStep(inputs: seq<PollInput>, last: PollInput)
    ensures BytesRead(inputs + [last]) == BytesRead(inputs) + Flatten(last.chunks)
  {
    assert (inputs + [last])[..|inputs|] == inputs;
  }
}
