/** Executing a request: the handlers of the function codes, and what eMBPoll makes of their verdict (mb.c). */
module ModbusHandlers {
  import opened Sequences

  const BROADCAST: bv8 := 0

  /** A handler's verdict (0 is success) and what it leaves in the frame buffer, in the place of its request. */
  datatype Reply = Reply(exception: bv8, pdu: seq<bv8>)

  datatype Handler = Handler(code: bv8, run: seq<bv8> -> Reply)

  const ILLEGAL_FUNCTION: bv8 := 1
  const FUNC_ERROR: bv8 := 128

  /** The table look-up of eMBPoll: it stops at the first empty entry. */
  function Dispatch(handlers: seq<Handler>, pdu: seq<bv8>): Reply
    requires |pdu| >= 1
  {
    if handlers == [] || handlers[0].code == 0 then Reply(ILLEGAL_FUNCTION, pdu)
    else if handlers[0].code == pdu[0] then handlers[0].run(pdu)
    else Dispatch(handlers[1..], pdu)
  }

  function Response(handlers: seq<Handler>, pdu: seq<bv8>): seq<bv8>
    requires |pdu| >= 1
  {
    var r := Dispatch(handlers, pdu);
    if r.exception != 0 then [pdu[0] | FUNC_ERROR, r.exception] else r.pdu
  }

  /** The i-th handler is the one registered for the code: no other of that code, and no empty entry, comes before it. */
  predicate Handles(handlers: seq<Handler>, code: bv8, i: nat) {
    code != 0 && i < |handlers| && handlers[i].code == code && forall j :: 0 <= j < i ==> handlers[j].code != 0 && handlers[j].code != code
  }

  /** A request is run by the handler of its code, and is an illegal function if there is none. */
  lemma {:induction false} DispatchedExactly(handlers: seq<Handler>, pdu: seq<bv8>)
    requires |pdu| >= 1
    ensures forall i: nat :: Handles(handlers, pdu[0], i) ==> Dispatch(handlers, pdu) == handlers[i].run(pdu)
    ensures (forall i: nat :: !Handles(handlers, pdu[0], i)) ==> Dispatch(handlers, pdu) == Reply(1, pdu)
  {
    if handlers != [] && handlers[0].code != 0 && handlers[0].code != pdu[0] {
      DispatchedExactly(handlers[1..], pdu);
      forall i: nat | Handles(handlers, pdu[0], i) ensures Handles(handlers[1..], pdu[0], i - 1) {}
      forall i: nat | Handles(handlers[1..], pdu[0], i) ensures Handles(handlers, pdu[0], i + 1) {}
    } else if handlers != [] && handlers[0].code == pdu[0] && pdu[0] != 0 {
      assert Handles(handlers, pdu[0], 0);
    }
  }

  /** The response is what the handler leaves, or its code with the top bit set and the exception, in two bytes. */
  lemma ResponseExactly(handlers: seq<Handler>, pdu: seq<bv8>)
    requires |pdu| >= 1
    ensures forall i: nat :: Handles(handlers, pdu[0], i) ==>
              var reply := handlers[i].run(pdu);
              if reply.exception == 0 then Response(handlers, pdu) == reply.pdu
              else IsErrorReply(Response(handlers, pdu), pdu[0], reply.exception)
    ensures (forall i: nat :: !Handles(handlers, pdu[0], i)) ==> IsErrorReply(Response(handlers, pdu), pdu[0], 1)
  {
    hide Dispatch, Handles;
    DispatchedExactly(handlers, pdu);
  }

  /** What the handler leaves stays in the buffer, but for the two bytes of an error reply, which broadcasts do not get. */
  lemma LeavesExactly(handlers: seq<Handler>, pdu: seq<bv8>, address: bv8, i: nat)
    requires |pdu| >= 1 && Handles(handlers, pdu[0], i)
    ensures var reply, left := handlers[i].run(pdu), Leaves(handlers, pdu, address);
            if address == 0 || reply.exception == 0 then left == reply.pdu
            else && 2 <= |left| && IsErrorReply(left[..2], pdu[0], reply.exception)
                 && |left| == (if |reply.pdu| > 2 then |reply.pdu| else 2) && forall k :: 2 <= k < |left| ==> left[k] == reply.pdu[k]
  {
    hide Dispatch, Handles;
    DispatchedExactly(handlers, pdu);
  }

  predicate IsErrorReply(r: seq<bv8>, code: bv8, exception: bv8) {
    |r| == 2 && r[0] >= 0x80 && r[0] & 0x7F == code & 0x7F && r[1] == exception
  }

  /** What is in the frame buffer, from the request's place on, after its execution. */
  function Leaves(handlers: seq<Handler>, pdu: seq<bv8>, address: bv8): seq<bv8>
    requires |pdu| >= 1
  {
    var r := Dispatch(handlers, pdu);
    if address == BROADCAST || r.exception == 0 then r.pdu
    else [pdu[0] | FUNC_ERROR, r.exception] + if |r.pdu| <= 2 then [] else r.pdu[2..]
  }

  /** Handlers of requests of up to `max` bytes leave a PDU of up to 253 bytes, not empty if they succeed. */
  ghost predicate WellBehaved(handlers: seq<Handler>, max: nat) {
    forall i, p :: 0 <= i < |handlers| && 1 <= |p| <= max ==> Fits(handlers[i].run(p))
  }

  predicate Fits(r: Reply) { |r.pdu| <= 253 && (r.exception == 0 ==> r.pdu != []) }

  lemma {:induction false} DispatchFits(handlers: seq<Handler>, pdu: seq<bv8>, max: nat)
    requires WellBehaved(handlers, max) && 1 <= |pdu| <= max <= 253
    ensures Fits(Dispatch(handlers, pdu))
  {
    if handlers != [] && handlers[0].code != 0 && handlers[0].code != pdu[0] {
      forall i, p | 0 <= i < |handlers[1..]| && 1 <= |p| <= max ensures Fits(handlers[1..][i].run(p)) {
        assert handlers[1..][i] == handlers[i + 1];
      }
      DispatchFits(handlers[1..], pdu, max);
    }
  }

  lemma ResponseFits(handlers: seq<Handler>, pdu: seq<bv8>, address: bv8, max: nat)
    requires WellBehaved(handlers, max) && 1 <= |pdu| <= max <= 253
    ensures 1 <= |Response(handlers, pdu)| <= 253 && |Leaves(handlers, pdu, address)| <= 253
    ensures address != BROADCAST ==> Response(handlers, pdu) <= Leaves(handlers, pdu, address)
  {
    hide Dispatch, WellBehaved;
    DispatchFits(handlers, pdu, max);
  }

  /** The handler table searched in order up to its first empty entry. */
  method Lookup(handlers: seq<Handler>, request: seq<bv8>) returns (reply: Reply)
    requires |request| >= 1
    ensures reply == Dispatch(handlers, request)
    ensures forall i: nat :: Handles(handlers, request[0], i) ==> reply == handlers[i].run(request)
    ensures (forall i: nat :: !Handles(handlers, request[0], i)) ==> reply == Reply(1, request)
  {
    DispatchedExactly(handlers, request);
    var i := 0;
    assert handlers[0..] == handlers;
    while i < |handlers|
      invariant 0 <= i <= |handlers|
      invariant Dispatch(handlers, request) == Dispatch(handlers[i..], request)
    {
      if handlers[i].code == 0 {
        break;
      } else if handlers[i].code == request[0] {
        return handlers[i].run(request);
      }
      assert handlers[i..][1..] == handlers[i + 1..];
      i := i + 1;
    }
    return Reply(ILLEGAL_FUNCTION, request);
  }

  /** Runs the handler of the request in the frame buffer, which leaves the response there, or makes it an error reply. */
  method ExecuteRequest(handlers: seq<Handler>, buf: array<bv8>, length: nat, address: bv8, ghost max: nat)
    returns (newLength: nat)
    requires buf.Length == 256 && WellBehaved(handlers, max) && 1 <= length <= max <= 253
    modifies buf
    ensures |Leaves(handlers, old(buf[1..1 + length]), address)| <= 253
    ensures buf[..] == Overwritten(old(buf[..]), 1, Leaves(handlers, old(buf[1..1 + length]), address))
    ensures address != BROADCAST ==>
              1 <= newLength <= 253 && buf[1..1 + newLength] == Response(handlers, old(buf[1..1 + length]))
  {
    hide Dispatch, WellBehaved, Overwritten;
    ghost var was, request := buf[..], buf[1..1 + length];
    ResponseFits(handlers, request, address, max);
    DispatchFits(handlers, request, max);
    var functionCode := buf[1];
    var reply := Lookup(handlers, buf[1..1 + length]);
    newLength := |reply.pdu|;
    CopyReply(buf, reply.pdu);
    if address != BROADCAST && reply.exception != 0 {
      ErrorReply(was, reply.pdu, functionCode | FUNC_ERROR, reply.exception);
      buf[1] := functionCode | FUNC_ERROR;
      buf[2] := reply.exception;
      newLength := 2;
    }
    ghost var w := Leaves(handlers, request, address);
    assert buf[..] == Overwritten(was, 1, w);
    if address != BROADCAST { PartOfOverwritten(was, w, newLength); }
    assert buf[1..1 + newLength] == buf[..][1..1 + newLength];
  }

  method CopyReply(buf: array<bv8>, pdu: seq<bv8>)
    requires 1 + |pdu| <= buf.Length
    modifies buf
    ensures buf[..] == Overwritten(old(buf[..]), 1, pdu)
  {
    forall k | 0 <= k < |pdu| { buf[1 + k] := pdu[k]; }
  }

  lemma ErrorReply(was: seq<bv8>, pdu: seq<bv8>, code: bv8, exception: bv8)
    requires 3 <= |was| && 1 + |pdu| <= |was|
    ensures Overwritten(was, 1, pdu)[1 := code][2 := exception]
         == Overwritten(was, 1, [code, exception] + if |pdu| <= 2 then [] else pdu[2..])
  {}

  lemma PartOfOverwritten(was: seq<bv8>, w: seq<bv8>, n: nat)
    requires 1 + |w| <= |was| && n <= |w|
    ensures Overwritten(was, 1, w)[1..1 + n] == w[..n]
  {}
}
