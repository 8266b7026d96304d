/**
 * Modbus ASCII framing as mbascii.c does it (MODBUS over Serial Line V1.02, section 2.5.2): the receive state machine
 * as a function of the characters read, the characters a frame is sent as, and why the first always recovers the second.
 */
module AsciiLink {
  import opened Octets
  import opened Options

  const MAX_FRAME := 256
  const MIN_FRAME := 3
  const COLON: bv8 := 0x3A
  const CR: bv8 := 0x0D
  const LF: bv8 := 0x0A

  // ----- Characters and nibbles -----

  function CharToBin(c: bv8): bv8 {
    if 0x30 <= c <= 0x39 then c - 0x30
    else if 0x41 <= c <= 0x46 then c - 0x41 + 0x0A
    else 0xFF
  }

  function BinToChar(n: bv8): bv8
    requires n <= 0x0F
  {
    if n <= 0x09 then 0x30 + n else n - 0x0A + 0x41
  }

  lemma CharOfNibble(n: bv8)
    requires n <= 0x0F
    ensures CharToBin(BinToChar(n)) == n
    ensures BinToChar(n) != COLON && BinToChar(n) != CR && BinToChar(n) != LF
  {}

  lemma NibblesOfByte(b: bv8)
    ensures b >> 4 <= 0x0F && b & 0x0F <= 0x0F && ((b >> 4) << 4) | (b & 0x0F) == b
  {}

  // ----- The longitudinal redundancy check -----

  function Total(s: seq<bv8>): bv8 { if s == [] then 0 else Total(s[..|s| - 1]) + s[|s| - 1] }

  function Negate(b: bv8): bv8 { 0 - b }

  function Lrc(s: seq<bv8>): bv8 { Negate(Total(s)) }

  lemma TotalOfAppend(s: seq<bv8>, b: bv8)
    ensures Total(s + [b]) == Total(s) + b
  {
    assert (s + [b])[..|s|] == s;
  }

  /** A frame sums to zero exactly when its last byte is the check of the rest. */
  lemma LrcOfAppend(s: seq<bv8>, b: bv8)
    ensures Lrc(s + [b]) == 0 <==> b == Lrc(s)
  {
    hide Total, Negate;
    TotalOfAppend(s, b);
    SumIsZero(Total(s), b);
  }

  lemma SumIsZero(t: bv8, b: bv8)
    ensures Negate(t + b) == 0 <==> b == Negate(t)
  {}

  // ----- The receiver -----

  datatype State = RxIdle | RxRcv | RxWaitEof

  /** The state, the bytes completed, the high nibble of the byte begun, and whether the character timer is armed. */
  datatype Receiver = Receiver(state: State, bytes: seq<bv8>, high: Option<bv8>, armed: bool)

  function StartFrame(): Receiver { Receiver(RxRcv, [], None, true) }

  /** The high nibble of a byte comes first; a frame too long for the buffer is given up. */
  function ReceiveNibble(r: Receiver, nibble: bv8): Receiver {
    match r.high
    case None =>
      if |r.bytes| < MAX_FRAME then r.(high := Some(nibble << 4))
      else r.(state := RxIdle, armed := false)
    case Some(h) => r.(bytes := r.bytes + [h | nibble], high := None)
  }

  function ReceiveChar(r: Receiver, c: bv8): Receiver {
    match r.state
    case RxIdle => if c == COLON then StartFrame() else r
    case RxRcv =>
      if c == COLON then StartFrame()
      else if c == CR then r.(state := RxWaitEof, armed := true)
      else ReceiveNibble(r.(armed := true), CharToBin(c))
    case RxWaitEof =>
      if c == LF then r.(state := RxIdle, armed := false)
      else if c == COLON then StartFrame()
      else r.(state := RxIdle)
  }

  /** Whether a character completes a frame and posts the event for it. */
  predicate Completes(r: Receiver, c: bv8) { r.state == RxWaitEof && c == LF }

  function ReceiveChars(r: Receiver, s: seq<bv8>): Receiver {
    if s == [] then r else ReceiveChar(ReceiveChars(r, s[..|s| - 1]), s[|s| - 1])
  }

  /** The number of frames completed along the way. */
  function Completions(r: Receiver, s: seq<bv8>): nat {
    if s == [] then 0
    else var front := s[..|s| - 1];
      Completions(r, front) + if Completes(ReceiveChars(r, front), s[|s| - 1]) then 1 else 0
  }

  datatype Decoded = AssertFails | Rejected | Accepted(address: bv8, pdu: seq<bv8>)

  function Decode(f: seq<bv8>): Decoded {
    if |f| >= MAX_FRAME then AssertFails
    else if |f| >= MIN_FRAME && Lrc(f) == 0 then Accepted(f[0], f[1..|f| - 1])
    else Rejected
  }

  // ----- The transmitter -----

  function Frame(address: bv8, pdu: seq<bv8>): seq<bv8> { var s := [address] + pdu; s + [Lrc(s)] }

  function HighChar(b: bv8): bv8 {
    NibblesOfByte(b);
    BinToChar(b >> 4)
  }

  function LowChar(b: bv8): bv8 {
    NibblesOfByte(b);
    BinToChar(b & 0x0F)
  }

  function Hex(b: bv8): seq<bv8> { [HighChar(b), LowChar(b)] }

  function HexChars(s: seq<bv8>): (r: seq<bv8>)
    ensures |r| == 2 * |s|
  {
    if s == [] then [] else HexChars(s[..|s| - 1]) + Hex(s[|s| - 1])
  }

  /** The characters a frame is sent as. */
  function Line(f: seq<bv8>): seq<bv8> { [COLON] + HexChars(f) + [CR, LF] }

  /** The hexadecimal digits. */
  const DIGITS: seq<bv8> := [0x30, 0x31, 0x32, 0x33, 0x34, 0x35, 0x36, 0x37, 0x38, 0x39, 0x41, 0x42, 0x43, 0x44, 0x45, 0x46]

  lemma DigitOf(n: bv8)
    requires n <= 0x0F
    ensures n as nat < 16 && BinToChar(n) == DIGITS[n as nat]
  {}

  /** A line is a colon, two digits a byte, the high one first, CR and LF. */
  lemma LineExactly(f: seq<bv8>, i: nat)
    requires i < |f|
    ensures var s := Line(f);
            && |s| == 2 * |f| + 3 && s[0] == 0x3A && s[2 * |f| + 1] == 0x0D && s[2 * |f| + 2] == 0x0A
            && f[i] / 16 < 16 && s[2 * i + 1] == BinToChar(f[i] / 16) && s[2 * i + 2] == BinToChar(f[i] % 16)
  {
    hide BinToChar, HexChars;
    HexCharsAt(f, i);
    HalvesOfByte(f[i]);
  }

  lemma HalvesOfByte(b: bv8)
    ensures b / 16 == b >> 4 && b % 16 == b & 0x0F && b / 16 <= 0x0F && b % 16 <= 0x0F
  {}

  lemma {:induction false} HexCharsAt(f: seq<bv8>, i: nat)
    requires i < |f|
    ensures HexChars(f)[2 * i] == HighChar(f[i]) && HexChars(f)[2 * i + 1] == LowChar(f[i])
  {
    hide HighChar, LowChar;
    if i < |f| - 1 { HexCharsAt(f[..|f| - 1], i); }
  }

  /** The check makes the sum of the whole frame zero, so a frame in which one byte has changed is rejected. */
  lemma ChangedByteIsRejected(address: bv8, pdu: seq<bv8>, k: nat, b: bv8)
    requires k < |pdu| + 2 && |pdu| <= 253 && b != Frame(address, pdu)[k]
    ensures Decode(Frame(address, pdu)[k := b]) == Rejected
  {
    hide Total, Negate;
    var s, f := [address] + pdu, Frame(address, pdu);
    LrcOfAppend(s, Lrc(s));
    var g := f[k := b];
    if Lrc(g) == 0 {
      SameNegation(Total(f), Total(g));
      TotalTells(f, k, b);
    }
  }

  lemma SameNegation(t: bv8, u: bv8)
    ensures Negate(t) == Negate(u) ==> t == u
  {}

  lemma TotalOf(s: seq<bv8>)
    requires s != []
    ensures Total(s) == PlusByte(Total(s[..|s| - 1]), s[|s| - 1])
  {}

  /** Of frames that differ in one byte the sums differ. */
  lemma {:induction false} TotalTells(s: seq<bv8>, k: nat, b: bv8)
    requires k < |s| && Total(s[k := b]) == Total(s)
    ensures b == s[k]
  {
    hide Total, PlusByte;
    var front, last, g := s[..|s| - 1], s[|s| - 1], s[k := b];
    TotalOf(s);
    TotalOf(g);
    if k < |front| {
      assert g[..|g| - 1] == front[k := b];
      PlusTells(Total(front[k := b]), Total(front), last, last);
      TotalTells(front, k, b);
    } else {
      assert g[..|g| - 1] == front;
      PlusTells(Total(front), Total(front), b, last);
    }
  }

  // ----- What the receiver makes of a transmission -----

  lemma {:induction false} ReceiveCharsConcat(r: Receiver, s: seq<bv8>, t: seq<bv8>)
    ensures ReceiveChars(r, s + t) == ReceiveChars(ReceiveChars(r, s), t)
    ensures Completions(r, s + t) == Completions(r, s) + Completions(ReceiveChars(r, s), t)
  {
    hide ReceiveChar, Completes;
    if t == [] {
      assert s + t == s;
    } else {
      ReceiveCharsConcat(r, s, t[..|t| - 1]);
      assert (s + t)[..|s + t| - 1] == s + t[..|t| - 1];
    }
  }

  lemma ReceiveOne(r: Receiver, c: bv8)
    ensures ReceiveChars(r, [c]) == ReceiveChar(r, c)
    ensures Completions(r, [c]) == if Completes(r, c) then 1 else 0
  {
    hide ReceiveChar, Completes;
    assert [c][..0] == [];
  }

  lemma ReceiveTwo(r: Receiver, c: bv8, d: bv8)
    ensures ReceiveChars(r, [c, d]) == ReceiveChar(ReceiveChar(r, c), d)
    ensures Completions(r, [c, d])
         == (if Completes(r, c) then 1 else 0) + if Completes(ReceiveChar(r, c), d) then 1 else 0
  {
    hide ReceiveChar, Completes;
    assert [c, d] == [c] + [d];
    ReceiveCharsConcat(r, [c], [d]);
    ReceiveOne(r, c);
    ReceiveOne(ReceiveChar(r, c), d);
  }

  /** Two hexadecimal characters add their byte to a frame being received. */
  lemma ReceiveHex(s: seq<bv8>, b: bv8)
    requires |s| < MAX_FRAME
    ensures var r := Receiver(RxRcv, s, None, true);
            ReceiveChars(r, Hex(b)) == Receiver(RxRcv, s + [b], None, true) && Completions(r, Hex(b)) == 0
  {
    hide CharToBin, BinToChar;
    var r := Receiver(RxRcv, s, None, true);
    NibblesOfByte(b);
    CharOfNibble(b >> 4);
    CharOfNibble(b & 0x0F);
    ReceiveTwo(r, BinToChar(b >> 4), BinToChar(b & 0x0F));
  }

  lemma {:induction false} ReceiveHexChars(f: seq<bv8>)
    requires |f| <= MAX_FRAME
    ensures ReceiveChars(StartFrame(), HexChars(f)) == Receiver(RxRcv, f, None, true)
    ensures Completions(StartFrame(), HexChars(f)) == 0
  {
    hide Hex, ReceiveChar, Completes;
    if f != [] {
      var front, b := f[..|f| - 1], f[|f| - 1];
      ReceiveHexChars(front);
      ReceiveHex(front, b);
      ReceiveCharsConcat(StartFrame(), HexChars(front), Hex(b));
      assert f == front + [b];
    }
  }

  /** From any state the receiver can be in, a transmission leaves its frame in the buffer and completes exactly once. */
  lemma SelfSynchronising(r: Receiver, f: seq<bv8>)
    requires |f| <= MAX_FRAME
    ensures ReceiveChars(r, Line(f)) == Receiver(RxIdle, f, None, false)
    ensures Completions(r, Line(f)) == 1
  {
    hide HexChars, CharToBin;
    var collected := Receiver(RxRcv, f, None, true);
    ReceiveOne(r, COLON);
    ReceiveHexChars(f);
    ReceiveTwo(collected, CR, LF);
    ReceiveCharsConcat(r, [COLON], HexChars(f));
    ReceiveCharsConcat(r, [COLON] + HexChars(f), [CR, LF]);
  }

  /** A frame is decoded to what it was made of exactly for PDUs of 1 to 253 bytes; a longer one fails the assertion. */
  lemma DeliveryOfFrames(address: bv8, pdu: seq<bv8>)
    ensures Decode(Frame(address, pdu)) == Accepted(address, pdu) <==> 1 <= |pdu| <= 253
    ensures Decode(Frame(address, pdu)) == AssertFails <==> |pdu| >= 254
  {
    hide Lrc;
    LrcOfAppend([address] + pdu, Lrc([address] + pdu));
    assert |pdu| >= 1 ==> Frame(address, pdu)[1..|pdu| + 1] == pdu;
  }

  /** Nothing but a frame of 3 to 255 bytes with its check is accepted. */
  lemma AcceptedExactly(f: seq<bv8>, address: bv8, pdu: seq<bv8>)
    ensures Decode(f) == Accepted(address, pdu) <==> f == Frame(address, pdu) && 1 <= |pdu| <= 253
  {
    hide Lrc;
    DeliveryOfFrames(address, pdu);
    if Decode(f) == Accepted(address, pdu) {
      var s := f[..|f| - 1];
      assert s == [address] + pdu && f == s + [f[|f| - 1]];
      LrcOfAppend(s, f[|f| - 1]);
    }
  }

  /** The bytes of a frame, its check among them, add up to a multiple of 256. */
  lemma SumsToZero(address: bv8, pdu: seq<bv8>)
    ensures Added(Frame(address, pdu)) % 256 == 0
  {
    hide Total, Negate;
    var s := [address] + pdu;
    TotalIsAdded(s + [Lrc(s)]);
    TotalOfAppend(s, Lrc(s));
    NegationCancels(Total(s));
  }

  lemma {:induction false} TotalIsAdded(s: seq<bv8>)
    ensures Value(Total(s)) == Added(s) % 256
  {
    hide PlusByte, Value;
    PlusZero(0);
    if s != [] {
      var front, last := s[..|s| - 1], s[|s| - 1];
      TotalIsAdded(front);
      TotalOf(s);
      PlusWraps(Total(front), last);
      AddedRemainder(Added(front), Value(last));
    }
  }

  lemma NegationCancels(t: bv8)
    ensures t + Negate(t) == 0
  {}

  /** The sixteen digits and no other characters have a value; those count as 0xFF. */
  lemma DigitsExactly(c: bv8)
    ensures CharToBin(c) <= 0x0F <==> exists n: bv8 :: n <= 0x0F && BinToChar(n) == c
    ensures CharToBin(c) <= 0x0F || CharToBin(c) == 0xFF
  {
    if CharToBin(c) <= 0x0F { CharOfValue(c); }
  }

  lemma CharOfValue(c: bv8)
    requires CharToBin(c) <= 0x0F
    ensures BinToChar(CharToBin(c)) == c
  {}

  /** A transmission has 2n + 7 characters for a PDU of n bytes: the whole port buffer for the longest, 253. */
  lemma LineLength(address: bv8, pdu: seq<bv8>)
    ensures |Line(Frame(address, pdu))| == 2 * |pdu| + 7
    ensures |Line(Frame(address, pdu))| <= 513 <==> |pdu| <= 253
  {
    hide Lrc;
  }

  /** Whatever was on the line before, a PDU of 1 to 253 bytes sent to an address is the one received for it. */
  lemma LineIsReceived(r: Receiver, address: bv8, pdu: seq<bv8>)
    requires 1 <= |pdu| <= 253
    ensures var q := ReceiveChars(r, Line(Frame(address, pdu)));
            q.state == RxIdle && !q.armed && Decode(q.bytes) == Accepted(address, pdu)
    ensures Completions(r, Line(Frame(address, pdu))) == 1
  {
    hide Lrc, HexChars, ReceiveChars, Completions;
    SelfSynchronising(r, Frame(address, pdu));
    DeliveryOfFrames(address, pdu);
  }

  /** A PDU of 254 bytes fills the buffer: its line is completed, and decoding it stops the process. */
  lemma FullLineStopsTheProcess(r: Receiver, address: bv8, pdu: seq<bv8>)
    requires |pdu| == 254
    ensures Completions(r, Line(Frame(address, pdu))) == 1
    ensures Decode(ReceiveChars(r, Line(Frame(address, pdu))).bytes) == AssertFails
  {
    hide Lrc, HexChars, ReceiveChars, Completions;
    SelfSynchronising(r, Frame(address, pdu));
    DeliveryOfFrames(address, pdu);
  }

  /** A frame too long for the buffer is given up at its first byte too many, and its line never completed. */
  lemma OverlongLineIsDropped(r: Receiver, f: seq<bv8>)
    requires |f| > MAX_FRAME
    ensures ReceiveChars(r, Line(f)) == Receiver(RxIdle, f[..MAX_FRAME], None, false)
    ensures Completions(r, Line(f)) == 0
  {
    hide HexChars, CharToBin, ReceiveChars, Completions;
    var front, b, rest := f[..MAX_FRAME], f[MAX_FRAME], f[MAX_FRAME + 1..];
    var full := Receiver(RxRcv, front, None, true);
    ReceiveOne(r, COLON);
    ReceiveHexChars(front);
    ReceiveHighCharTooMany(front, b);
    HexCharsConcat(front, [b] + rest);
    HexCharsOfFirst(b, rest);
    assert f == front + ([b] + rest);
    var tail := [LowChar(b)] + HexChars(rest) + [CR, LF];
    assert Line(f) == [COLON] + HexChars(front) + [HighChar(b)] + tail;
    HexHasNoColon(b);
    HexCharsHaveNoColon(rest);
    IdleIgnores(full.(state := RxIdle, armed := false), tail);
    ReceiveCharsConcat(r, [COLON], HexChars(front));
    ReceiveCharsConcat(r, [COLON] + HexChars(front), [HighChar(b)]);
    ReceiveCharsConcat(r, [COLON] + HexChars(front) + [HighChar(b)], tail);
  }

  lemma ReceiveHighCharTooMany(front: seq<bv8>, b: bv8)
    requires |front| == MAX_FRAME
    ensures var r := Receiver(RxRcv, front, None, true);
            ReceiveChars(r, [HighChar(b)]) == r.(state := RxIdle, armed := false) && Completions(r, [HighChar(b)]) == 0
  {
    hide CharToBin, BinToChar;
    NibblesOfByte(b);
    CharOfNibble(b >> 4);
    ReceiveOne(Receiver(RxRcv, front, None, true), HighChar(b));
  }

  lemma HexHasNoColon(b: bv8)
    ensures HighChar(b) != COLON && LowChar(b) != COLON
  {
    hide BinToChar, CharToBin;
    NibblesOfByte(b);
    CharOfNibble(b >> 4);
    CharOfNibble(b & 0x0F);
  }

  lemma {:induction false} HexCharsHaveNoColon(s: seq<bv8>)
    ensures COLON !in HexChars(s)
  {
    hide HighChar, LowChar;
    if s != [] {
      HexCharsHaveNoColon(s[..|s| - 1]);
      HexHasNoColon(s[|s| - 1]);
    }
  }

  lemma {:induction false} HexCharsConcat(s: seq<bv8>, t: seq<bv8>)
    ensures HexChars(s + t) == HexChars(s) + HexChars(t)
  {
    hide Hex;
    if t == [] {
      assert s + t == s && HexChars(t) == [];
    } else {
      HexCharsConcat(s, t[..|t| - 1]);
      assert (s + t)[..|s + t| - 1] == s + t[..|t| - 1];
    }
  }

  /** In the idle state nothing but a colon has an effect. */
  lemma {:induction false} IdleIgnores(r: Receiver, s: seq<bv8>)
    requires r.state == RxIdle && COLON !in s
    ensures ReceiveChars(r, s) == r && Completions(r, s) == 0
  {
    if s != [] {
      IdleIgnores(r, s[..|s| - 1]);
      assert s[|s| - 1] in s;
    }
  }

  /** Two transmissions read before the queue is: both are completed, so the announcement of the first is lost. */
  lemma TwoLinesInOneRead(r: Receiver, f: seq<bv8>, g: seq<bv8>)
    requires |f| <= MAX_FRAME && |g| <= MAX_FRAME
    ensures Completions(r, Line(f) + Line(g)) == 2
    ensures ReceiveChars(r, Line(f) + Line(g)).bytes == g
  {
    hide Line, ReceiveChars, Completions;
    ReceiveCharsConcat(r, Line(f), Line(g));
    SelfSynchronising(r, f);
    SelfSynchronising(ReceiveChars(r, Line(f)), g);
  }

  lemma {:induction false} HexCharsOfFirst(b: bv8, s: seq<bv8>)
    ensures HexChars([b] + s) == Hex(b) + HexChars(s)
  {
    hide Hex;
    if s == [] {
      assert ([b] + s)[..0] == [] && HexChars([]) == [];
    } else {
      HexCharsOfFirst(b, s[..|s| - 1]);
      assert ([b] + s)[..|s|] == [b] + s[..|s| - 1];
    }
  }

  /** The characters still to be sent, nibble by nibble. */
  lemma NextNibbles(s: seq<bv8>, end: seq<bv8>)
    requires s != []
    ensures HexChars(s) + end == [HighChar(s[0])] + (HexChars(s)[1..] + end)
    ensures HexChars(s)[1..] + end == [LowChar(s[0])] + (HexChars(s[1..]) + end)
  {
    hide HexChars, HighChar, LowChar;
    assert s == [s[0]] + s[1..];
    HexCharsOfFirst(s[0], s[1..]);
  }

  lemma LineFirst(f: seq<bv8>)
    ensures Line(f) == [COLON] + (HexChars(f) + [CR, LF])
  {}

  lemma NoHexChars(s: seq<bv8>, end: seq<bv8>)
    requires s == []
    ensures HexChars(s) + end == end
  {}

  lemma PutFirst(done: seq<bv8>, c: bv8, rest: seq<bv8>)
    ensures done + [c] + rest == done + ([c] + rest)
  {}

  // ----- The character timer -----

  /** While a frame is being received the timer is armed. */
  predicate TimerCovers(r: Receiver) { r.state != RxIdle ==> r.armed }

  lemma {:induction false} TimerAlwaysCovers(r: Receiver, s: seq<bv8>)
    requires TimerCovers(r)
    ensures TimerCovers(ReceiveChars(r, s))
  {
    if s != [] { TimerAlwaysCovers(r, s[..|s| - 1]); }
  }

  /** A frame's CR was followed by something other than LF or a new start, and no frame has been started since. */
  ghost predicate Derailed(r: Receiver, s: seq<bv8>, i: nat) {
    && i < |s| && ReceiveChars(r, s[..i]).state == RxWaitEof && s[i] != LF && s[i] != COLON
    && COLON !in s[i + 1..]
  }

  ghost predicate HasDerailed(r: Receiver, s: seq<bv8>) { exists i: nat :: Derailed(r, s, i) }

  predicate IdleArmed(r: Receiver) { r.state == RxIdle && r.armed }

  /**
   * The timer is left armed in the idle state, where its expiry fails an assertion, exactly after a frame that
   * went wrong between CR and LF, or if it was so before, until the next start of a frame.
   */
  lemma IdleTimerArmedExactlyWhenDerailed(r: Receiver, s: seq<bv8>)
    requires TimerCovers(r)
    ensures IdleArmed(ReceiveChars(r, s)) <==> HasDerailed(r, s) || (IdleArmed(r) && COLON !in s)
  {
    if IdleArmed(r) && COLON !in s {
      IdleIgnores(r, s);
    } else if IdleArmed(ReceiveChars(r, s)) {
      var i := DerailedAt(r, s);
    }
    forall i: nat | Derailed(r, s, i) ensures IdleArmed(ReceiveChars(r, s)) {
      TimerAlwaysCovers(r, s[..i]);
      StaysDerailed(r, s, i, |s|);
      assert s[..|s|] == s;
    }
  }

  /** The shortest way off the rails: a colon, CR, and then neither LF nor a colon. */
  lemma DerailedInThree(r: Receiver, c: bv8)
    requires c != LF && c != COLON
    ensures Derailed(r, [COLON, CR, c], 2) && IdleArmed(ReceiveChars(r, [COLON, CR, c]))
  {
    var s := [COLON, CR, c];
    ReceiveTwo(r, COLON, CR);
    assert s[..2] == [COLON, CR] && s[..2] + [c] == s;
    ReceiveOne(ReceiveChars(r, s[..2]), c);
    ReceiveCharsConcat(r, s[..2], [c]);
  }

  lemma {:induction false} DerailedAt(r: Receiver, s: seq<bv8>) returns (i: nat)
    requires TimerCovers(r) && IdleArmed(ReceiveChars(r, s)) && (IdleArmed(r) ==> COLON in s)
    ensures Derailed(r, s, i)
  {
    var front, c := s[..|s| - 1], s[|s| - 1];
    var q := ReceiveChars(r, front);
    TimerAlwaysCovers(r, front);
    i := |front|;
    if q.state == RxIdle {
      i := DerailedAt(r, front);
      assert s[..i] == front[..i] && s[i + 1..] == front[i + 1..] + [c];
    }
  }

  lemma {:induction false} StaysDerailed(r: Receiver, s: seq<bv8>, i: nat, j: nat)
    requires Derailed(r, s, i) && i < j <= |s| && TimerCovers(ReceiveChars(r, s[..i]))
    ensures ReceiveChars(r, s[..j]).state == RxIdle && ReceiveChars(r, s[..j]).armed
  {
    assert s[..j][..j - 1] == s[..j - 1];
    if j > i + 1 {
      StaysDerailed(r, s, i, j - 1);
      assert s[j - 1] == s[i + 1..][j - 1 - (i + 1)];
    }
  }

  // ----- Which characters complete a frame -----

  /** From a colon on nothing before it matters. */
  lemma {:induction false} RestartsAtColon(r: Receiver, s: seq<bv8>, j: nat)
    requires j < |s| && s[j] == COLON
    ensures ReceiveChars(r, s) == ReceiveChars(StartFrame(), s[j + 1..])
  {
    hide ReceiveNibble, CharToBin;
    if j < |s| - 1 {
      RestartsAtColon(r, s[..|s| - 1], j);
      assert s[j + 1..][..|s| - j - 2] == s[..|s| - 1][j + 1..];
    }
  }

  /** What may stand between the colon and the CR of a line. */
  predicate IsBody(b: seq<bv8>) { COLON !in b && CR !in b && |b| <= 2 * MAX_FRAME }

  function HexByte(high: bv8, low: bv8): bv8 { (CharToBin(high) << 4) | CharToBin(low) }

  /** The bytes that pairs of characters make up; an odd one at the end is without effect. */
  function HexBytes(b: seq<bv8>): seq<bv8> {
    seq(|b| / 2, i requires 0 <= i < |b| / 2 => HexByte(b[2 * i], b[2 * i + 1]))
  }

  lemma {:induction false} BodyReceived(b: seq<bv8>)
    requires IsBody(b)
    ensures ReceiveChars(StartFrame(), b)
         == Receiver(RxRcv, HexBytes(b), if |b| % 2 == 1 then Some(CharToBin(b[|b| - 1]) << 4) else None, true)
    ensures Completions(StartFrame(), b) == 0
  {
    hide CharToBin, HexBytes;
    MoreHexBytes(b);
    if b != [] {
      var front, c := b[..|b| - 1], b[|b| - 1];
      assert c in b;
      BodyReceived(front);
    }
  }

  lemma MoreHexBytes(b: seq<bv8>)
    ensures |HexBytes(b)| == |b| / 2
    ensures b == [] ==> HexBytes(b) == []
    ensures b != [] ==>
              HexBytes(b) == HexBytes(b[..|b| - 1]) + if |b| % 2 == 0 then [HexByte(b[|b| - 2], b[|b| - 1])] else []
  {
    hide HexByte;
  }

  /** Once a frame is given up only a colon is heard. */
  lemma BodyTooLong(b: seq<bv8>)
    requires COLON !in b && CR !in b && |b| > 2 * MAX_FRAME
    ensures ReceiveChars(StartFrame(), b).state == RxIdle
  {
    hide CharToBin, ReceiveChars, Completions;
    var n := 2 * MAX_FRAME;
    var front, c, rest := b[..n], b[n], b[n + 1..];
    assert c in b && b == front + [c] + rest;
    BodyReceived(front);
    var q := ReceiveChars(StartFrame(), front);
    ReceiveOne(q, c);
    ReceiveCharsConcat(StartFrame(), front, [c]);
    ReceiveCharsConcat(StartFrame(), front + [c], rest);
    IdleIgnores(ReceiveChar(q, c), rest);
  }

  /** A line ends at place k that began at place j. */
  predicate LineAt(s: seq<bv8>, j: nat, k: nat) {
    j + 2 <= k < |s| && s[j] == COLON && s[k - 1] == CR && s[k] == LF && IsBody(s[j + 1..k - 1])
  }

  lemma LineCompletes(r: Receiver, s: seq<bv8>, j: nat, k: nat)
    requires LineAt(s, j, k)
    ensures Completes(ReceiveChars(r, s[..k]), s[k])
    ensures var q := ReceiveChars(r, s[..k + 1]);
            q.state == RxIdle && !q.armed && q.bytes == HexBytes(s[j + 1..k - 1])
  {
    hide CharToBin, ReceiveChars, IsBody, HexBytes;
    RestartsAtColon(r, s[..k - 1], j);
    assert s[..k - 1][j + 1..] == s[j + 1..k - 1];
    BodyReceived(s[j + 1..k - 1]);
    ReceiveNext(r, s, k - 1);
    ReceiveNext(r, s, k);
  }

  lemma ReceiveNext(r: Receiver, s: seq<bv8>, k: nat)
    requires k < |s|
    ensures ReceiveChars(r, s[..k + 1]) == ReceiveChar(ReceiveChars(r, s[..k]), s[k])
  {
    hide ReceiveChar;
    assert s[..k + 1][..k] == s[..k];
  }

  /** A receiver that collects does so since the last colon, with no CR since. */
  lemma {:induction false} CollectsSince(r: Receiver, s: seq<bv8>) returns (j: nat)
    requires r.state == RxIdle && ReceiveChars(r, s).state == RxRcv
    ensures j < |s| && s[j] == COLON && COLON !in s[j + 1..] && CR !in s[j + 1..]
  {
    hide CharToBin;
    var front, c := s[..|s| - 1], s[|s| - 1];
    if c == COLON {
      j := |s| - 1;
    } else {
      j := CollectsSince(r, front);
      assert s[j + 1..] == front[j + 1..] + [c];
    }
  }

  /** A frame is completed exactly at the end of a line, with the bytes of its body. */
  lemma CompletesExactlyAtLines(r: Receiver, s: seq<bv8>, k: nat)
    requires r.state == RxIdle && k < |s|
    ensures Completes(ReceiveChars(r, s[..k]), s[k]) <==> exists j: nat :: LineAt(s, j, k)
  {
    hide CharToBin, IsBody;
    forall j: nat | LineAt(s, j, k) ensures Completes(ReceiveChars(r, s[..k]), s[k]) { LineCompletes(r, s, j, k); }
    if Completes(ReceiveChars(r, s[..k]), s[k]) { var j := LineOf(r, s, k); }
  }

  lemma LineOf(r: Receiver, s: seq<bv8>, k: nat) returns (j: nat)
    requires r.state == RxIdle && k < |s| && Completes(ReceiveChars(r, s[..k]), s[k])
    ensures LineAt(s, j, k)
  {
    hide CharToBin;
    assert s[..k][..k - 1] == s[..k - 1];
    j := CollectsSince(r, s[..k - 1]);
    var b := s[j + 1..k - 1];
    assert s[..k - 1][j + 1..] == b;
    RestartsAtColon(r, s[..k - 1], j);
    if |b| > 2 * MAX_FRAME { BodyTooLong(b); }
  }

  // ----- Whether the frame announced is the one completed -----

  /** Where the last frame is completed. */
  function LastEnd(r: Receiver, s: seq<bv8>): nat
    requires Completions(r, s) >= 1
  {
    var front := s[..|s| - 1];
    if Completes(ReceiveChars(r, front), s[|s| - 1]) then |s| - 1 else LastEnd(r, front)
  }

  lemma {:induction false} LastEndCompletes(r: Receiver, s: seq<bv8>)
    requires Completions(r, s) >= 1
    ensures var k := LastEnd(r, s);
            && k < |s| && Completes(ReceiveChars(r, s[..k]), s[k])
            && Completions(ReceiveChars(r, s[..k + 1]), s[k + 1..]) == 0
            && ReceiveChars(r, s) == ReceiveChars(ReceiveChars(r, s[..k + 1]), s[k + 1..])
  {
    hide ReceiveChar, Completes;
    var front, c, k := s[..|s| - 1], s[|s| - 1], LastEnd(r, s);
    if k == |s| - 1 && Completes(ReceiveChars(r, front), c) {
      assert s[..k + 1] == s && s[k + 1..] == [];
    } else {
      LastEndCompletes(r, front);
      assert front[..k] == s[..k] && front[..k + 1] == s[..k + 1] && s == s[..k + 1] + s[k + 1..];
      ReceiveCharsConcat(r, s[..k + 1], s[k + 1..]);
      ReceiveCharsConcat(r, front[..k + 1], front[k + 1..]);
      assert front == front[..k + 1] + front[k + 1..];
    }
  }

  lemma {:induction false} BusyAfterColon(q: Receiver, t: seq<bv8>)
    requires COLON in t && Completions(q, t) == 0
    ensures var p := ReceiveChars(q, t);
            TimerCovers(p) && (p.state != RxIdle || p.armed || |p.bytes| >= MAX_FRAME)
  {
    hide CharToBin;
    var front, c := t[..|t| - 1], t[|t| - 1];
    if c != COLON {
      assert t == front + [c];
      BusyAfterColon(q, front);
    }
  }

  /** A completed frame of fewer than 256 bytes is still what the receiver holds exactly if no colon has come since. */
  lemma KeptExactlyWithoutColon(q: Receiver, t: seq<bv8>)
    requires q.state == RxIdle && !q.armed && |q.bytes| < MAX_FRAME && Completions(q, t) == 0
    ensures ReceiveChars(q, t) == q <==> COLON !in t
  {
    if COLON in t { BusyAfterColon(q, t); } else { IdleIgnores(q, t); }
  }

  /** What the receiver holds when the queue is read is the last completed frame exactly if no colon follows its LF. */
  lemma AnnouncedIsTheLastCompleted(r: Receiver, s: seq<bv8>)
    requires Completions(r, s) >= 1
    ensures var k := LastEnd(r, s);
            && k < |s| && s[k] == LF
            && var q := ReceiveChars(r, s[..k + 1]);
               && q.state == RxIdle && !q.armed
               && (|q.bytes| < MAX_FRAME ==> (ReceiveChars(r, s) == q <==> COLON !in s[k + 1..]))
  {
    hide ReceiveNibble, CharToBin;
    var k := LastEnd(r, s);
    LastEndCompletes(r, s);
    var q := ReceiveChars(r, s[..k + 1]);
    assert s[..k + 1][..k] == s[..k];
    if |q.bytes| < MAX_FRAME { KeptExactlyWithoutColon(q, s[k + 1..]); }
  }
}
