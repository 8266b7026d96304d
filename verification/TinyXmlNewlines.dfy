/** End-of-line handling when TinyXml loads a document (tinyxml.cpp; XML 1.0, section 2.11), in place in the buffer. */
module TinyXmlNewlines {

  const NUL: bv8 := 0x00
  const LF: bv8 := 0x0A
  const CR: bv8 := 0x0D

  /** The text up to the first NUL with every line end made a single LF. */
  function Normalized(s: seq<bv8>): seq<bv8> {
    if s == [] || s[0] == NUL then []
    else if s[0] != CR then [s[0]] + Normalized(s[1..])
    else if |s| > 1 && s[1] == LF then [LF] + Normalized(s[2..])
    else [LF] + Normalized(s[1..])
  }

  /** A text with another convention for its line ends. */
  function WithLineEnds(t: seq<bv8>, end: seq<bv8>): seq<bv8> {
    if t == [] then [] else (if t[0] == LF then end else [t[0]]) + WithLineEnds(t[1..], end)
  }

  /** Written with LF, CR or CR LF, a text is read back as it was. */
  lemma {:induction false} EveryConventionIsRead(t: seq<bv8>, end: seq<bv8>)
    requires NUL !in t && CR !in t && end in {[LF], [CR], [CR, LF]}
    ensures Normalized(WithLineEnds(t, end)) == t
  {
    if t != [] {
      var rest := WithLineEnds(t[1..], end);
      EveryConventionIsRead(t[1..], end);
      assert WithLineEnds(t, end)[|WithLineEnds(t, end)| - |rest|..] == rest;
      if t[0] == LF && end == [CR] { StartsOtherwise(t[1..], end); }
    }
  }

  lemma StartsOtherwise(t: seq<bv8>, end: seq<bv8>)
    requires end == [CR]
    ensures var s := WithLineEnds(t, end); s != [] ==> s[0] != LF
  {}

  /** A text in which every line has an end of its own. */
  function WithEnds(t: seq<bv8>, ends: seq<seq<bv8>>): seq<bv8>
    requires |ends| == |t|
  {
    if t == [] then [] else (if t[0] == LF then ends[0] else [t[0]]) + WithEnds(t[1..], ends[1..])
  }

  /** Every line ends in LF, CR or CR LF, and no CR meets an LF that is the end of the next, empty line. */
  predicate Apart(t: seq<bv8>, ends: seq<seq<bv8>>) {
    && |ends| == |t|
    && forall i :: 0 <= i < |t| && t[i] == LF ==>
         ends[i] in {[LF], [CR], [CR, LF]} && (ends[i] == [CR] && i + 1 < |t| && t[i + 1] == LF ==> ends[i + 1] != [LF])
  }

  /** So also is one that mixes the conventions, up to the first NUL. */
  lemma {:induction false} MixedConventionsAreRead(t: seq<bv8>, ends: seq<seq<bv8>>, rest: seq<bv8>)
    requires NUL !in t && CR !in t && Apart(t, ends) && (rest == [] || rest[0] == NUL)
    ensures Normalized(WithEnds(t, ends) + rest) == t
  {
    hide Normalized;
    if t == [] {
      NothingRead(rest);
      assert WithEnds(t, ends) + rest == rest;
    } else {
      var first, behind := if t[0] == LF then ends[0] else [t[0]], WithEnds(t[1..], ends[1..]);
      assert Apart(t[1..], ends[1..]);
      MixedConventionsAreRead(t[1..], ends[1..], rest);
      assert WithEnds(t, ends) + rest == first + (behind + rest);
      if t[0] == LF && ends[0] == [CR] { NextIsNoLf(t[1..], ends[1..], rest); }
      LineRead(first, behind + rest);
    }
  }

  lemma NothingRead(rest: seq<bv8>)
    requires rest == [] || rest[0] == NUL
    ensures Normalized(rest) == []
  {}

  lemma NextIsNoLf(t: seq<bv8>, ends: seq<seq<bv8>>, rest: seq<bv8>)
    requires Apart(t, ends) && (rest == [] || rest[0] == NUL) && (t != [] && t[0] == LF ==> ends[0] != [LF])
    ensures var s := WithEnds(t, ends) + rest; s != [] ==> s[0] != LF
  {}

  lemma LineRead(first: seq<bv8>, behind: seq<bv8>)
    requires first in {[LF], [CR], [CR, LF]} || (|first| == 1 && first[0] != NUL && first[0] != CR)
    requires first == [CR] && behind != [] ==> behind[0] != LF
    ensures Normalized(first + behind) == (if first in {[LF], [CR], [CR, LF]} then [LF] else first) + Normalized(behind)
  {
    var s := first + behind;
    assert s[|first|..] == behind && s[0] == first[0];
  }

  lemma {:induction false} NoCarriageReturnStays(s: seq<bv8>)
    ensures CR !in Normalized(s) && NUL !in Normalized(s)
  {
    if s != [] && s[0] != NUL {
      NoCarriageReturnStays(s[1..]);
      if |s| > 1 { NoCarriageReturnStays(s[2..]); }
    }
  }

  lemma {:induction false} CleanTextStays(t: seq<bv8>)
    requires CR !in t && NUL !in t
    ensures Normalized(t) == t
  {
    if t != [] { CleanTextStays(t[1..]); }
  }

  lemma NormalizedTwice(s: seq<bv8>)
    ensures Normalized(Normalized(s)) == Normalized(s)
  {
    NoCarriageReturnStays(s);
    CleanTextStays(Normalized(s));
  }

  lemma NormalizedAt(s: seq<bv8>, p: nat, done: seq<bv8>)
    requires p <= |s|
    ensures p == |s| || s[p] == NUL ==> done + Normalized(s[p..]) == done
    ensures p < |s| && s[p] != NUL ==>
              done + Normalized(s[p..])
              == if s[p] != CR then done + [s[p]] + Normalized(s[p + 1..])
                 else if p + 1 < |s| && s[p + 1] == LF then done + [LF] + Normalized(s[p + 2..])
                 else done + [LF] + Normalized(s[p + 1..])
  {
    if p < |s| {
      assert s[p..][0] == s[p] && s[p..][1..] == s[p + 1..];
      assert p + 1 < |s| ==> s[p..][1] == s[p + 1] && s[p..][2..] == s[p + 2..];
    }
  }

  /** The loop of LoadFile: the write head never passes the read head. */
  method NormalizeInPlace(buf: array<bv8>, length: nat) returns (q: nat)
    requires length + 1 == buf.Length
    modifies buf
    ensures q <= length && buf[..q] == Normalized(old(buf[..length])) && buf[q] == NUL
  {
    hide Normalized;
    var p := 0;
    q := 0;
    ghost var s, done := buf[..length], [];
    buf[length] := NUL;
    assert s[p..] == s;
    while buf[p] != NUL
      invariant 0 <= q <= p <= length && buf[length] == NUL
      invariant forall i :: p <= i < length ==> buf[i] == s[i]
      invariant buf[..q] == done && done + Normalized(s[p..]) == Normalized(s)
      decreases length - p
    {
      NormalizedAt(s, p, done);
      if buf[p] == CR {
        buf[q] := LF;
        done := done + [LF];
        q := q + 1;
        p := p + 1;
        if buf[p] == LF { p := p + 1; }
      } else {
        buf[q] := buf[p];
        done := done + [buf[q]];
        q, p := q + 1, p + 1;
      }
    }
    NormalizedAt(s, p, done);
    buf[q] := NUL;
  }
}
