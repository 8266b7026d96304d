/** What several modules do with sequences. */
module Sequences {

  /** Input that arrives in pieces, put together. */
  function Flatten(chunks: seq<seq<bv8>>): seq<bv8> {
    if chunks == [] then [] else Flatten(chunks[..|chunks| - 1]) + chunks[|chunks| - 1]
  }

  function Zeros(n: nat): (z: seq<bv8>)
    ensures |z| == n
  {
    seq(n, i => 0)
  }

  /** A sequence with a part of it replaced. */
  function Overwritten<T>(s: seq<T>, at: nat, part: seq<T>): (r: seq<T>)
    requires at + |part| <= |s|
    ensures |r| == |s|
  {
    s[..at] + part + s[at + |part|..]
  }

  lemma Assembled<T>(s: seq<T>, was: seq<T>, at: nat, part: seq<T>)
    requires at + |part| <= |was| == |s|
    requires s[..at] == was[..at] && s[at..at + |part|] == part && s[at + |part|..] == was[at + |part|..]
    ensures s == Overwritten(was, at, part)
  {
    assert s == s[..at] + s[at..at + |part|] + s[at + |part|..];
  }

  lemma OverwrittenDiffers<T>(s: seq<T>, at: nat, p: seq<T>, q: seq<T>)
    requires |p| == |q| && at + |p| <= |s| && p != q
    ensures Overwritten(s, at, p) != Overwritten(s, at, q)
  {
    assert Overwritten(s, at, p)[at..at + |p|] == p && Overwritten(s, at, q)[at..at + |q|] == q;
  }

  lemma PrefixOfPrefix<T>(s: seq<T>, n: nat, m: nat)
    requires m <= n <= |s|
    ensures s[..n][..m] == s[..m]
  {}

  lemma Snoc<T>(s: seq<T>, t: seq<T>)
    requires t != []
    ensures (s + t)[..|s + t| - 1] == s + t[..|t| - 1] && (s + t)[|s + t| - 1] == t[|t| - 1]
  {}

  lemma BehindFirst<T>(s: seq<T>, at: nat, n: nat)
    requires 1 <= n && at + n <= |s|
    ensures s[at + 1..at + n] == s[at..at + n][1..]
  {}

  lemma MoveFirst<T>(s: seq<T>, t: seq<T>)
    requires t != []
    ensures s + t == s + [t[0]] + t[1..]
  {}

  lemma Associates<T>(s: seq<T>, t: seq<T>, u: seq<T>)
    ensures s + t + u == s + (t + u)
  {}
}
