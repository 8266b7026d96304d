/** Numbers as bytes, and pairs of bytes as numbers, high byte first. */
module Octets {

  function Byte(n: nat): bv8
    requires n < 256
  {
    n as bv8
  }

  function Word(high: bv8, low: bv8): (n: nat)
    ensures n < 65536
  {
    256 * (high as nat) + low as nat
  }

  function HighByte(n: nat): bv8
    requires n < 65536
  {
    Byte(n / 256)
  }

  function LowByte(n: nat): bv8
    requires n < 65536
  {
    Byte(n % 256)
  }

  lemma ByteValue(n: nat)
    requires n < 256
    ensures Byte(n) as nat == n
  {
    var b := SomeByte(n);
    ByteOfValue(b);
  }

  lemma {:induction false} SomeByte(n: nat) returns (b: bv8)
    requires n < 256
    ensures b as nat == n
  {
    if n == 0 {
      b := 0;
    } else {
      var c := SomeByte(n - 1);
      Increment(c);
      b := c + 1;
    }
  }

  lemma Increment(c: bv8)
    requires c as nat < 255
    ensures (c + 1) as nat == c as nat + 1
  {}

  lemma ByteOfValue(b: bv8)
    ensures Byte(b as nat) == b
  {}

  lemma WordOfBytes(n: nat)
    requires n < 65536
    ensures Word(HighByte(n), LowByte(n)) == n
  {
    hide Byte;
    ByteValue(n / 256);
    ByteValue(n % 256);
  }

  lemma BytesOfWord(high: bv8, low: bv8)
    ensures HighByte(Word(high, low)) == high && LowByte(Word(high, low)) == low
  {
    hide Byte;
    var n := Word(high, low);
    assert n / 256 == high as nat && n % 256 == low as nat;
    ByteOfValue(high);
    ByteOfValue(low);
  }

  // ----- Sums of bytes -----

  function PlusByte(t: bv8, b: bv8): bv8 { t + b }

  function Value(b: bv8): (n: nat)
    ensures n < 256
  {
    b as nat
  }

  function NextByte(x: bv8): bv8 { x + 1 }

  /** The sum of bytes is that of their numbers modulo 256. */
  lemma {:induction false} PlusWraps(t: bv8, b: bv8)
    ensures Value(PlusByte(t, b)) == (Value(t) + Value(b)) % 256
    decreases Value(b)
  {
    hide PlusByte, NextByte, Value;
    if b == 0 {
      PlusZero(t);
    } else {
      var c := Predecessor(b);
      PlusWraps(t, c);
      PlusNext(t, c);
      Successor(PlusByte(t, c));
      NextRemainder(Value(t) + Value(c));
    }
  }

  lemma PlusZero(t: bv8)
    ensures PlusByte(t, 0) == t && Value(0) == 0
  {}

  lemma PlusNext(t: bv8, c: bv8)
    ensures PlusByte(t, NextByte(c)) == NextByte(PlusByte(t, c))
  {}

  lemma Predecessor(b: bv8) returns (c: bv8)
    requires b != 0
    ensures NextByte(c) == b && Value(b) == Value(c) + 1
  {
    c := b - 1;
    Successor(c);
  }

  lemma Successor(x: bv8)
    ensures Value(NextByte(x)) == if Value(x) == 255 then 0 else Value(x) + 1
    ensures x == 0xFF <==> Value(x) == 255
  {
    hide Byte;
    ByteOfValue(x);
    ByteOfValue(0xFF);
    if x != 0xFF { Increment(x); }
  }

  lemma NextRemainder(n: nat)
    ensures (n + 1) % 256 == if n % 256 == 255 then 0 else n % 256 + 1
  {}

  lemma PlusTells(t: bv8, u: bv8, a: bv8, b: bv8)
    ensures PlusByte(t, a) == PlusByte(u, a) ==> t == u
    ensures PlusByte(t, a) == PlusByte(t, b) ==> a == b
  {}

  /** The sum of the numbers that bytes are. */
  function Added(s: seq<bv8>): nat { if s == [] then 0 else Added(s[..|s| - 1]) + Value(s[|s| - 1]) }

  lemma AddedRemainder(n: nat, k: nat)
    ensures (n % 256 + k) % 256 == (n + k) % 256
  {}
}
