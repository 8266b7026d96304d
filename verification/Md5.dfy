/** MD5 over input that arrives in pieces (codec.c), against the one-shot digest of RFC 1321, sections 3.1 to 3.5. */
module Md5 {
  import opened Octets
  import opened Md5Rounds
  import opened Sequences

  const W32 := 0x1_0000_0000
  const W64 := 0x1_0000_0000_0000_0000
  const INIT := State(0x67452301, 0xefcdab89, 0x98badcfe, 0x10325476)

  // ----- The digest of a message -----

  function LoadWord(b0: bv8, b1: bv8, b2: bv8, b3: bv8): bv32 {
    (b0 as bv32) | (b1 as bv32 << 8) | (b2 as bv32 << 16) | (b3 as bv32 << 24)
  }

  function StoreWord(w: bv32): seq<bv8> {
    [(w & 0xff) as bv8, ((w >> 8) & 0xff) as bv8, ((w >> 16) & 0xff) as bv8, (w >> 24) as bv8]
  }

  /** A block as sixteen words, low byte first. */
  function WordsOf(block: seq<bv8>): (x: seq<bv32>)
    requires |block| == 64
    ensures |x| == 16
  {
    seq(16, k requires 0 <= k < 16 => LoadWord(block[4 * k], block[4 * k + 1], block[4 * k + 2], block[4 * k + 3]))
  }

  function CompressBlock(s: State, block: seq<bv8>): State
    requires |block| == 64
  {
    Compress(s, WordsOf(block))
  }

  /** The state after the whole blocks of a message. */
  function Fold(s: State, m: seq<bv8>): State
    decreases |m|
  {
    if |m| < 64 then s else Fold(CompressBlock(s, m[..64]), m[64..])
  }

  /** A number below 2^64 in eight bytes, low byte first. */
  function LengthBytes(n: nat): (s: seq<bv8>)
    requires n < W64
    ensures |s| == 8
  {
    WordBytes(n % W32) + WordBytes(n / W32)
  }

  function WordBytes(n: nat): (s: seq<bv8>)
    requires n < W32
    ensures |s| == 4
  {
    [Byte(n % 256), Byte(n / 256 % 256), Byte(n / 0x1_0000 % 256), Byte(n / 0x100_0000)]
  }

  /** Section 3.1 and 3.2: a one bit, zeros up to 56 modulo 64, and the length in bits modulo 2^64. */
  function Padded(m: seq<bv8>): seq<bv8> {
    var r := |m| % 64;
    m + [0x80] + Zeros(if r < 56 then 55 - r else 119 - r) + LengthBytes(8 * |m| % W64)
  }

  function DigestOf(s: State): seq<bv8> {
    StoreWord(s.a) + StoreWord(s.b) + StoreWord(s.c) + StoreWord(s.d)
  }

  function Digest(m: seq<bv8>): seq<bv8> { DigestOf(Fold(INIT, Padded(m))) }

  // ----- Bytes and numbers, low byte first -----

  /** The number that four bytes are, low byte first. */
  function Little(s: seq<bv8>): nat
    requires |s| == 4
  {
    Number(Value(s[0]), Value(s[1]), Value(s[2]), Value(s[3]))
  }

  function Number(a: nat, b: nat, c: nat, d: nat): nat { a + 0x100 * b + 0x1_0000 * c + 0x100_0000 * d }

  lemma LittleOfBytes(n: nat)
    requires n < W32
    ensures Little(WordBytes(n)) == n
  {
    hide Byte;
    ByteValue(n % 256);
    ByteValue(n / 256 % 256);
    ByteValue(n / 0x1_0000 % 256);
    ByteValue(n / 0x100_0000);
    FromDigits(n);
  }

  lemma SameLittle(u: seq<bv8>, v: seq<bv8>)
    requires |u| == 4 && |v| == 4 && Little(u) == Little(v)
    ensures u == v
  {
    hide Number, Value;
    Digits(Value(u[0]), Value(u[1]), Value(u[2]), Value(u[3]));
    Digits(Value(v[0]), Value(v[1]), Value(v[2]), Value(v[3]));
    forall i | 0 <= i < 4 ensures u[i] == v[i] { SameValue(u[i], v[i]); }
  }

  lemma SameValue(a: bv8, b: bv8)
    ensures Value(a) == Value(b) ==> a == b
  {
    ByteOfValue(a);
    ByteOfValue(b);
  }

  lemma Digits(a: nat, b: nat, c: nat, d: nat)
    requires a < 256 && b < 256 && c < 256
    ensures var n := Number(a, b, c, d);
            a == n % 256 && b == n / 256 % 256 && c == n / 0x1_0000 % 256 && d == n / 0x100_0000
  {
    var u := c + 256 * d;
    var v := b + 256 * u;
    LastDigit(a, v);
    LastDigit(b, u);
    LastDigit(c, d);
    ThreeTimes(a + 256 * v);
  }

  lemma LastDigit(a: nat, m: nat)
    requires a < 256
    ensures (a + 256 * m) % 256 == a && (a + 256 * m) / 256 == m
  {}

  lemma ThreeTimes(n: nat)
    ensures n / 0x1_0000 == n / 256 / 256 && n / 0x100_0000 == n / 256 / 256 / 256
  {}

  lemma FromDigits(n: nat)
    ensures n == n % 256 + 0x100 * (n / 256 % 256) + 0x1_0000 * (n / 0x1_0000 % 256) + 0x100_0000 * (n / 0x100_0000)
  {
    assert n / 0x1_0000 == n / 256 / 256 && n / 0x100_0000 == n / 0x1_0000 / 256;
  }

  // ----- What section 3 of the standard says -----

  /** Section 3.3: the registers' bytes, low ones first. */
  lemma InitialBytes()
    ensures DigestOf(INIT) == [0x01, 0x23, 0x45, 0x67, 0x89, 0xab, 0xcd, 0xef, 0xfe, 0xdc, 0xba, 0x98, 0x76, 0x54, 0x32, 0x10]
  {}

  /** A word is read from and written to its four bytes, low byte first. */
  lemma WordAsBytes(b0: bv8, b1: bv8, b2: bv8, b3: bv8)
    ensures var w := LoadWord(b0, b1, b2, b3);
            && StoreWord(w) == [b0, b1, b2, b3] && w & 0xff == b0 as bv32 && (w >> 8) & 0xff == b1 as bv32
            && (w >> 16) & 0xff == b2 as bv32 && w >> 24 == b3 as bv32
  {}

  lemma WordsExactly(block: seq<bv8>, k: nat)
    requires |block| == 64 && k < 16
    ensures StoreWord(WordsOf(block)[k]) == block[4 * k..4 * k + 4]
  {
    hide LoadWord, StoreWord;
    WordAsBytes(block[4 * k], block[4 * k + 1], block[4 * k + 2], block[4 * k + 3]);
  }

  /** Sections 3.1 and 3.2: a one bit, the fewest zeros that make whole blocks, and the length in bits, low byte first. */
  lemma PaddedExactly(m: seq<bv8>)
    ensures var p := Padded(m);
            && |p| % 64 == 0 && |m| + 9 <= |p| < |m| + 73 && p[..|m|] == m && p[|m|] == 0x80
            && (forall i :: |m| < i < |p| - 8 ==> p[i] == 0)
            && Little(p[|p| - 8..|p| - 4]) + W32 * Little(p[|p| - 4..]) == 8 * |m| % W64
  {
    hide WordBytes, Little;
    var n, p := 8 * |m| % W64, Padded(m);
    LittleOfBytes(n % W32);
    LittleOfBytes(n / W32);
    assert p[|p| - 8..|p| - 4] == WordBytes(n % W32) && p[|p| - 4..] == WordBytes(n / W32);
  }

  // ----- Folding in pieces -----

  lemma {:induction false} FoldConcat(s: State, a: seq<bv8>, b: seq<bv8>)
    requires |a| % 64 == 0
    ensures Fold(s, a + b) == Fold(Fold(s, a), b)
    decreases |a|
  {
    hide CompressBlock;
    if a == [] {
      assert a + b == b;
    } else {
      assert (a + b)[..64] == a[..64] && (a + b)[64..] == a[64..] + b;
      FoldConcat(CompressBlock(s, a[..64]), a[64..], b);
    }
  }

  lemma FoldBlock(s: State, a: seq<bv8>, block: seq<bv8>)
    requires |a| % 64 == 0 && |block| == 64
    ensures Fold(s, a + block) == CompressBlock(Fold(s, a), block)
  {
    hide CompressBlock;
    FoldConcat(s, a, block);
    assert block[..64] == block;
  }

  lemma FoldTail(s: State, a: seq<bv8>, t: seq<bv8>)
    requires |a| % 64 == 0 && |t| < 64
    ensures Fold(s, a + t) == Fold(s, a)
  {
    hide CompressBlock;
    FoldConcat(s, a, t);
  }

  /** Two words hold the number of bits in n bytes, modulo 2^64. */
  ghost predicate Counts(b0: nat, b1: nat, n: nat) {
    b0 < W32 && b1 < W32 && b1 * W32 + b0 == 8 * n % W64
  }

  /** The two-word bit counter with its carry counts modulo 2^64. */
  lemma BitCount(n: nat, b0: nat, b1: nat, len: nat)
    requires Counts(b0, b1, n) && len < W32
    ensures var c0 := (b0 + 8 * len) % W32;
            var c1 := ((if c0 < b0 then (b1 + 1) % W32 else b1) + len / 0x2000_0000) % W32;
            Counts(c0, c1, n + len)
  {
    var q, r := len / 0x2000_0000, 8 * (len % 0x2000_0000);
    var carry := if b0 + r >= W32 then 1 else 0;
    var c0, high := b0 + r - carry * W32, b1 + carry + q;
    assert b0 + 8 * len == (q + carry) * W32 + c0;
    ModW32(b0 + 8 * len, q + carry, c0);
    CarryTwice(b1, carry, q);
    var over := 8 * n / W64;
    assert 8 * n == over * W64 + b1 * W32 + b0;
    assert high == high / W32 * W32 + high % W32;
    ModW64(8 * (n + len), over + high / W32, high % W32 * W32 + c0);
  }

  /** The low word of the counter tells how many bytes are buffered. */
  lemma BufferedCount(n: nat, b0: nat, b1: nat)
    requires Counts(b0, b1, n)
    ensures b0 / 8 % 64 == n % 64
  {
    var k := 8 * n / W64;
    assert 8 * n == (k * W32 + b1) * W32 + b0;
    BufferedLow(n, k * W32 + b1, b0);
  }

  lemma BufferedLow(n: nat, k: nat, b0: nat)
    requires 8 * n == k * W32 + b0
    ensures b0 / 8 % 64 == n % 64
  {
    assert n == 64 * (k * 0x80_0000) + b0 / 8;
  }

  lemma CarryTwice(b: nat, carry: nat, q: nat)
    requires b < W32 && carry <= 1
    ensures ((if carry == 1 then (b + 1) % W32 else b) + q) % W32 == (b + carry + q) % W32
  {
    if carry == 1 && b + 1 == W32 { ModW32(b + 1 + q, 1 + q / W32, q % W32); }
  }

  lemma ModW32(x: nat, q: nat, r: nat)
    requires x == q * W32 + r && r < W32
    ensures x % W32 == r
  {}

  lemma ModW64(x: nat, q: nat, r: nat)
    requires x == q * W64 + r && r < W64
    ensures x % W64 == r
  {}

  /** The bytes of a message after its whole blocks. */
  function Tail(m: seq<bv8>): seq<bv8> { m[|m| - |m| % 64..] }

  lemma EmptyFold(s: State)
    ensures Fold(s, []) == s && Tail([]) == []
  {
    hide CompressBlock;
  }

  lemma EmptyCount()
    ensures Counts(0, 0, 0)
  {}

  lemma ShortTail(s: State, m: seq<bv8>, d: seq<bv8>)
    requires |m| % 64 + |d| < 64
    ensures Fold(s, m + d) == Fold(s, m) && Tail(m + d) == Tail(m) + d && |m + d| % 64 == |m| % 64 + |d|
  {
    hide Fold;
    var a := m[..|m| - |m| % 64];
    assert m == a + Tail(m) && m + d == a + (Tail(m) + d);
    FoldTail(s, a, Tail(m));
    FoldTail(s, a, Tail(m) + d);
  }

  lemma FoldFilled(s: State, m: seq<bv8>, d: seq<bv8>)
    requires |m| % 64 + |d| == 64
    ensures Fold(s, m + d) == CompressBlock(Fold(s, m), Tail(m) + d) && |m + d| % 64 == 0 && Tail(m + d) == []
  {
    hide Fold, CompressBlock;
    var a := m[..|m| - |m| % 64];
    assert m == a + Tail(m) && m + d == a + (Tail(m) + d);
    FoldTail(s, a, Tail(m));
    FoldBlock(s, a, Tail(m) + d);
  }

  // ----- The context -----

  class Context {
    var buf: State
    var bits0: nat
    var bits1: nat
    const input: array<bv8>
    /** Everything fed in so far. */
    ghost var message: seq<bv8>

    ghost predicate Valid()
      reads this, input
    {
      Holds(message) && Counts(bits0, bits1, |message|)
    }

    constructor ()
      ensures Valid() && message == [] && fresh(input)
    {
      hide CompressBlock, Fold, Tail, Counts;
      EmptyFold(INIT);
      EmptyCount();
      buf := INIT;
      bits0, bits1 := 0, 0;
      input := new bv8[64];
      message := [];
    }

    method Transform()
      requires input.Length == 64
      modifies this`buf
      ensures buf == CompressBlock(old(buf), input[..])
    {
      hide Md5Transform, Compress;
      var x := WordsOf(input[..]);
      TransformIsCompress(buf, x);
      buf := Md5Transform(buf, x);
    }

    method CountBits(len: nat)
      requires len < W32 && Counts(bits0, bits1, |message|)
      modifies this`bits0, this`bits1
      ensures Counts(bits0, bits1, |message| + len)
    {
      BitCount(|message|, bits0, bits1, len);
      var t := bits0;
      bits0 := (t + 8 * len) % W32;
      if bits0 < t { bits1 := (bits1 + 1) % W32; }
      bits1 := (bits1 + len / 0x2000_0000) % W32;
    }

    /** Feeds in more of the message. */
    method Update(data: array<bv8>, len: nat)
      requires Valid() && len <= data.Length && len < W32 && data != input
      modifies this, input
      ensures Valid() && message == old(message) + data[..len]
    {
      hide Holds, Counts;
      ghost var m := message;
      var t := bits0 / 8 % 64;
      BufferedCount(|m|, bits0, bits1);
      CountBits(len);
      message := m + data[..len];
      if t == 0 {
        assert m + data[..0] == m;
        FoldBlocks(data, 0, len, m);
      } else if len < 64 - t {
        KeepTail(t, data, 0, len, m);
      } else {
        FillBlock(t, data, 0, 64 - t, m);
        FoldBlocks(data, 64 - t, len, m);
      }
    }

    /** Folds whole blocks of the data from a place on and buffers the rest. */
    method FoldBlocks(data: array<bv8>, from: nat, len: nat, ghost m: seq<bv8>)
      requires from <= len <= data.Length && data != input && (|m| + from) % 64 == 0 && Holds(m + data[..from])
      modifies this`buf, input
      ensures Holds(m + data[..len])
    {
      hide Holds;
      var pos := from;
      while len - pos >= 64
        invariant from <= pos <= len && (|m| + pos) % 64 == 0 && Holds(m + data[..pos])
      {
        assert m + data[..pos] + data[pos..pos + 64] == m + data[..pos + 64];
        FillBlock(0, data, pos, 64, m + data[..pos]);
        pos := pos + 64;
      }
      assert m + data[..pos] + data[pos..len] == m + data[..len];
      KeepTail(0, data, pos, len - pos, m + data[..pos]);
    }

    /** The state and the buffered bytes are those of a message. */
    ghost predicate Holds(m: seq<bv8>)
      reads this`buf, input
    {
      input.Length == 64 && buf == Fold(INIT, m) && input[..|m| % 64] == Tail(m)
    }

    /** Fills the buffer and folds it into the state. */
    method FillBlock(at: nat, data: array<bv8>, from: nat, n: nat, ghost m: seq<bv8>)
      requires Holds(m) && at == |m| % 64 && at + n == 64 && from + n <= data.Length && data != input
      modifies this`buf, input
      ensures Holds(m + data[from..from + n]) && (|m| + n) % 64 == 0
    {
      hide CompressBlock, Fold, Tail;
      CopyIn(at, data, from, n);
      FoldFilled(INIT, m, data[from..from + n]);
      assert input[..] == Tail(m) + data[from..from + n];
      Transform();
    }

    /** Buffers what does not fill a block. */
    method KeepTail(at: nat, data: array<bv8>, from: nat, n: nat, ghost m: seq<bv8>)
      requires Holds(m) && at == |m| % 64 && at + n < 64 && from + n <= data.Length && data != input
      modifies input
      ensures Holds(m + data[from..from + n])
    {
      hide CompressBlock, Fold, Tail;
      CopyIn(at, data, from, n);
      ShortTail(INIT, m, data[from..from + n]);
      assert input[..at + n] == Tail(m) + data[from..from + n];
    }

    method CopyIn(at: nat, data: array<bv8>, from: nat, n: nat)
      requires input.Length == 64 && at + n <= 64 && from + n <= data.Length && data != input
      modifies input
      ensures input[..] == old(input[..at]) + data[from..from + n] + old(input[at + n..])
    {
      forall i | 0 <= i < n { input[at + i] := data[from + i]; }
    }

    method SetZero(at: nat, n: nat)
      requires at + n <= input.Length
      modifies input
      ensures input[..] == old(input[..at]) + Zeros(n) + old(input[at + n..])
    {
      forall i | at <= i < at + n { input[i] := 0; }
    }

    /** Appends the counter, as two words with the low byte first. */
    method PutLength(ghost n: nat)
      requires input.Length == 64 && Counts(bits0, bits1, n)
      modifies input
      ensures input[..] == old(input[..56]) + LengthBytes(8 * n % W64)
    {
      hide Byte;
      LengthWords(n, bits0, bits1);
      var low, high := WordBytes(bits0), WordBytes(bits1);
      forall i | 0 <= i < 8 { input[56 + i] := if i < 4 then low[i] else high[i - 4]; }
    }

    /** Pads, appends the length and gives the digest of everything fed in. */
    method Final() returns (digest: seq<bv8>)
      requires Valid()
      modifies this`buf, input
      ensures digest == Digest(message)
    {
      hide Holds, Counts, Fold, Padded, DigestOf;
      var count := bits0 / 8 % 64;
      BufferedCount(|message|, bits0, bits1);
      if 64 - 1 - count < 8 { PadTwoBlocks(count); } else { PadOneBlock(count); }
      digest := DigestOf(buf);
    }

    method PadOneBlock(count: nat)
      requires Valid() && count == |message| % 64 < 56
      modifies this`buf, input
      ensures buf == Fold(INIT, Padded(message))
    {
      hide CompressBlock, Fold, Counts, LengthBytes, Tail;
      ghost var m := message;
      ghost var pad := [0x80] + Zeros(55 - count) + LengthBytes(8 * |m| % W64);
      input[count] := 0x80;
      assert input[..count + 1] == Tail(m) + [0x80];
      SetZero(count + 1, 64 - 1 - count - 8);
      PutLength(|m|);
      assert input[..] == Tail(m) + pad;
      FoldFilled(INIT, m, pad);
      assert Padded(m) == m + pad;
      Transform();
    }

    /** Two lots of padding. */
    method PadTwoBlocks(count: nat)
      requires Valid() && 56 <= count == |message| % 64
      modifies this`buf, input
      ensures buf == Fold(INIT, Padded(message))
    {
      hide CompressBlock, Fold, Counts, LengthBytes, Tail;
      ghost var m, pad := message, [0x80] + Zeros(63 - count);
      input[count] := 0x80;
      assert input[..count + 1] == Tail(m) + [0x80];
      SetZero(count + 1, 64 - 1 - count);
      FoldFilled(INIT, m, pad);
      assert input[..] == Tail(m) + pad;
      Transform();
      SetZero(0, 56);
      PutLength(|m|);
      assert input[..] == Zeros(56) + LengthBytes(8 * |m| % W64);
      FoldBlock(INIT, m + pad, input[..]);
      PadTwice(m);
      Transform();
    }
  }

  lemma LengthWords(n: nat, b0: nat, b1: nat)
    requires Counts(b0, b1, n)
    ensures LengthBytes(8 * n % W64) == WordBytes(b0) + WordBytes(b1)
  {
    hide WordBytes;
    assert 8 * n % W64 % W32 == b0 && 8 * n % W64 / W32 == b1;
  }

  lemma PadTwice(m: seq<bv8>)
    requires |m| % 64 >= 56
    ensures Padded(m) == m + ([0x80] + Zeros(63 - |m| % 64)) + (Zeros(56) + LengthBytes(8 * |m| % W64))
  {
    hide LengthBytes;
  }

  /** The digest of some data in one go. */
  method GetMD5Binary(data: array<bv8>, length: nat) returns (digest: seq<bv8>)
    requires length <= data.Length && length < W32
    ensures digest == Digest(data[..length])
  {
    hide Fold, Tail, Counts, Padded, DigestOf;
    var ctx := new Context();
    ctx.Update(data, length);
    assert ctx.message == data[..length];
    digest := ctx.Final();
  }

  /** However the same message was cut into pieces, the contexts are alike. */
  lemma ContextsAgree(c: Context, d: Context)
    requires c.Valid() && d.Valid() && c.message == d.message
    ensures c.buf == d.buf && c.bits0 == d.bits0 && c.bits1 == d.bits1
    ensures c.input[..|c.message| % 64] == d.input[..|c.message| % 64]
  {
    hide Fold, Tail;
    CountsAreUnique(|c.message|, c.bits0, c.bits1, d.bits0, d.bits1);
  }

  lemma CountsAreUnique(n: nat, b0: nat, b1: nat, c0: nat, c1: nat)
    requires Counts(b0, b1, n) && Counts(c0, c1, n)
    ensures b0 == c0 && b1 == c1
  {}
}
