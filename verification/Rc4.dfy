/** RC4 twice: in one go (CodecRC4 of codec.c) and in pieces with a context (arc4.c). Tables hold byte values. */
module Rc4 {
  import opened Octets

  /** The two indices and the table. */
  datatype State = State(x: nat, y: nat, m: seq<bv8>)

  /** A table that holds every byte value once. */
  predicate Permutation(m: seq<bv8>) {
    |m| == 256 && (forall i, j :: 0 <= i < j < 256 ==> m[i] != m[j])
  }

  predicate IsState(s: State) { s.x < 256 && s.y < 256 && Permutation(s.m) }

  function Swapped(m: seq<bv8>, i: nat, j: nat): seq<bv8>
    requires i < |m| && j < |m|
  {
    m[i := m[j]][j := m[i]]
  }

  lemma SwapKeepsPermutation(m: seq<bv8>, i: nat, j: nat)
    requires Permutation(m) && i < 256 && j < 256
    ensures Permutation(Swapped(m, i, j))
  {}

  /** Sums modulo 256 of indices and bytes. */
  function Plus(i: nat, b: bv8): (r: nat)
    ensures r < 256
  {
    (i + b as nat) % 256
  }

  function Both(a: bv8, b: bv8): (r: nat)
    ensures r < 256
  {
    (a as nat + b as nat) % 256
  }

  function MixKey(j: nat, a: bv8, k: bv8): (r: nat)
    ensures r < 256
  {
    (j + a as nat + k as nat) % 256
  }

  lemma BothCommutes(a: bv8, b: bv8)
    ensures Both(a, b) == Both(b, a)
  {}

  // ----- The key schedule -----

  function Identity(): (m: seq<bv8>)
    ensures |m| == 256
  {
    seq(256, i requires 0 <= i < 256 => Byte(i))
  }

  lemma IdentityIsPermutation()
    ensures Permutation(Identity())
  {
    hide Byte;
    forall i, j | 0 <= i < j < 256 ensures Identity()[i] != Identity()[j] {
      ByteValue(i);
      ByteValue(j);
    }
  }

  /** The table and the index j after n swaps. */
  function Scheduled(key: seq<bv8>, n: nat): (r: (seq<bv8>, nat))
    requires key != [] && n <= 256
    ensures Permutation(r.0) && r.1 < 256
  {
    if n == 0 then
      IdentityIsPermutation();
      (Identity(), 0)
    else
      var (m, j) := Scheduled(key, n - 1);
      var k := MixKey(j, m[n - 1], key[(n - 1) % |key|]);
      SwapKeepsPermutation(m, n - 1, k);
      (Swapped(m, n - 1, k), k)
  }

  /** Two places of a table changed over. */
  predicate Exchanged(m: seq<bv8>, n: seq<bv8>, i: nat, j: nat) {
    && i < |m| == |n| && j < |m| && n[i] == m[j] && n[j] == m[i]
    && forall k :: 0 <= k < |m| && k != i && k != j ==> n[k] == m[k]
  }

  lemma SwappedExchanges(m: seq<bv8>, i: nat, j: nat)
    requires i < |m| && j < |m|
    ensures Exchanged(m, Swapped(m, i, j), i, j)
  {}

  /** The schedule starts from the bytes in order. */
  lemma ScheduleBegins(key: seq<bv8>)
    requires key != []
    ensures Scheduled(key, 0).1 == 0 && forall i :: 0 <= i < 256 ==> Scheduled(key, 0).0[i] as nat == i
  {
    hide Permutation, Byte;
    forall i | 0 <= i < 256 ensures Scheduled(key, 0).0[i] as nat == i { ByteValue(i); }
  }

  /** At step n its index moves on by the n-th entry and key byte, and the two entries change over. */
  lemma ScheduleSteps(key: seq<bv8>, n: nat)
    requires key != [] && n < 256
    ensures |Scheduled(key, n).0| == 256
    ensures var (m, j) := Scheduled(key, n);
            var (m', j') := Scheduled(key, n + 1);
            j' == (j + m[n] as nat + key[n % |key|] as nat) % 256 && Exchanged(m, m', n, j')
  {
    hide Swapped, Exchanged;
    var (m, j) := Scheduled(key, n);
    ScheduleNext(key, n, m, j);
    SwappedExchanges(m, n, MixKey(j, m[n], key[n % |key|]));
  }

  lemma MixKeyTells(j: nat, a: bv8, k: bv8, l: bv8)
    requires MixKey(j, a, k) == MixKey(j, a, l)
    ensures k == l
  {
    hide Byte;
    SameRemainder(j + a as nat, k as nat, l as nat);
    ByteOfValue(k);
    ByteOfValue(l);
  }

  lemma SameRemainder(n: nat, k: nat, l: nat)
    requires (n + k) % 256 == (n + l) % 256 && k < 256 && l < 256
    ensures k == l
  {}

  lemma OneKeyByte(key: seq<bv8>, other: seq<bv8>, n: nat)
    requires n < |key| == |other| && n < 256 && Scheduled(key, n) == Scheduled(other, n)
    requires Scheduled(key, n + 1).1 == Scheduled(other, n + 1).1
    ensures key[n] == other[n] && Scheduled(key, n + 1) == Scheduled(other, n + 1)
  {
    hide MixKey, Permutation, Swapped, Scheduled;
    var (m, j) := Scheduled(key, n);
    ScheduleNext(key, n, m, j);
    ScheduleNext(other, n, m, j);
    assert n % |key| == n;
    MixKeyTells(j, m[n], key[n], other[n]);
  }

  /** The indices the schedule takes tell the key: every byte of it matters. */
  lemma {:induction false} IndicesTellTheKey(key: seq<bv8>, other: seq<bv8>, n: nat)
    requires |key| == |other| >= 1 && n <= |key| <= 256
    requires forall i :: 0 <= i <= n ==> Scheduled(key, i).1 == Scheduled(other, i).1
    ensures key[..n] == other[..n] && Scheduled(key, n) == Scheduled(other, n)
  {
    hide Scheduled;
    if n == 0 {
      ScheduleStarts(key);
      ScheduleStarts(other);
    } else {
      IndicesTellTheKey(key, other, n - 1);
      OneKeyByte(key, other, n - 1);
      OneMore(key, n - 1);
      OneMore(other, n - 1);
    }
  }

  lemma OneMore<T>(s: seq<T>, n: nat)
    requires n < |s|
    ensures s[..n + 1] == s[..n] + [s[n]]
  {}

  function KeySetup(key: seq<bv8>): (s: State)
    requires key != []
    ensures IsState(s)
  {
    State(0, 0, Scheduled(key, 256).0)
  }

  // ----- The stream -----

  function Next(s: State): (n: State)
    requires IsState(s)
    ensures IsState(n)
  {
    var x := (s.x + 1) % 256;
    var y := Plus(s.y, s.m[x]);
    SwapKeepsPermutation(s.m, x, y);
    State(x, y, Swapped(s.m, x, y))
  }

  /** The byte a state puts out. */
  function Output(s: State): bv8
    requires IsState(s)
  {
    s.m[Both(s.m[s.x], s.m[s.y])]
  }

  function Advance(s: State, n: nat): (r: State)
    requires IsState(s)
    ensures IsState(r)
  {
    if n == 0 then s else Next(Advance(s, n - 1))
  }

  function Xor(a: bv8, b: bv8): bv8 { a ^ b }

  lemma XorTwice(a: bv8, b: bv8)
    ensures Xor(Xor(a, b), b) == a
  {}

  /** One step of the stream: the indices move, two entries change over, and the entry at their sum is put out. */
  lemma StreamSteps(s: State)
    requires IsState(s)
    ensures |s.m| == 256
    ensures var n := Next(s);
            && n.x == (s.x + 1) % 256 && n.y == (s.y + s.m[n.x] as nat) % 256 && Exchanged(s.m, n.m, n.x, n.y)
            && Output(n) == n.m[(n.m[n.x] as nat + n.m[n.y] as nat) % 256]
  {
    hide Swapped, Exchanged;
    var x := (s.x + 1) % 256;
    SwappedExchanges(s.m, x, Plus(s.y, s.m[x]));
  }

  /** The bias of Mantin and Shamir: if the third entry is 0 and the second not 2, the second byte of a text stays as it is. */
  lemma SecondByteStays(m: seq<bv8>, t: seq<bv8>)
    requires Permutation(m) && m[2] == 0 && m[1] as nat != 2 && |t| >= 2
    ensures Enciphered(State(0, 0, m), t)[1] == t[1]
  {
    hide *;
    var s0 := State(0, 0, m);
    assert IsState(s0) && Advance(s0, 0) == s0 by { StateOf(m); }
    AdvanceNext(s0, 0);
    AdvanceNext(s0, 1);
    AfterOne(m);
    AfterTwo(Next(s0));
    EncipheredAt(s0, t, 1);
  }

  lemma EncipheredAt(s: State, t: seq<bv8>, i: nat)
    requires IsState(s) && i < |t|
    ensures Enciphered(s, t)[i] == t[i] ^ Mask(s, i)
  {
    hide Mask, Permutation;
  }

  lemma StateOf(m: seq<bv8>)
    requires Permutation(m)
    ensures IsState(State(0, 0, m)) && Advance(State(0, 0, m), 0) == State(0, 0, m)
  {}

  lemma AdvanceNext(s: State, i: nat)
    requires IsState(s)
    ensures Advance(s, i + 1) == Next(Advance(s, i)) && Mask(s, i) == Output(Advance(s, i + 1))
  {
    hide Next, Output, Permutation;
  }

  lemma AfterOne(m: seq<bv8>)
    requires IsState(State(0, 0, m)) && m[2] == 0 && m[1] as nat != 2
    ensures var s := Next(State(0, 0, m)); s.x == 1 && s.m[2] == 0 && s.m[s.y] as nat == s.y
  {
    hide Permutation, Next, Output;
    StreamSteps(State(0, 0, m));
    IndexOfByte(m[1]);
    var s := Next(State(0, 0, m));
    assert s.y == m[1] as nat && s.m[s.y] == m[1];
  }

  lemma IndexOfByte(b: bv8)
    ensures (0 + b as nat) % 256 == b as nat < 256
  {}

  lemma AfterTwo(s: State)
    requires IsState(s) && s.x == 1 && s.m[2] == 0 && s.m[s.y] as nat == s.y
    ensures Output(Next(s)) == 0
  {
    hide Permutation, Next, Output;
    StreamSteps(s);
  }

  function Mask(s: State, i: nat): bv8
    requires IsState(s)
  {
    Output(Advance(s, i + 1))
  }

  function Enciphered(s: State, t: seq<bv8>): (r: seq<bv8>)
    requires IsState(s)
    ensures |r| == |t|
  {
    seq(|t|, i requires 0 <= i < |t| => Xor(t[i], Mask(s, i)))
  }

  /** Applied twice from the same state the cipher gives the text back. */
  lemma CryptTwice(s: State, t: seq<bv8>)
    requires IsState(s)
    ensures Enciphered(s, Enciphered(s, t)) == t
  {
    hide Xor, Mask, IsState;
    forall i | 0 <= i < |t| ensures Enciphered(s, Enciphered(s, t))[i] == t[i] { XorTwice(t[i], Mask(s, i)); }
  }

  lemma {:induction false} AdvanceTwice(s: State, n: nat, k: nat)
    requires IsState(s)
    ensures Advance(Advance(s, n), k) == Advance(s, n + k)
  {
    hide Next, IsState;
    if k > 0 { AdvanceTwice(s, n, k - 1); }
  }

  /** A text enciphered in two pieces, the second from where the first left off, is enciphered as the whole. */
  lemma CryptInPieces(s: State, t: seq<bv8>, n: nat)
    requires IsState(s) && n <= |t|
    ensures Enciphered(s, t)[..n] == Enciphered(s, t[..n])
    ensures Enciphered(s, t)[n..] == Enciphered(Advance(s, n), t[n..])
  {
    hide Xor, Mask, Advance, IsState;
    forall i | 0 <= i < |t| - n ensures Mask(Advance(s, n), i) == Mask(s, n + i) { MaskLater(s, n, i); }
  }

  lemma EncipheredNext(s: State, t: seq<bv8>, i: nat)
    requires IsState(s) && i < |t|
    ensures Enciphered(s, t[..i + 1]) == Enciphered(s, t[..i]) + [Xor(t[i], Mask(s, i))]
  {
    hide Xor, Mask, IsState;
  }

  lemma MaskLater(s: State, n: nat, i: nat)
    requires IsState(s)
    ensures Mask(Advance(s, n), i) == Mask(s, n + i)
  {
    hide Next, Output, Advance, Byte, IsState;
    AdvanceTwice(s, n, i + 1);
  }

  method FillIdentity(m: array<bv8>)
    requires m.Length == 256
    modifies m
    ensures m[..] == Identity()
  {
    var i := 0;
    while i < 256
      invariant 0 <= i <= 256 && forall k :: 0 <= k < i ==> m[k] == Byte(k)
    {
      m[i] := Byte(i);
      i := i + 1;
    }
  }

  lemma ScheduleNext(key: seq<bv8>, n: nat, m: seq<bv8>, j: nat)
    requires key != [] && n < 256 && Scheduled(key, n) == (m, j)
    ensures |m| == 256
    ensures var k := MixKey(j, m[n], key[n % |key|]);
            Scheduled(key, n + 1) == (Swapped(m, n, k), k)
  {
    hide Swapped, MixKey;
  }

  lemma StreamNext(s: State, n: nat, c: State)
    requires IsState(s) && Advance(s, n) == c
    ensures |c.m| == 256 && c.x < 256 && c.y < 256
    ensures var x := (c.x + 1) % 256;
            var y := Plus(c.y, c.m[x]);
            && Advance(s, n + 1) == State(x, y, Swapped(c.m, x, y))
            && Mask(s, n) == Swapped(c.m, x, y)[Both(c.m[x], c.m[y])]
  {
    var d := Advance(s, n + 1);
    assert d == Next(c);
    assert d.m[d.x] == c.m[d.y] && d.m[d.y] == c.m[d.x];
  }

  // ----- codec.c -----

  method CodecRC4(key: array<bv8>, keylen: nat, textin: array<bv8>, textlen: nat, textout: array<bv8>)
    requires 0 < keylen <= key.Length && textlen <= textin.Length && textlen <= textout.Length
    modifies textout
    ensures textout[..textlen] == Enciphered(KeySetup(old(key[..keylen])), old(textin[..textlen]))
    ensures textout[textlen..] == old(textout[textlen..])
  {
    hide IsState, Permutation;
    var rc4 := new bv8[256];
    CodecSchedule(rc4, key, keylen);
    CodecStream(rc4, KeySetup(key[..keylen]), textin, textlen, textout);
  }

  method CodecSchedule(rc4: array<bv8>, key: array<bv8>, keylen: nat)
    requires rc4.Length == 256 && 0 < keylen <= key.Length && key != rc4
    modifies rc4
    ensures rc4[..] == KeySetup(old(key[..keylen])).m
  {
    hide Permutation, Scheduled, Swapped, MixKey;
    ghost var k := key[..keylen];
    FillIdentity(rc4);
    ScheduleStarts(k);
    var j, i := 0, 0;
    while i < 256
      invariant 0 <= i <= 256 && (rc4[..], j) == Scheduled(k, i)
    {
      ScheduleNext(k, i, rc4[..], j);
      assert k[i % |k|] == key[i % keylen];
      var t := rc4[i];
      j := MixKey(j, t, key[i % keylen]);
      ghost var m := rc4[..];
      rc4[i] := rc4[j];
      rc4[j] := t;
      SwapInPlace(m, rc4, i, j);
      i := i + 1;
    }
  }

  lemma SwapInPlace(m: seq<bv8>, a: array<bv8>, i: nat, j: nat)
    requires |m| == a.Length && i < |m| && j < |m| && a[..] == m[i := m[j]][j := m[i]]
    ensures a[..] == Swapped(m, i, j)
  {}

  method CodecStream(rc4: array<bv8>, ghost s: State, textin: array<bv8>, textlen: nat, textout: array<bv8>)
    requires rc4.Length == 256 && IsState(s) && s.x == 0 && s.y == 0 && rc4[..] == s.m
    requires textlen <= textin.Length && textlen <= textout.Length && rc4 != textin && rc4 != textout
    modifies rc4, textout
    ensures textout[..textlen] == Enciphered(s, old(textin[..textlen]))
    ensures textout[textlen..] == old(textout[textlen..])
  {
    hide Xor, IsState, Permutation, Advance, Next, Output, Byte, Mask, Swapped, Enciphered, Plus, Both;
    ghost var text := textin[..textlen];
    StreamStarts(s);
    var a: nat, b: nat, i := 0, 0, 0;
    assert textout[..0] == text[..0];
    while i < textlen
      invariant 0 <= i <= textlen && State(a, b, rc4[..]) == Advance(s, i)
      invariant textout[..i] == Enciphered(s, text[..i])
      invariant forall n :: i <= n < textlen ==> textin[n] == text[n]
      invariant textout[textlen..] == old(textout[textlen..])
    {
      StreamNext(s, i, State(a, b, rc4[..]));
      EncipheredNext(s, text, i);
      a := (a + 1) % 256;
      var t := rc4[a];
      b := Plus(b, t);
      ghost var m := rc4[..];
      rc4[a] := rc4[b];
      rc4[b] := t;
      SwapInPlace(m, rc4, a, b);
      SwapKeepsSum(m, a, b);
      BothCommutes(m[a], m[b]);
      var mask := rc4[Both(rc4[a], rc4[b])];
      textout[i] := Xor(textin[i], mask);
      i := i + 1;
    }
    assert text[..textlen] == text;
  }

  lemma SwapKeepsSum(m: seq<bv8>, i: nat, j: nat)
    requires i < |m| && j < |m|
    ensures |Swapped(m, i, j)| == |m| && Swapped(m, i, j)[i] == m[j] && Swapped(m, i, j)[j] == m[i]
  {}

  lemma ScheduleStarts(key: seq<bv8>)
    requires key != []
    ensures Scheduled(key, 0) == (Identity(), 0) && KeySetup(key).m == Scheduled(key, 256).0
  {}

  lemma StreamStarts(s: State)
    requires IsState(s)
    ensures Advance(s, 0) == s && Enciphered(s, []) == []
  {}

  // ----- arc4.c -----

  class Arc4 {
    var x: nat
    var y: nat
    const m: array<bv8>

    ghost predicate Valid()
      reads this, m
    {
      IsState(Now())
    }

    ghost function Now(): State
      reads this, m
    {
      State(x, y, m[..])
    }

    constructor ()
      ensures fresh(m) && m.Length == 256
    {
      x, y := 0, 0;
      m := new bv8[256];
    }

    method Setup(key: array<bv8>, keylen: nat)
      requires m.Length == 256 && 0 < keylen <= key.Length && key != m
      modifies this, m
      ensures Valid() && Now() == KeySetup(old(key[..keylen]))
    {
      hide Permutation, Scheduled, Swapped, MixKey;
      ghost var kk := key[..keylen];
      x, y := 0, 0;
      FillIdentity(m);
      ScheduleStarts(kk);
      var j, k, i := 0, 0, 0;
      while i < 256
        modifies m
        invariant 0 <= i <= 256 && (m[..], j) == Scheduled(kk, i)
        invariant 0 <= k <= keylen && (k < keylen ==> k == i % keylen) && (k == keylen ==> i % keylen == 0)
      {
        ScheduleNext(kk, i, m[..], j);
        if k >= keylen { k := 0; }
        assert kk[i % |kk|] == key[k];
        var a := m[i];
        j := MixKey(j, a, key[k]);
        ghost var was := m[..];
        m[i] := m[j];
        m[j] := a;
        SwapInPlace(was, m, i, j);
        NextIndex(i, keylen);
        i, k := i + 1, k + 1;
      }
    }

    /** Enciphers or deciphers in place, and goes on from there at the next call. */
    method Crypt(buf: array<bv8>, buflen: nat)
      requires Valid() && buflen <= buf.Length && buf != m
      modifies this, m, buf
      ensures Valid() && Now() == Advance(old(Now()), buflen)
      ensures buf[..buflen] == Enciphered(old(Now()), old(buf[..buflen])) && buf[buflen..] == old(buf[buflen..])
    {
      hide Xor, IsState, Permutation, Advance, Next, Output, Byte, Mask, Swapped, Enciphered, Plus, Both;
      ghost var s, text := Now(), buf[..buflen];
      StreamStarts(s);
      var cx: nat, cy: nat, i := x, y, 0;
      assert buf[..0] == text[..0];
      while i < buflen
        modifies m, buf
        invariant 0 <= i <= buflen && State(cx, cy, m[..]) == Advance(s, i)
        invariant buf[..i] == Enciphered(s, text[..i])
        invariant forall n :: i <= n < buflen ==> buf[n] == text[n]
        invariant buf[buflen..] == old(buf[buflen..])
      {
        StreamNext(s, i, State(cx, cy, m[..]));
        EncipheredNext(s, text, i);
        ghost var was := m[..];
        cx := (cx + 1) % 256;
        var a := m[cx];
        cy := Plus(cy, a);
        var b := m[cy];
        m[cx] := b;
        m[cy] := a;
        SwapInPlace(was, m, cx, cy);
        buf[i] := Xor(buf[i], m[Both(a, b)]);
        i := i + 1;
      }
      assert text[..buflen] == text;
      x, y := cx, cy;
    }
  }

  lemma NextIndex(i: nat, n: nat)
    requires n > 0
    ensures (i + 1) % n == if i % n + 1 == n then 0 else i % n + 1
  {
    var q, r := i / n, i % n;
    if r + 1 == n {
      assert i + 1 == (q + 1) * n;
      Remainder(i + 1, n, q + 1, 0);
    } else {
      Remainder(i + 1, n, q, r + 1);
    }
  }

  lemma Remainder(x: nat, n: nat, q: nat, r: nat)
    requires n > 0 && x == q * n + r && r < n
    ensures x % n == r
  {
    var p := x / n;
    assert x == p * n + x % n;
    if p < q {
      Product(q - p, n);
    } else if p > q {
      Product(p - q, n);
    }
  }

  lemma Product(a: nat, n: nat)
    requires a >= 1
    ensures a * n >= n
  {}
}
