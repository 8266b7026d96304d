/** Bit fields across two bytes of a buffer (mbutils.c). */
module BitFields {

  function Joined(low: bv8, high: bv8): bv16 { (low as bv16) | (high as bv16 << 8) }

  /** The mask of n bits, in place from bit `pre` on. */
  function Mask(n: bv16, pre: bv16): bv16
    requires n <= 8 && pre < 8
  {
    ((1 << n) - 1) << pre
  }

  function Put(w: bv16, v: bv16, n: bv16, pre: bv16): bv16
    requires n <= 8 && pre < 8
  {
    (w & !Mask(n, pre)) | (v << pre)
  }

  function Get(w: bv16, n: bv16, pre: bv16): bv16
    requires n <= 8 && pre < 8
  {
    (w >> pre) & Mask(n, 0)
  }

  lemma GetIsSmall(w: bv16, n: bv16, pre: bv16)
    requires n <= 8 && pre < 8
    ensures Get(w, n, pre) <= Mask(n, 0)
  {}

  lemma GetOfPut(w: bv16, v: bv16, n: bv16, pre: bv16)
    requires n <= 8 && pre < 8 && v <= Mask(n, 0)
    ensures Get(Put(w, v, n, pre), n, pre) == v
  {}

  lemma OthersOfPut(w: bv16, v: bv16, n: bv16, pre: bv16)
    requires n <= 8 && pre < 8 && v <= Mask(n, 0)
    ensures Put(w, v, n, pre) & !Mask(n, pre) == w & !Mask(n, pre)
  {}

  /** A field put is got again, with every other bit as before, exactly if the value has no more bits than the field. */
  lemma PutGet(w: bv16, v: bv16, n: bv16, pre: bv16)
    requires n <= 8 && pre < 8
    ensures Get(Put(w, v, n, pre), n, pre) == v && Put(w, v, n, pre) & !Mask(n, pre) == w & !Mask(n, pre)
            <==> v <= Mask(n, 0)
  {
    hide Put, Get, Mask;
    GetIsSmall(Put(w, v, n, pre), n, pre);
    if v <= Mask(n, 0) {
      GetOfPut(w, v, n, pre);
      OthersOfPut(w, v, n, pre);
    }
  }

  /** Bit k of a field is bit pre + k of the word, and there are n of them. */
  lemma BitOfField(w: bv16, n: bv16, pre: bv16, k: bv16)
    requires n <= 8 && pre < 8 && k < 16
    ensures BitOf(Get(w, n, pre), k) == if k < n then BitOf(w, pre + k) else 0
  {
    hide BitOf, Mask;
    BitOfBoth(w >> pre, Mask(n, 0), k);
    BitOfMask(n, k);
    BitOfMoved(w, pre, k);
  }

  function BitOf(w: bv16, k: bv16): bv16
    requires k < 24
  {
    if k < 16 then (w >> k) & 1 else 0
  }

  lemma BitOfBoth(v: bv16, m: bv16, k: bv16)
    requires k < 16
    ensures BitOf(v & m, k) == BitOf(v, k) & BitOf(m, k) && BitOf(v, k) & 1 == BitOf(v, k) && BitOf(v, k) & 0 == 0
  {}

  lemma BitOfMask(n: bv16, k: bv16)
    requires n <= 8 && k < 16
    ensures BitOf(Mask(n, 0), k) == if k < n then 1 else 0
  {}

  lemma BitOfMoved(w: bv16, pre: bv16, k: bv16)
    requires pre < 8 && k < 16
    ensures BitOf(w >> pre, k) == BitOf(w, pre + k)
  {}

  /** The low byte of a word is the first. */
  lemma JoinedBytes(low: bv8, high: bv8)
    ensures Joined(low, high) & 0xFF == low as bv16 && Joined(low, high) >> 8 == high as bv16
    ensures FirstByte(Joined(low, high)) == low && SecondByte(Joined(low, high)) == high
  {}

  /** How many bits precede a bit in its byte. */
  function PreBits(offset: nat): bv16 { (offset % 8) as bv16 }

  lemma PreBitsSmall(offset: nat)
    ensures PreBits(offset) < 8
  {
    var k := offset % 8;
    if k == 0 {} else if k == 1 {} else if k == 2 {} else if k == 3 {} else if k == 4 {} else if k == 5 {} else if k == 6 {} else {}
  }

  function FirstByte(w: bv16): bv8 { (w & 0xFF) as bv8 }

  function SecondByte(w: bv16): bv8 { (w >> 8) as bv8 }

  lemma BytesJoined(w: bv16)
    ensures Joined(FirstByte(w), SecondByte(w)) == w
  {}

  ghost function WordAt(buf: array<bv8>, offset: nat): bv16
    requires offset / 8 + 1 < buf.Length
    reads buf
  {
    Joined(buf[offset / 8], buf[offset / 8 + 1])
  }

  /** Stores a field; its word holds it as put, and no other byte changes. */
  method SetBits(buf: array<bv8>, offset: nat, n: bv16, value: bv8)
    requires offset / 8 + 1 < buf.Length && n <= 8
    modifies buf
    ensures PreBits(offset) < 8
    ensures WordAt(buf, offset) == Put(old(WordAt(buf, offset)), value as bv16, n, PreBits(offset))
    ensures forall i :: 0 <= i < buf.Length && i != offset / 8 && i != offset / 8 + 1 ==> buf[i] == old(buf[i])
  {
    hide Put, Joined, FirstByte, SecondByte, PreBits;
    PreBitsSmall(offset);
    var b := offset / 8;
    var w := Put(Joined(buf[b], buf[b + 1]), value as bv16, n, PreBits(offset));
    BytesJoined(w);
    buf[b] := FirstByte(w);
    buf[b + 1] := SecondByte(w);
  }

  method GetBits(buf: array<bv8>, offset: nat, n: bv16) returns (value: bv16)
    requires offset / 8 + 1 < buf.Length && n <= 8
    ensures PreBits(offset) < 8 && value == Get(WordAt(buf, offset), n, PreBits(offset)) && value <= Mask(n, 0)
  {
    hide Get, Joined, PreBits;
    PreBitsSmall(offset);
    var b := offset / 8;
    value := Get(Joined(buf[b], buf[b + 1]), n, PreBits(offset));
    GetIsSmall(Joined(buf[b], buf[b + 1]), n, PreBits(offset));
  }
}
