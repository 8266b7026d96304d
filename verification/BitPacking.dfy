/** Eight booleans to a byte, first in the lowest bit, as Modbus sends coils (modbus.cpp, modbus-data.cpp). */
module BitPacking {

  function Weight(j: nat): bv8
    requires j < 8
  {
    if j == 0 then 1 else if j == 1 then 2 else if j == 2 then 4 else if j == 3 then 8
    else if j == 4 then 16 else if j == 5 then 32 else if j == 6 then 64 else 128
  }

  function BitOf(b: bv8, j: nat): bool
    requires j < 8
  {
    b & Weight(j) != 0
  }

  function WithBit(b: bv8, j: nat): bv8
    requires j < 8
  {
    b | Weight(j)
  }

  function PackByte(bits: seq<bool>): bv8
    requires |bits| <= 8
  {
    if bits == [] then 0
    else
      var front := PackByte(bits[..|bits| - 1]);
      if bits[|bits| - 1] then WithBit(front, |bits| - 1) else front
  }

  /** The bytes that hold n bits. */
  function Bytes(n: nat): nat { n / 8 + if n % 8 != 0 then 1 else 0 }

  /** The bits of byte k. */
  function Slice(bits: seq<bool>, k: nat): (s: seq<bool>)
    requires k < Bytes(|bits|)
    ensures |s| <= 8
  {
    bits[8 * k..if 8 * k + 8 <= |bits| then 8 * k + 8 else |bits|]
  }

  function Pack(bits: seq<bool>): (bytes: seq<bv8>)
    ensures |bytes| == Bytes(|bits|)
  {
    seq(Bytes(|bits|), k requires 0 <= k < Bytes(|bits|) => PackByte(Slice(bits, k)))
  }

  /** Bit i of a sequence of bytes. */
  function BitAt(bytes: seq<bv8>, i: nat): bool
    requires i < 8 * |bytes|
  {
    BitOf(bytes[i / 8], i % 8)
  }

  function Unpack(bytes: seq<bv8>, n: nat): (bits: seq<bool>)
    requires n <= 8 * |bytes|
    ensures |bits| == n
  {
    seq(n, i requires 0 <= i < n => BitAt(bytes, i))
  }

  lemma BitOfWithBit(b: bv8, i: nat, j: nat)
    requires i < 8 && j < 8
    ensures BitOf(WithBit(b, i), j) == (i == j || BitOf(b, j))
  {}

  lemma BitOfZero(j: nat)
    requires j < 8
    ensures !BitOf(0, j)
  {}

  lemma {:induction false} BitOfPackByte(bits: seq<bool>, j: nat)
    requires |bits| <= 8 && j < 8
    ensures BitOf(PackByte(bits), j) == (j < |bits| && bits[j])
  {
    hide BitOf, WithBit;
    if bits == [] {
      BitOfZero(j);
    } else {
      var front := bits[..|bits| - 1];
      BitOfPackByte(front, j);
      BitOfWithBit(PackByte(front), |front|, j);
    }
  }

  /** Clearing a bit beyond those packed changes nothing. */
  lemma {:induction false} ClearPackByte(bits: seq<bool>, j: nat)
    requires |bits| <= j < 8
    ensures PackByte(bits) & !Weight(j) == PackByte(bits)
  {
    if bits != [] {
      var front := bits[..|bits| - 1];
      ClearPackByte(front, j);
      ClearWithBit(PackByte(front), |front|, j);
    }
  }

  lemma ClearWithBit(b: bv8, i: nat, j: nat)
    requires i < j < 8 && b & !Weight(j) == b
    ensures WithBit(b, i) & !Weight(j) == WithBit(b, i)
  {}

  /** Bit j of a byte is worth 2 to the j. */
  lemma BitByShift(b: bv8, j: bv8)
    requires j < 8
    ensures j as nat < 8 && (BitOf(b, j as nat) <==> (b >> j) & 1 == 1)
  {}

  /** Flag i is bit i % 8 of byte i / 8, and the bits beyond the last flag are zero. */
  lemma PackedBit(bits: seq<bool>, i: nat)
    requires i < 8 * Bytes(|bits|)
    ensures |Pack(bits)| == Bytes(|bits|) && BitOf(Pack(bits)[i / 8], i % 8) == (i < |bits| && bits[i])
  {
    hide PackByte, BitOf;
    BitOfPackByte(Slice(bits, i / 8), i % 8);
    assert i == 8 * (i / 8) + i % 8 && i / 8 < Bytes(|bits|);
  }

  /** Unpacking recovers what was packed. */
  lemma UnpackPack(bits: seq<bool>)
    ensures Unpack(Pack(bits), |bits|) == bits
  {
    hide PackByte, BitOf;
    forall i | 0 <= i < |bits| ensures Unpack(Pack(bits), |bits|)[i] == bits[i] {
      BitOfPackByte(Slice(bits, i / 8), i % 8);
    }
  }

  lemma PackByteSnoc(bits: seq<bool>, b: bool)
    requires |bits| < 8
    ensures PackByte(bits + [b]) == if b then WithBit(PackByte(bits), |bits|) else PackByte(bits)
  {
    hide WithBit;
    assert (bits + [b])[..|bits|] == bits;
  }

  // ----- The loops -----

  /** The bit walked from 0x01 up to 0x100, and what the loops do with it. */
  function Mask(j: nat): bv16
    requires j <= 8
  {
    if j < 8 then Weight(j) as bv16 else 0x100
  }

  predicate InByte(bit: bv16) { bit & 0xFF != 0 }

  function NextBit(bit: bv16): bv16 { bit << 1 }

  function SetBit(b: bv8, bit: bv16): bv8 { b | ((bit & 0xFF) as bv8) }

  function ClearBit(b: bv8, bit: bv16): bv8 { b & !((bit & 0xFF) as bv8) }

  lemma MaskWalk(j: nat)
    requires j <= 8
    ensures InByte(Mask(j)) <==> j < 8
    ensures j < 8 ==> NextBit(Mask(j)) == Mask(j + 1)
  {}

  lemma MaskIsWeight(j: nat, b: bv8)
    requires j < 8
    ensures SetBit(b, Mask(j)) == WithBit(b, j) && ClearBit(b, Mask(j)) == b & !Weight(j)
  {}

  function Shifted(b: bv8, j: nat): bv8
    requires j < 8
  {
    if j == 0 then b else if j == 1 then b << 1 else if j == 2 then b << 2 else if j == 3 then b << 3
    else if j == 4 then b << 4 else if j == 5 then b << 5 else if j == 6 then b << 6 else b << 7
  }

  /** A cell's value moved up to bit j and added. */
  function OrShifted(x: bv8, b: bv8, j: nat): bv8
    requires j < 8
  {
    x | Shifted(b, j)
  }

  lemma OrShiftedBit(x: bv8, b: bv8, j: nat)
    requires j < 8 && (b == 0 || b == 1)
    ensures OrShifted(x, b, j) == if b == 1 then WithBit(x, j) else x
  {}

  /** Whether each cell of a table is set. */
  function Bits(tab: seq<bv8>): (bits: seq<bool>)
    ensures |bits| == |tab|
  {
    seq(|tab|, i requires 0 <= i < |tab| => tab[i] != 0)
  }

  predicate AllBits(tab: seq<bv8>) { forall i :: 0 <= i < |tab| ==> tab[i] == 0 || tab[i] == 1 }

  /** The first d bits are packed: whole bytes are out, the rest are in the byte begun. */
  ghost predicate Packing(bits: seq<bool>, d: nat, byte: bv8, out: seq<bv8>) {
    && d <= |bits| && |out| == d / 8 && byte == PackByte(bits[d - d % 8..d])
    && forall k :: 0 <= k < d / 8 ==> out[k] == PackByte(bits[8 * k..8 * k + 8])
  }

  lemma PackStart(bits: seq<bool>)
    ensures Packing(bits, 0, 0, [])
  {}

  lemma PackStep(bits: seq<bool>, d: nat, byte: bv8, out: seq<bv8>)
    requires d < |bits| && Packing(bits, d, byte, out)
    ensures var b := if bits[d] then WithBit(byte, d % 8) else byte;
            if d % 8 == 7 then Packing(bits, d + 1, 0, out + [b]) else Packing(bits, d + 1, b, out)
  {
    hide WithBit, PackByte;
    PackByteSnoc(bits[d - d % 8..d], bits[d]);
    assert bits[d - d % 8..d] + [bits[d]] == bits[d - d % 8..d + 1];
    assert bits[d + 1..d + 1] == [];
    PackNothing();
  }

  lemma PackEnd(bits: seq<bool>, byte: bv8, out: seq<bv8>)
    requires Packing(bits, |bits|, byte, out)
    ensures Pack(bits) == if |bits| % 8 != 0 then out + [byte] else out
  {
    hide PackByte;
    forall k | 0 <= k < |bits| / 8 ensures Slice(bits, k) == bits[8 * k..8 * k + 8] {}
  }

  /** Puts a range of bit cells into bytes; a cell that held more than a bit would spill into its neighbours. */
  method ResponseIoStatus(tab: array<bv8>, address: nat, nb: nat, rsp: array<bv8>, offset: nat) returns (end: nat)
    requires address + nb <= tab.Length && offset + Bytes(nb) <= rsp.Length && tab != rsp
    requires AllBits(tab[address..address + nb])
    modifies rsp
    ensures end == offset + Bytes(nb)
    ensures rsp[..end] == old(rsp[..offset]) + Pack(Bits(tab[address..address + nb]))
  {
    hide PackByte, WithBit, OrShifted, Packing, Pack, Bits;
    ghost var bits, before, out := Bits(tab[address..address + nb]), rsp[..offset], [];
    var shift, byte: bv8 := 0, 0;
    end := offset;
    var i := address;
    PackStart(bits);
    while i < address + nb
      invariant address <= i <= address + nb
      invariant 0 <= shift < 8 && shift == (i - address) % 8 && end == offset + |out| && |out| == (i - address) / 8
      invariant rsp[..end] == before + out
      invariant Packing(bits, i - address, byte, out)
    {
      BitsAt(tab[address..address + nb], i - address);
      OrShiftedBit(byte, tab[i], shift);
      PackStep(bits, i - address, byte, out);
      byte := OrShifted(byte, tab[i], shift);
      if shift == 7 {
        rsp[end] := byte;
        end := end + 1;
        out := out + [byte];
        byte, shift := 0, 0;
      } else {
        shift := shift + 1;
      }
      i := i + 1;
    }
    PackEnd(bits, byte, out);
    if shift != 0 {
      rsp[end] := byte;
      end := end + 1;
    }
  }

  lemma BitsAt(tab: seq<bv8>, i: nat)
    requires i < |tab|
    ensures Bits(tab)[i] == (tab[i] != 0)
  {}

  /** Packs the flags of src behind the count of their bytes. */
  method PackBits(src: array<bv8>, nb: nat, req: array<bv8>, start: nat) returns (length: nat)
    requires nb <= src.Length && start + Bytes(nb) <= req.Length && src != req
    modifies req
    ensures length == start + Bytes(nb)
    ensures req[..length] == old(req[..start]) + Pack(Bits(src[..nb]))
  {
    hide PackByte, Packing, Pack, Bits;
    ghost var bits, before, out := Bits(src[..nb]), req[..start], [];
    length := start;
    var bitCheck, pos := 0, 0;
    var i := 0;
    PackStart(bits);
    if nb == 0 { PackEnd(bits, 0, []); }
    while i < Bytes(nb)
      invariant 0 <= i <= Bytes(nb) && length == start + i
      invariant req[..length] == before + out
      invariant i < Bytes(nb) ==> pos == bitCheck == 8 * i && Packing(bits, pos, 0, out)
      invariant i == Bytes(nb) ==> out == Pack(bits)
    {
      pos, bitCheck := PackOneByte(src, nb, req, length, pos, bitCheck, out);
      out := out + [req[length]];
      length := length + 1;
      i := i + 1;
    }
  }

  /** The inner loop: fills one byte with the next flags, as many as are left. */
  method PackOneByte(src: array<bv8>, nb: nat, req: array<bv8>, at: nat, pos: nat, check: nat, ghost out: seq<bv8>)
    returns (pos': nat, check': nat)
    requires nb <= src.Length && at < req.Length && src != req
    requires check == pos < nb && pos == 8 * |out| && Packing(Bits(src[..nb]), pos, 0, out)
    modifies req
    ensures req[..at] == old(req[..at])
    ensures pos' == if pos + 8 <= nb then pos + 8 else nb
    ensures pos' < nb ==> check' == pos' && Packing(Bits(src[..nb]), pos', 0, out + [req[at]])
    ensures pos' == nb ==> Pack(Bits(src[..nb])) == out + [req[at]]
  {
    hide PackByte, WithBit, Weight, Packing, Mask, Pack, Bits, InByte, NextBit, SetBit, ClearBit;
    ghost var bits, start := Bits(src[..nb]), pos;
    var bit: bv16 := 0x01;
    req[at] := 0;
    pos', check' := pos, check;
    ghost var j := 0;
    MaskStart();
    MaskWalk(0);
    while InByte(bit) && check' < nb
      invariant 0 <= j <= 8 && bit == Mask(j) && check' == pos' == pos + j && pos' <= nb
      invariant req[..at] == old(req[..at])
      invariant if j < 8 then Packing(bits, pos', req[at], out) else Packing(bits, pos', 0, out + [req[at]])
      invariant InByte(bit) <==> j < 8
      decreases 8 - j
    {
      check' := check' + 1;
      MaskWalk(j);
      MaskWalk(j + 1);
      BitsAt(src[..nb], pos');
      ClearByte(bits, pos', req[at], out);
      PackStep(bits, pos', req[at], out);
      if src[pos'] != 0 {
        req[at] := SetBit(req[at], bit);
      } else {
        req[at] := ClearBit(req[at], bit);
      }
      pos' := pos' + 1;
      bit := NextBit(bit);
      j := j + 1;
    }
    if InByte(bit) { check' := check' + 1; }
    if pos' == nb { PackEnd(bits, if j < 8 then req[at] else 0, if j < 8 then out else out + [req[at]]); }
  }

  lemma MaskStart()
    ensures Mask(0) == 0x01
  {}

  lemma ClearByte(bits: seq<bool>, d: nat, byte: bv8, out: seq<bv8>)
    requires d < |bits| && Packing(bits, d, byte, out)
    ensures SetBit(byte, Mask(d % 8)) == WithBit(byte, d % 8) && ClearBit(byte, Mask(d % 8)) == byte
  {
    hide SetBit, ClearBit, Mask, WithBit, Weight;
    MaskIsWeight(d % 8, byte);
    ClearPackByte(bits[d - d % 8..d], d % 8);
  }

  lemma PackNothing()
    ensures PackByte([]) == 0
  {}

  /** Spreads the bits of bytes over the cells from index on. */
  method SetBitsFromBytes(dest: array<bv8>, index: nat, nbBits: nat, tab: array<bv8>, from: nat)
    requires index + nbBits <= dest.Length && from + Bytes(nbBits) <= tab.Length && dest != tab
    modifies dest
    ensures dest[..index] == old(dest[..index]) && dest[index + nbBits..] == old(dest[index + nbBits..])
    ensures Bits(dest[index..index + nbBits]) == Unpack(tab[from..from + Bytes(nbBits)], nbBits)
    ensures AllBits(dest[index..index + nbBits])
  {
    hide BitOf, Weight;
    var shift, i := 0, index;
    while i < index + nbBits
      invariant index <= i <= index + nbBits && 0 <= shift < 8 && shift == (i - index) % 8
      invariant dest[..index] == old(dest[..index]) && dest[index + nbBits..] == old(dest[index + nbBits..])
      invariant forall k :: index <= k < i ==>
                  dest[k] == if BitOf(tab[from + (k - index) / 8], (k - index) % 8) then 1 else 0
    {
      dest[i] := if BitOf(tab[from + (i - index) / 8], shift) then 1 else 0;
      shift := (shift + 1) % 8;
      i := i + 1;
    }
    CellsOfBits(dest[index..i], tab[from..from + Bytes(nbBits)], nbBits);
  }

  lemma CellsOfBits(cells: seq<bv8>, bytes: seq<bv8>, n: nat)
    requires |cells| == n && |bytes| == Bytes(n)
    requires forall k :: 0 <= k < n ==> cells[k] == if BitOf(bytes[k / 8], k % 8) then 1 else 0
    ensures Bits(cells) == Unpack(bytes, n) && AllBits(cells)
  {
    hide BitOf;
  }

  /** Takes the bits out of the bytes of a response, as many as were asked for. */
  method UnpackBits(rsp: array<bv8>, offset: nat, count: nat, nb: nat, dest: array<bv8>)
    requires offset + count <= rsp.Length && count == Bytes(nb) && nb <= dest.Length && dest != rsp
    modifies dest
    ensures Bits(dest[..nb]) == Unpack(rsp[offset..offset + count], nb) && AllBits(dest[..nb])
    ensures dest[nb..] == old(dest[nb..])
  {
    hide Weight, Mask, InByte, NextBit;
    ghost var bytes := rsp[offset..offset + count];
    var pos, i := 0, offset;
    while i < offset + count
      invariant offset <= i <= offset + count && pos == if 8 * (i - offset) <= nb then 8 * (i - offset) else nb
      invariant forall k :: 0 <= k < pos ==> dest[k] == if BitAt(bytes, k) then 1 else 0
      invariant dest[nb..] == old(dest[nb..])
    {
      var temp, bit: bv16 := rsp[i], 0x01;
      ghost var j, start := 0, pos;
      MaskStart();
      MaskWalk(0);
      while InByte(bit) && pos < nb
        invariant 0 <= j <= 8 && bit == Mask(j) && pos == start + j && pos <= nb
        invariant InByte(bit) <==> j < 8
        invariant forall k :: 0 <= k < pos ==> dest[k] == if BitAt(bytes, k) then 1 else 0
        invariant dest[nb..] == old(dest[nb..])
        decreases 8 - j
      {
        MaskWalk(j);
        MaskWalk(j + 1);
        MaskTests(j, temp);
        dest[pos] := if Tests(temp, bit) then 1 else 0;
        pos := pos + 1;
        bit := NextBit(bit);
        j := j + 1;
      }
      i := i + 1;
    }
  }

  predicate Tests(b: bv8, bit: bv16) { (b as bv16) & bit != 0 }

  lemma MaskTests(j: nat, b: bv8)
    requires j < 8
    ensures Tests(b, Mask(j)) == BitOf(b, j)
  {}
}
