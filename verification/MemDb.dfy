/**
 * The table of live values that field devices (telemetry) and the host (commands) write to (MemDb.cpp), and which of
 * the two wins: a command waits to be taken, but not for more than five telemetry writes.
 */
module MemDb {

  const MAX_LENGTH := 0xFFFF
  const WRITED_NUM := 5

  datatype Value = Int(i: bv32) | Db(f: real)

  /** One address: its value, whether the host wrote it, and how many telemetry writes that has kept out. */
  datatype Cell = Cell(addr: int, pv: Value, writed: bool, readed: bool, num: nat)

  function Initial(a: int): Cell { Cell(a, Int(0), false, false, 0) }

  // ----- One cell -----

  /** A telemetry write that comes while a command waits is dropped and counted, up to the limit. */
  function Store(cell: Cell, data: Cell): Cell {
    if cell.writed && !data.writed && cell.num < WRITED_NUM then cell.(num := cell.num + 1)
    else data.(num := 0)
  }

  function Command(a: int, v: Value): Cell { Cell(a, v, true, false, 0) }

  function Telemetry(a: int, v: Value): Cell { Cell(a, v, false, true, 0) }

  function Cleared(c: Cell): Cell { if c.writed then c.(writed := false) else c }

  // ----- Operations and runs -----

  datatype Op = Write(addr: nat, v: Value) | Report(addr: nat, v: Value) | Take(addr: nat)

  function ApplyCell(c: Cell, op: Op): Cell {
    match op
    case Write(a, v) => Store(c, Command(a, v))
    case Report(a, v) => Store(c, Telemetry(a, v))
    case Take(a) => Cleared(c)
  }

  function Apply(cells: seq<Cell>, op: Op): (r: seq<Cell>)
    ensures |r| == |cells|
  {
    if op.addr < |cells| then cells[op.addr := ApplyCell(cells[op.addr], op)] else cells
  }

  function Run(cells: seq<Cell>, ops: seq<Op>): (r: seq<Cell>)
    ensures |r| == |cells|
  {
    if ops == [] then cells else Apply(Run(cells, ops[..|ops| - 1]), ops[|ops| - 1])
  }

  function RunCell(c: Cell, ops: seq<Op>): Cell {
    if ops == [] then c else ApplyCell(RunCell(c, ops[..|ops| - 1]), ops[|ops| - 1])
  }

  /** The operations on one address. */
  function On(ops: seq<Op>, a: nat): seq<Op> {
    if ops == [] then [] else
      On(ops[..|ops| - 1], a) + if ops[|ops| - 1].addr == a then [ops[|ops| - 1]] else []
  }

  /** However operations on many addresses interleave, each address sees its own, in order. */
  lemma {:induction false} AddressesAreIndependent(cells: seq<Cell>, ops: seq<Op>, a: nat)
    requires a < |cells|
    ensures Run(cells, ops)[a] == RunCell(cells[a], On(ops, a))
  {
    hide ApplyCell;
    if ops != [] {
      var front, op := ops[..|ops| - 1], ops[|ops| - 1];
      AddressesAreIndependent(cells, front, a);
      RunCellSnoc(cells[a], On(front, a), op);
      assert On(front, a) + [] == On(front, a);
    }
  }

  lemma RunCellSnoc(c: Cell, ops: seq<Op>, op: Op)
    ensures RunCell(c, ops + [op]) == ApplyCell(RunCell(c, ops), op)
  {
    hide ApplyCell;
    assert (ops + [op])[..|ops|] == ops;
  }

  predicate AllReports(ops: seq<Op>) { forall i :: 0 <= i < |ops| ==> ops[i].Report? }

  lemma {:induction false} ReportsWhileWaiting(a: int, v: Value, ops: seq<Op>)
    requires AllReports(ops)
    ensures RunCell(Command(a, v), ops)
         == if |ops| <= WRITED_NUM then Command(a, v).(num := |ops|)
            else Telemetry(ops[|ops| - 1].addr, ops[|ops| - 1].v)
  {
    if ops != [] { ReportsWhileWaiting(a, v, ops[..|ops| - 1]); }
  }

  /**
   * A command at an address still waits, with its value, after any run of other operations exactly if at most five
   * telemetry writes of the address were among them; from the sixth on the last of these is what the address holds.
   */
  lemma CommandWaits(cells: seq<Cell>, before: seq<Op>, a: nat, v: Value, after: seq<Op>)
    requires a < |cells| && AllReports(On(after, a))
    ensures var c := Run(Run(cells, before + [Write(a, v)]), after)[a];
            var n := |On(after, a)|;
            && (c.writed <==> n <= WRITED_NUM)
            && c.pv == (if n <= WRITED_NUM then v else On(after, a)[n - 1].v)
            && c.num == (if n <= WRITED_NUM then n else 0)
  {
    hide RunCell, On;
    var s := Run(cells, before + [Write(a, v)]);
    assert (before + [Write(a, v)])[..|before|] == before;
    AddressesAreIndependent(s, after, a);
    ReportsWhileWaiting(a, v, On(after, a));
  }

  /** Once a command has been taken, the next telemetry write of the address is stored at once. */
  lemma TakenCellAccepts(cells: seq<Cell>, ops: seq<Op>, a: nat, v: Value)
    requires a < |cells|
    ensures var c := Run(cells, ops + [Take(a), Report(a, v)])[a]; c == Telemetry(a, v)
  {
    var all := ops + [Take(a), Report(a, v)];
    assert all[..|ops| + 1] == ops + [Take(a)] && all[..|ops| + 1][..|ops|] == ops;
  }

  /** No run lets a counter pass the limit. */
  lemma {:induction false} CountersBounded(cells: seq<Cell>, ops: seq<Op>, a: nat)
    requires a < |cells| && cells[a].num <= WRITED_NUM
    ensures Run(cells, ops)[a].num <= WRITED_NUM
  {
    if ops != [] { CountersBounded(cells, ops[..|ops| - 1], a); }
  }

  // ----- The table -----

  /** C's conversion of an int to a float, without its rounding. */
  function AsReal(i: bv32): real { if i < 0x8000_0000 then i as int as real else (i as int - 0x1_0000_0000) as real }

  function Bit(pos: nat): bv32
    requires pos < 32
  {
    1 << (pos as bv32)
  }

  /** A value with one bit set or cleared; no bit beyond the 32. */
  function WithBit(i: bv32, pos: int, on: bool): bv32 {
    if pos < 0 || pos > 31 then i else WithMask(i, Bit(pos), on)
  }

  function WithMask(i: bv32, m: bv32, on: bool): bv32 { if on then i | m else i & !m }

  predicate Tests(i: bv32, m: bv32) { i & m != 0 }

  function Without(i: bv32, m: bv32): bv32 { i & !m }

  /** The bit is what it was set to, and no other bit has changed. */
  lemma BitIsSet(i: bv32, pos: nat, on: bool)
    requires pos < 32
    ensures Tests(WithBit(i, pos, on), Bit(pos)) == on
    ensures Without(WithBit(i, pos, on), Bit(pos)) == Without(i, Bit(pos))
  {
    BitIsNotZero(pos);
    hide Bit, WithMask, Tests, Without;
    MaskIsSet(i, Bit(pos), on);
  }

  /** Values that agree in all other bits, and only those, become the same by setting one. */
  lemma SameButForBit(i: bv32, j: bv32, pos: nat, on: bool)
    requires pos < 32
    ensures WithBit(i, pos, on) == WithBit(j, pos, on) <==> Without(i, Bit(pos)) == Without(j, Bit(pos))
  {
    hide Bit;
    SameButForMask(i, j, Bit(pos), on);
  }

  lemma SameButForMask(i: bv32, j: bv32, m: bv32, on: bool)
    ensures WithMask(i, m, on) == WithMask(j, m, on) <==> Without(i, m) == Without(j, m)
  {
    hide WithMask, Without;
    MaskOfRest(i, m, on);
    MaskOfRest(j, m, on);
  }

  lemma MaskOfRest(i: bv32, m: bv32, on: bool)
    ensures WithMask(i, m, on) == WithMask(Without(i, m), m, on)
    ensures Without(WithMask(i, m, on), m) == Without(i, m)
  {}

  /** A bit other than the one set. */
  lemma OtherBitStays(i: bv32, pos: nat, on: bool, other: nat)
    requires pos < 32 && other < 32 && pos != other
    ensures Tests(WithBit(i, pos, on), Bit(other)) == Tests(i, Bit(other))
  {
    var p := Amount(pos);
    var q := Amount(other);
    assert pos as bv32 == p by { AmountBack(p); }
    assert other as bv32 == q by { AmountBack(q); }
    BitsApart(p, q);
    hide Bit, WithMask, Tests;
    MasksApart(i, Bit(pos), on, Bit(other));
  }

  lemma BitsApart(p: bv32, q: bv32)
    requires p < 32 && q < 32 && p != q
    ensures ((1 as bv32) << p) & ((1 as bv32) << q) == 0
  {}

  lemma MasksApart(i: bv32, m: bv32, on: bool, n: bv32)
    requires m & n == 0
    ensures Tests(WithMask(i, m, on), n) == Tests(i, n)
  {}

  // ----- Setting a bit while others use the table -----

  /** A telemetry write would be dropped. */
  predicate Closed(c: Cell) { c.writed && c.num < WRITED_NUM }

  /** Setting a bit in one step. */
  function BitSetAtOnce(c: Cell, a: nat, pos: int, on: bool): Cell {
    if c.pv.Int? then Store(c, Telemetry(a, Int(WithBit(c.pv.i, pos, on)))) else c
  }

  /** Setting a bit in two steps, the value read before other operations and written after them. */
  function BitSetAround(cells: seq<Cell>, others: seq<Op>, a: nat, pos: int, on: bool): seq<Cell>
    requires a < |cells| && cells[a].pv.Int?
  {
    Apply(Run(cells, others), Report(a, Int(WithBit(cells[a].pv.i, pos, on))))
  }

  /**
   * What other threads do between the reading and the writing is kept exactly if they leave an integer at the address,
   * and either all its other bits are as they were read, or a command waits there and the writing is dropped.
   */
  lemma BitSetIsAtomic(cells: seq<Cell>, others: seq<Op>, a: nat, pos: nat, on: bool)
    requires a < |cells| && cells[a].pv.Int? && pos < 32
    ensures var s := Run(cells, others);
            (BitSetAround(cells, others, a, pos, on) == s[a := BitSetAtOnce(s[a], a, pos, on)]
             <==> s[a].pv.Int? && (Closed(s[a]) || Without(s[a].pv.i, Bit(pos)) == Without(cells[a].pv.i, Bit(pos))))
  {
    hide WithBit, Bit, Without, Run;
    var s := Run(cells, others);
    if s[a].pv.Int? { SameButForBit(s[a].pv.i, cells[a].pv.i, pos, on); }
    assert BitSetAround(cells, others, a, pos, on)[a] == Store(s[a], Telemetry(a, Int(WithBit(cells[a].pv.i, pos, on))));
  }

  /** So it is if the others take commands from the address but do not write to it. */
  lemma UndisturbedBitSet(cells: seq<Cell>, others: seq<Op>, a: nat, pos: nat, on: bool)
    requires a < |cells| && cells[a].pv.Int? && pos < 32 && forall op :: op in On(others, a) ==> op.Take?
    ensures var s := Run(cells, others);
            BitSetAround(cells, others, a, pos, on) == s[a := BitSetAtOnce(s[a], a, pos, on)]
  {
    hide Run, On, RunCell, BitSetAround, BitSetAtOnce, Without, Bit;
    AddressesAreIndependent(cells, others, a);
    TakesKeepValue(cells[a], On(others, a));
    BitSetIsAtomic(cells, others, a, pos, on);
  }

  lemma {:induction false} TakesKeepValue(c: Cell, ops: seq<Op>)
    requires forall op :: op in ops ==> op.Take?
    ensures RunCell(c, ops).pv == c.pv
  {
    if ops != [] {
      TakesKeepValue(c, ops[..|ops| - 1]);
      assert ops[|ops| - 1] in ops;
    }
  }

  /** Two bits of one address set at the same time, no command waiting: the one written first is lost. */
  lemma LostBit(cells: seq<Cell>, a: nat, pos: nat, on: bool, other: nat, otherOn: bool)
    requires a < |cells| && cells[a].pv.Int? && !cells[a].writed && pos < 32 && other < 32 && pos != other
    ensures var first := Report(a, Int(WithBit(cells[a].pv.i, other, otherOn)));
            var c := BitSetAround(cells, [first], a, pos, on)[a];
            && c.pv.Int? && Tests(c.pv.i, Bit(pos)) == on && Tests(c.pv.i, Bit(other)) == Tests(cells[a].pv.i, Bit(other))
  {
    hide Bit, WithBit, Tests;
    var first := Report(a, Int(WithBit(cells[a].pv.i, other, otherOn)));
    assert [first][..0] == [];
    assert Run(cells, [first]) == Apply(cells, first);
    BitIsSet(cells[a].pv.i, pos, on);
    OtherBitStays(cells[a].pv.i, pos, on, other);
  }

  lemma MaskIsSet(i: bv32, m: bv32, on: bool)
    requires m != 0
    ensures Tests(WithMask(i, m, on), m) == on && Without(WithMask(i, m, on), m) == Without(i, m)
  {}

  lemma BitIsNotZero(pos: nat)
    requires pos < 32
    ensures Bit(pos) != 0
  {
    var p := Amount(pos);
    OneShifted(p);
    assert pos as bv32 == p by { AmountBack(p); }
  }

  lemma OneShifted(p: bv32)
    requires p < 32
    ensures (1 as bv32) << p != 0
  {}

  lemma {:induction false} Amount(n: nat) returns (p: bv32)
    requires n < 32
    ensures p as nat == n && p < 32
  {
    if n == 0 {
      p := 0;
    } else {
      var q := Amount(n - 1);
      Successor(q);
      p := q + 1;
    }
  }

  lemma Successor(q: bv32)
    requires q < 32 && q as nat < 31
    ensures (q + 1) as nat == q as nat + 1 && q + 1 < 32
  {}

  lemma AmountBack(p: bv32)
    ensures (p as nat) as bv32 == p
  {}

  // ----- Storing a number while others use the table -----

  /** A number as a value of the kind the cell holds. */
  function OfKind(c: Cell, data: bv32): Value { if c.pv.Db? then Db(AsReal(data)) else Int(data) }

  /** The conversion reads the 32 bits in two's complement. */
  lemma SignedValue(i: bv32)
    ensures AsReal(i) == i as int as real - if i & 0x8000_0000 == 0 then 0.0 else 4294967296.0
  {}

  /** What is stored when no command waits, or is one: a cell of the kind the address had, with the number given. */
  lemma UnknownIsStored(cells: seq<Cell>, others: seq<Op>, a: nat, data: bv32, writed: bool)
    requires a < |cells|
    ensures var s := Run(cells, others);
            var c := Apply(s, SetOp(a, OfKind(cells[a], data), writed))[a];
            if !writed && Closed(s[a]) then c == s[a].(num := s[a].num + 1)
            else
              && c.addr == a && c.writed == writed && c.readed == !writed && c.num == 0
              && (c.pv.Db? <==> cells[a].pv.Db?) && if c.pv.Db? then c.pv.f == AsReal(data) else c.pv.i == data
  {
    hide Run, AsReal;
  }

  function SetOp(a: nat, v: Value, writed: bool): Op { if writed then Write(a, v) else Report(a, v) }

  /** Reading the kind before other operations and storing after them is storing at once after them, as the kind then there. */
  lemma SetUnknownIsAtomic(cells: seq<Cell>, others: seq<Op>, a: nat, data: bv32, writed: bool)
    requires a < |cells|
    ensures var s := Run(cells, others);
            (Apply(s, SetOp(a, OfKind(cells[a], data), writed)) == Apply(s, SetOp(a, OfKind(s[a], data), writed))
             <==> cells[a].pv.Db? == s[a].pv.Db? || (!writed && Closed(s[a])))
  {
    hide Run, AsReal;
    var s := Run(cells, others);
    var u, v := OfKind(cells[a], data), OfKind(s[a], data);
    assert Apply(s, SetOp(a, u, writed))[a] == ApplyCell(s[a], SetOp(a, u, writed));
    assert Apply(s, SetOp(a, v, writed))[a] == ApplyCell(s[a], SetOp(a, v, writed));
  }

  class MemDb {
    const cells: array<Cell>

    ghost predicate Valid()
      reads cells
    {
      cells.Length == MAX_LENGTH && forall i :: 0 <= i < cells.Length ==> cells[i].num <= WRITED_NUM
    }

    constructor ()
      ensures Valid() && fresh(cells) && forall i :: 0 <= i < MAX_LENGTH ==> cells[i] == Initial(i)
    {
      cells := new Cell[MAX_LENGTH](i => Initial(i));
    }

    function CheckAddr(addr: int): bool { 0 <= addr < MAX_LENGTH }

    method GetRealData(addr: int) returns (ok: bool, data: Cell)
      requires Valid()
      ensures ok == CheckAddr(addr) && (ok ==> data == cells[addr])
    {
      if !CheckAddr(addr) { return false, Initial(0); }
      return true, cells[addr];
    }

    method GetInt(addr: int) returns (ok: bool, data: bv32)
      requires Valid()
      ensures ok == (CheckAddr(addr) && cells[addr].pv.Int?) && (ok ==> cells[addr].pv == Int(data))
    {
      var realData;
      ok, realData := GetRealData(addr);
      if ok && realData.pv.Int? { return true, realData.pv.i; }
      return false, 0;
    }

    /** Gives a waiting command and, when asked to, takes it. */
    method GetRealDataWrited(addr: int, clearWrited: bool) returns (ok: bool, data: Cell)
      requires Valid()
      modifies cells
      ensures Valid()
      ensures ok == (CheckAddr(addr) && old(cells[..])[addr].writed) && (ok ==> data == old(cells[addr]))
      ensures cells[..] == if CheckAddr(addr) && clearWrited then Apply(old(cells[..]), Take(addr)) else old(cells[..])
    {
      if !CheckAddr(addr) { return false, Initial(0); }
      ok, data := false, Initial(0);
      if cells[addr].writed {
        data := cells[addr];
        if clearWrited { cells[addr] := cells[addr].(writed := false); }
        ok := true;
      }
    }

    method SetCell(addr: int, data: Cell) returns (ok: bool)
      requires Valid()
      modifies cells
      ensures Valid() && ok == CheckAddr(addr)
      ensures cells[..] == if ok then old(cells[..])[addr := Store(old(cells[addr]), data)] else old(cells[..])
    {
      if !CheckAddr(addr) { return false; }
      if cells[addr].writed && !data.writed && cells[addr].num < WRITED_NUM {
        cells[addr] := cells[addr].(num := cells[addr].num + 1);
      } else {
        cells[addr] := data.(num := 0);
      }
      return true;
    }

    method SetRealData(addr: int, v: Value, writed: bool) returns (ok: bool)
      requires Valid()
      modifies cells
      ensures Valid() && ok == CheckAddr(addr)
      ensures cells[..]
           == if !ok then old(cells[..]) else Apply(old(cells[..]), if writed then Write(addr, v) else Report(addr, v))
    {
      ok := SetCell(addr, Cell(addr, v, writed, !writed, 0));
    }

    /** What other threads do while this one does not hold the lock. */
    method Others(ops: seq<Op>)
      requires Valid()
      modifies cells
      ensures Valid() && cells[..] == Run(old(cells[..]), ops)
    {
      hide Apply;
      ghost var was := cells[..];
      assert ops[..0] == [];
      var i := 0;
      while i < |ops|
        invariant 0 <= i <= |ops| && Valid() && cells[..] == Run(was, ops[..i])
      {
        Other(ops[i]);
        i := i + 1;
        assert ops[..i][..i - 1] == ops[..i - 1];
      }
      assert ops[..i] == ops;
    }

    method Other(op: Op)
      requires Valid()
      modifies cells
      ensures Valid() && cells[..] == Apply(old(cells[..]), op)
    {
      var ok;
      match op {
        case Write(a, v) => ok := SetRealData(a, v, true);
        case Report(a, v) => ok := SetRealData(a, v, false);
        case Take(a) => var data; ok, data := GetRealDataWrited(a, true);
      }
    }

    /** Stores a number as the kind of value the address held when it was asked, before others had their turn. */
    method SetRealDataUnknown(addr: int, data: bv32, writed: bool, others: seq<Op>) returns (ok: bool)
      requires Valid()
      modifies cells
      ensures Valid() && ok == CheckAddr(addr)
      ensures !ok ==> cells[..] == old(cells[..])
      ensures ok ==>
                cells[..] == Apply(Run(old(cells[..]), others), SetOp(addr, OfKind(old(cells[addr]), data), writed))
    {
      hide Run, Apply;
      var realData;
      ok, realData := GetRealData(addr);
      if ok {
        Others(others);
        if realData.pv.Db? {
          ok := SetRealData(addr, Db(AsReal(data)), writed);
        } else {
          ok := SetRealData(addr, Int(data), writed);
        }
      }
    }

    /**
     * Sets one bit of the value read before others had their turn, by a telemetry write, and reports success even where
     * that write is dropped: it is stored exactly if no command then waits at the address or it has kept out five already.
     */
    method SetRealDataBit(addr: int, bit: int, data: bool, others: seq<Op>) returns (ok: bool, ghost stored: bool)
      requires Valid()
      modifies cells
      ensures Valid() && ok == (CheckAddr(addr) && old(cells[..])[addr].pv.Int?)
      ensures !ok ==> cells[..] == old(cells[..])
      ensures ok ==> cells[..] == BitSetAround(old(cells[..]), others, addr, bit, data)
      ensures ok ==> (stored <==> !Closed(Run(old(cells[..]), others)[addr]))
      ensures stored ==> ok && cells[addr] == Telemetry(addr, Int(WithBit(old(cells[addr]).pv.i, bit, data)))
      ensures ok && !stored ==> cells[addr].pv == Run(old(cells[..]), others)[addr].pv
    {
      hide WithBit, Run;
      var value;
      ok, value := GetInt(addr);
      stored := false;
      if ok {
        Others(others);
        stored := !Closed(cells[addr]);
        value := WithBit(value, bit, data);
        ok := SetRealData(addr, Int(value), false);
      }
    }
  }
}
