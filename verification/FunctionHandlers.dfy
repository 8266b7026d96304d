/** Registering and finding the handlers of function codes (mb.c). */
module FunctionHandlers {
  import opened Options

  const HANDLERS_MAX := 16

  datatype Status = NoErr | Inval | NoRes

  /** A free entry has code 0 and no handler. */
  datatype Entry<H> = Entry(code: bv8, handler: Option<H>)

  predicate InStep<H>(t: seq<Entry<H>>) { forall i :: 0 <= i < |t| ==> (t[i].code == 0 <==> t[i].handler == None) }

  /** The look-up of eMBPoll: it ends at the first free entry. */
  function Dispatched<H>(t: seq<Entry<H>>, code: bv8): Option<H> {
    if t == [] || t[0].code == 0 then None
    else if t[0].code == code then t[0].handler
    else Dispatched(t[1..], code)
  }

  /** No free entry comes before a used one. */
  predicate NoHoles<H>(t: seq<Entry<H>>) { forall i, j :: 0 <= i < j < |t| && t[i].code == 0 ==> t[j].code == 0 }

  /** The first entry that is free or has the handler; the length if there is none. */
  function PlaceFor<H(==)>(t: seq<Entry<H>>, h: H): (k: nat)
    ensures k <= |t| && (k < |t| ==> t[k].handler == None || t[k].handler == Some(h))
    ensures forall i :: 0 <= i < k ==> t[i].handler != None && t[i].handler != Some(h)
  {
    if t == [] || t[0].handler == None || t[0].handler == Some(h) then 0 else 1 + PlaceFor(t[1..], h)
  }

  function PlaceOf<H>(t: seq<Entry<H>>, code: bv8): (k: nat)
    ensures k <= |t| && (k < |t| ==> t[k].code == code) && forall i :: 0 <= i < k ==> t[i].code != code
  {
    if t == [] || t[0].code == code then 0 else 1 + PlaceOf(t[1..], code)
  }

  function Registered<H(==)>(t: seq<Entry<H>>, code: bv8, h: H): (r: seq<Entry<H>>)
    ensures |r| == |t|
  {
    var k := PlaceFor(t, h);
    if k < |t| then t[k := Entry(code, Some(h))] else t
  }

  function Removed<H>(t: seq<Entry<H>>, code: bv8): (r: seq<Entry<H>>)
    ensures |r| == |t|
  {
    var k := PlaceOf(t, code);
    if k < |t| then t[k := Entry(0, None)] else t
  }

  /** While nothing is removed the used entries are a prefix. */
  lemma RegisteringMakesNoHoles<H>(t: seq<Entry<H>>, code: bv8, h: H)
    requires InStep(t) && NoHoles(t) && code != 0
    ensures InStep(Registered(t, code, h)) && NoHoles(Registered(t, code, h))
  {}

  lemma {:induction false} DispatchedIsFirst<H>(t: seq<Entry<H>>, code: bv8)
    requires InStep(t) && NoHoles(t) && code != 0
    ensures Dispatched(t, code) == if PlaceOf(t, code) < |t| then t[PlaceOf(t, code)].handler else None
  {
    if t != [] {
      if t[0].code == 0 {
        var k := PlaceOf(t, code);
      } else {
        DispatchedIsFirst(t[1..], code);
      }
    }
  }

  /** No handler has two entries. */
  predicate Unique<H(==)>(t: seq<Entry<H>>) {
    forall i, j :: 0 <= i < j < |t| && t[i].handler != None ==> t[i].handler != t[j].handler
  }

  lemma RegisteringKeepsUnique<H>(t: seq<Entry<H>>, code: bv8, h: H)
    requires InStep(t) && NoHoles(t) && Unique(t)
    ensures Unique(Registered(t, code, h))
  {
    var k := PlaceFor(t, h);
    if k < |t| {
      if t[k].handler == None { assert forall j :: k < j < |t| ==> t[j].code == 0; }
    }
  }

  /**
   * After registering, a handler is found under its code exactly if it has got an entry and no entry before that has
   * the code; every other code is handled as before except the one the handler was found under until then, if any.
   */
  lemma HandlersAfterRegistering<H>(t: seq<Entry<H>>, code: bv8, h: H, d: bv8)
    requires InStep(t) && NoHoles(t) && Unique(t) && code != 0 && d != 0
    ensures var r, k := Registered(t, code, h), PlaceFor(t, h);
            && (Dispatched(r, code) == Some(h) <==> k < |t| && PlaceOf(t, code) >= k)
            && (d != code ==> (Dispatched(r, d) == Dispatched(t, d) <==> !(PlaceOf(t, d) == k < |t|)))
  {
    var r, k := Registered(t, code, h), PlaceFor(t, h);
    RegisteringMakesNoHoles(t, code, h);
    DispatchedIsFirst(r, code);
    var q := PlaceOf(r, code);
    assert q < |t| && q != k ==> t[q] == r[q];
    if k < |t| { assert r[k].code == code; }
    if PlaceOf(t, code) < k { assert r[PlaceOf(t, code)] == t[PlaceOf(t, code)]; }
    if d != code {
      DispatchedIsFirst(t, d);
      DispatchedIsFirst(r, d);
      var p, p' := PlaceOf(t, d), PlaceOf(r, d);
      assert p < |t| && p != k ==> r[p] == t[p];
      assert p' < |t| && p' != k ==> t[p'] == r[p'];
    }
  }

  /** Removing a code leaves only the codes of the entries before it within reach. */
  lemma RemovalHidesTheRest<H>(t: seq<Entry<H>>, code: bv8, d: bv8)
    requires InStep(t) && NoHoles(t) && code != 0 && PlaceOf(t, code) < |t|
    ensures Dispatched(Removed(t, code), d) == Dispatched(t[..PlaceOf(t, code)], d)
    ensures NoHoles(Removed(t, code)) <==> forall j :: PlaceOf(t, code) < j < |t| ==> t[j].code == 0
  {
    var k := PlaceOf(t, code);
    StopsAtFree(Removed(t, code), k, d);
    assert Removed(t, code)[..k] == t[..k];
    if j :| k < j < |t| && t[j].code != 0 {
      assert Removed(t, code)[k].code == 0 && Removed(t, code)[j].code != 0;
    }
  }

  lemma {:induction false} StopsAtFree<H>(t: seq<Entry<H>>, k: nat, d: bv8)
    requires k < |t| && t[k].code == 0
    ensures Dispatched(t, d) == Dispatched(t[..k], d)
  {
    if k > 0 && t[0].code != 0 {
      assert t[..k][1..] == t[1..][..k - 1];
      StopsAtFree(t[1..], k - 1, d);
    }
  }

  class FunctionHandlers<H(==)> {
    const table: array<Entry<H>>

    ghost predicate Valid()
      reads table
    {
      table.Length == HANDLERS_MAX && InStep(table[..])
    }

    constructor ()
      ensures Valid() && NoHoles(table[..]) && Unique(table[..]) && fresh(table)
    {
      table := new Entry<H>[HANDLERS_MAX](_ => Entry(0, None));
    }

    /** Registers a handler for a code, or removes the code's first handler when none is given. */
    method RegisterCB(code: bv8, handler: Option<H>) returns (status: Status)
      requires Valid()
      modifies table
      ensures Valid()
      ensures code == 0 || code > 127 ==> status == Inval && table[..] == old(table[..])
      ensures 0 < code <= 127 && handler.Some? ==>
                && table[..] == Registered(old(table[..]), code, handler.value)
                && status == if PlaceFor(old(table[..]), handler.value) < HANDLERS_MAX then NoErr else NoRes
      ensures 0 < code <= 127 && handler.None? ==> table[..] == Removed(old(table[..]), code) && status == NoErr
    {
      if !(0 < code <= 127) { return Inval; }
      ghost var t := table[..];
      var i := 0;
      if handler.Some? {
        assert t[0..] == t;
        while i < HANDLERS_MAX
          invariant 0 <= i <= HANDLERS_MAX && table[..] == t && PlaceFor(t, handler.value) == i + PlaceFor(t[i..], handler.value)
        {
          if table[i].handler == None || table[i].handler == handler {
            table[i] := Entry(code, handler);
            break;
          }
          assert t[i..][1..] == t[i + 1..];
          i := i + 1;
        }
        return if i != HANDLERS_MAX then NoErr else NoRes;
      } else {
        assert t[0..] == t;
        while i < HANDLERS_MAX
          invariant 0 <= i <= HANDLERS_MAX && table[..] == t && PlaceOf(t, code) == i + PlaceOf(t[i..], code)
        {
          if table[i].code == code {
            table[i] := Entry(0, None);
            break;
          }
          assert t[i..][1..] == t[i + 1..];
          i := i + 1;
        }
        return NoErr;
      }
    }
  }
}
