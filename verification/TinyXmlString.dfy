/**
 * TinyXml's own string (tinystr.cpp, tinystr.h): a buffer with a capacity and a terminator, refining a sequence of
 * characters, and what growing it costs.
 */
module TinyXmlString {

  const NUL: char := '\0'

  // ----- The cost of growing -----

  /** Length, capacity and the characters copied so far. */
  datatype Cost = Cost(size: nat, capacity: nat, copied: nat)

  /** Appending n characters: a full buffer is copied to one with room for as much again as it had. */
  function Grown(c: Cost, n: nat): Cost {
    if c.size + n > c.capacity then Cost(c.size + n, c.size + n + c.capacity, c.copied + c.size + n)
    else Cost(c.size + n, c.capacity, c.copied + n)
  }

  function GrownBy(c: Cost, ns: seq<nat>): Cost {
    if ns == [] then c else Grown(GrownBy(c, ns[..|ns| - 1]), ns[|ns| - 1])
  }

  function Total(ns: seq<nat>): nat { if ns == [] then 0 else Total(ns[..|ns| - 1]) + ns[|ns| - 1] }

  /** What has been copied is paid for by what there is. */
  predicate Paid(c: Cost) { c.copied <= c.size + c.capacity && c.capacity <= 2 * c.size }

  lemma {:induction false} AppendsArePaid(c: Cost, ns: seq<nat>)
    requires Paid(c)
    ensures Paid(GrownBy(c, ns)) && GrownBy(c, ns).size == c.size + Total(ns)
  {
    if ns != [] { AppendsArePaid(c, ns[..|ns| - 1]); }
  }

  /** Building a string by appending alone, however it is cut, copies at most three times its length. */
  lemma CopiesAreBounded(ns: seq<nat>)
    ensures GrownBy(Cost(0, 0, 0), ns).copied <= 3 * Total(ns)
  {
    AppendsArePaid(Cost(0, 0, 0), ns);
  }

  // ----- The string -----

  class TinyString {
    /** The characters and room for more, and one place for the terminator. */
    var str: array<char>
    var size: nat
    /** Characters copied between buffers or into this one. */
    ghost var copied: nat

    ghost predicate Valid()
      reads this, str
    {
      size < str.Length && str[size] == NUL
    }

    ghost function Contents(): seq<char>
      requires Valid()
      reads this, str
    {
      str[..size]
    }

    function Capacity(): nat
      requires str.Length > 0
      reads this
    {
      str.Length - 1
    }

    ghost function CostNow(): Cost
      requires Valid()
      reads this, str
    {
      Cost(size, Capacity(), copied)
    }

    constructor ()
      ensures Valid() && Contents() == [] && CostNow() == Cost(0, 0, 0) && fresh(str)
    {
      str := new char[1];
      size, copied := 0, 0;
      new;
      str[0] := NUL;
    }

    method SetSize(n: nat)
      requires n < str.Length
      modifies this`size, str
      ensures size == n && Valid() && str[..n] == old(str[..n])
    {
      size := n;
      str[n] := NUL;
    }

    /** A new buffer with the first n characters of another. */
    method Copy(from: array<char>, n: nat, capacity: nat) returns (rep: array<char>)
      requires n <= from.Length && n <= capacity
      modifies this`copied
      ensures fresh(rep) && rep.Length == capacity + 1 && rep[..n] == from[..n] && rep[n] == NUL
      ensures copied == old(copied) + n
    {
      rep := new char[capacity + 1];
      forall i | 0 <= i < n { rep[i] := from[i]; }
      rep[n] := NUL;
      copied := copied + n;
    }

    /** Makes room without touching the contents. */
    method Reserve(cap: nat)
      requires Valid()
      modifies this
      ensures Valid() && Contents() == old(Contents()) && (str == old(str) || fresh(str))
      ensures Capacity() == if cap > old(Capacity()) then cap else old(Capacity())
      ensures copied == old(copied) + if cap > old(Capacity()) then size else 0
    {
      if cap > Capacity() {
        str := Copy(str, size, cap);
      }
    }

    /** Replaces the contents, also by a part of themselves; a buffer far too big is given up for one that fits. */
    method Assign(src: array<char>, len: nat)
      requires Valid() && len <= src.Length
      modifies this, str
      ensures Valid() && Contents() == old(src[..len]) && (str == old(str) || fresh(str))
      ensures Capacity() == if len > old(Capacity()) || old(Capacity()) > 3 * (len + 8) then len else old(Capacity())
      ensures copied == old(copied) + len
    {
      var cap := Capacity();
      if len > cap || cap > 3 * (len + 8) {
        str := Copy(src, len, len);
        size := len;
      } else {
        forall i | 0 <= i < len { str[i] := src[i]; }
        copied := copied + len;
        SetSize(len);
      }
    }

    /**
     * Appends characters, also the string's own. These are read from a buffer already given up exactly if the string has
     * to grow for them, and nothing is said of what happens then.
     */
    method Append(src: array<char>, len: nat) returns (dangling: bool)
      requires Valid() && len <= src.Length
      modifies this, str
      ensures Valid() && (str == old(str) || fresh(str))
      ensures dangling <==> src == old(str) && old(size) + len > old(Capacity())
      ensures !dangling ==> Contents() == old(Contents()) + old(src[..len]) && CostNow() == Grown(old(CostNow()), len)
    {
      ghost var was, added := Contents(), src[..len];
      var newSize := size + len;
      var data := str;
      if newSize > Capacity() { Reserve(newSize + Capacity()); }
      if src == data && str != data { return true; }
      assert src[..len] == added;
      forall i | 0 <= i < len { str[size + i] := src[i]; }
      copied := copied + len;
      SetSize(newSize);
      assert Contents() == was + added;
      return false;
    }
  }
}
