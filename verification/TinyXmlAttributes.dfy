/** The attributes of a TinyXml element: a ring of nodes around a sentinel (tinyxml.cpp), refining a map. */
module TinyXmlAttributes {

  class Attribute {
    var name: string
    var value: string
    var prev: Attribute?
    var next: Attribute?

    constructor ()
      ensures name == "" && value == "" && prev == null && next == null
    {
      name, value, prev, next := "", "", null, null;
    }
  }

  /** The names and values of attributes in order. */
  ghost function Pairs(list: seq<Attribute>): (p: seq<(string, string)>)
    reads list`name, list`value
    ensures |p| == |list|
    ensures forall i :: 0 <= i < |list| ==> p[i] == (list[i].name, list[i].value)
  {
    if list == [] then [] else
      var last := list[|list| - 1];
      Pairs(list[..|list| - 1]) + [(last.name, last.value)]
  }

  predicate Unique(p: seq<(string, string)>) { forall i, j :: 0 <= i < j < |p| ==> p[i].0 != p[j].0 }

  function AsMap(p: seq<(string, string)>): map<string, string> {
    if p == [] then map[] else AsMap(p[..|p| - 1])[p[|p| - 1].0 := p[|p| - 1].1]
  }

  lemma {:induction false} MapHolds(p: seq<(string, string)>, i: nat)
    requires Unique(p) && i < |p|
    ensures p[i].0 in AsMap(p) && AsMap(p)[p[i].0] == p[i].1
  {
    if i < |p| - 1 { MapHolds(p[..|p| - 1], i); }
  }

  lemma {:induction false} MapOnlyHolds(p: seq<(string, string)>, name: string)
    requires name in AsMap(p)
    ensures exists i :: 0 <= i < |p| && p[i].0 == name
  {
    var k := |p| - 1;
    if p[k].0 != name {
      MapOnlyHolds(p[..k], name);
      var i :| 0 <= i < k && p[..k][i].0 == name;
      assert p[i].0 == name;
    }
  }

  lemma MapIsDetermined(p: seq<(string, string)>, m: map<string, string>)
    requires Unique(p)
    requires forall i :: 0 <= i < |p| ==> p[i].0 in m && m[p[i].0] == p[i].1
    requires forall n :: n in m ==> exists i :: 0 <= i < |p| && p[i].0 == n
    ensures AsMap(p) == m
  {
    forall n | n in AsMap(p) ensures n in m && m[n] == AsMap(p)[n] {
      MapOnlyHolds(p, n);
      var i :| 0 <= i < |p| && p[i].0 == n;
      MapHolds(p, i);
    }
    forall n | n in m ensures n in AsMap(p) {
      var i :| 0 <= i < |p| && p[i].0 == n;
      MapHolds(p, i);
    }
  }

  /** The i-th attribute of a ring; the sentinel stands before the first and after the last. */
  function Nth(sentinel: Attribute, list: seq<Attribute>, i: int): Attribute {
    if 0 <= i < |list| then list[i] else sentinel
  }

  ghost function Links(list: seq<Attribute>): (m: map<Attribute, (Attribute?, Attribute?)>)
    reads list`prev, list`next
    ensures m.Keys == set a | a in list
    ensures forall a :: a in list ==> m[a] == (a.prev, a.next)
  {
    map a | a in list :: (a.prev, a.next)
  }

  predicate RingOf(m: map<Attribute, (Attribute?, Attribute?)>, s: Attribute, list: seq<Attribute>) {
    && s in m && s !in list && m[s] == (Nth(s, list, |list| - 1), Nth(s, list, 0))
    && (forall i, j :: 0 <= i < j < |list| ==> list[i] != list[j])
    && (forall i :: 0 <= i < |list| ==> LinkedAt(m, s, list, i))
  }

  predicate LinkedAt(m: map<Attribute, (Attribute?, Attribute?)>, s: Attribute, list: seq<Attribute>, i: nat)
    requires i < |list|
  {
    list[i] in m && m[list[i]] == (Nth(s, list, i - 1), Nth(s, list, i + 1))
  }

  /** An attribute linked between the last one and the sentinel comes last. */
  lemma WithLast(m: map<Attribute, (Attribute?, Attribute?)>, n: map<Attribute, (Attribute?, Attribute?)>, s: Attribute,
                 list: seq<Attribute>, x: Attribute)
    requires RingOf(m, s, list) && x != s && x !in list && x in n && s in n
    requires var last := Nth(s, list, |list| - 1);
             && n[x] == (last, s)
             && forall a :: a in m && (a in list || a == s) ==>
                  a in n && n[a] == (if a == s then x else m[a].0, if a == last then x else m[a].1)
    ensures RingOf(n, s, list + [x])
  {
    var more := list + [x];
    forall i | 0 <= i < |more| ensures LinkedAt(n, s, more, i) {
      if i < |list| { assert more[i] == list[i] && LinkedAt(m, s, list, i); }
    }
  }

  /** Linking the neighbours of the k-th attribute to each other takes it out of the ring. */
  lemma WithoutKth(m: map<Attribute, (Attribute?, Attribute?)>, n: map<Attribute, (Attribute?, Attribute?)>, s: Attribute,
                   list: seq<Attribute>, k: nat)
    requires RingOf(m, s, list) && k < |list| && forall a :: a in m && a != list[k] ==> a in n
    requires var p, q := Nth(s, list, k - 1), Nth(s, list, k + 1);
             forall a :: a in m && a != list[k] ==>
               n[a] == (if a == q then p else m[a].0, if a == p then q else m[a].1)
    ensures RingOf(n, s, list[..k] + list[k + 1..])
  {
    var rest := list[..k] + list[k + 1..];
    forall i | 0 <= i < |rest| ensures LinkedAt(n, s, rest, i) {
      var j := if i < k then i else i + 1;
      assert rest[i] == list[j] && LinkedAt(m, s, list, j) && LinkedAt(m, s, list, k);
    }
  }

  class AttributeSet {
    const sentinel: Attribute
    /** The attributes in order. */
    ghost var list: seq<Attribute>

    /** The pointers run round the attributes and the sentinel, and no two attributes have the same name. */
    ghost predicate Valid()
      reads this, sentinel, list
    {
      Ring() && Unique(Pairs(list))
    }

    ghost predicate Ring()
      reads this, sentinel`next, sentinel`prev, list`next, list`prev
    {
      RingOf(Links(list + [sentinel]), sentinel, list)
    }

    ghost function Map(): map<string, string>
      reads this, list
    {
      AsMap(Pairs(list))
    }

    constructor ()
      ensures Valid() && list == [] && fresh(sentinel)
    {
      sentinel := new Attribute();
      list := [];
      new;
      sentinel.next := sentinel;
      sentinel.prev := sentinel;
    }

    /** The attribute of a name, or null. */
    method Find(name: string) returns (r: Attribute?, ghost k: nat)
      requires Valid()
      ensures r == null ==> name !in Map() && forall i :: 0 <= i < |list| ==> list[i].name != name
      ensures r != null ==> k < |list| && r == list[k] && r.name == name && name in Map() && Map()[name] == r.value
    {
      k := 0;
      var node := sentinel.next;
      while node != sentinel
        invariant k <= |list| && node == Nth(sentinel, list, k) && forall i :: 0 <= i < k ==> list[i].name != name
        decreases |list| - k
      {
        if node.name == name {
          MapHolds(Pairs(list), k);
          return node, k;
        }
        assert LinkedAt(Links(list + [sentinel]), sentinel, list, k);
        node, k := node.next, k + 1;
      }
      if name in Map() { MapOnlyHolds(Pairs(list), name); }
      return null, k;
    }

    method LinkLast(addMe: Attribute)
      requires Ring() && addMe != sentinel && addMe !in list
      modifies this`list, sentinel`next, sentinel`prev, addMe`next, addMe`prev, list`next
      ensures Ring() && list == old(list) + [addMe]
    {
      ghost var was, m := list, Links(list + [sentinel]);
      addMe.next := sentinel;
      addMe.prev := sentinel.prev;
      sentinel.prev.next := addMe;
      sentinel.prev := addMe;
      list := was + [addMe];
      WithLast(m, Links(list + [sentinel]), sentinel, was, addMe);
    }

    /** Puts an attribute at the end; its name must be new. */
    method Add(addMe: Attribute)
      requires Valid() && addMe != sentinel && addMe !in list && addMe.name !in Map()
      modifies this`list, sentinel`next, sentinel`prev, addMe`next, addMe`prev, list`next
      ensures Valid() && list == old(list) + [addMe]
      ensures Map() == old(Map())[addMe.name := addMe.value]
    {
      hide Ring, AsMap, Unique, Pairs;
      ghost var was := Pairs(list);
      forall i | 0 <= i < |list| ensures was[i].0 != addMe.name { MapHolds(was, i); }
      LinkLast(addMe);
      Appended(was, addMe.name, addMe.value);
      assert Pairs(list) == was + [(addMe.name, addMe.value)];
    }

    /** Takes an attribute that is in the ring out of it. */
    method Remove(removeMe: Attribute, ghost k: nat)
      requires Valid() && k < |list| && list[k] == removeMe
      modifies this`list, sentinel`next, sentinel`prev, list`next, list`prev
      ensures Valid() && list == old(list)[..k] + old(list)[k + 1..]
      ensures Map() == old(Map()) - {removeMe.name}
    {
      hide AsMap, Unique, Pairs;
      ghost var was := Pairs(list);
      ghost var j := 0;
      var node := sentinel.next;
      assert RingOf(Links(list + [sentinel]), sentinel, list);
      while node != removeMe
        invariant j <= k && node == Nth(sentinel, list, j)
        decreases k - j
      {
        assert LinkedAt(Links(list + [sentinel]), sentinel, list, j);
        node, j := node.next, j + 1;
      }
      Unlink(node, k);
      assert Pairs(list) == was[..k] + was[k + 1..];
      Removed(was, Pairs(list), k);
    }

    method Unlink(node: Attribute, ghost k: nat)
      requires Ring() && k < |list| && list[k] == node
      modifies this`list, sentinel`next, sentinel`prev, list`next, list`prev
      ensures Ring() && list == old(list)[..k] + old(list)[k + 1..]
    {
      ghost var was, m := list, Links(list + [sentinel]);
      assert LinkedAt(m, sentinel, list, k);
      node.prev.next := node.next;
      node.next.prev := node.prev;
      node.next := null;
      node.prev := null;
      list := was[..k] + was[k + 1..];
      WithoutKth(m, Links(list + [sentinel]), sentinel, was, k);
    }

    /** The attribute of a name, made when there is none; it is added before it gets its name. */
    method FindOrCreate(name: string) returns (r: Attribute?, aborted: bool)
      requires Valid()
      modifies this`list, sentinel`next, sentinel`prev, list`next
      ensures Valid()
      ensures aborted <==> name !in old(Map()) && "" in old(Map())
      ensures aborted ==> r == null && list == old(list) && Map() == old(Map())
      ensures !aborted ==>
                && r != null && r in list && r.name == name && (r in old(list) || fresh(r))
                && list == (if name in old(Map()) then old(list) else old(list) + [r])
                && Map() == (if name in old(Map()) then old(Map()) else old(Map())[name := ""])
    {
      hide Ring, AsMap, Unique, Pairs;
      var attrib, k := Find(name);
      if attrib == null {
        var other, j := Find("");
        if other != null { return null, true; }
        attrib := new Attribute();
        ghost var was := Pairs(list);
        Add(attrib);
        attrib.name := name;
        Appended(was, name, "");
        assert Pairs(list) == was + [(name, "")];
      }
      return attrib, false;
    }

    /** Sets an attribute's value, in its place when it exists and at the end when not. */
    method SetAttribute(name: string, value: string) returns (aborted: bool)
      requires Valid()
      modifies this`list, sentinel`next, sentinel`prev, list`next, list`value
      ensures Valid()
      ensures aborted <==> name !in old(Map()) && "" in old(Map())
      ensures Map() == if aborted then old(Map()) else old(Map())[name := value]
    {
      hide Ring, AsMap, Pairs;
      var attrib;
      attrib, aborted := FindOrCreate(name);
      if !aborted {
        ghost var was := Pairs(list);
        ghost var k :| 0 <= k < |list| && list[k] == attrib;
        forall j | 0 <= j < |list| && j != k ensures list[j] != attrib { assert was[j].0 != was[k].0; }
        attrib.value := value;
        assert Pairs(list) == was[k := (name, value)];
        Updated(was, k, value);
      }
    }

    /** The value of an attribute, if there is one. */
    method GetAttribute(name: string) returns (found: bool, value: string)
      requires Valid()
      ensures found <==> name in Map()
      ensures found ==> value == Map()[name]
    {
      var node, k := Find(name);
      if node != null { return true, node.value; }
      return false, "";
    }

    method RemoveAttribute(name: string)
      requires Valid()
      modifies this`list, sentinel`next, sentinel`prev, list`next, list`prev
      ensures Valid() && Map() == old(Map()) - {name}
    {
      hide Ring, AsMap, Unique, Pairs;
      var node, k := Find(name);
      if node != null { Remove(node, k); }
    }
  }

  lemma Appended(p: seq<(string, string)>, name: string, value: string)
    requires Unique(p) && (forall i :: 0 <= i < |p| ==> p[i].0 != name)
    ensures Unique(p + [(name, value)]) && AsMap(p + [(name, value)]) == AsMap(p)[name := value]
  {
    assert (p + [(name, value)])[..|p|] == p;
  }

  lemma Updated(p: seq<(string, string)>, k: nat, value: string)
    requires Unique(p) && k < |p|
    ensures Unique(p[k := (p[k].0, value)]) && AsMap(p[k := (p[k].0, value)]) == AsMap(p)[p[k].0 := value]
  {
    var q, m := p[k := (p[k].0, value)], AsMap(p)[p[k].0 := value];
    forall i | 0 <= i < |q| ensures q[i].0 in m && m[q[i].0] == q[i].1 { MapHolds(p, i); }
    forall n | n in m ensures exists i :: 0 <= i < |q| && q[i].0 == n {
      if n != p[k].0 {
        MapOnlyHolds(p, n);
        var i :| 0 <= i < |p| && p[i].0 == n;
        assert q[i].0 == n;
      } else {
        assert q[k].0 == n;
      }
    }
    MapIsDetermined(q, m);
  }

  lemma Removed(p: seq<(string, string)>, q: seq<(string, string)>, k: nat)
    requires Unique(p) && k < |p| && q == p[..k] + p[k + 1..]
    ensures Unique(q) && AsMap(q) == AsMap(p) - {p[k].0}
  {
    forall i, j | 0 <= i < j < |q| ensures q[i].0 != q[j].0 {
      assert q[i] == p[if i < k then i else i + 1] && q[j] == p[if j < k then j else j + 1];
    }
    var m := AsMap(p) - {p[k].0};
    forall i | 0 <= i < |q| ensures q[i].0 in m && m[q[i].0] == q[i].1 {
      MapHolds(p, if i < k then i else i + 1);
    }
    forall n | n in m ensures exists i :: 0 <= i < |q| && q[i].0 == n {
      MapOnlyHolds(p, n);
      var i :| 0 <= i < |p| && p[i].0 == n;
      assert q[if i < k then i else i - 1].0 == n;
    }
    MapIsDetermined(q, m);
  }
}
