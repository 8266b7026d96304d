/**
 * The TinyXml document tree (tinyxml.cpp): child lists of doubly linked siblings with a parent and two end pointers,
 * refining sequences of children, and deep copies of trees.
 */
module TinyXmlNodes {

  datatype NodeType = Document | Element | Comment | Unknown | Text | Declaration

  /** What a node's fields are at one moment, and the children in order. */
  datatype Fields = Fields(value: string, parent: Node?, prev: Node?, next: Node?, first: Node?, last: Node?,
                           children: seq<Node>)

  /** The i-th node of a sequence, or null beyond its ends. */
  function At(s: seq<Node>, i: int): Node? { if 0 <= i < |s| then s[i] else null }

  function Opt(n: Node?): seq<Node> { if n == null then [] else [n] }

  /** The child's own pointers say that it is the i-th child of p. */
  predicate Placed(m: map<Node, Fields>, p: Node, i: nat)
    requires p in m && i < |m[p].children|
  {
    var c := m[p].children[i];
    && c in m && m[c].parent == p
    && m[c].prev == At(m[p].children, i - 1) && m[c].next == At(m[p].children, i + 1)
  }

  /** The pointers of p's list spell out its children. */
  predicate Linked(m: map<Node, Fields>, p: Node)
    requires p in m
  {
    && m[p].first == At(m[p].children, 0) && m[p].last == At(m[p].children, |m[p].children| - 1)
    && forall i :: 0 <= i < |m[p].children| ==> Placed(m, p, i)
  }

  /** A node that has a parent is another node's child. */
  predicate Attached(m: map<Node, Fields>, n: Node)
    requires n in m
  {
    m[n].parent != null ==> m[n].parent in m && m[n].parent != n && n in m[m[n].parent].children
  }

  predicate Consistent(m: map<Node, Fields>) { forall n :: n in m ==> Linked(m, n) && Attached(m, n) }

  /** The same, except that x is in no list yet, whatever its parent pointer. */
  predicate ConsistentBut(m: map<Node, Fields>, x: Node) {
    forall n :: n in m ==> Linked(m, n) && x !in m[n].children && (n != x ==> Attached(m, n))
  }

  /** A child is in one place only: the chains of next pointers from two places would have to end together. */
  lemma {:induction false} PlacesDiffer(m: map<Node, Fields>, p: Node, i: nat, j: nat)
    requires p in m && Linked(m, p) && i < j < |m[p].children|
    ensures m[p].children[i] != m[p].children[j]
    decreases |m[p].children| - j
  {
    assert Placed(m, p, i) && Placed(m, p, j);
    if j + 1 < |m[p].children| { PlacesDiffer(m, p, i + 1, j + 1); }
  }

  /** A change of p's list: between front and back one child at most goes and one node at most comes. */
  datatype Edit = Edit(p: Node, front: seq<Node>, gone: Node?, come: Node?, back: seq<Node>) {
    function Before(): seq<Node> { front + Opt(gone) + back }

    function After(): seq<Node> { front + Opt(come) + back }

    function Left(): Node? { At(front, |front| - 1) }

    function Right(): Node? { At(back, 0) }
  }

  /** The pointers change as far as they must, at the node that comes, its two neighbours, and p. */
  ghost predicate Spliced(m: map<Node, Fields>, n: map<Node, Fields>, e: Edit) {
    && n.Keys == m.Keys && e.p in m && m[e.p].children == e.Before()
    && n[e.p] == m[e.p].(children := e.After(), first := At(e.After(), 0), last := At(e.After(), |e.After()| - 1))
    && (e.come == null ||
          (e.come in m && e.come != e.p && n[e.come] == m[e.come].(parent := e.p, prev := e.Left(), next := e.Right())))
    && (e.Left() == null ||
          (e.Left() in m && n[e.Left()] == m[e.Left()].(next := if e.come != null then e.come else e.Right())))
    && (e.Right() == null ||
          (e.Right() in m && n[e.Right()] == m[e.Right()].(prev := if e.come != null then e.come else e.Left())))
    && (e.gone == null ||
          (e.gone in m && n[e.gone] == m[e.gone].(parent := null, prev := n[e.gone].prev, next := n[e.gone].next)))
    && forall x :: x in m && x != e.p && x != e.come && x != e.gone && x != e.Left() && x != e.Right() ==> n[x] == m[x]
  }

  /** Before the change all is in order, and the node that comes is in no list. */
  predicate Ready(m: map<Node, Fields>, e: Edit) {
    if e.come != null then ConsistentBut(m, e.come) else Consistent(m)
  }

  /** Such a change keeps every list and every parent pointer right. */
  lemma SpliceKeepsConsistent(m: map<Node, Fields>, n: map<Node, Fields>, e: Edit)
    requires Ready(m, e) && Spliced(m, n, e)
    ensures Consistent(n)
  {
    hide Spliced, Linked, Attached;
    OwnKeys(m, n, e);
    forall x | x in n ensures Linked(n, x) && Attached(n, x) {
      if x == e.p {
        SplicedList(m, n, e);
      } else {
        OtherList(m, n, e, x);
      }
      StaysAttached(m, n, e, x);
    }
  }

  lemma OwnKeys(m: map<Node, Fields>, n: map<Node, Fields>, e: Edit)
    requires Spliced(m, n, e)
    ensures n.Keys == m.Keys && e.p in m && m[e.p].children == e.Before() && n[e.p].children == e.After()
    ensures n[e.p].first == At(e.After(), 0) && n[e.p].last == At(e.After(), |e.After()| - 1)
    ensures n[e.p].value == m[e.p].value && n[e.p].parent == m[e.p].parent
  {}

  /** Child k of p, among those that stay: where it was, and what it is not. */
  lemma Stayed(m: map<Node, Fields>, n: map<Node, Fields>, e: Edit, j: nat)
    requires Ready(m, e) && Spliced(m, n, e) && j < |e.Before()| && !(e.gone != null && j == |e.front|)
    ensures var c := e.Before()[j];
            && c in m && c != e.p && c != e.gone && c != e.come && n[c].parent == e.p
            && n[c].prev == (if j == |e.front| + |Opt(e.gone)| then if e.come != null then e.come else e.Left() else m[c].prev)
            && n[c].next == (if j + 1 == |e.front| then if e.come != null then e.come else e.Right() else m[c].next)
  {
    var k := |e.front|;
    assert Placed(m, e.p, j);
    if e.gone != null { Apart(m, e.p, j, k); }
    if k > 0 { Apart(m, e.p, j, k - 1); }
    if e.back != [] { Apart(m, e.p, j, k + |Opt(e.gone)|); }
    assert Attached(m, e.Before()[j]);
  }

  lemma Apart(m: map<Node, Fields>, p: Node, i: nat, j: nat)
    requires p in m && Linked(m, p) && i < |m[p].children| && j < |m[p].children|
    ensures m[p].children[i] == m[p].children[j] ==> i == j
  {
    if i < j { PlacesDiffer(m, p, i, j); } else if j < i { PlacesDiffer(m, p, j, i); }
  }

  lemma SplicedList(m: map<Node, Fields>, n: map<Node, Fields>, e: Edit)
    requires Ready(m, e) && Spliced(m, n, e)
    ensures Linked(n, e.p)
  {
    hide Ready, Linked, Attached, Spliced, Placed;
    OwnKeys(m, n, e);
    forall i | 0 <= i < |e.After()| ensures Placed(n, e.p, i) {
      if e.come != null && i == |e.front| { ComesPlaced(m, n, e); } else { StaysPlaced(m, n, e, i); }
    }
    Ends(n, e.p);
  }

  lemma ComesPlaced(m: map<Node, Fields>, n: map<Node, Fields>, e: Edit)
    requires Ready(m, e) && Spliced(m, n, e) && e.come != null
    ensures n[e.p].children == e.After() && Placed(n, e.p, |e.front|)
  {}

  lemma StaysPlaced(m: map<Node, Fields>, n: map<Node, Fields>, e: Edit, i: nat)
    requires Ready(m, e) && Spliced(m, n, e) && i < |e.After()| && !(e.come != null && i == |e.front|)
    ensures e.p in n && n[e.p].children == e.After() && Placed(n, e.p, i)
  {
    hide Ready, Linked, Attached, Spliced;
    OwnKeys(m, n, e);
    var j := if i < |e.front| then i else i - |Opt(e.come)| + |Opt(e.gone)|;
    WasPlaced(m, e, j);
    Stayed(m, n, e, j);
    Neighbours(e, i, j);
  }

  /** Where a child that stays is in the new list, and who its neighbours there are. */
  lemma Neighbours(e: Edit, i: nat, j: nat)
    requires i < |e.After()| && !(e.come != null && i == |e.front|)
    requires j == if i < |e.front| then i else i - |Opt(e.come)| + |Opt(e.gone)|
    ensures j < |e.Before()| && e.After()[i] == e.Before()[j]
    ensures At(e.After(), i - 1)
         == (if j == |e.front| + |Opt(e.gone)| then if e.come != null then e.come else e.Left() else At(e.Before(), j - 1))
    ensures At(e.After(), i + 1)
         == (if j + 1 == |e.front| then if e.come != null then e.come else e.Right() else At(e.Before(), j + 1))
  {}

  lemma WasPlaced(m: map<Node, Fields>, e: Edit, j: nat)
    requires Ready(m, e) && e.p in m && m[e.p].children == e.Before() && j < |e.Before()|
    ensures Placed(m, e.p, j)
  {}

  lemma Ends(n: map<Node, Fields>, p: Node)
    requires p in n && n[p].first == At(n[p].children, 0) && n[p].last == At(n[p].children, |n[p].children| - 1)
    requires forall i :: 0 <= i < |n[p].children| ==> Placed(n, p, i)
    ensures Linked(n, p)
  {}

  /** A node of another list is none of those whose sibling or parent pointers change. */
  lemma OtherList(m: map<Node, Fields>, n: map<Node, Fields>, e: Edit, x: Node)
    requires Ready(m, e) && Spliced(m, n, e) && x in m && x != e.p
    ensures Linked(n, x)
  {
    hide Ready, Linked, Spliced, Placed;
    OtherEnds(m, n, e, x);
    forall i | 0 <= i < |n[x].children| ensures Placed(n, x, i) { ChildOfOther(m, n, e, x, i); }
    Ends(n, x);
  }

  lemma OtherEnds(m: map<Node, Fields>, n: map<Node, Fields>, e: Edit, x: Node)
    requires Ready(m, e) && Spliced(m, n, e) && x in m && x != e.p
    ensures n.Keys == m.Keys && n[x].children == m[x].children
    ensures n[x].first == At(m[x].children, 0) && n[x].last == At(m[x].children, |m[x].children| - 1)
  {
    assert Linked(m, x);
  }

  lemma ChildOfOther(m: map<Node, Fields>, n: map<Node, Fields>, e: Edit, x: Node, i: nat)
    requires Ready(m, e) && Spliced(m, n, e) && x in m && x != e.p && n.Keys == m.Keys
    requires n[x].children == m[x].children && i < |m[x].children|
    ensures Placed(n, x, i)
  {
    var k, c := |e.front|, m[x].children[i];
    assert Linked(m, x) && Placed(m, x, i);
    SiblingsAreOwn(m, e);
    assert c != e.come && c != e.Left() && c != e.Right() && c != e.gone;
  }

  lemma SiblingsAreOwn(m: map<Node, Fields>, e: Edit)
    requires Ready(m, e) && e.p in m && m[e.p].children == e.Before()
    ensures e.Left() != null ==> e.Left() in m && m[e.Left()].parent == e.p
    ensures e.Right() != null ==> e.Right() in m && m[e.Right()].parent == e.p
    ensures e.gone != null ==> e.gone in m && m[e.gone].parent == e.p
  {
    hide Ready;
    var k := |e.front|;
    if k > 0 { WasPlaced(m, e, k - 1); }
    if e.gone != null { WasPlaced(m, e, k); }
    if e.back != [] { WasPlaced(m, e, k + |Opt(e.gone)|); }
  }

  lemma StaysAttached(m: map<Node, Fields>, n: map<Node, Fields>, e: Edit, x: Node)
    requires Ready(m, e) && Spliced(m, n, e) && x in m
    ensures Attached(n, x)
  {}

  // ----- Trees -----

  /** What a node and all below it amount to. */
  datatype Tree = Tree(nodeType: NodeType, value: string, kids: seq<Tree>)

  predicate IsTree(m: map<Node, Fields>, n: Node, t: Tree)
    decreases t
  {
    && n in m && n.nodeType == t.nodeType && m[n].value == t.value && |m[n].children| == |t.kids|
    && forall i :: 0 <= i < |t.kids| ==> t.kids[i].nodeType != Document && IsTree(m, m[n].children[i], t.kids[i])
  }

  predicate BringsChildren(t: Tree) { t.nodeType == Element || t.nodeType == Document }

  /** What cloning makes of a tree. */
  function Cloned(t: Tree): Tree {
    if BringsChildren(t) then t.(kids := seq(|t.kids|, i requires 0 <= i < |t.kids| => Cloned(t.kids[i]))) else t.(kids := [])
  }

  /** Only elements and documents have children. */
  predicate Proper(t: Tree) {
    (t.kids != [] ==> t.nodeType == Element || t.nodeType == Document) && forall i :: 0 <= i < |t.kids| ==> Proper(t.kids[i])
  }

  /** A clone is equal to its original exactly if in that only elements and documents have children. */
  lemma {:induction false} ClonedIsEqual(t: Tree)
    ensures Cloned(t) == t <==> Proper(t)
  {
    forall i | 0 <= i < |t.kids| ensures Cloned(t.kids[i]) == t.kids[i] <==> Proper(t.kids[i]) { ClonedIsEqual(t.kids[i]); }
    if Proper(t) && BringsChildren(t) {
      assert Cloned(t).kids == t.kids;
    }
    if Cloned(t) == t && BringsChildren(t) {
      forall i | 0 <= i < |t.kids| ensures Proper(t.kids[i]) { assert Cloned(t).kids[i] == t.kids[i]; }
    }
  }

  /** Only p's children differ among the nodes of m; no value does. */
  predicate SameBut(m: map<Node, Fields>, n: map<Node, Fields>, p: Node) {
    forall y :: y in m ==> y in n && n[y].value == m[y].value && (y != p ==> n[y].children == m[y].children)
  }

  /** The edit is done, and what comes with it is this tree. */
  predicate Grafting(m: map<Node, Fields>, n: map<Node, Fields>, e: Edit, grafts: seq<Tree>) {
    && e.p in m && e.p in n && m[e.p].children == e.Before() && n[e.p].children == e.After() && SameBut(m, n, e.p)
    && |grafts| == |Opt(e.come)|
    && (e.come != null ==> grafts[0].nodeType != Document && IsTree(n, e.come, grafts[0]))
  }

  /** The tree of x after an edit: where p is in it, trees come in between front and back. */
  function Grafted(m: map<Node, Fields>, x: Node, t: Tree, e: Edit, grafts: seq<Tree>): (u: Tree)
    requires IsTree(m, x, t) && e.p in m && m[e.p].children == e.Before()
    ensures u.nodeType == t.nodeType && u.value == t.value
    decreases t
  {
    if x == e.p then t.(kids := t.kids[..|e.front|] + grafts + t.kids[|e.front| + |Opt(e.gone)|..])
    else
      t.(kids := seq(|t.kids|, i requires 0 <= i < |t.kids| => Grafted(m, m[x].children[i], t.kids[i], e, grafts)))
  }

  /** Whatever was a tree is the grafted one afterwards. */
  ghost predicate TreesFollow(m: map<Node, Fields>, n: map<Node, Fields>, e: Edit, grafts: seq<Tree>) {
    e.p in m && m[e.p].children == e.Before() &&
    forall x, t :: x in m && IsTree(m, x, t) ==> IsTree(n, x, Grafted(m, x, t, e, grafts))
  }

  /** A node of a tree. */
  predicate Within(m: map<Node, Fields>, x: Node, t: Tree, y: Node)
    requires IsTree(m, x, t)
    decreases t
  {
    x == y || exists i :: 0 <= i < |t.kids| && Within(m, m[x].children[i], t.kids[i], y)
  }

  /** A node amounts to one tree only. */
  lemma {:induction false} OneTree(m: map<Node, Fields>, x: Node, t: Tree, u: Tree)
    requires IsTree(m, x, t) && IsTree(m, x, u)
    ensures t == u
    decreases t
  {
    forall i | 0 <= i < |t.kids| ensures t.kids[i] == u.kids[i] { OneTree(m, m[x].children[i], t.kids[i], u.kids[i]); }
    assert t.kids == u.kids;
  }

  /** A node of a tree amounts to a part of it. */
  lemma {:induction false} PartOf(m: map<Node, Fields>, x: Node, t: Tree, y: Node) returns (u: Tree)
    requires IsTree(m, x, t) && Within(m, x, t, y)
    ensures IsTree(m, y, u) && (u == t || u < t)
    decreases t
  {
    if x == y { return t; }
    var i :| 0 <= i < |t.kids| && Within(m, m[x].children[i], t.kids[i], y);
    u := PartOf(m, m[x].children[i], t.kids[i], y);
  }

  /** No node is below itself. */
  lemma NotBelowItself(m: map<Node, Fields>, x: Node, t: Tree, i: nat)
    requires IsTree(m, x, t) && i < |t.kids|
    ensures !Within(m, m[x].children[i], t.kids[i], x)
  {
    if Within(m, m[x].children[i], t.kids[i], x) {
      var u := PartOf(m, m[x].children[i], t.kids[i], x);
      OneTree(m, x, t, u);
      assert false;
    }
  }

  /** A tree without p stays as it is. */
  lemma {:induction false} TreeStays(m: map<Node, Fields>, n: map<Node, Fields>, p: Node, x: Node, t: Tree)
    requires SameBut(m, n, p) && IsTree(m, x, t) && !Within(m, x, t, p)
    ensures IsTree(n, x, t)
    decreases t
  {
    forall i | 0 <= i < |t.kids| ensures IsTree(n, m[x].children[i], t.kids[i]) {
      TreeStays(m, n, p, m[x].children[i], t.kids[i]);
    }
  }

  lemma {:induction false} TreeFollows(m: map<Node, Fields>, n: map<Node, Fields>, e: Edit, grafts: seq<Tree>, x: Node, t: Tree)
    requires Grafting(m, n, e, grafts) && IsTree(m, x, t)
    ensures IsTree(n, x, Grafted(m, x, t, e, grafts))
    decreases t
  {
    if x == e.p {
      ParentFollows(m, n, e, grafts, t);
    } else {
      forall i | 0 <= i < |t.kids| ensures IsTree(n, m[x].children[i], Grafted(m, m[x].children[i], t.kids[i], e, grafts)) {
        TreeFollows(m, n, e, grafts, m[x].children[i], t.kids[i]);
      }
      OtherFollows(m, n, e, grafts, x, t);
    }
  }

  lemma OtherFollows(m: map<Node, Fields>, n: map<Node, Fields>, e: Edit, grafts: seq<Tree>, x: Node, t: Tree)
    requires Grafting(m, n, e, grafts) && IsTree(m, x, t) && x != e.p
    requires forall i :: 0 <= i < |t.kids| ==> IsTree(n, m[x].children[i], Grafted(m, m[x].children[i], t.kids[i], e, grafts))
    ensures IsTree(n, x, Grafted(m, x, t, e, grafts))
  {}

  lemma ParentFollows(m: map<Node, Fields>, n: map<Node, Fields>, e: Edit, grafts: seq<Tree>, t: Tree)
    requires Grafting(m, n, e, grafts) && IsTree(m, e.p, t)
    ensures IsTree(n, e.p, Grafted(m, e.p, t, e, grafts))
  {
    var u := Grafted(m, e.p, t, e, grafts);
    forall i | 0 <= i < |u.kids|
      ensures i < |n[e.p].children| && u.kids[i].nodeType != Document && IsTree(n, n[e.p].children[i], u.kids[i])
    {
      if i < |e.front| {
        ChildStays(m, n, e, grafts, t, i);
      } else if e.come == null || i != |e.front| {
        ChildStays(m, n, e, grafts, t, i - |Opt(e.come)| + |Opt(e.gone)|);
      }
    }
  }

  lemma ChildStays(m: map<Node, Fields>, n: map<Node, Fields>, e: Edit, grafts: seq<Tree>, t: Tree, j: nat)
    requires Grafting(m, n, e, grafts) && IsTree(m, e.p, t) && j < |t.kids|
    ensures j < |m[e.p].children| && t.kids[j].nodeType != Document && IsTree(n, m[e.p].children[j], t.kids[j])
  {
    NotBelowItself(m, e.p, t, j);
    TreeStays(m, n, e.p, m[e.p].children[j], t.kids[j]);
  }

  /** An edit that brings in a tree changes every tree in just this way. */
  lemma GraftingGrafts(m: map<Node, Fields>, n: map<Node, Fields>, e: Edit, grafts: seq<Tree>)
    requires Grafting(m, n, e, grafts)
    ensures TreesFollow(m, n, e, grafts)
  {
    hide IsTree, Grafted;
    forall x, t | x in m && IsTree(m, x, t) ensures IsTree(n, x, Grafted(m, x, t, e, grafts)) { TreeFollows(m, n, e, grafts, x, t); }
  }

  /** What a path led to before the change of p, it leads to afterwards, if it is p. */
  lemma {:induction false} StillAbove(m: map<Node, Fields>, n: map<Node, Fields>, p: Node, x: Node, t: Tree, u: Tree) returns (v: Tree)
    requires SameBut(m, n, p) && IsTree(m, x, t) && Within(m, x, t, p) && IsTree(n, x, u)
    ensures IsTree(n, p, v) && (v == u || v < u)
    decreases t
  {
    if x == p { return u; }
    var i :| 0 <= i < |t.kids| && Within(m, m[x].children[i], t.kids[i], p);
    v := StillAbove(m, n, p, m[x].children[i], t.kids[i], u.kids[i]);
  }

  /** Linking a tree in leaves its new parent the root of a tree exactly if that was not in it, and then as expected. */
  lemma StaysTreeExactly(m: map<Node, Fields>, n: map<Node, Fields>, e: Edit, t: Tree, u: Tree)
    requires Ready(m, e) && Spliced(m, n, e) && e.come != null && u.nodeType != Document
    requires IsTree(m, e.p, t) && IsTree(m, e.come, u)
    ensures (exists v :: IsTree(n, e.p, v)) <==> !Within(m, e.come, u, e.p)
    ensures !Within(m, e.come, u, e.p) ==> TreesFollow(m, n, e, [u])
  {
    hide Ready, Spliced, IsTree, Within, Grafted, TreesFollow, SameBut;
    OwnKeys(m, n, e);
    SplicedSameBut(m, n, e);
    if Within(m, e.come, u, e.p) {
      forall v ensures !IsTree(n, e.p, v) {
        if IsTree(n, e.p, v) {
          ChildTree(n, e.p, v, |e.front|);
          var w := StillAbove(m, n, e.p, e.come, u, v.kids[|e.front|]);
          OneTree(n, e.p, v, w);
          assert false;
        }
      }
    } else {
      TreeStays(m, n, e.p, e.come, u);
      GraftingGrafts(m, n, e, [u]);
      TreeFollows(m, n, e, [u], e.p, t);
      assert IsTree(n, e.p, Grafted(m, e.p, t, e, [u]));
    }
  }

  lemma ChildTree(n: map<Node, Fields>, p: Node, v: Tree, k: nat)
    requires IsTree(n, p, v) && k < |n[p].children|
    ensures k < |v.kids| && IsTree(n, n[p].children[k], v.kids[k]) && v.kids[k] < v
  {}

  lemma Removed(m: map<Node, Fields>, n: map<Node, Fields>, e: Edit)
    requires Ready(m, e) && Spliced(m, n, e) && e.come == null
    ensures TreesFollow(m, n, e, [])
  {
    hide Ready, Spliced, TreesFollow;
    OwnKeys(m, n, e);
    SplicedSameBut(m, n, e);
    GraftingGrafts(m, n, e, []);
  }

  lemma SplicedSameBut(m: map<Node, Fields>, n: map<Node, Fields>, e: Edit)
    requires Ready(m, e) && Spliced(m, n, e)
    ensures SameBut(m, n, e.p)
  {
    hide Ready, Spliced;
    SpliceChanges(m, n, e);
  }

  // ----- Linking a node at the end -----

  /** What the assignments leave, with cs for the children of p. */
  function AtEnd(m: map<Node, Fields>, p: Node, node: Node, cs: seq<Node>): (n: map<Node, Fields>)
    requires p in m && node in m
    ensures n.Keys == m.Keys
  {
    map x | x in m :: EndFields(m[x], x, p, node, m[p].last, cs)
  }

  function EndFields(f: Fields, x: Node, p: Node, node: Node, last: Node?, cs: seq<Node>): Fields {
    var own := if x == node then f.(parent := p, prev := last, next := null) else f;
    var g := if x == last then own.(next := node) else own;
    if x == p then g.(first := if last == null then node else g.first, last := node, children := cs) else g
  }

  /** Of a node in no list this makes the last child. */
  lemma AtEndIsSplice(m: map<Node, Fields>, p: Node, node: Node)
    requires ConsistentBut(m, node) && p in m && node in m && node != p
    ensures var e := Edit(p, m[p].children, null, node, []);
            Spliced(m, AtEnd(m, p, node, e.After()), e)
  {
    hide ConsistentBut;
    var e := Edit(p, m[p].children, null, node, []);
    EditPlaces(m, e);
    NewEnds(e);
  }

  /** From p's first child on, the next pointers lead to the same nodes as far as the one linked again. */
  lemma {:induction false} SameWay(m: map<Node, Fields>, p: Node, k: nat, cs: seq<Node>, i: nat)
    requires Consistent(m) && p in m && i <= k < |m[p].children| && m[p].children[k] in m
    requires AtEnd(m, p, m[p].children[k], cs).Keys == m.Keys && Linked(AtEnd(m, p, m[p].children[k], cs), p)
    ensures i < |cs| && cs[i] == m[p].children[i]
  {
    var node, last := m[p].children[k], |m[p].children| - 1;
    assert Linked(m, p) && Placed(m, p, i) && Placed(m, p, last) && Attached(m, node);
    if i > 0 {
      SameWay(m, p, k, cs, i - 1);
      assert Placed(AtEnd(m, p, node, cs), p, i - 1) && Placed(m, p, i - 1);
      Apart(m, p, i - 1, k);
      Apart(m, p, i - 1, last);
    }
  }

  /** After a child was linked again there is no list that the pointers spell out. */
  lemma LinkedAgain(m: map<Node, Fields>, p: Node, node: Node, cs: seq<Node>)
    requires Consistent(m) && p in m && node in m && m[node].parent == p
    ensures !Linked(AtEnd(m, p, node, cs), p)
  {
    var n := AtEnd(m, p, node, cs);
    if Linked(n, p) {
      var k := PlaceOf(m, p, node);
      var last := |m[p].children| - 1;
      assert Placed(m, p, last) && Attached(m, node);
      SameWay(m, p, k, cs, k);
      assert Placed(n, p, k);
      if k == last {
        PlacesDiffer(n, p, k, k + 1);
      } else if k > 0 {
        SameWay(m, p, k, cs, k - 1);
        Apart(m, p, k - 1, last);
      }
      assert false;
    }
  }

  /** Linking at the end keeps the pointers of all nodes consistent exactly if the node had no parent and is another one. */
  lemma LinkedAtEndExactly(m: map<Node, Fields>, p: Node, node: Node)
    requires Consistent(m) && p in m && node in m && (m[node].parent == null || m[node].parent == p)
    ensures (exists cs :: Consistent(AtEnd(m, p, node, cs))) <==> m[node].parent == null && node != p
  {
    hide Spliced;
    if m[node].parent == p {
      forall cs ensures !Consistent(AtEnd(m, p, node, cs)) { LinkedAgain(m, p, node, cs); }
    } else if node == p {
      forall cs ensures !Attached(AtEnd(m, p, node, cs), p) {}
    } else {
      var e := Edit(p, m[p].children, null, node, []);
      Unlisted(m, node);
      AtEndIsSplice(m, p, node);
      SpliceKeepsConsistent(m, AtEnd(m, p, node, e.After()), e);
    }
  }

  class Node {
    const nodeType: NodeType
    var value: string
    var parent: Node?
    var prev: Node?
    var next: Node?
    var firstChild: Node?
    var lastChild: Node?
    /** The children in order. */
    ghost var children: seq<Node>

    constructor (nodeType: NodeType, value: string)
      ensures this.nodeType == nodeType && this.value == value && Now() == Fields(value, null, null, null, null, null, [])
    {
      this.nodeType, this.value := nodeType, value;
      parent, prev, next, firstChild, lastChild := null, null, null, null, null;
      children := [];
    }

    ghost function Now(): Fields
      reads this
    {
      Fields(value, parent, prev, next, firstChild, lastChild, children)
    }

    /** Puts a node at the end of the list; a document is refused. A child that is linked again leaves no list at all. */
    method LinkEndChild(node: Node, ghost nodes: set<Node>) returns (r: Node?)
      requires this in nodes && node in nodes && (node.parent == null || node.parent == this)
      requires Consistent(Snapshot(nodes)) || ConsistentBut(Snapshot(nodes), node)
      modifies nodes`parent, nodes`prev, nodes`next, nodes`firstChild, nodes`lastChild, nodes`children
      ensures node.nodeType == Document ==> r == null && Snapshot(nodes) == old(Snapshot(nodes))
      ensures node.nodeType != Document ==>
                && r == node && Snapshot(nodes) == AtEnd(old(Snapshot(nodes)), this, node, children)
                && children == old(children) + [node]
      ensures node.nodeType != Document && node != this && old(ConsistentBut(Snapshot(nodes), node)) ==>
                && Consistent(Snapshot(nodes))
                && Spliced(old(Snapshot(nodes)), Snapshot(nodes), Edit(this, old(children), null, node, []))
    {
      hide Consistent, ConsistentBut, Linked, Attached, Placed, Spliced;
      if node.nodeType == Document { return null; }
      ghost var m, e := Snapshot(nodes), Edit(this, children, null, node, []);
      LastIsThere(m, this, node);
      PutLast(node, nodes);
      assert e.After() == children;
      if node != this && ConsistentBut(m, node) {
        AtEndIsSplice(m, this, node);
        SpliceKeepsConsistent(m, Snapshot(nodes), e);
      }
      return node;
    }

    method PutLast(node: Node, ghost nodes: set<Node>)
      requires this in nodes && node in nodes && (lastChild == null || lastChild in nodes)
      modifies nodes`parent, nodes`prev, nodes`next, nodes`firstChild, nodes`lastChild, nodes`children
      ensures Snapshot(nodes) == AtEnd(old(Snapshot(nodes)), this, node, old(children) + [node])
    {
      node.parent := this;
      node.prev := lastChild;
      node.next := null;
      if lastChild != null {
        lastChild.next := node;
      } else {
        firstChild := node;
      }
      lastChild := node;
      children := children + [node];
      forall x | x in nodes
        ensures x.Now() == EndFields(old(x.Now()), x, this, node, old(lastChild), old(children) + [node]) {}
    }

    /** A deep copy: elements and documents bring their children, other nodes come without. */
    method Clone(ghost nodes: set<Node>, ghost t: Tree) returns (r: Node, ghost news: set<Node>)
      requires this in nodes && Consistent(Snapshot(nodes)) && IsTree(Snapshot(nodes), this, t)
      ensures fresh(news) && r in news && r.parent == null && r.nodeType == nodeType
      ensures Consistent(Snapshot(news)) && IsTree(Snapshot(news), r, Cloned(t))
      decreases t
    {
      hide Consistent, IsTree, Cloned, Copying;
      r := new Node(nodeType, value);
      ghost var kids: set<Node> := {};
      r.CopyingStarts(t.kids);
      TreeParts(Snapshot(nodes), this, t);
      if nodeType == Element || nodeType == Document {
        var node := firstChild;
        ghost var i := 0;
        FirstOf(Snapshot(nodes), this);
        while node != null
          invariant i <= |children| && node == At(children, i) && fresh(kids + {r})
          invariant r.Copying(kids, t.kids, i) && r.value == value
          decreases |children| - i
        {
          ChildOf(Snapshot(nodes), this, t, i);
          var c, more := node.Clone(nodes, t.kids[i]);
          r.Adopt(c, kids, more, t.kids, i);
          kids := kids + more;
          node, i := node.next, i + 1;
        }
      }
      news := kids + {r};
      r.CopyingEnds(kids, t);
    }

    /** The first i children of this node are copies of trees, and nothing outside knows of any of them. */
    ghost predicate Copying(kids: set<Node>, ts: seq<Tree>, i: nat)
      reads this, kids
    {
      && this !in kids && parent == null && Consistent(Snapshot(kids + {this})) && |children| == i <= |ts|
      && forall j :: 0 <= j < i ==> ts[j].nodeType != Document && IsTree(Snapshot(kids), children[j], Cloned(ts[j]))
    }

    lemma CopyingStarts(ts: seq<Tree>)
      requires Now() == Fields(value, null, null, null, null, null, [])
      ensures Copying({}, ts, 0)
    {
      assert {} + {this} == {this};
      SingleConsistent(Snapshot({this}), this);
    }

    lemma CopyingEnds(kids: set<Node>, t: Tree)
      requires nodeType == t.nodeType && value == t.value && Copying(kids, t.kids, if BringsChildren(t) then |t.kids| else 0)
      ensures parent == null && Consistent(Snapshot(kids + {this})) && IsTree(Snapshot(kids + {this}), this, Cloned(t))
    {
      hide Cloned, IsTree, Consistent;
      forall j | 0 <= j < |children| ensures IsTree(Snapshot(kids + {this}), children[j], Cloned(t.kids[j])) {
        TreeGrows(Snapshot(kids), Snapshot(kids + {this}), children[j], Cloned(t.kids[j]));
      }
      ClonedTree(Snapshot(kids + {this}), this, t);
    }

    lemma AdoptReady(c: Node, kids: set<Node>, more: set<Node>, ts: seq<Tree>, i: nat)
      requires Copying(kids, ts, i) && c in more && c.parent == null && this !in more && kids !! more
      requires Consistent(Snapshot(more))
      ensures ConsistentBut(Snapshot(kids + {this} + more), c)
      ensures Parts(Snapshot(kids + {this} + more), Snapshot(kids), Snapshot(more))
      ensures this !in kids && |children| == i
      ensures forall j :: 0 <= j < i ==> IsTree(Snapshot(kids), children[j], Cloned(ts[j]))
    {
      hide Consistent, ConsistentBut, Parts, IsTree, Cloned;
      ghost var all := kids + {this} + more;
      SnapshotParts(kids + {this}, more);
      UnionConsistent(Snapshot(kids + {this}), Snapshot(more), Snapshot(all));
      SnapshotOf(all, kids, more);
      Unlisted(Snapshot(all), c);
    }

    lemma CopyingGoesOn(kids: set<Node>, ts: seq<Tree>, i: nat)
      requires this !in kids && parent == null && Consistent(Snapshot(kids + {this})) && |children| == i <= |ts|
      requires forall j :: 0 <= j < i ==> ts[j].nodeType != Document && IsTree(Snapshot(kids), children[j], Cloned(ts[j]))
      ensures Copying(kids, ts, i)
    {}

    /** Links the copy of the next child in. */
    method Adopt(c: Node, ghost kids: set<Node>, ghost more: set<Node>, ghost ts: seq<Tree>, ghost i: nat)
      requires Copying(kids, ts, i) && i < |ts| && ts[i].nodeType != Document
      requires c in more && c.parent == null && c.nodeType != Document && this !in more && kids !! more
      requires Consistent(Snapshot(more)) && IsTree(Snapshot(more), c, Cloned(ts[i]))
      modifies this, kids, more
      ensures Copying(kids + more, ts, i + 1) && value == old(value)
    {
      hide Consistent, ConsistentBut, Spliced, IsTree, Cloned, Parts, AtEnd;
      ghost var all := kids + {this} + more;
      ghost var m, old1, old2 := Snapshot(all), Snapshot(kids), Snapshot(more);
      ghost var e := Edit(this, children, null, c, []);
      AdoptReady(c, kids, more, ts, i);
      EditReady(m, e);
      hide Ready, Copying;
      var l := LinkEndChild(c, all);
      SnapshotOf(all, kids + more, more);
      Adopted(m, Snapshot(all), e, old1, old2, Snapshot(kids + more), Snapshot(more), ts);
      assert all == kids + more + {this};
      CopyingGoesOn(kids + more, ts, i + 1);
    }

    /** Links a node in before a child. */
    method LinkBefore(beforeThis: Node, node: Node, ghost nodes: set<Node>, ghost e: Edit)
      requires this in nodes && node in nodes && beforeThis in nodes && e.p == this && e.come == node && e.Before() == children
      requires Ready(Snapshot(nodes), e) && node != this && node.parent == null
      requires e.gone == null && e.Right() == beforeThis
      modifies nodes`parent, nodes`prev, nodes`next, nodes`firstChild, nodes`lastChild, nodes`children
      ensures Spliced(old(Snapshot(nodes)), Snapshot(nodes), e)
    {
      hide Ready, Linked, Attached, Placed, At, Opt, Edit.Left, Edit.Right;
      ghost var m := Snapshot(nodes);
      EditPlaces(m, e);
      NewEnds(e);
      node.parent := this;
      node.next := beforeThis;
      node.prev := beforeThis.prev;
      if beforeThis.prev != null {
        beforeThis.prev.next := node;
      } else {
        assert firstChild == beforeThis;
        firstChild := node;
      }
      beforeThis.prev := node;
      children := e.After();
    }

    /** Puts a clone of a node, no document, before a child of this node. */
    method InsertBeforeChild(beforeThis: Node?, addThis: Node, ghost nodes: set<Node>, ghost t: Tree)
      returns (r: Node?, ghost news: set<Node>, ghost k: nat)
      requires this in nodes && addThis in nodes && Consistent(Snapshot(nodes)) && (beforeThis != null ==> beforeThis in nodes)
      requires IsTree(Snapshot(nodes), addThis, t)
      modifies nodes`parent, nodes`prev, nodes`next, nodes`firstChild, nodes`lastChild, nodes`children
      ensures r == null <==> beforeThis == null || old(beforeThis.parent) != this || addThis.nodeType == Document
      ensures r == null ==> Snapshot(nodes) == old(Snapshot(nodes))
      ensures r != null ==>
                && fresh(news) && r in news && Consistent(Snapshot(nodes + news)) && IsTree(Snapshot(news), r, Cloned(t))
                && k < |old(children)| && old(children)[k] == beforeThis
                && Changed(old(Snapshot(nodes)), Snapshot(nodes), this, {})
                && children == old(children)[..k] + [r] + old(children)[k..]
                && TreesFollow(old(Snapshot(nodes)), Snapshot(nodes + news),
                               Edit(this, old(children)[..k], null, r, old(children)[k..]), [Cloned(t)])
    {
      hide Spliced, Consistent, ConsistentBut, Linked, Attached, Placed, IsTree, Cloned, Changed, Parts, TreesFollow;
      k, news := 0, {};
      if beforeThis == null || beforeThis.parent != this { return null, news, k; }
      if addThis.nodeType == Document { return null, news, k; }
      var node;
      node, news := addThis.Clone(nodes, t);
      ghost var all := nodes + news;
      ghost var m, before, copy := Snapshot(all), Snapshot(nodes), Snapshot(news);
      SnapshotParts(nodes, news);
      UnionConsistent(before, copy, m);
      k := PlaceOf(m, this, beforeThis);
      ghost var e := Edit(this, children[..k], null, node, children[k..]);
      Unlisted(m, node);
      LinkBefore(beforeThis, node, all, e);
      SnapshotParts(nodes, news);
      Inserted(m, Snapshot(all), e, before, Snapshot(nodes), copy, Snapshot(news), node, Cloned(t));
      return node, news, k;
    }

    /** Links a node in after a child. */
    method LinkAfter(afterThis: Node, node: Node, ghost nodes: set<Node>, ghost e: Edit)
      requires this in nodes && node in nodes && afterThis in nodes && e.p == this && e.come == node && e.Before() == children
      requires Ready(Snapshot(nodes), e) && node != this && node.parent == null
      requires e.gone == null && e.Left() == afterThis
      modifies nodes`parent, nodes`prev, nodes`next, nodes`firstChild, nodes`lastChild, nodes`children
      ensures Spliced(old(Snapshot(nodes)), Snapshot(nodes), e)
    {
      hide Ready, Linked, Attached, Placed, At, Opt, Edit.Left, Edit.Right;
      ghost var m := Snapshot(nodes);
      EditPlaces(m, e);
      NewEnds(e);
      node.parent := this;
      node.prev := afterThis;
      node.next := afterThis.next;
      if afterThis.next != null {
        afterThis.next.prev := node;
      } else {
        assert lastChild == afterThis;
        lastChild := node;
      }
      afterThis.next := node;
      children := e.After();
    }

    /** Puts a clone of a node, no document, after a child of this node. */
    method InsertAfterChild(afterThis: Node?, addThis: Node, ghost nodes: set<Node>, ghost t: Tree)
      returns (r: Node?, ghost news: set<Node>, ghost k: nat)
      requires this in nodes && addThis in nodes && Consistent(Snapshot(nodes)) && (afterThis != null ==> afterThis in nodes)
      requires IsTree(Snapshot(nodes), addThis, t)
      modifies nodes`parent, nodes`prev, nodes`next, nodes`firstChild, nodes`lastChild, nodes`children
      ensures r == null <==> afterThis == null || old(afterThis.parent) != this || addThis.nodeType == Document
      ensures r == null ==> Snapshot(nodes) == old(Snapshot(nodes))
      ensures r != null ==>
                && fresh(news) && r in news && Consistent(Snapshot(nodes + news)) && IsTree(Snapshot(news), r, Cloned(t))
                && k < |old(children)| && old(children)[k] == afterThis
                && Changed(old(Snapshot(nodes)), Snapshot(nodes), this, {})
                && children == old(children)[..k + 1] + [r] + old(children)[k + 1..]
                && TreesFollow(old(Snapshot(nodes)), Snapshot(nodes + news),
                               Edit(this, old(children)[..k + 1], null, r, old(children)[k + 1..]), [Cloned(t)])
    {
      hide Spliced, Consistent, ConsistentBut, Linked, Attached, Placed, IsTree, Cloned, Changed, Parts, TreesFollow;
      k, news := 0, {};
      if afterThis == null || afterThis.parent != this { return null, news, k; }
      if addThis.nodeType == Document { return null, news, k; }
      var node;
      node, news := addThis.Clone(nodes, t);
      ghost var all := nodes + news;
      ghost var m, before, copy := Snapshot(all), Snapshot(nodes), Snapshot(news);
      SnapshotParts(nodes, news);
      UnionConsistent(before, copy, m);
      k := PlaceOf(m, this, afterThis);
      ghost var e := Edit(this, children[..k + 1], null, node, children[k + 1..]);
      Unlisted(m, node);
      LinkAfter(afterThis, node, all, e);
      SnapshotParts(nodes, news);
      Inserted(m, Snapshot(all), e, before, Snapshot(nodes), copy, Snapshot(news), node, Cloned(t));
      return node, news, k;
    }

    /** Links a node in where a child was. */
    method LinkInstead(replaceThis: Node, node: Node, ghost nodes: set<Node>, ghost e: Edit)
      requires this in nodes && node in nodes && replaceThis in nodes && e.p == this && e.come == node && e.Before() == children
      requires Ready(Snapshot(nodes), e) && node != this && node.parent == null
      requires e.gone == replaceThis
      modifies nodes`parent, nodes`prev, nodes`next, nodes`firstChild, nodes`lastChild, nodes`children
      ensures Spliced(old(Snapshot(nodes)), Snapshot(nodes), e)
    {
      hide Ready, Linked, Attached, Placed, At, Opt, Edit.Left, Edit.Right;
      ghost var m := Snapshot(nodes);
      EditPlaces(m, e);
      NewEnds(e);
      node.next := replaceThis.next;
      node.prev := replaceThis.prev;
      if replaceThis.next != null {
        replaceThis.next.prev := node;
      } else {
        lastChild := node;
      }
      if replaceThis.prev != null {
        replaceThis.prev.next := node;
      } else {
        firstChild := node;
      }
      replaceThis.parent := null;
      node.parent := this;
      children := e.After();
    }

    /** Puts a clone of a node, no document, in place of a child, which leaves the tree. */
    method ReplaceChild(replaceThis: Node?, withThis: Node, ghost nodes: set<Node>, ghost t: Tree)
      returns (r: Node?, ghost news: set<Node>, ghost k: nat)
      requires this in nodes && withThis in nodes && Consistent(Snapshot(nodes)) && (replaceThis != null ==> replaceThis in nodes)
      requires IsTree(Snapshot(nodes), withThis, t)
      modifies nodes`parent, nodes`prev, nodes`next, nodes`firstChild, nodes`lastChild, nodes`children
      ensures r == null <==> replaceThis == null || old(replaceThis.parent) != this || withThis.nodeType == Document
      ensures r == null ==> Snapshot(nodes) == old(Snapshot(nodes))
      ensures r != null ==>
                && fresh(news) && r in news && Consistent(Snapshot(nodes + news)) && IsTree(Snapshot(news), r, Cloned(t))
                && k < |old(children)| && old(children)[k] == replaceThis
                && Changed(old(Snapshot(nodes)), Snapshot(nodes), this, {replaceThis})
                && children == old(children)[..k] + [r] + old(children)[k + 1..]
                && TreesFollow(old(Snapshot(nodes)), Snapshot(nodes + news),
                               Edit(this, old(children)[..k], replaceThis, r, old(children)[k + 1..]), [Cloned(t)])
    {
      hide Spliced, Consistent, ConsistentBut, Linked, Attached, Placed, IsTree, Cloned, Changed, Parts, TreesFollow;
      k, news := 0, {};
      if replaceThis == null || replaceThis.parent != this { return null, news, k; }
      if withThis.nodeType == Document { return null, news, k; }
      var node;
      node, news := withThis.Clone(nodes, t);
      ghost var all := nodes + news;
      ghost var m, before, copy := Snapshot(all), Snapshot(nodes), Snapshot(news);
      SnapshotParts(nodes, news);
      UnionConsistent(before, copy, m);
      k := PlaceOf(m, this, replaceThis);
      ghost var e := Edit(this, children[..k], replaceThis, node, children[k + 1..]);
      Unlisted(m, node);
      LinkInstead(replaceThis, node, all, e);
      SnapshotParts(nodes, news);
      Inserted(m, Snapshot(all), e, before, Snapshot(nodes), copy, Snapshot(news), node, Cloned(t));
      return node, news, k;
    }

    /** Links a child's neighbours to each other. */
    method Unlink(removeThis: Node, ghost nodes: set<Node>, ghost e: Edit)
      requires this in nodes && removeThis in nodes && e.p == this && e.gone == removeThis && e.come == null
      requires Ready(Snapshot(nodes), e) && e.Before() == children
      modifies nodes`parent, nodes`prev, nodes`next, nodes`firstChild, nodes`lastChild, nodes`children
      ensures Spliced(old(Snapshot(nodes)), Snapshot(nodes), e)
    {
      hide Ready, Linked, Attached, Placed, At, Opt, Edit.Left, Edit.Right;
      ghost var m := Snapshot(nodes);
      EditPlaces(m, e);
      NewEnds(e);
      if removeThis.next != null {
        removeThis.next.prev := removeThis.prev;
      } else {
        lastChild := removeThis.prev;
      }
      if removeThis.prev != null {
        removeThis.prev.next := removeThis.next;
      } else {
        firstChild := removeThis.next;
      }
      removeThis.parent := null;
      children := e.After();
    }

    /** Takes a child out of the list and the tree; another node's child is refused by an assertion. */
    method RemoveChild(removeThis: Node?, ghost nodes: set<Node>) returns (ok: bool, aborted: bool, ghost k: nat)
      requires this in nodes && Consistent(Snapshot(nodes)) && (removeThis != null ==> removeThis in nodes)
      modifies nodes`parent, nodes`prev, nodes`next, nodes`firstChild, nodes`lastChild, nodes`children
      ensures ok <==> removeThis != null && old(removeThis.parent) == this
      ensures aborted <==> removeThis != null && old(removeThis.parent) != this
      ensures !ok ==> Snapshot(nodes) == old(Snapshot(nodes))
      ensures ok ==>
                && k < |old(children)| && old(children)[k] == removeThis && Consistent(Snapshot(nodes))
                && Spliced(old(Snapshot(nodes)), Snapshot(nodes),
                           Edit(this, old(children)[..k], removeThis, null, old(children)[k + 1..]))
                && TreesFollow(old(Snapshot(nodes)), Snapshot(nodes),
                               Edit(this, old(children)[..k], removeThis, null, old(children)[k + 1..]), [])
    {
      hide TreesFollow, Spliced, Consistent, ConsistentBut, Linked, Attached, Placed;
      k := 0;
      if removeThis == null { return false, false, k; }
      if removeThis.parent != this { return false, true, k; }
      ghost var m := Snapshot(nodes);
      k := PlaceOf(m, this, removeThis);
      ghost var e := Edit(this, children[..k], removeThis, null, children[k + 1..]);
      Unlink(removeThis, nodes, e);
      SpliceKeepsConsistent(m, Snapshot(nodes), e);
      Removed(m, Snapshot(nodes), e);
      return true, false, k;
    }

    /** The first child with a value. */
    method FirstChildWith(val: string, ghost nodes: set<Node>) returns (r: Node?, ghost k: nat)
      requires this in nodes && Consistent(Snapshot(nodes))
      ensures r == At(children, k) && k <= |children| && (forall c :: c in children[..k] ==> c.value != val)
      ensures r != null ==> r.value == val
    {
      r, k := firstChild, 0;
      assert Linked(Snapshot(nodes), this);
      while r != null
        invariant k <= |children| && r == At(children, k) && forall c :: c in children[..k] ==> c.value != val
        decreases |children| - k
      {
        if r.value == val { return; }
        assert Placed(Snapshot(nodes), this, k);
        r, k := r.next, k + 1;
      }
    }

    /** The last child with a value. */
    method LastChildWith(val: string, ghost nodes: set<Node>) returns (r: Node?, ghost k: int)
      requires this in nodes && Consistent(Snapshot(nodes))
      ensures r == At(children, k) && -1 <= k < |children| && (forall c :: c in children[k + 1..] ==> c.value != val)
      ensures r != null ==> r.value == val
    {
      r, k := lastChild, |children| - 1;
      assert Linked(Snapshot(nodes), this);
      while r != null
        invariant -1 <= k < |children| && r == At(children, k) && forall c :: c in children[k + 1..] ==> c.value != val
        decreases k
      {
        if r.value == val { return; }
        assert Placed(Snapshot(nodes), this, k);
        r, k := r.prev, k - 1;
      }
    }

    /** The next sibling of a child; none after the last. */
    method IterateChildren(previous: Node?, ghost nodes: set<Node>) returns (r: Node?, ghost k: nat)
      requires this in nodes && Consistent(Snapshot(nodes)) && (previous != null ==> previous in nodes && previous.parent == this)
      ensures previous == null ==> r == At(children, 0)
      ensures previous != null ==> 0 < k <= |children| && children[k - 1] == previous && r == At(children, k)
      ensures r == null <==> children == [] || previous == children[|children| - 1]
      ensures r != null ==> r.parent == this && r.prev == previous
    {
      assert Linked(Snapshot(nodes), this);
      if previous == null {
        assert children != [] ==> Placed(Snapshot(nodes), this, 0);
        return firstChild, 0;
      }
      k := PlaceOf(Snapshot(nodes), this, previous);
      if k + 1 < |children| {
        assert Placed(Snapshot(nodes), this, k + 1);
        Apart(Snapshot(nodes), this, k, |children| - 1);
      }
      return previous.next, k + 1;
    }
  }

  /** The nodes an edit touches are different ones, and their pointers are those of p's list before it. */
  lemma EditPlaces(m: map<Node, Fields>, e: Edit)
    requires Ready(m, e) && e.p in m && m[e.p].children == e.Before()
    ensures e.Left() != null ==>
              && e.Left() in m && m[e.Left()].parent == e.p && e.Left() != e.p && e.Left() != e.come && e.Left() != e.gone
              && m[e.Left()].next == At(e.Before(), |e.front|)
    ensures e.Right() != null ==>
              && e.Right() in m && m[e.Right()].parent == e.p && e.Right() != e.p && e.Right() != e.come && e.Right() != e.gone
              && m[e.Right()].prev == At(e.Before(), |e.front| + |Opt(e.gone)| - 1) && e.Right() != e.Left()
    ensures e.gone != null ==>
              && e.gone in m && m[e.gone].parent == e.p && e.gone != e.p && e.gone != e.come
              && m[e.gone].prev == e.Left() && m[e.gone].next == e.Right()
    ensures m[e.p].first == At(e.Before(), 0) && m[e.p].last == At(e.Before(), |e.Before()| - 1)
  {
    var k, l := |e.front|, |e.front| + |Opt(e.gone)|;
    assert Linked(m, e.p);
    if k > 0 { WasPlaced(m, e, k - 1); assert Attached(m, e.Before()[k - 1]); }
    if e.gone != null { WasPlaced(m, e, k); assert Attached(m, e.Before()[k]); }
    if e.back != [] { WasPlaced(m, e, l); assert Attached(m, e.Before()[l]); }
    if k > 0 && e.gone != null { Apart(m, e.p, k - 1, k); }
    if k > 0 && e.back != [] { Apart(m, e.p, k - 1, l); }
    if e.gone != null && e.back != [] { Apart(m, e.p, k, l); }
  }

  /** The ends of the list after an edit. */
  lemma NewEnds(e: Edit)
    ensures At(e.After(), 0)
         == (if e.Left() != null then At(e.Before(), 0) else if e.come != null then e.come else e.Right())
    ensures At(e.After(), |e.After()| - 1)
         == (if e.Right() != null then At(e.Before(), |e.Before()| - 1) else if e.come != null then e.come else e.Left())
    ensures At(e.Before(), |e.front|) == (if e.gone != null then e.gone else e.Right())
    ensures At(e.Before(), |e.front| + |Opt(e.gone)| - 1) == (if e.gone != null then e.gone else e.Left())
    ensures e.Left() == null && e.gone == null ==> At(e.Before(), 0) == e.Right()
    ensures e.Right() == null && e.gone == null ==> At(e.Before(), |e.Before()| - 1) == e.Left()
  {}

  lemma LastIsThere(m: map<Node, Fields>, p: Node, node: Node)
    requires (Consistent(m) || ConsistentBut(m, node)) && p in m
    ensures m[p].last == null || m[p].last in m
  {
    assert Linked(m, p);
    if m[p].children != [] { assert Placed(m, p, |m[p].children| - 1); }
  }

  /** A node whose parent is p has a place among p's children. */
  lemma PlaceOf(m: map<Node, Fields>, p: Node, c: Node) returns (k: nat)
    requires Consistent(m) && p in m && c in m && m[c].parent == p
    ensures k < |m[p].children| && m[p].children[k] == c && Placed(m, p, k) && Linked(m, p)
  {
    assert Attached(m, c) && Linked(m, p);
    k :| 0 <= k < |m[p].children| && m[p].children[k] == c;
  }

  /** A node without parent is in no list. */
  lemma Unlisted(m: map<Node, Fields>, x: Node)
    requires Consistent(m) && x in m && m[x].parent == null
    ensures ConsistentBut(m, x)
  {
    forall n, i | n in m && 0 <= i < |m[n].children| ensures m[n].children[i] != x {
      assert Linked(m, n) && Placed(m, n, i);
    }
  }

  ghost function Snapshot(nodes: set<Node>): (m: map<Node, Fields>)
    reads nodes
    ensures m.Keys == nodes && forall n :: n in nodes ==> m[n] == n.Now()
  {
    map n | n in nodes :: n.Now()
  }

  /** Only p's children changed, no value did, and only some parent pointers did. */
  ghost predicate Changed(m: map<Node, Fields>, n: map<Node, Fields>, p: Node, orphans: set<Node>) {
    && n.Keys == m.Keys
    && (forall x :: x in m ==> n[x].value == m[x].value && (x != p ==> n[x].children == m[x].children))
    && (forall x :: x in m ==> n[x].parent == if x in orphans then null else m[x].parent)
  }

  /** A splice is such a change, besides the parent of the node that comes. */
  lemma SpliceChanges(m: map<Node, Fields>, n: map<Node, Fields>, e: Edit)
    requires Ready(m, e) && Spliced(m, n, e)
    ensures n.Keys == m.Keys && n[e.p].children == e.After()
    ensures forall x :: x in m ==> n[x].value == m[x].value && (x != e.p ==> n[x].children == m[x].children)
    ensures forall x :: x in m && x != e.come ==> n[x].parent == if x == e.gone then null else m[x].parent
    ensures e.come != null ==> n[e.come].parent == e.p
  {
    EditPlaces(m, e);
  }

  /** The nodes of m have the same children and values in n. */
  predicate Same(m: map<Node, Fields>, n: map<Node, Fields>) {
    forall y :: y in m ==> y in n && n[y].children == m[y].children && n[y].value == m[y].value
  }

  /** A tree is one also among more nodes, and when other things than children and values change. */
  lemma {:induction false} TreeGrows(m: map<Node, Fields>, n: map<Node, Fields>, x: Node, t: Tree)
    requires Same(m, n) && IsTree(m, x, t)
    ensures IsTree(n, x, t)
    decreases t
  {
    forall i | 0 <= i < |t.kids| ensures IsTree(n, m[x].children[i], t.kids[i]) {
      TreeGrows(m, n, m[x].children[i], t.kids[i]);
    }
  }

  lemma TreeParts(m: map<Node, Fields>, x: Node, t: Tree)
    requires IsTree(m, x, t)
    ensures x in m && |m[x].children| == |t.kids| && x.nodeType == t.nodeType && m[x].value == t.value
  {}

  lemma FirstOf(m: map<Node, Fields>, x: Node)
    requires Consistent(m) && x in m
    ensures m[x].first == At(m[x].children, 0)
  {
    assert Linked(m, x);
  }

  /** The i-th child of a node in a tree. */
  lemma ChildOf(m: map<Node, Fields>, x: Node, t: Tree, i: nat)
    requires Consistent(m) && IsTree(m, x, t) && i < |m[x].children|
    ensures i < |t.kids| && t.kids[i].nodeType != Document && m[x].children[i] in m && IsTree(m, m[x].children[i], t.kids[i])
    ensures m[m[x].children[i]].next == At(m[x].children, i + 1) && m[x].children[i].nodeType != Document
  {
    assert Linked(m, x) && Placed(m, x, i);
    assert IsTree(m, m[x].children[i], t.kids[i]);
  }

  lemma ClonedTree(m: map<Node, Fields>, r: Node, t: Tree)
    requires r in m && r.nodeType == t.nodeType && m[r].value == t.value
    requires |m[r].children| == if BringsChildren(t) then |t.kids| else 0
    requires forall i :: 0 <= i < |m[r].children| ==>
               t.kids[i].nodeType != Document && IsTree(m, m[r].children[i], Cloned(t.kids[i]))
    ensures IsTree(m, r, Cloned(t))
  {}

  lemma SingleConsistent(m: map<Node, Fields>, r: Node)
    requires m.Keys == {r} && m[r].parent == null && m[r].first == null && m[r].last == null && m[r].children == []
    ensures Consistent(m)
  {}

  /** Two sets of nodes that know nothing of each other. */
  lemma UnionConsistent(m: map<Node, Fields>, n: map<Node, Fields>, u: map<Node, Fields>)
    requires Consistent(m) && Consistent(n) && u.Keys == m.Keys + n.Keys && Parts(u, m, n)
    ensures Consistent(u)
  {
    forall x | x in u ensures Linked(u, x) && Attached(u, x) {
      if x in m { SubConsistent(m, u, x); } else { SubConsistent(n, u, x); }
    }
  }

  lemma SubConsistent(m: map<Node, Fields>, u: map<Node, Fields>, x: Node)
    requires x in m && Linked(m, x) && Attached(m, x) && forall y :: y in m ==> y in u && u[y] == m[y]
    ensures Linked(u, x) && Attached(u, x)
  {
    forall i | 0 <= i < |u[x].children| ensures Placed(u, x, i) { assert Placed(m, x, i); }
  }

  /** Two snapshots that agree with one of all their nodes. */
  predicate Parts(all: map<Node, Fields>, m: map<Node, Fields>, n: map<Node, Fields>) {
    && (forall x :: x in m ==> x in all && all[x] == m[x])
    && (forall x :: x in n ==> x in all && all[x] == n[x])
  }

  lemma SnapshotParts(nodes: set<Node>, news: set<Node>)
    ensures Parts(Snapshot(nodes + news), Snapshot(nodes), Snapshot(news))
  {}

  lemma SnapshotOf(all: set<Node>, nodes: set<Node>, news: set<Node>)
    requires nodes <= all && news <= all
    ensures Parts(Snapshot(all), Snapshot(nodes), Snapshot(news))
  {}

  /** What linking a copy in has changed among the nodes there were, and not changed among the copied ones. */
  lemma Inserted(m: map<Node, Fields>, n: map<Node, Fields>, e: Edit, before: map<Node, Fields>, after: map<Node, Fields>,
                 copy: map<Node, Fields>, copied: map<Node, Fields>, r: Node, t: Tree)
    requires Ready(m, e) && Spliced(m, n, e) && e.come == r && e.p in before && IsTree(copy, r, t)
    requires Parts(m, before, copy) && Parts(n, after, copied)
    requires before.Keys == after.Keys && copy.Keys == copied.Keys && r !in before && e.p !in copy && r.nodeType != Document
    ensures TreesFollow(before, n, e, [t])
    ensures Consistent(n) && Changed(before, after, e.p, if e.gone == null then {} else {e.gone}) && IsTree(copied, r, t)
    ensures e.p in n && n[e.p].children == e.After()
  {
    hide Spliced, Ready, Consistent, IsTree, Changed, Edit.After, Edit.Before, Edit.Left, Edit.Right;
    SpliceKeepsConsistent(m, n, e);
    SpliceChanges(m, n, e);
    ChangedAmong(m, n, e, before, after);
    CopyKept(m, n, e.p, copy, copied, r, t);
    OwnKeys(m, n, e);
    TreeParts(copied, r, t);
    CopyGrafted(before, n, e, copied, t);
  }

  lemma CopyGrafted(before: map<Node, Fields>, n: map<Node, Fields>, e: Edit, copied: map<Node, Fields>, t: Tree)
    requires SameBut(before, n, e.p) && e.p in before && e.p in n
    requires before[e.p].children == e.Before() && n[e.p].children == e.After()
    requires e.come != null && t.nodeType != Document && IsTree(copied, e.come, t)
    requires forall x :: x in copied ==> x in n && n[x] == copied[x]
    ensures TreesFollow(before, n, e, [t])
  {
    hide IsTree, TreesFollow, SameBut, Edit.Before, Edit.After;
    TreeGrows(copied, n, e.come, t);
    GraftingGrafts(before, n, e, [t]);
  }

  lemma CopyKept(m: map<Node, Fields>, n: map<Node, Fields>, p: Node, copy: map<Node, Fields>, copied: map<Node, Fields>,
                 r: Node, t: Tree)
    requires copy.Keys == copied.Keys && p !in copy && IsTree(copy, r, t)
    requires forall x :: x in copy ==> x in m && m[x] == copy[x]
    requires forall x :: x in copied ==> x in n && n[x] == copied[x]
    requires forall x :: x in m && x in n ==> n[x].value == m[x].value && (x != p ==> n[x].children == m[x].children)
    ensures IsTree(copied, r, t)
  {
    hide IsTree;
    TreeGrows(copy, copied, r, t);
  }

  lemma ChangedAmong(m: map<Node, Fields>, n: map<Node, Fields>, e: Edit, before: map<Node, Fields>, after: map<Node, Fields>)
    requires before.Keys == after.Keys && e.come !in before
    requires forall x :: x in before ==> x in m && m[x] == before[x]
    requires forall x :: x in after ==> x in n && n[x] == after[x]
    requires forall x :: x in m && x in n ==> n[x].value == m[x].value && (x != e.p ==> n[x].children == m[x].children)
    requires forall x :: x in m && x in n && x != e.come ==> n[x].parent == if x == e.gone then null else m[x].parent
    ensures Changed(before, after, e.p, if e.gone == null then {} else {e.gone})
  {}

  lemma EditReady(m: map<Node, Fields>, e: Edit)
    requires e.come != null && ConsistentBut(m, e.come)
    ensures Ready(m, e)
  {}

  /** Linking in the copy of the next child leaves it and those before it the copies they were. */
  lemma Adopted(m: map<Node, Fields>, n: map<Node, Fields>, e: Edit, some: map<Node, Fields>, more: map<Node, Fields>,
                now: map<Node, Fields>, more': map<Node, Fields>, ts: seq<Tree>)
    requires Ready(m, e) && Spliced(m, n, e) && e.come != null && e.gone == null
    requires now.Keys == some.Keys + more.Keys && e.p !in now && Parts(m, some, more) && Parts(n, now, more')
    requires |e.front| < |ts| && IsTree(more, e.come, Cloned(ts[|e.front|]))
    requires forall j :: 0 <= j < |e.front| ==> IsTree(some, e.front[j], Cloned(ts[j]))
    ensures n.Keys == m.Keys && e.p in m && n[e.p].parent == m[e.p].parent && n[e.p].value == m[e.p].value
    ensures forall j :: 0 <= j < |e.front| + 1 ==> IsTree(now, (e.front + [e.come])[j], Cloned(ts[j]))
  {
    hide IsTree, Cloned, Ready, Spliced;
    SpliceChanges(m, n, e);
    OwnKeys(m, n, e);
    assert Same(some, now) && Same(more, now);
    AdoptedTrees(some, more, now, e.front, e.come, ts);
  }

  lemma AdoptedTrees(m: map<Node, Fields>, n: map<Node, Fields>, u: map<Node, Fields>, kids: seq<Node>, c: Node, ts: seq<Tree>)
    requires |kids| < |ts| && Same(m, u) && Same(n, u) && IsTree(n, c, Cloned(ts[|kids|]))
    requires forall j :: 0 <= j < |kids| ==> IsTree(m, kids[j], Cloned(ts[j]))
    ensures forall j :: 0 <= j < |kids| + 1 ==> IsTree(u, (kids + [c])[j], Cloned(ts[j]))
  {
    hide IsTree, Cloned, Same;
    forall j | 0 <= j < |kids| + 1 ensures IsTree(u, (kids + [c])[j], Cloned(ts[j])) {
      if j < |kids| { TreeGrows(m, u, kids[j], Cloned(ts[j])); } else { TreeGrows(n, u, c, Cloned(ts[j])); }
    }
  }
}
