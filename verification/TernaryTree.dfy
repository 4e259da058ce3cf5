/** A ternary search tree as a value: what insertion and search do, and what they keep. */
module TernarySpec {

  /** Words are C strings: their characters are not NUL, and reading past the last one yields NUL. */
  predicate IsWord(w: seq<int>) {
    0 !in w
  }

  function Current(w: seq<int>): int {
    if w == [] then 0 else w[0]
  }

  datatype Tree = Nil | Node(c: int, lo: Tree, eq: Tree, hi: Tree)

  function Insert(t: Tree, w: seq<int>): Tree
    decreases |w|, t
  {
    match t
    case Nil => Node(Current(w), Nil, if w == [] then Nil else Insert(Nil, w[1..]), Nil)
    case Node(c, lo, eq, hi) =>
      if Current(w) < c then Node(c, Insert(lo, w), eq, hi)
      else if Current(w) > c then Node(c, lo, eq, Insert(hi, w))
      else if w == [] then t
      else Node(c, lo, Insert(eq, w[1..]), hi)
  }

  predicate Search(t: Tree, w: seq<int>)
    decreases t
  {
    match t
    case Nil => false
    case Node(c, lo, eq, hi) =>
      if Current(w) < c then Search(lo, w)
      else if Current(w) > c then Search(hi, w)
      else w == [] || Search(eq, w[1..])
  }

  /** The characters that compete with the root: those reached by low and high links alone. */
  function Level(t: Tree): set<int> {
    match t
    case Nil => {}
    case Node(c, lo, _, hi) => {c} + Level(lo) + Level(hi)
  }

  /** At every node the low side is smaller and the high side larger. */
  predicate Ordered(t: Tree) {
    match t
    case Nil => true
    case Node(c, lo, eq, hi) =>
      && (forall x :: x in Level(lo) ==> x < c) && (forall x :: x in Level(hi) ==> x > c)
      && Ordered(lo) && Ordered(eq) && Ordered(hi)
  }

  lemma {:induction false} InsertOrdered(t: Tree, w: seq<int>)
    requires Ordered(t)
    ensures Ordered(Insert(t, w)) && Level(Insert(t, w)) == Level(t) + {Current(w)}
    decreases |w|, t
  {
    match t
    case Nil => if w != [] { InsertOrdered(Nil, w[1..]); }
    case Node(c, lo, eq, hi) =>
      if Current(w) < c {
        InsertOrdered(lo, w);
      } else if Current(w) > c {
        InsertOrdered(hi, w);
      } else if w != [] {
        InsertOrdered(eq, w[1..]);
      }
  }

  /** Insertion adds its word and nothing else. */
  lemma {:induction false} SearchAfterInsert(t: Tree, w: seq<int>, v: seq<int>)
    requires IsWord(w) && IsWord(v)
    ensures Search(Insert(t, w), v) <==> v == w || Search(t, v)
    decreases |w|, t
  {
    if v != [] && w != [] {
      assert v == w <==> v[0] == w[0] && v[1..] == w[1..] by {
        assert v == [v[0]] + v[1..] && w == [w[0]] + w[1..];
      }
    }
    match t
    case Nil =>
      if w != [] && v != [] { SearchAfterInsert(Nil, w[1..], v[1..]); }
    case Node(c, lo, eq, hi) =>
      if Current(w) < c {
        SearchAfterInsert(lo, w, v);
      } else if Current(w) > c {
        SearchAfterInsert(hi, w, v);
      } else if w != [] && v != [] {
        SearchAfterInsert(eq, w[1..], v[1..]);
      }
  }

  /** The tree after inserting the words in turn. */
  function InsertAll(t: Tree, ws: seq<seq<int>>): Tree
    decreases |ws|
  {
    if ws == [] then t else Insert(InsertAll(t, ws[..|ws| - 1]), ws[|ws| - 1])
  }

  /** After any insertions exactly the inserted words are found, and the tree is in order. */
  lemma {:induction false} FindsExactlyInserted(ws: seq<seq<int>>, v: seq<int>)
    requires IsWord(v) && forall i :: 0 <= i < |ws| ==> IsWord(ws[i])
    ensures Search(InsertAll(Nil, ws), v) <==> v in ws
    ensures Ordered(InsertAll(Nil, ws))
    decreases |ws|
  {
    if ws != [] {
      var before, w := ws[..|ws| - 1], ws[|ws| - 1];
      FindsExactlyInserted(before, v);
      SearchAfterInsert(InsertAll(Nil, before), w, v);
      InsertOrdered(InsertAll(Nil, before), w);
      assert ws == before + [w];
    }
  }
}

/** The tree in memory: nodes that insertion allocates and links in place. */
module TernaryHeap {
  import opened TernarySpec

  class Tnode {
    var s: int
    var lokid: Tnode?
    var eqkid: Tnode?
    var hikid: Tnode?

    constructor (c: int)
      ensures s == c && lokid == null && eqkid == null && hikid == null
    {
      s, lokid, eqkid, hikid := c, null, null, null;
    }
  }

  /** The arrangement of nodes in memory that a tree occupies. */
  datatype Layout = Empty | Cell(node: Tnode, c: int, lo: Layout, eq: Layout, hi: Layout)

  function Root(h: Layout): Tnode? {
    if h.Empty? then null else h.node
  }

  ghost function Nodes(h: Layout): set<Tnode> {
    match h
    case Empty => {}
    case Cell(n, _, lo, eq, hi) => {n} + Nodes(lo) + Nodes(eq) + Nodes(hi)
  }

  /** No node occurs twice. */
  ghost predicate Separate(h: Layout) {
    match h
    case Empty => true
    case Cell(n, _, lo, eq, hi) =>
      && n !in Nodes(lo) + Nodes(eq) + Nodes(hi)
      && Nodes(lo) !! Nodes(eq) && Nodes(lo) !! Nodes(hi) && Nodes(eq) !! Nodes(hi)
      && Separate(lo) && Separate(eq) && Separate(hi)
  }

  /** The nodes are linked as the layout says. */
  ghost predicate Linked(h: Layout)
    reads Nodes(h)
  {
    match h
    case Empty => true
    case Cell(n, c, lo, eq, hi) =>
      && n.s == c && n.lokid == Root(lo) && n.eqkid == Root(eq) && n.hikid == Root(hi)
      && Linked(lo) && Linked(eq) && Linked(hi)
  }

  function Shape(h: Layout): Tree {
    match h
    case Empty => Nil
    case Cell(_, c, lo, eq, hi) => Node(c, Shape(lo), Shape(eq), Shape(hi))
  }

  lemma {:induction false} NodesAllocated(h: Layout)
    ensures allocated(Nodes(h))
    ensures h.Cell? ==> allocated(Nodes(h.lo)) && allocated(Nodes(h.eq)) && allocated(Nodes(h.hi))
  {
    if h.Cell? {
      NodesAllocated(h.lo);
      NodesAllocated(h.eq);
      NodesAllocated(h.hi);
    }
  }

  /** Insert below `p`, which is null for an empty tree, and return the root. */
  method InsertWord(p: Tnode?, w: seq<int>, ghost h: Layout) returns (q: Tnode, ghost h': Layout)
    requires Root(h) == p && Separate(h) && Linked(h)
    modifies Nodes(h)
    ensures Root(h') == q && Separate(h') && Linked(h') && fresh(Nodes(h') - Nodes(h))
    ensures Shape(h') == Insert(Shape(h), w)
    ensures p != null ==> q == p
    decreases |w|, h, 1
  {
    hide Separate, Linked, Nodes;
    var c := if w == [] then 0 else w[0];
    if p == null {
      q, h' := NewBranch(c, w);
    } else {
      assert h.c == p.s by { RootLabel(h); }
      q, h' := p, h;
      if c < p.s {
        h' := InsertLow(p, w, h);
      } else if c > p.s {
        h' := InsertHigh(p, w, h);
      } else if w != [] {
        h' := InsertEqual(p, w[1..], h);
      }
    }
  }

  lemma RootLabel(h: Layout)
    requires h.Cell? && Linked(h)
    ensures h.node.s == h.c
  {
  }

  method NewBranch(c: int, w: seq<int>) returns (q: Tnode, ghost h': Layout)
    requires c == Current(w)
    ensures Root(h') == q && Separate(h') && Linked(h') && fresh(Nodes(h'))
    ensures Shape(h') == Insert(Nil, w)
    decreases |w|, Empty, 0
  {
    q := new Tnode(c);
    if w == [] {
      h' := Cell(q, c, Empty, Empty, Empty);
    } else {
      ghost var k;
      q.eqkid, k := InsertWord(null, w[1..], Empty);
      h' := Cell(q, c, Empty, k, Empty);
    }
    NodesAllocated(h');
  }

  /** What it means for a node and its three subtrees to be separate and linked. */
  lemma Parts(h: Layout)
    requires h.Cell?
    ensures Nodes(h) == {h.node} + Nodes(h.lo) + Nodes(h.eq) + Nodes(h.hi)
    ensures Separate(h) <==>
              && h.node !in Nodes(h.lo) && h.node !in Nodes(h.eq) && h.node !in Nodes(h.hi)
              && Nodes(h.lo) !! Nodes(h.eq) && Nodes(h.lo) !! Nodes(h.hi) && Nodes(h.eq) !! Nodes(h.hi)
              && Separate(h.lo) && Separate(h.eq) && Separate(h.hi)
    ensures Linked(h) <==>
              && h.node.s == h.c && h.node.lokid == Root(h.lo)
              && h.node.eqkid == Root(h.eq) && h.node.hikid == Root(h.hi)
              && Linked(h.lo) && Linked(h.eq) && Linked(h.hi)
    ensures Shape(h) == Node(h.c, Shape(h.lo), Shape(h.eq), Shape(h.hi))
  {
  }

  method InsertLow(p: Tnode, w: seq<int>, ghost h: Layout) returns (ghost h': Layout)
    requires Root(h) == p && Separate(h) && Linked(h)
    modifies Nodes(h)
    ensures Root(h') == p && Separate(h') && Linked(h') && fresh(Nodes(h') - Nodes(h))
    ensures Shape(h') == Node(h.c, Insert(Shape(h.lo), w), Shape(h.eq), Shape(h.hi))
    decreases |w|, h, 0
  {
    hide Insert, Separate, Linked, Nodes, Shape;
    Parts(h);
    NodesAllocated(h);
    ghost var rest := {p} + Nodes(h.eq) + Nodes(h.hi);
    var kid, k := InsertWord(p.lokid, w, h.lo);
    assert Nodes(k) !! rest;
    p.lokid := kid;
    h' := Cell(p, h.c, k, h.eq, h.hi);
    Parts(h');
    assert Nodes(h') - Nodes(h) == Nodes(k) - Nodes(h.lo);
  }

  method InsertHigh(p: Tnode, w: seq<int>, ghost h: Layout) returns (ghost h': Layout)
    requires Root(h) == p && Separate(h) && Linked(h)
    modifies Nodes(h)
    ensures Root(h') == p && Separate(h') && Linked(h') && fresh(Nodes(h') - Nodes(h))
    ensures Shape(h') == Node(h.c, Shape(h.lo), Shape(h.eq), Insert(Shape(h.hi), w))
    decreases |w|, h, 0
  {
    hide Insert, Separate, Linked, Nodes, Shape;
    Parts(h);
    NodesAllocated(h);
    ghost var rest := {p} + Nodes(h.lo) + Nodes(h.eq);
    var kid, k := InsertWord(p.hikid, w, h.hi);
    assert Nodes(k) !! rest;
    p.hikid := kid;
    h' := Cell(p, h.c, h.lo, h.eq, k);
    Parts(h');
    assert Nodes(h') - Nodes(h) == Nodes(k) - Nodes(h.hi);
  }

  method InsertEqual(p: Tnode, w: seq<int>, ghost h: Layout) returns (ghost h': Layout)
    requires Root(h) == p && Separate(h) && Linked(h)
    modifies Nodes(h)
    ensures Root(h') == p && Separate(h') && Linked(h') && fresh(Nodes(h') - Nodes(h))
    ensures Shape(h') == Node(h.c, Shape(h.lo), Insert(Shape(h.eq), w), Shape(h.hi))
    decreases |w|, h, 0
  {
    hide Insert, Separate, Linked, Nodes, Shape;
    Parts(h);
    NodesAllocated(h);
    ghost var rest := {p} + Nodes(h.lo) + Nodes(h.hi);
    var kid, k := InsertWord(p.eqkid, w, h.eq);
    assert Nodes(k) !! rest;
    p.eqkid := kid;
    h' := Cell(p, h.c, h.lo, k, h.hi);
    Parts(h');
    assert Nodes(h') - Nodes(h) == Nodes(k) - Nodes(h.eq);
  }

  method SearchWord(root: Tnode, w: seq<int>, ghost h: Layout) returns (found: bool)
    requires Root(h) == root && Linked(h) && IsWord(w)
    ensures found <==> Search(Shape(h), w)
  {
    var p: Tnode?, s := root, w;
    ghost var rest := h;
    while p != null
      invariant Root(rest) == p && Linked(rest) && IsWord(s)
      invariant Search(Shape(rest), s) <==> Search(Shape(h), w)
      decreases rest
    {
      var c := if s == [] then 0 else s[0];
      if c < p.s {
        p, rest := p.lokid, rest.lo;
      } else if c > p.s {
        p, rest := p.hikid, rest.hi;
      } else {
        if c == 0 {
          return true;
        }
        s := s[1..];
        p, rest := p.eqkid, rest.eq;
      }
    }
    return false;
  }

  /** A root built by inserting the words one after the other finds exactly those words. */
  method BuildAndSearch(ws: seq<seq<int>>, v: seq<int>) returns (found: bool)
    requires ws != [] && IsWord(v) && forall i :: 0 <= i < |ws| ==> IsWord(ws[i])
    ensures found <==> v in ws
  {
    var t: Tnode? := null;
    ghost var h := Empty;
    for i := 0 to |ws|
      invariant Root(h) == t && Separate(h) && Linked(h) && fresh(Nodes(h))
      invariant i > 0 ==> t != null
      invariant Shape(h) == InsertAll(Nil, ws[..i])
    {
      assert ws[..i + 1][..i] == ws[..i];
      ghost var before := h;
      t, h := InsertWord(t, ws[i], h);
      NodesAllocated(h);
      assert Nodes(h) <= Nodes(before) + (Nodes(h) - Nodes(before));
    }
    assert ws[..|ws|] == ws;
    FindsExactlyInserted(ws, v);
    found := SearchWord(t, v, h);
  }
}
