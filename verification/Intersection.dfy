/**
  The first shared node of two linked lists, found by reversing one list in place, measuring the
  other through it, and reversing it back.
 */
module Intersection {

  class ListNode {
    var val: int
    var next: ListNode?

    constructor (x: int)
      ensures val == x && next == null
    {
      val := x;
      next := null;
    }
  }

  /** `xs` are the nodes from the first one to the end, each pointing to its successor. */
  ghost predicate Chain(xs: seq<ListNode>)
    reads xs
  {
    && (forall k :: 0 <= k < |xs| - 1 ==> xs[k].next == xs[k + 1])
    && (xs != [] ==> xs[|xs| - 1].next == null)
  }

  function First(xs: seq<ListNode>): ListNode? {
    if xs == [] then null else xs[0]
  }

  ghost function Reversed(xs: seq<ListNode>): (r: seq<ListNode>)
    ensures |r| == |xs| && forall k :: 0 <= k < |xs| ==> r[k] == xs[|xs| - 1 - k]
  {
    seq(|xs|, k requires 0 <= k < |xs| => xs[|xs| - 1 - k])
  }

  lemma ReversedTwice(xs: seq<ListNode>)
    ensures Reversed(Reversed(xs)) == xs
    ensures forall x :: x in Reversed(xs) <==> x in xs
  {
    assert forall k :: 0 <= k < |xs| ==> xs[k] == Reversed(xs)[|xs| - 1 - k];
  }

  ghost predicate Distinct(xs: seq<ListNode>) {
    forall a, b :: 0 <= a < b < |xs| ==> xs[a] != xs[b]
  }

  /** A list that ends visits no node twice. */
  lemma {:induction false} ChainNoRepeat(xs: seq<ListNode>, a: nat, b: nat)
    requires Chain(xs) && a < b < |xs|
    ensures xs[a] != xs[b]
    decreases |xs| - b
  {
    assert xs[a].next == xs[a + 1];
    if b + 1 < |xs| {
      ChainNoRepeat(xs, a + 1, b + 1);
    }
  }

  lemma ChainDistinct(xs: seq<ListNode>)
    requires Chain(xs)
    ensures Distinct(xs)
  {
    forall a, b | 0 <= a < b < |xs| ensures xs[a] != xs[b] { ChainNoRepeat(xs, a, b); }
  }

  /** Two lists that meet in a node agree from there on. */
  lemma {:induction false} MeetingShares(xs: seq<ListNode>, ys: seq<ListNode>, i: nat, j: nat)
    requires Chain(xs) && Chain(ys) && i < |xs| && j < |ys| && xs[i] == ys[j]
    ensures xs[i..] == ys[j..]
    decreases |xs| - i
  {
    assert j + 1 < |ys| ==> ys[j].next == ys[j + 1];
    if i + 1 < |xs| {
      assert xs[i].next == xs[i + 1];
      MeetingShares(xs, ys, i + 1, j + 1);
      assert xs[i..] == [xs[i]] + xs[i + 1..] && ys[j..] == [ys[j]] + ys[j + 1..];
    } else {
      assert j + 1 == |ys|;
    }
  }

  /** `i` and `j` are where the lists first meet. */
  ghost predicate Meet(xs: seq<ListNode>, ys: seq<ListNode>, i: nat, j: nat) {
    && i < |xs| && j < |ys| && xs[i..] == ys[j..]
    && (forall k :: 0 <= k < i ==> xs[k] !in ys) && (forall k :: 0 <= k < j ==> ys[k] !in xs)
  }

  /** Lists with a common node first meet somewhere. */
  lemma FindMeeting(xs: seq<ListNode>, ys: seq<ListNode>) returns (i: nat, j: nat)
    requires Chain(xs) && Chain(ys) && xs != [] && ys != [] && xs[|xs| - 1] == ys[|ys| - 1]
    ensures Meet(xs, ys, i, j)
  {
    i := 0;
    while xs[i] !in ys
      invariant i < |xs| && forall k :: 0 <= k < i ==> xs[k] !in ys
      decreases |xs| - i
    {
      i := i + 1;
    }
    j :| 0 <= j < |ys| && ys[j] == xs[i];
    MeetingShares(xs, ys, i, j);
    ChainDistinct(ys);
    forall k, l | 0 <= k < j && 0 <= l < |xs| ensures xs[l] != ys[k] {
      if l >= i {
        assert xs[l] == ys[j + (l - i)] by { assert xs[i..][l - i] == ys[j..][l - i]; }
      }
    }
  }

  /** Lists that meet have the same last node. */
  lemma MeetingSharesEnd(xs: seq<ListNode>, ys: seq<ListNode>, i: nat, j: nat)
    requires Chain(xs) && Chain(ys) && i < |xs| && j < |ys| && xs[i] == ys[j]
    ensures xs[|xs| - 1] == ys[|ys| - 1]
  {
    MeetingShares(xs, ys, i, j);
    assert xs[i..][|xs| - 1 - i] == ys[j..][|xs| - 1 - i];
  }

  /** Without a common last node there is no common node. */
  lemma NoMeeting(xs: seq<ListNode>, ys: seq<ListNode>)
    requires Chain(xs) && Chain(ys)
    requires xs != [] && ys != [] ==> xs[|xs| - 1] != ys[|ys| - 1]
    ensures forall x :: x in xs ==> x !in ys
  {
    forall i, j | 0 <= i < |xs| && 0 <= j < |ys| ensures xs[i] != ys[j] {
      if xs[i] == ys[j] {
        MeetingSharesEnd(xs, ys, i, j);
        assert false;
      }
    }
  }

  // ----- the loops -----

  /** Walk to the last node, counting the steps. */
  method WalkToEnd(head: ListNode, ghost xs: seq<ListNode>) returns (last: ListNode, steps: nat)
    requires Chain(xs) && xs != [] && head == xs[0]
    ensures last == xs[|xs| - 1] && steps == |xs| - 1
  {
    last, steps := head, 0;
    while last.next != null
      invariant steps < |xs| && last == xs[steps]
      invariant steps + 1 < |xs| ==> last.next == xs[steps + 1]
      decreases |xs| - steps
    {
      steps := steps + 1;
      last := last.next;
    }
  }

  /** Count the nodes. */
  method CountNodes(head: ListNode?, ghost xs: seq<ListNode>) returns (count: nat)
    requires Chain(xs) && head == First(xs)
    ensures count == |xs|
  {
    var p := head;
    count := 0;
    while p != null
      invariant count <= |xs| && p == First(xs[count..])
      decreases |xs| - count
    {
      count := count + 1;
      p := p.next;
    }
  }

  /** Reverse a list in place. */
  method ReverseList(head: ListNode?, ghost xs: seq<ListNode>) returns (tail: ListNode?)
    requires Chain(xs) && head == First(xs)
    modifies xs
    ensures Chain(Reversed(xs)) && tail == First(Reversed(xs))
    ensures forall x :: x in xs ==> x.val == old(x.val)
  {
    ChainDistinct(xs);
    var p := head;
    tail := null;
    ghost var k := 0;
    while p != null
      invariant 0 <= k <= |xs|
      invariant p == First(xs[k..]) && tail == if k == 0 then null else xs[k - 1]
      invariant forall m :: 0 < m < k ==> xs[m].next == xs[m - 1]
      invariant k > 0 ==> xs[0].next == null
      invariant forall m :: k <= m < |xs| - 1 ==> xs[m].next == xs[m + 1]
      invariant k < |xs| ==> xs[|xs| - 1].next == null
      invariant forall x :: x in xs ==> x.val == old(x.val)
      decreases |xs| - k
    {
      var s := p.next;
      p.next := tail;
      tail := p;
      p := s;
      k := k + 1;
    }
    ghost var r := Reversed(xs);
    forall m | 0 <= m < |r| - 1 ensures r[m].next == r[m + 1] {
      assert xs[|xs| - 1 - m].next == xs[|xs| - 1 - m - 1];
    }
  }

  /** With the first list reversed, the second runs up to the meeting and then back to the first head. */
  lemma Detour(xs: seq<ListNode>, ys: seq<ListNode>, i: nat, j: nat)
    requires Meet(xs, ys, i, j) && Chain(Reversed(xs)) && Links(ys, j)
    ensures Chain(ys[..j] + Reversed(xs[..i + 1])) && First(ys[..j] + Reversed(xs[..i + 1])) == ys[0]
  {
    var back, all := Reversed(xs[..i + 1]), Reversed(xs);
    var path := ys[..j] + back;
    assert ys[j..][0] == xs[i..][0];
    assert back[0] == xs[i] == ys[j];
    forall k | 0 <= k < |path| - 1 ensures path[k].next == path[k + 1] {
      if k >= j {
        var m := |xs| - 1 - i + (k - j);
        assert path[k] == all[m] && path[k + 1] == all[m + 1];
      }
    }
    assert path[|path| - 1] == xs[0] == all[|xs| - 1];
  }

  /** The part of a list before the meeting. */
  ghost predicate Links(ys: seq<ListNode>, j: nat)
    reads ys
    requires j < |ys|
  {
    forall k :: 0 <= k < j ==> ys[k].next == ys[k + 1]
  }

  /** Reverse the first list, and count the second through it. */
  method ReverseAndCount(headA: ListNode, headB: ListNode, ghost xs: seq<ListNode>, ghost ys: seq<ListNode>,
                         ghost i: nat, ghost j: nat)
    returns (tail: ListNode?, cc: nat)
    requires Chain(xs) && headA == First(xs) && Chain(ys) && headB == First(ys) && Meet(xs, ys, i, j)
    modifies xs
    ensures cc == i + j + 1
    ensures Chain(Reversed(xs)) && tail == First(Reversed(xs)) && Links(ys, j)
    ensures forall x :: x in xs ==> x.val == old(x.val)
  {
    assert Links(ys, j);
    tail := ReverseList(headA, xs);
    assert Links(ys, j);
    Detour(xs, ys, i, j);
    cc := CountNodes(headB, ys[..j] + Reversed(xs[..i + 1]));
  }

  method ReverseBack(tail: ListNode?, ghost xs: seq<ListNode>)
    requires Chain(Reversed(xs)) && tail == First(Reversed(xs))
    modifies xs
    ensures Chain(xs)
    ensures forall x :: x in xs ==> x.val == old(x.val)
  {
    hide Chain, Reversed;
    ReversedTwice(xs);
    var head := ReverseList(tail, Reversed(xs));
  }

  /** The same, and reverse the first list back. */
  method CountDetour(headA: ListNode, headB: ListNode, ghost xs: seq<ListNode>, ghost ys: seq<ListNode>, ghost i: nat,
                     ghost j: nat)
    returns (cc: nat)
    requires Chain(xs) && headA == First(xs) && Chain(ys) && headB == First(ys) && Meet(xs, ys, i, j)
    modifies xs
    ensures cc == i + j + 1
    ensures Chain(xs) && Chain(ys)
    ensures forall x :: x in xs ==> x.val == old(x.val)
  {
    var tail;
    tail, cc := ReverseAndCount(headA, headB, xs, ys, i, j);
    hide Chain, Reversed;
    ReverseBack(tail, xs);
    assert Links(ys, j);
    ChainRestored(xs, ys, i, j);
  }

  /** The pointers of a list are determined by its node sequence. */
  twostate lemma ChainFixesNext(xs: seq<ListNode>)
    requires old(Chain(xs)) && Chain(xs)
    ensures forall x :: x in xs ==> x.next == old(x.next)
  {
    forall k | 0 <= k < |xs| ensures xs[k].next == old(xs[k].next) {
      if k + 1 < |xs| { assert xs[k].next == xs[k + 1]; }
    }
  }

  /**
    The first shared node, or null if there is none; every pointer is as before.  The lists may be
    empty, disjoint, share a tail or be the same list; they must end.
   */
  method GetIntersectionNode(headA: ListNode?, headB: ListNode?, ghost xs: seq<ListNode>, ghost ys: seq<ListNode>)
    returns (r: ListNode?)
    requires Chain(xs) && headA == First(xs) && Chain(ys) && headB == First(ys)
    modifies xs
    ensures r == null <==> forall x :: x in xs ==> x !in ys
    ensures r != null ==> exists i: nat, j: nat :: Meet(xs, ys, i, j) && r == xs[i] == ys[j]
    ensures forall x :: x in xs ==> x.next == old(x.next) && x.val == old(x.val)
    ensures Chain(xs) && Chain(ys)
  {
    if headA == null || headB == null {
      return null;
    }
    var p, ca := WalkToEnd(headA, xs);
    var q, cb := WalkToEnd(headB, ys);
    if p != q {
      NoMeeting(xs, ys);
      return null;
    }
    ghost var i, j := FindMeeting(xs, ys);
    assert |xs| - i == |xs[i..]| == |ys[j..]| == |ys| - j;
    assert xs[i..][0] == ys[j..][0];
    var cc := CountDetour(headA, headB, xs, ys, i, j);
    ChainFixesNext(xs);
    var len := ((ca + cb) - (cc - 1)) / 2;
    var t := cb - len;
    r := WalkSteps(headB, t, ys);
    assert xs[i] in xs && xs[i] in ys;
  }

  method WalkSteps(head: ListNode, steps: nat, ghost xs: seq<ListNode>) returns (p: ListNode)
    requires Chain(xs) && xs != [] && head == xs[0] && steps < |xs|
    ensures p == xs[steps]
  {
    p := head;
    var t := steps;
    while t > 0
      invariant 0 <= t <= steps && p == xs[steps - t]
    {
      assert xs[steps - t].next == xs[steps - t + 1];
      p := p.next;
      t := t - 1;
    }
  }

  lemma ChainRestored(xs: seq<ListNode>, ys: seq<ListNode>, i: nat, j: nat)
    requires Meet(xs, ys, i, j) && Chain(xs) && Links(ys, j)
    ensures Chain(ys)
  {
    forall k | j <= k < |ys| ensures ys[k] == xs[i + (k - j)] {
      assert ys[j..][k - j] == xs[i..][k - j];
    }
    assert |ys| - j == |ys[j..]| == |xs[i..]| == |xs| - i;
  }
}
