/** The word-level edit distance that decides whether two queries are alike. */
module EditDistance {

  type Word = seq<char>

  function Min(a: int, b: int, c: int): (r: int)
    ensures r <= a && r <= b && r <= c && (r == a || r == b || r == c)
  {
    if c < (if a > b then b else a) then c else if a > b then b else a
  }

  // ----- what the distance means -----

  /** A single change of a word list, anywhere in it. */
  datatype Edit = Insert(i: nat, w: Word) | Delete(i: nat) | Replace(i: nat, w: Word)

  predicate Applies(a: seq<Word>, e: Edit) {
    if e.Insert? then e.i <= |a| else e.i < |a|
  }

  function Perform(a: seq<Word>, e: Edit): seq<Word>
    requires Applies(a, e)
  {
    match e
    case Insert(i, w) => a[..i] + [w] + a[i..]
    case Delete(i) => a[..i] + a[i + 1..]
    case Replace(i, w) => a[i := w]
  }

  /** The changes `es`, one after the other, turn `a` into `b`. */
  predicate Turns(a: seq<Word>, es: seq<Edit>, b: seq<Word>)
    decreases |es|
  {
    if es == [] then a == b else Applies(a, es[0]) && Turns(Perform(a, es[0]), es[1..], b)
  }

  // ----- the recurrence of the table -----

  function Cost(x: Word, y: Word): int {
    if x == y then 0 else 1
  }

  /** The table entry for two lists: every case looks at shorter prefixes. */
  function Distance(a: seq<Word>, b: seq<Word>): (d: nat)
    decreases |a| + |b|
  {
    if a == [] then |b|
    else if b == [] then |a|
    else
      var a', b' := a[..|a| - 1], b[..|b| - 1];
      Min(Distance(a', b') + Cost(a[|a| - 1], b[|b| - 1]), Distance(a', b) + 1, Distance(a, b') + 1)
  }

  // ----- no edit script is shorter -----

  lemma DistanceShorter(a: seq<Word>, b: seq<Word>)
    ensures a != [] ==> Distance(a, b) <= Distance(a[..|a| - 1], b) + 1
    ensures b != [] ==> Distance(a, b) <= Distance(a, b[..|b| - 1]) + 1
  {
  }

  /** Distances of lists with last words `x` and `y`. */
  lemma DistanceSnoc(a: seq<Word>, x: Word, b: seq<Word>, y: Word)
    ensures Distance(a + [x], b + [y]) ==
              Min(Distance(a, b) + Cost(x, y), Distance(a, b + [y]) + 1, Distance(a + [x], b) + 1)
  {
    assert (a + [x])[..|a|] == a && (b + [y])[..|b|] == b;
  }

  /** One change moves the distance to any list by at most one. */
  lemma {:induction false} OneEdit(a: seq<Word>, e: Edit, b: seq<Word>)
    requires Applies(a, e)
    ensures Distance(a, b) <= Distance(Perform(a, e), b) + 1
    decreases |a| + |b|
  {
    hide Distance, Perform;
    PerformEnds(a, e);
    if b == [] {
      DistanceEmpty(a);
      DistanceEmpty(Perform(a, e));
    } else {
      var b', y := b[..|b| - 1], b[|b| - 1];
      assert b == b' + [y];
      OneEdit(a, e, b');
      DistanceShorter(a, b);
      if e.Insert? && e.i == |a| {
        DistanceSnoc(a, e.w, b', y);
      } else if !(e.Delete? && e.i + 1 == |a|) {
        EditBefore(a, e, b', y);
      }
    }
  }

  lemma PerformEnds(a: seq<Word>, e: Edit)
    requires Applies(a, e)
    ensures |Perform(a, e)| >= |a| - 1
    ensures e.Insert? && e.i == |a| ==> Perform(a, e) == a + [e.w]
    ensures e.Delete? && e.i + 1 == |a| ==> Perform(a, e) == a[..|a| - 1]
  {
  }

  /** The same for a change that leaves the last word in place, or replaces it. */
  lemma {:induction false} EditBefore(a: seq<Word>, e: Edit, b: seq<Word>, y: Word)
    requires Applies(a, e) && !(e.Delete? && e.i + 1 == |a|) && !(e.Insert? && e.i == |a|)
    requires Distance(a, b) <= Distance(Perform(a, e), b) + 1
    ensures Distance(a, b + [y]) <= Distance(Perform(a, e), b + [y]) + 1
    decreases |a| + |b| + 1, 0
  {
    hide Distance, Perform;
    var p, x := a[..|a| - 1], a[|a| - 1];
    assert a == p + [x];
    DistanceSnoc(p, x, b, y);
    if e.Replace? && e.i == |a| - 1 {
      PerformLast(p, x, e);
      DistanceSnoc(p, e.w, b, y);
    } else {
      PerformBefore(p, x, e);
      OneEdit(p, e, b);
      OneEdit(p, e, b + [y]);
      DistanceSnoc(Perform(p, e), x, b, y);
    }
  }

  lemma PerformBefore(p: seq<Word>, x: Word, e: Edit)
    requires Applies(p, e)
    ensures Applies(p + [x], e) && Perform(p + [x], e) == Perform(p, e) + [x]
  {
  }

  lemma PerformLast(p: seq<Word>, x: Word, e: Edit)
    requires e.Replace? && e.i == |p|
    ensures Applies(p + [x], e) && Perform(p + [x], e) == p + [e.w]
  {
  }

  /** Every script has at least as many changes as the table says. */
  lemma {:induction false} ScriptBound(a: seq<Word>, es: seq<Edit>, b: seq<Word>)
    requires Turns(a, es, b)
    ensures Distance(a, b) <= |es|
    decreases |es|
  {
    if es == [] {
      DistanceToSelf(a);
    } else {
      ScriptBound(Perform(a, es[0]), es[1..], b);
      OneEdit(a, es[0], b);
    }
  }

  lemma {:induction false} DistanceToSelf(a: seq<Word>)
    ensures Distance(a, a) == 0
  {
    if a != [] {
      DistanceToSelf(a[..|a| - 1]);
    }
  }

  // ----- some script is that short -----

  lemma {:induction false} TurnsAppend(a: seq<Word>, es: seq<Edit>, b: seq<Word>, fs: seq<Edit>, c: seq<Word>)
    requires Turns(a, es, b) && Turns(b, fs, c)
    ensures Turns(a, es + fs, c)
    decreases |es|
  {
    hide Perform;
    if es == [] {
      assert es + fs == fs;
    } else {
      TurnsAppend(Perform(a, es[0]), es[1..], b, fs, c);
      assert (es + fs)[1..] == es[1..] + fs;
    }
  }

  /** A script also works with one more word at the end. */
  lemma {:induction false} TurnsSnoc(a: seq<Word>, es: seq<Edit>, b: seq<Word>, x: Word)
    requires Turns(a, es, b)
    ensures Turns(a + [x], es, b + [x])
    decreases |es|
  {
    if es != [] {
      PerformBefore(a, x, es[0]);
      TurnsSnoc(Perform(a, es[0]), es[1..], b, x);
    }
  }

  lemma OneTurn(a: seq<Word>, e: Edit)
    requires Applies(a, e)
    ensures Turns(a, [e], Perform(a, e))
  {
    assert [e][1..] == [];
  }

  lemma NoTurn(a: seq<Word>)
    ensures Turns(a, [], a)
  {
  }

  /** An entry comes from one of the three neighbours. */
  lemma DistanceCases(a: seq<Word>, b: seq<Word>)
    ensures a == [] && b == [] ==> Distance(a, b) == 0
    ensures a == [] && b != [] ==> Distance(a, b) == Distance(a, b[..|b| - 1]) + 1
    ensures a != [] && b == [] ==> Distance(a, b) == Distance(a[..|a| - 1], b) + 1
    ensures a != [] && b != [] ==>
              || Distance(a, b) == Distance(a[..|a| - 1], b) + 1
              || Distance(a, b) == Distance(a, b[..|b| - 1]) + 1
              || Distance(a, b) == Distance(a[..|a| - 1], b[..|b| - 1]) + Cost(a[|a| - 1], b[|b| - 1])
  {
  }

  lemma {:induction false} ShortestScript(a: seq<Word>, b: seq<Word>) returns (es: seq<Edit>)
    ensures Turns(a, es, b) && |es| == Distance(a, b)
    decreases |a| + |b|
  {
    DistanceCases(a, b);
    hide Distance, Turns, Perform;
    if a == [] && b == [] {
      es := [];
      NoTurn(a);
    } else if b == [] || (a != [] && Distance(a, b) == Distance(a[..|a| - 1], b) + 1) {
      var rest := ShortestScript(a[..|a| - 1], b);
      var e := Delete(|a| - 1);
      PerformEnds(a, e);
      OneTurn(a, e);
      TurnsAppend(a, [e], a[..|a| - 1], rest, b);
      es := [e] + rest;
    } else if a == [] || Distance(a, b) == Distance(a, b[..|b| - 1]) + 1 {
      var b' := b[..|b| - 1];
      var first := ShortestScript(a, b');
      var e := Insert(|b'|, b[|b| - 1]);
      PerformEnds(b', e);
      assert b == b' + [b[|b| - 1]];
      OneTurn(b', e);
      TurnsAppend(a, first, b', [e], b);
      es := first + [e];
    } else {
      es := MatchLast(a, b);
    }
  }

  lemma {:induction false} MatchLast(a: seq<Word>, b: seq<Word>) returns (es: seq<Edit>)
    requires a != [] && b != []
    requires Distance(a, b) == Distance(a[..|a| - 1], b[..|b| - 1]) + Cost(a[|a| - 1], b[|b| - 1])
    ensures Turns(a, es, b) && |es| == Distance(a, b)
    decreases |a| + |b|, 0
  {
    hide Distance, Perform, Turns;
    var a', b', x, y := a[..|a| - 1], b[..|b| - 1], a[|a| - 1], b[|b| - 1];
    es := ShortestScript(a', b');
    TurnsSnoc(a', es, b', x);
    assert a == a' + [x] && b == b' + [y];
    if x != y {
      var e := Replace(|b'|, y);
      PerformLast(b', x, e);
      OneTurn(b' + [x], e);
      TurnsAppend(a, es, b' + [x], [e], b);
      es := es + [e];
    }
  }

  // ----- the comparison -----

  const TABLE := 256

  lemma DistanceEmpty(a: seq<Word>)
    ensures Distance(a, []) == |a| && Distance([], a) == |a|
  {
  }

  /** The least number of changes that turn one list into the other, and nothing less. */
  lemma DistanceIsLeast(a: seq<Word>, b: seq<Word>, limit: int)
    ensures Distance(a, b) <= limit <==> exists es :: Turns(a, es, b) && |es| <= limit
  {
    hide Distance, Turns;
    var es := ShortestScript(a, b);
    forall fs | Turns(a, fs, b) ensures Distance(a, b) <= |fs| { ScriptBound(a, fs, b); }
  }

  /** Rows before `i` of the table, and row `i` up to column `j`, hold distances of prefixes. */
  ghost predicate Filled(tab: array2<int>, a: seq<Word>, b: seq<Word>, i: nat, j: nat)
    reads tab
    requires tab.Length0 > |a| && tab.Length1 > |b| && i <= |a| + 1 && j <= |b| + 1
  {
    && (forall r :: 0 <= r <= |a| ==> tab[r, 0] == r)
    && (forall r, c :: 0 <= r < i && 0 <= c <= |b| ==> tab[r, c] == Distance(a[..r], b[..c]))
    && (i <= |a| ==> forall c :: 0 <= c < j ==> tab[i, c] == Distance(a[..i], b[..c]))
  }

  method FillRow(tab: array2<int>, a: seq<Word>, b: seq<Word>, i: nat)
    requires tab.Length0 > |a| && tab.Length1 > |b| && 1 <= i <= |a| && Filled(tab, a, b, i, 0)
    modifies tab
    ensures Filled(tab, a, b, i + 1, 0)
  {
    hide Distance;
    DistanceEmpty(a[..i]);
    assert b[..0] == [];
    for j := 1 to |b| + 1
      invariant Filled(tab, a, b, i, j)
    {
      var cost := if a[i - 1] == b[j - 1] then 0 else 1;
      DistanceSnoc(a[..i - 1], a[i - 1], b[..j - 1], b[j - 1]);
      assert a[..i] == a[..i - 1] + [a[i - 1]] && b[..j] == b[..j - 1] + [b[j - 1]];
      tab[i, j] := Min(tab[i - 1, j - 1] + cost, tab[i - 1, j] + 1, tab[i, j - 1] + 1);
    }
  }

  method FillEdges(tab: array2<int>, a: seq<Word>, b: seq<Word>)
    requires tab.Length0 > |a| && tab.Length1 > |b|
    modifies tab
    ensures Filled(tab, a, b, 1, 0)
  {
    hide Distance;
    for i := 0 to |a| + 1
      invariant forall r :: 0 <= r < i ==> tab[r, 0] == r
    {
      tab[i, 0] := i;
    }
    for j := 0 to |b| + 1
      invariant forall r :: 0 <= r <= |a| ==> tab[r, 0] == r
      invariant forall c :: 0 <= c < j ==> tab[0, c] == c
    {
      tab[0, j] := j;
    }
    forall c | 0 <= c <= |b| ensures tab[0, c] == Distance(a[..0], b[..c]) {
      DistanceEmpty(b[..c]);
      assert a[..0] == [];
    }
  }

  /** Fill the table row by row and compare its last entry with the limit. */
  method CompareString(a: seq<Word>, b: seq<Word>, limit: int) returns (ok: bool)
    requires |a| < 256 && |b| < 256
    ensures ok <==> exists es :: Turns(a, es, b) && |es| <= limit
  {
    hide Distance, Turns;
    var tab := new int[TABLE, TABLE]((i, j) => 0);
    FillEdges(tab, a, b);
    for i := 1 to |a| + 1
      invariant Filled(tab, a, b, i, 0)
    {
      FillRow(tab, a, b, i);
    }
    ok := tab[|a|, |b|] <= limit;
    assert a[..|a|] == a && b[..|b|] == b;
    DistanceIsLeast(a, b, limit);
  }
}
