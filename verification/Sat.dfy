/**
  Formulas in clausal form, what it means to satisfy one, and the simplifications of the solver
  as functions on clause lists.
 */
module SatSpec {
  type Clause = seq<int>
  type Formula = seq<Clause>

  /** A valuation is the set of variables that are true. */
  type Valuation = set<int>

  predicate Holds(t: Valuation, l: int) {
    if l > 0 then l in t else -l !in t
  }

  predicate Satisfies(t: Valuation, c: Clause) {
    exists i :: 0 <= i < |c| && Holds(t, c[i])
  }

  predicate Models(t: Valuation, f: Formula) {
    forall i :: 0 <= i < |f| ==> Satisfies(t, f[i])
  }

  ghost predicate Satisfiable(f: Formula) {
    exists t :: Models(t, f)
  }

  /** Zero is not a literal: it ends a clause in the input format. */
  predicate WellFormed(f: Formula) {
    forall i :: 0 <= i < |f| ==> 0 !in f[i]
  }

  predicate DistinctClause(c: Clause) {
    forall i, j :: 0 <= i < j < |c| ==> c[i] != c[j]
  }

  predicate Distinct(f: Formula) {
    forall i :: 0 <= i < |f| ==> DistinctClause(f[i])
  }

  predicate Tautology(c: Clause) {
    exists l :: l != 0 && l in c && -l in c
  }

  /** A clause in which repetition does no harm: there is none, or the clause always holds. */
  predicate HarmlessClause(c: Clause) {
    DistinctClause(c) || Tautology(c)
  }

  predicate Harmless(f: Formula) {
    forall i :: 0 <= i < |f| ==> HarmlessClause(f[i])
  }

  function Literals(f: Formula): nat {
    if f == [] then 0 else |f[0]| + Literals(f[1..])
  }

  /** Clauses plus literals. */
  function Size(f: Formula): nat {
    |f| + Literals(f)
  }

  function SetTrue(t: Valuation, l: int): Valuation {
    if l > 0 then t + {l} else t - {-l}
  }

  // ----- the simplifications -----

  /** Remove the first occurrence of `l`, the one that a search from the left finds. */
  function RemoveFirst(c: Clause, l: int): (r: Clause)
    requires l in c
    ensures |r| == |c| - 1
    ensures forall x :: x != l ==> (x in r <==> x in c)
    ensures l in r ==> exists i, j :: 0 <= i < j < |c| && c[i] == c[j] == l
    ensures forall x :: x in r ==> x in c
    ensures DistinctClause(c) ==> DistinctClause(r)
  {
    var k := IndexOf(c, l);
    c[..k] + c[k + 1..]
  }

  /** Exactly the first occurrence is taken out; the others and their order stay. */
  lemma RemovesFirst(c: Clause, l: int)
    requires l in c
    ensures exists k :: 0 <= k < |c| && c[k] == l && l !in c[..k] && RemoveFirst(c, l) == c[..k] + c[k + 1..]
  {
    var k := IndexOf(c, l);
    assert c[k] == l && l !in c[..k] && RemoveFirst(c, l) == c[..k] + c[k + 1..];
  }

  function IndexOf(c: Clause, l: int): (k: nat)
    requires l in c
    ensures k < |c| && c[k] == l && l !in c[..k]
  {
    if c[0] == l then 0 else 1 + IndexOf(c[1..], l)
  }

  /** What a clause becomes once `l` is true: nothing if it holds, else the clause without `-l`. */
  function Reduce(c: Clause, l: int): Formula {
    if l in c then [] else if -l in c then [RemoveFirst(c, -l)] else [c]
  }

  function Assign(f: Formula, l: int): Formula {
    if f == [] then [] else Reduce(f[0], l) + Assign(f[1..], l)
  }

  predicate HasUnit(f: Formula) {
    exists i :: 0 <= i < |f| && |f[i]| == 1
  }

  function FirstUnit(f: Formula): (k: nat)
    requires HasUnit(f)
    ensures k < |f| && |f[k]| == 1 && forall i :: 0 <= i < k ==> |f[i]| != 1
  {
    if |f[0]| == 1 then 0
    else
      assert exists i :: 0 <= i < |f[1..]| && |f[1..][i]| == 1 by {
        var i :| 0 <= i < |f| && |f[i]| == 1;
        assert f[1..][i - 1] == f[i];
      }
      1 + FirstUnit(f[1..])
  }

  function Without(f: Formula, k: nat): Formula
    requires k < |f|
  {
    f[..k] + f[k + 1..]
  }

  /** Take unit clauses one after the other, each time making its literal true in the rest. */
  function Propagate(f: Formula): Formula
    decreases Size(f)
  {
    if HasUnit(f) then
      var k := FirstUnit(f);
      WithoutSize(f, k); AssignSize(Without(f, k), f[k][0]);
      Propagate(Assign(Without(f, k), f[k][0]))
    else f
  }

  function AllLiterals(f: Formula): set<int> {
    set i, j | 0 <= i < |f| && 0 <= j < |f[i]| :: f[i][j]
  }

  /** The literals whose negation does not occur. */
  function Pure(f: Formula): set<int> {
    AllLiterals(f) - Negated(AllLiterals(f))
  }

  function Negated(ls: set<int>): (r: set<int>)
    ensures forall l :: l in r <==> -l in ls
  {
    set l | l in ls :: -l
  }

  /** The clauses that hold none of the literals `ls`. */
  function Avoiding(f: Formula, ls: set<int>): Formula {
    if f == [] then []
    else if exists l :: l in f[0] && l in ls then Avoiding(f[1..], ls)
    else [f[0]] + Avoiding(f[1..], ls)
  }

  // ----- sizes -----

  lemma {:induction false} LiteralsAppend(f: Formula, h: Formula)
    ensures Literals(f + h) == Literals(f) + Literals(h)
  {
    if f == [] {
      assert f + h == h;
    } else {
      assert (f + h)[1..] == f[1..] + h;
      LiteralsAppend(f[1..], h);
    }
  }

  lemma WithoutSize(f: Formula, k: nat)
    requires k < |f|
    ensures Size(Without(f, k)) == Size(f) - 1 - |f[k]|
  {
    LiteralsAppend(f[..k], f[k + 1..]);
    assert f == f[..k] + ([f[k]] + f[k + 1..]);
    LiteralsAppend(f[..k], [f[k]] + f[k + 1..]);
    assert ([f[k]] + f[k + 1..])[1..] == f[k + 1..];
  }

  predicate Occurs(f: Formula, l: int) {
    exists i :: 0 <= i < |f| && (l in f[i] || -l in f[i])
  }

  /** Assigning never grows a formula, and shrinks it if the variable occurs. */
  lemma {:induction false} AssignSize(f: Formula, l: int)
    ensures Size(Assign(f, l)) <= Size(f)
    ensures Occurs(f, l) ==> Size(Assign(f, l)) < Size(f)
  {
    if f != [] {
      AssignSize(f[1..], l);
      LiteralsAppend(Reduce(f[0], l), Assign(f[1..], l));
      if Occurs(f, l) && !(l in f[0] || -l in f[0]) {
        var i :| 0 <= i < |f| && (l in f[i] || -l in f[i]);
        assert f[1..][i - 1] == f[i];
      }
    }
  }

  lemma {:induction false} PropagateSize(f: Formula)
    ensures Size(Propagate(f)) <= Size(f)
    ensures HasUnit(f) ==> Size(Propagate(f)) < Size(f)
    decreases Size(f)
  {
    if HasUnit(f) {
      var k := FirstUnit(f);
      WithoutSize(f, k);
      AssignSize(Without(f, k), f[k][0]);
      PropagateSize(Assign(Without(f, k), f[k][0]));
    }
  }

  lemma {:induction false} AvoidingSize(f: Formula, ls: set<int>)
    ensures |Avoiding(f, ls)| <= |f| && Size(Avoiding(f, ls)) <= Size(f)
    ensures Avoiding(f, ls) != f ==> Size(Avoiding(f, ls)) < Size(f)
    ensures (exists i, l :: 0 <= i < |f| && l in f[i] && l in ls) ==> Avoiding(f, ls) != f
  {
    if f != [] {
      AvoidingSize(f[1..], ls);
      assert f == [f[0]] + f[1..];
      if exists l :: l in f[0] && l in ls {
      } else {
        assert Avoiding(f, ls)[1..] == Avoiding(f[1..], ls);
        if i, l :| 0 <= i < |f| && l in f[i] && l in ls {
          assert f[1..][i - 1] == f[i];
        }
      }
    }
  }

  // ----- every simplification keeps formulas well formed and clauses without repetition -----

  lemma {:induction false} AssignKeeps(f: Formula, l: int)
    ensures WellFormed(f) ==> WellFormed(Assign(f, l))
    ensures Distinct(f) ==> Distinct(Assign(f, l)) && (l != 0 ==> !Occurs(Assign(f, l), l))
    ensures Harmless(f) ==> Harmless(Assign(f, l))
  {
    if f != [] {
      AssignKeeps(f[1..], l);
      ReduceKeeps(f[0], l);
      var r, rest := Reduce(f[0], l), Assign(f[1..], l);
      assert forall i :: 0 <= i < |Assign(f, l)| ==> Assign(f, l)[i] == if i < |r| then r[i] else rest[i - |r|];
    }
  }

  /** Erasing one literal of a tautology leaves its complementary pair: the clause lacks the other one. */
  lemma ReduceKeeps(c: Clause, l: int)
    ensures HarmlessClause(c) ==> Harmless(Reduce(c, l))
  {
    hide IndexOf;
    if l !in c && -l in c && Tautology(c) {
      var x :| x != 0 && x in c && -x in c;
      assert x in RemoveFirst(c, -l) && -x in RemoveFirst(c, -l);
    }
  }

  lemma {:induction false} PropagateKeeps(f: Formula)
    ensures WellFormed(f) ==> WellFormed(Propagate(f))
    ensures Distinct(f) ==> Distinct(Propagate(f))
    ensures Harmless(f) ==> Harmless(Propagate(f))
    ensures !HasUnit(Propagate(f))
    decreases Size(f)
  {
    if HasUnit(f) {
      var k := FirstUnit(f);
      WithoutSize(f, k);
      AssignSize(Without(f, k), f[k][0]);
      AssignKeeps(Without(f, k), f[k][0]);
      PropagateKeeps(Assign(Without(f, k), f[k][0]));
    }
  }

  /** The clauses that remain are clauses of the formula, and hold none of the literals. */
  lemma {:induction false} AvoidingClauses(f: Formula, ls: set<int>)
    ensures forall c :: c in Avoiding(f, ls) <==> c in f && !exists l :: l in c && l in ls
  {
    if f != [] {
      AvoidingClauses(f[1..], ls);
      assert forall c :: c in f <==> c == f[0] || c in f[1..];
    }
  }

  lemma AvoidingKeeps(f: Formula, ls: set<int>)
    ensures WellFormed(f) ==> WellFormed(Avoiding(f, ls))
    ensures Distinct(f) ==> Distinct(Avoiding(f, ls))
    ensures Harmless(f) ==> Harmless(Avoiding(f, ls))
  {
    AvoidingClauses(f, ls);
    var r := Avoiding(f, ls);
    forall i | 0 <= i < |r|
      ensures WellFormed(f) ==> 0 !in r[i]
      ensures Distinct(f) ==> DistinctClause(r[i])
      ensures Harmless(f) ==> HarmlessClause(r[i])
    {
      assert r[i] in f;
    }
  }

  // ----- every simplification keeps satisfiability -----

  /** A model that makes `l` true is a model of what remains, repeated literals or not. */
  lemma {:induction false} AssignComplete(f: Formula, l: int, t: Valuation)
    requires l != 0 && Models(t, f) && Holds(t, l)
    ensures Models(t, Assign(f, l))
  {
    if f != [] {
      assert Models(t, f[1..]) by {
        forall i | 0 <= i < |f| - 1 ensures Satisfies(t, f[1..][i]) { assert f[1..][i] == f[i + 1]; }
      }
      AssignComplete(f[1..], l, t);
      if l !in f[0] && -l in f[0] {
        assert Satisfies(t, f[0]);
        var i :| 0 <= i < |f[0]| && Holds(t, f[0][i]);
        assert f[0][i] in RemoveFirst(f[0], -l);
      }
      ModelsAppend(t, Reduce(f[0], l), Assign(f[1..], l));
    }
  }

  lemma ModelsAppend(t: Valuation, f: Formula, h: Formula)
    ensures Models(t, f + h) <==> Models(t, f) && Models(t, h)
  {
    if Models(t, f + h) {
      forall i | 0 <= i < |f| ensures Satisfies(t, f[i]) { assert (f + h)[i] == f[i]; }
      forall i | 0 <= i < |h| ensures Satisfies(t, h[i]) { assert (f + h)[|f| + i] == h[i]; }
    }
  }

  /** If only tautologies repeat a literal, a model of what remains becomes a model with `l` true. */
  lemma {:induction false} AssignSound(f: Formula, l: int, t: Valuation)
    requires l != 0 && Harmless(f) && Models(t, Assign(f, l))
    ensures Models(SetTrue(t, l), f)
  {
    hide Reduce, RemoveFirst, IndexOf, SetTrue, Holds, HarmlessClause;
    if f != [] {
      ModelsAppend(t, Reduce(f[0], l), Assign(f[1..], l));
      AssignSound(f[1..], l, t);
      assert Satisfies(SetTrue(t, l), f[0]) by { ReduceSound(f[0], l, t); }
      ModelsAppend(SetTrue(t, l), [f[0]], f[1..]);
      assert f == [f[0]] + f[1..];
    }
  }

  lemma TautologyHolds(c: Clause, t: Valuation)
    requires Tautology(c)
    ensures Satisfies(t, c)
  {
    var x :| x != 0 && x in c && -x in c;
    var l := if Holds(t, x) then x else -x;
    var i :| 0 <= i < |c| && c[i] == l;
    assert Holds(t, c[i]);
  }

  lemma ReduceSound(c: Clause, l: int, t: Valuation)
    requires l != 0 && HarmlessClause(c) && Models(t, Reduce(c, l))
    ensures Satisfies(SetTrue(t, l), c)
  {
    var t' := SetTrue(t, l);
    if Tautology(c) {
      TautologyHolds(c, t');
    } else if l in c {
      var i :| 0 <= i < |c| && c[i] == l;
      assert Holds(t', c[i]);
    } else {
      var r := Reduce(c, l)[0];
      assert Satisfies(t, r);
      var i :| 0 <= i < |r| && Holds(t, r[i]);
      assert r[i] in c && r[i] != l && r[i] != -l;
      var j :| 0 <= j < |c| && c[j] == r[i];
      assert Holds(t', c[j]);
    }
  }

  /** Unit propagation keeps satisfiability: in one direction always, in the other without harmful repetitions. */
  lemma {:induction false} PropagateSat(f: Formula)
    requires WellFormed(f)
    ensures Satisfiable(f) ==> Satisfiable(Propagate(f))
    ensures Harmless(f) && Satisfiable(Propagate(f)) ==> Satisfiable(f)
    decreases Size(f)
  {
    if HasUnit(f) {
      hide Propagate, Assign, Satisfies;
      var k := FirstUnit(f);
      var l, rest := f[k][0], Without(f, k);
      assert l in f[k];
      WithoutSize(f, k);
      AssignSize(rest, l);
      AssignKeeps(rest, l);
      assert WellFormed(rest) && (Harmless(f) ==> Harmless(rest));
      PropagateStep(f);
      PropagateSat(Assign(rest, l));
      UnitSat(f, k);
    }
  }

  /** One unit clause: its literal must be true, and the rest is what the assignment leaves. */
  lemma UnitSat(f: Formula, k: nat)
    requires WellFormed(f) && k < |f| && |f[k]| == 1
    ensures Satisfiable(f) ==> Satisfiable(Assign(Without(f, k), f[k][0]))
    ensures Harmless(f) && Satisfiable(Assign(Without(f, k), f[k][0])) ==> Satisfiable(f)
  {
    hide Assign;
    var l, rest := f[k][0], Without(f, k);
    assert l in f[k];
    if t :| Models(t, f) {
      assert Satisfies(t, f[k]);
      AssignComplete(rest, l, t);
    }
    if Harmless(f) && Satisfiable(Assign(rest, l)) {
      var t :| Models(t, Assign(rest, l));
      AssignSound(rest, l, t);
      var t' := SetTrue(t, l);
      assert Satisfies(t', f[k]) by { assert Holds(t', f[k][0]); }
      forall i | 0 <= i < |f| ensures Satisfies(t', f[i]) {
        if i < k { assert rest[i] == f[i]; } else if i > k { assert rest[i - 1] == f[i]; }
      }
      assert Models(t', f);
    }
  }

  /** Dropping the clauses with a pure literal keeps satisfiability in both directions. */
  lemma PureSat(f: Formula)
    requires WellFormed(f)
    ensures Satisfiable(f) <==> Satisfiable(Avoiding(f, Pure(f)))
  {
    var ls, r := Pure(f), Avoiding(f, Pure(f));
    AvoidingClauses(f, ls);
    if t :| Models(t, f) {
      forall i | 0 <= i < |r| ensures Satisfies(t, r[i]) {
        assert r[i] in f;
        var j :| 0 <= j < |f| && f[j] == r[i];
        assert Satisfies(t, f[j]);
      }
      assert Models(t, r);
    }
    if t :| Models(t, r) {
      var t' := PureTrue(t, ls);
      forall i | 0 <= i < |f| ensures Satisfies(t', f[i]) { PureClauseHolds(f, i, t); }
      assert Models(t', f);
    }
  }

  /** The valuation with all literals of `ls` made true. */
  function PureTrue(t: Valuation, ls: set<int>): Valuation {
    (t + set l | l in ls && l > 0 :: l) - set l | l in ls && l < 0 :: -l
  }

  lemma PureTrueHolds(t: Valuation, ls: set<int>, l: int)
    requires l != 0 && -l !in ls && (l in ls || Holds(t, l))
    ensures Holds(PureTrue(t, ls), l)
  {
  }

  lemma PureClauseHolds(f: Formula, i: nat, t: Valuation)
    requires WellFormed(f) && i < |f| && Models(t, Avoiding(f, Pure(f)))
    ensures Satisfies(PureTrue(t, Pure(f)), f[i])
  {
    hide PureTrue, Avoiding;
    var ls, r := Pure(f), Avoiding(f, Pure(f));
    AvoidingClauses(f, ls);
    var j :| 0 <= j < |f[i]| && (f[i][j] in ls || Holds(t, f[i][j])) by {
      if l :| l in f[i] && l in ls {
        var j :| 0 <= j < |f[i]| && f[i][j] == l;
      } else {
        assert f[i] in r;
        var k :| 0 <= k < |r| && r[k] == f[i];
        assert Satisfies(t, r[k]);
      }
    }
    assert f[i][j] in AllLiterals(f);
    PureTrueHolds(t, ls, f[i][j]);
  }

  // ----- the solver as a function -----

  function FirstLiteral(f: Formula): (l: int)
    requires f != [] && [] !in f
    ensures Occurs(f, l) && Occurs(f, -l)
    ensures WellFormed(f) ==> l != 0
  {
    assert f[0] != [];
    assert f[0][0] in f[0];
    f[0][0]
  }

  /** What `solve` answers. */
  function Decide(f: Formula): bool
    decreases Size(f)
  {
    if f == [] then true
    else if [] in f then false
    else if HasUnit(f) then PropagateSize(f); Decide(Propagate(f))
    else
      var g := Avoiding(f, Pure(f));
      AvoidingSize(f, Pure(f));
      if g != f then Decide(g)
      else
        var l := FirstLiteral(f);
        AssignSize(f, l); AssignSize(f, -l);
        Decide(Assign(f, l)) || Decide(Assign(f, -l))
  }

  /** An unsatisfiable answer is right for every formula. */
  lemma {:induction false} DecideComplete(f: Formula)
    requires WellFormed(f) && Satisfiable(f)
    ensures Decide(f)
    decreases Size(f)
  {
    var t :| Models(t, f);
    if f != [] {
      if [] in f {
        assert false;
      } else if HasUnit(f) {
        PropagateSize(f); PropagateSat(f); PropagateKeeps(f);
        DecideComplete(Propagate(f));
      } else {
        var g := Avoiding(f, Pure(f));
        AvoidingSize(f, Pure(f)); PureSat(f); AvoidingKeeps(f, Pure(f));
        if g != f {
          DecideComplete(g);
        } else {
          var l := FirstLiteral(f);
          var k := if Holds(t, l) then l else -l;
          AssignSize(f, k); AssignComplete(f, k, t); AssignKeeps(f, k);
          DecideComplete(Assign(f, k));
        }
      }
    }
  }

  /** A satisfiable answer is right if no clause but a tautology repeats a literal. */
  lemma {:induction false} DecideSound(f: Formula)
    requires WellFormed(f) && Harmless(f) && Decide(f)
    ensures Satisfiable(f)
    decreases Size(f)
  {
    hide Assign, Avoiding, Propagate, Pure, Harmless, WellFormed, Size;
    if f == [] {
      assert Models({}, f);
    } else if HasUnit(f) {
      PropagateSize(f); PropagateSat(f); PropagateKeeps(f);
      DecideSound(Propagate(f));
    } else {
      var g := Avoiding(f, Pure(f));
      AvoidingSize(f, Pure(f)); PureSat(f); AvoidingKeeps(f, Pure(f));
      if g != f {
        DecideSound(g);
      } else {
        BranchSound(f);
      }
    }
  }

  lemma {:induction false} BranchSound(f: Formula)
    requires WellFormed(f) && Harmless(f) && f != [] && [] !in f
    requires Decide(Assign(f, FirstLiteral(f))) || Decide(Assign(f, -FirstLiteral(f)))
    ensures Satisfiable(f)
    decreases Size(f), 0
  {
    hide Assign, Avoiding, Propagate, Pure, Harmless, WellFormed, Size, Decide;
    var l := FirstLiteral(f);
    var k := if Decide(Assign(f, l)) then l else -l;
    AssignSize(f, k); AssignKeeps(f, k);
    DecideSound(Assign(f, k));
    var t :| Models(t, Assign(f, k));
    AssignSound(f, k, t);
  }

  lemma DecideCorrect(f: Formula)
    requires WellFormed(f) && Harmless(f)
    ensures Decide(f) <==> Satisfiable(f)
  {
    if Decide(f) { DecideSound(f); }
    if Satisfiable(f) { DecideComplete(f); }
  }

  // ----- a clause that repeats a literal is answered wrongly in some formula -----

  /** The unit clauses that refute the literals `us`. */
  function Refute(us: seq<int>): Formula {
    if us == [] then [] else [[-us[0]]] + Refute(us[1..])
  }

  lemma {:induction false} RefuteAt(us: seq<int>)
    ensures |Refute(us)| == |us| && forall i :: 0 <= i < |us| ==> Refute(us)[i] == [-us[i]]
  {
    if us != [] {
      RefuteAt(us[1..]);
    }
  }

  /** The literals of a clause, each once. */
  function Once(c: Clause): (us: seq<int>)
    ensures forall l :: l in us <==> l in c
    ensures DistinctClause(us) && |us| <= |c|
    ensures !DistinctClause(c) ==> |us| < |c|
  {
    if c == [] then []
    else if c[0] in c[1..] then Once(c[1..])
    else [c[0]] + Once(c[1..])
  }

  function RemoveEach(c: Clause, us: seq<int>): (r: Clause)
    requires DistinctClause(us) && forall l :: l in us ==> l in c
    ensures |r| == |c| - |us| && forall l :: l in r ==> l in c
    decreases |us|
  {
    if us == [] then c
    else
      assert forall i :: 0 <= i < |us[1..]| ==> us[1..][i] == us[i + 1];
      RemoveEach(RemoveFirst(c, us[0]), us[1..])
  }

  lemma {:induction false} AssignPasses(us: seq<int>, c: Clause, u: int)
    requires u in c && -u !in c && u !in us && -u !in us
    ensures Assign(Refute(us) + [c], -u) == Refute(us) + [RemoveFirst(c, u)]
  {
    var f := Refute(us) + [c];
    if us == [] {
      assert f[1..] == [];
      assert Reduce(c, -u) == [RemoveFirst(c, u)];
    } else {
      AssignPasses(us[1..], c, u);
      assert f[1..] == Refute(us[1..]) + [c];
      assert Reduce(f[0], -u) == [f[0]];
    }
  }

  lemma PropagateStep(f: Formula)
    requires HasUnit(f)
    ensures var k := FirstUnit(f);
            Propagate(f) == Propagate(Assign(Without(f, k), f[k][0]))
  {
  }

  /** Propagation uses the refuting units up, each of which takes only one occurrence out of `c`. */
  lemma {:induction false} RefutationConsumed(us: seq<int>, c: Clause)
    requires DistinctClause(us) && (forall l :: l in us ==> l in c) && 0 !in c && !Tautology(c)
    ensures Propagate(Refute(us) + [c]) == Propagate([RemoveEach(c, us)])
    decreases |us|
  {
    hide Propagate, Refute, RemoveFirst, IndexOf, Tautology, DistinctClause;
    if us == [] {
      NothingRefuted(c);
    } else {
      RemoveOne(us, c);
      RefutationStep(us, c);
      RefutationConsumed(us[1..], RemoveFirst(c, us[0]));
    }
  }

  lemma NothingRefuted(c: Clause)
    ensures Refute([]) + [c] == [c]
  {
  }

  lemma RefutationStep(us: seq<int>, c: Clause)
    requires us != [] && us[0] in c && -us[0] !in c && us[0] !in us[1..] && -us[0] !in us[1..]
    ensures Propagate(Refute(us) + [c]) == Propagate(Refute(us[1..]) + [RemoveFirst(c, us[0])])
  {
    hide Propagate, RemoveFirst, IndexOf, Assign, Refute, FirstUnit, HasUnit;
    var f := Refute(us) + [c];
    RefuteCons(us, c);
    PropagateStep(f);
    AssignPasses(us[1..], c, us[0]);
  }

  lemma RefuteCons(us: seq<int>, c: Clause)
    requires us != []
    ensures var f := Refute(us) + [c];
            && f[0] == [-us[0]] && HasUnit(f) && FirstUnit(f) == 0 && Without(f, 0) == Refute(us[1..]) + [c]
  {
    var f := Refute(us) + [c];
    assert f[0] == [-us[0]];
    assert |f[0]| == 1;
  }

  lemma RemoveOne(us: seq<int>, c: Clause)
    requires us != [] && DistinctClause(us) && (forall l :: l in us ==> l in c) && 0 !in c && !Tautology(c)
    ensures DistinctClause(us[1..]) && us[0] in c && -us[0] !in c && us[0] !in us[1..] && -us[0] !in us[1..]
    ensures forall l :: l in us[1..] ==> l in RemoveFirst(c, us[0])
    ensures 0 !in RemoveFirst(c, us[0]) && !Tautology(RemoveFirst(c, us[0]))
  {
    assert us[0] in us;
    assert forall i :: 0 <= i < |us[1..]| ==> us[1..][i] == us[i + 1] && us[i + 1] in us;
  }

  /**
    Erasing only the first occurrence makes repetition harmful: every such clause that is not a
    tautology occurs in a formula that is unsatisfiable, whose other clauses are all units, and
    that the solver declares satisfiable.
   */
  lemma RepetitionMisleads(c: Clause)
    requires 0 !in c && !Tautology(c) && !DistinctClause(c)
    ensures var f := Refute(Once(c)) + [c];
            WellFormed(f) && Distinct(Refute(Once(c))) && Decide(f) && !Satisfiable(f)
  {
    hide Decide, Propagate, Once;
    var us := Once(c);
    var f := Refute(us) + [c];
    RefuteAt(us);
    assert c[0] in us;
    forall i | 0 <= i < |us| ensures 0 !in f[i] { assert us[i] in us; }
    RefutedIsUnsatisfiable(us, c);
    RefutedIsAccepted(us, c);
  }

  /**
    The clauses that do no harm, exactly: a clause can be added to every formula without repeated
    literals and leave the answer right if and only if it repeats no literal or is a tautology.
   */
  lemma HarmlessIff(c: Clause)
    requires 0 !in c
    ensures HarmlessClause(c) <==>
            forall f :: WellFormed(f) && Distinct(f) ==> (Decide(f + [c]) <==> Satisfiable(f + [c]))
  {
    hide Decide, Satisfiable, Refute, Once;
    if HarmlessClause(c) {
      forall f | WellFormed(f) && Distinct(f) ensures Decide(f + [c]) <==> Satisfiable(f + [c]) {
        DecideCorrect(f + [c]);
      }
    } else {
      RepetitionMisleads(c);
      var f := Refute(Once(c));
      assert forall i :: 0 <= i < |f| ==> f[i] == (f + [c])[i];
    }
  }

  lemma RefutedIsUnsatisfiable(us: seq<int>, c: Clause)
    requires 0 !in c && forall l :: l in c ==> l in us
    ensures !Satisfiable(Refute(us) + [c])
  {
    var f := Refute(us) + [c];
    RefuteAt(us);
    forall t ensures !Models(t, f) {
      if i :| 0 <= i < |c| && Holds(t, c[i]) {
        assert c[i] in us;
        var j :| 0 <= j < |us| && us[j] == c[i];
        assert !Satisfies(t, f[j]);
      } else {
        assert !Satisfies(t, f[|us|]);
      }
    }
  }

  lemma RefutedIsAccepted(us: seq<int>, c: Clause)
    requires 0 !in c && !Tautology(c) && us != [] && |us| < |c|
    requires DistinctClause(us) && (forall l :: l in us ==> l in c) && WellFormed(Refute(us) + [c])
    ensures Decide(Refute(us) + [c])
  {
    hide Propagate, Decide, Refute, RemoveFirst, IndexOf, FirstUnit, Tautology, WellFormed;
    var f := Refute(us) + [c];
    RefuteAt(us);
    assert HasUnit(f) by { assert |f[0]| == 1; }
    RefutedLeavesModel(us, c);
    PropagateKeeps(f);
    DecideComplete(Propagate(f));
    DecideOfUnit(f);
  }

  /** What propagation leaves of the refuted clause is satisfiable. */
  lemma RefutedLeavesModel(us: seq<int>, c: Clause)
    requires 0 !in c && !Tautology(c) && |us| < |c| && DistinctClause(us) && (forall l :: l in us ==> l in c)
    ensures Satisfiable(Propagate(Refute(us) + [c]))
  {
    hide Propagate, RemoveEach, Refute, Tautology, DistinctClause, Satisfiable;
    RefutationConsumed(us, c);
    NonemptyIsSatisfiable(RemoveEach(c, us));
    PropagateSat([RemoveEach(c, us)]);
  }

  lemma NonemptyIsSatisfiable(c: Clause)
    requires c != [] && 0 !in c
    ensures WellFormed([c]) && Satisfiable([c])
  {
    var t := SetTrue({}, c[0]);
    assert c[0] in c && Holds(t, c[0]);
    assert Models(t, [c]);
  }

  lemma DecideOfUnit(f: Formula)
    requires HasUnit(f) && [] !in f && Decide(Propagate(f))
    ensures Decide(f)
  {
    hide Propagate, Avoiding, Pure, Assign;
  }
}

/** The formula object of the solver, whose operations change its clause list in place. */
module SatFormula {
  import opened SatSpec

  class FormulaImpl {
    var clauses: Formula

    constructor (f: Formula)
      ensures clauses == f
    {
      clauses := f;
    }

    method Consistent() returns (r: bool)
      ensures r <==> clauses == []
    {
      r := |clauses| == 0;
    }

    method EmptyClause() returns (r: bool)
      ensures r <==> [] in clauses
    {
      for i := 0 to |clauses|
        invariant [] !in clauses[..i]
      {
        if |clauses[i]| == 0 {
          return true;
        }
      }
      return false;
    }

    /** Make `lit` true: drop the clauses that hold it and take one `-lit` out of the others. */
    method UpdateClause(lit: int)
      modifies this
      ensures clauses == Assign(old(clauses), lit)
    {
      hide Reduce, RemoveFirst;
      var i := 0;
      while i < |clauses|
        invariant 0 <= i <= |clauses|
        invariant Assign(old(clauses), lit) == clauses[..i] + Assign(clauses[i..], lit)
        decreases |clauses| - i
      {
        var c := clauses[i];
        ghost var rest := clauses[i + 1..];
        ghost var done := clauses[..i];
        assert clauses[i..][1..] == rest;
        ReduceCases(c, lit);
        if lit in c {
          clauses := clauses[..i] + clauses[i + 1..];
          assert clauses[..i] == done && clauses[i..] == rest;
        } else {
          if -lit in c {
            clauses := clauses[i := RemoveFirst(c, -lit)];
          }
          assert clauses[..i + 1] == done + Reduce(c, lit) && clauses[i + 1..] == rest;
          i := i + 1;
        }
      }
      assert clauses[i..] == [];
    }

    method UnitClause() returns (entered: bool)
      modifies this
      ensures clauses == Propagate(old(clauses))
      ensures entered <==> HasUnit(old(clauses))
      ensures !entered ==> clauses == old(clauses)
    {
      entered := false;
      while true
        invariant Propagate(clauses) == Propagate(old(clauses))
        invariant if entered then HasUnit(old(clauses)) else clauses == old(clauses)
        decreases Size(clauses)
      {
        var i := 0;
        while i < |clauses| && |clauses[i]| != 1
          invariant 0 <= i <= |clauses|
          invariant forall j :: 0 <= j < i ==> |clauses[j]| != 1
        {
          i := i + 1;
        }
        if i == |clauses| {
          return;
        }
        assert HasUnit(clauses) && FirstUnit(clauses) == i;
        WithoutSize(clauses, i);
        AssignSize(Without(clauses, i), clauses[i][0]);
        var lit := clauses[i][0];
        clauses := clauses[..i] + clauses[i + 1..];
        UpdateClause(lit);
        entered := true;
      }
    }

    /** All literals of the formula, collected clause by clause. */
    method CollectLiterals() returns (ls: set<int>)
      ensures ls == AllLiterals(clauses)
    {
      ls := {};
      for i := 0 to |clauses|
        invariant ls == AllLiterals(clauses[..i])
      {
        ghost var before := ls;
        for j := 0 to |clauses[i]|
          invariant ls == before + set k | 0 <= k < j :: clauses[i][k]
        {
          ls := ls + {clauses[i][j]};
        }
        LiteralsOfPrefix(clauses, i);
      }
      assert clauses[..|clauses|] == clauses;
    }

    /** Of the literals collected, those whose negation was not. */
    method KeepPure(ls: set<int>) returns (ans: set<int>)
      ensures ans == ls - Negated(ls)
    {
      ans := ls;
      var rest := ls;
      while rest != {}
        invariant rest <= ls
        invariant ans <= ls && ls - Negated(ls) <= ans
        invariant forall l {:trigger l in ans} :: l in ans && -l in ls ==> l in rest
        decreases |rest|
      {
        var l := PickOne(rest);
        if -l in ls {
          ans := ans - {l} - {-l};
        }
        rest := rest - {l};
      }
    }

    /** Drop the clauses that hold `l`. */
    method EraseWith(l: int) returns (erased: bool)
      modifies this
      ensures clauses == Avoiding(old(clauses), {l})
      ensures erased <==> clauses != old(clauses)
    {
      erased := false;
      var j := 0;
      while j < |clauses|
        invariant 0 <= j <= |clauses|
        invariant Avoiding(old(clauses), {l}) == clauses[..j] + Avoiding(clauses[j..], {l})
        invariant |clauses| <= |old(clauses)|
        invariant if erased then |clauses| < |old(clauses)| else clauses == old(clauses)
        decreases |clauses| - j
      {
        ghost var rest, done := clauses[j + 1..], clauses[..j];
        assert clauses[j..][1..] == rest;
        if l in clauses[j] {
          clauses := clauses[..j] + clauses[j + 1..];
          erased := true;
          assert clauses[..j] == done && clauses[j..] == rest;
        } else {
          j := j + 1;
          assert clauses[..j] == done + [clauses[j - 1]];
        }
      }
      assert clauses[j..] == [];
    }

    method PureClause() returns (erased: bool)
      modifies this
      ensures clauses == Avoiding(old(clauses), Pure(old(clauses)))
      ensures erased <==> clauses != old(clauses)
    {
      hide Avoiding, AllLiterals;
      var literals := CollectLiterals();
      var ans := KeepPure(literals);
      erased := false;
      var rest := ans;
      AvoidingNone(clauses);
      assert ans - rest == {};
      while rest != {}
        invariant rest <= ans
        invariant clauses == Avoiding(old(clauses), ans - rest)
        invariant if erased then |clauses| < |old(clauses)| else clauses == old(clauses)
        decreases |rest|
      {
        var l := PickOne(rest);
        AvoidingTwice(old(clauses), ans - rest, {l});
        assert ans - (rest - {l}) == (ans - rest) + {l};
        AvoidingSize(clauses, {l});
        var hit := EraseWith(l);
        AvoidingSize(old(clauses), ans - (rest - {l}));
        if hit {
          AvoidingShorter(old(clauses), ans - (rest - {l}));
          erased := true;
        }
        rest := rest - {l};
      }
      assert ans - rest == ans;
    }
  }

  method PickOne<T>(s: set<T>) returns (x: T)
    requires s != {}
    ensures x in s
  {
    x :| x in s;
  }

  lemma ReduceCases(c: Clause, l: int)
    ensures l in c ==> Reduce(c, l) == []
    ensures l !in c && -l in c ==> Reduce(c, l) == [RemoveFirst(c, -l)]
    ensures l !in c && -l !in c ==> Reduce(c, l) == [c]
  {
  }

  lemma LiteralsOfPrefix(f: Formula, i: nat)
    requires i < |f|
    ensures AllLiterals(f[..i + 1]) == AllLiterals(f[..i]) + set k | 0 <= k < |f[i]| :: f[i][k]
  {
    var a, b := AllLiterals(f[..i + 1]), AllLiterals(f[..i]) + set k | 0 <= k < |f[i]| :: f[i][k];
    forall l | l in a ensures l in b {
      var p, q :| 0 <= p < |f[..i + 1]| && 0 <= q < |f[..i + 1][p]| && f[..i + 1][p][q] == l;
      if p < i { assert f[..i][p] == f[p]; }
    }
    forall l | l in b ensures l in a {
      if l in AllLiterals(f[..i]) {
        var p, q :| 0 <= p < |f[..i]| && 0 <= q < |f[..i][p]| && f[..i][p][q] == l;
        assert f[..i + 1][p][q] == l;
      } else {
        var q :| 0 <= q < |f[i]| && f[i][q] == l;
        assert f[..i + 1][i][q] == l;
      }
    }
  }

  lemma {:induction false} AvoidingNone(f: Formula)
    ensures Avoiding(f, {}) == f
  {
    if f != [] {
      AvoidingNone(f[1..]);
    }
  }

  lemma {:induction false} AvoidingTwice(f: Formula, ls: set<int>, ms: set<int>)
    ensures Avoiding(Avoiding(f, ls), ms) == Avoiding(f, ls + ms)
  {
    if f != [] {
      AvoidingTwice(f[1..], ls, ms);
      if !exists l :: l in f[0] && l in ls {
        assert Avoiding(f, ls)[1..] == Avoiding(f[1..], ls);
      }
    }
  }

  lemma {:induction false} AvoidingShorter(f: Formula, ls: set<int>)
    ensures Avoiding(f, ls) != f ==> |Avoiding(f, ls)| < |f|
  {
    if f != [] {
      AvoidingShorter(f[1..], ls);
      AvoidingSize(f[1..], ls);
      assert f == [f[0]] + f[1..];
    }
  }
}

module SatSolver {
  import opened SatSpec
  import opened SatFormula

  /** The solver; each recursive call works on its own copy of the formula. */
  method Solve(f: Formula) returns (r: bool)
    ensures r == Decide(f)
    ensures WellFormed(f) && Satisfiable(f) ==> r
    ensures WellFormed(f) && Harmless(f) ==> (r <==> Satisfiable(f))
    decreases Size(f)
  {
    r := Search(f);
    if WellFormed(f) && Satisfiable(f) { DecideComplete(f); }
    if WellFormed(f) && Harmless(f) { DecideCorrect(f); }
  }

  method Search(f: Formula) returns (r: bool)
    ensures r == Decide(f)
    decreases Size(f)
  {
    hide Assign, Avoiding, Pure, Propagate, Size;
    var copy := new FormulaImpl(f);
    var answered := copy.Consistent();
    if answered {
      return true;
    }
    answered := copy.EmptyClause();
    if answered {
      return false;
    }
    PropagateSize(f);
    answered := copy.UnitClause();
    if answered {
      r := Search(copy.clauses);
      return;
    }
    assert copy.clauses == f;
    AvoidingSize(f, Pure(f));
    answered := copy.PureClause();
    if answered {
      r := Search(copy.clauses);
      return;
    }
    var lit := copy.clauses[0][0];
    assert lit == FirstLiteral(f);
    AssignSize(f, lit);
    AssignSize(f, -lit);
    var branch := new FormulaImpl(copy.clauses);
    branch.UpdateClause(lit);
    r := Search(branch.clauses);
    if r {
      return true;
    }
    branch := new FormulaImpl(copy.clauses);
    branch.UpdateClause(-lit);
    r := Search(branch.clauses);
  }
}
