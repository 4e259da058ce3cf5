/**
  The parse loop computes the recursive meaning.

  RunEval is the simulation: with the parser at `p` pushed on any loop state, the loop pops it,
  pushes exactly the result of Eval, leaves both stacks below, the mark stack and the backtracking
  level as they were, and ends where Eval ends; if Eval runs out of fuel the loop is still busy
  with `p` after that many turns.  Every turn on the way is Safe.
 */
module MpcRefinement {
  import opened MpcSyntax
  import opened MpcSemantics
  import opened MpcMachine

  /** `n` safe turns lead from `m` to `m'`, with more than `h` parsers on the stack before each. */
  ghost predicate Reaches(g: Grammar, s: seq<Byte>, m: Machine, n: nat, m': Machine, h: nat)
    decreases n
  {
    if n == 0 then m == m'
    else |m.parsers| > h && Safe(g, s, m) && Reaches(g, s, Step(g, s, m), n - 1, m', h)
  }

  /** For `n` turns the stack stays above `h` and the next turn is safe. */
  ghost predicate Busy(g: Grammar, s: seq<Byte>, m: Machine, n: nat, h: nat)
    decreases n
  {
    |m.parsers| > h && Safe(g, s, m) && (n > 0 ==> Busy(g, s, Step(g, s, m), n - 1, h))
  }

  lemma {:induction false} ReachesTrans(g: Grammar, s: seq<Byte>, m: Machine, a: nat, m1: Machine, b: nat, m2: Machine,
                                        h: nat)
    requires Reaches(g, s, m, a, m1, h) && Reaches(g, s, m1, b, m2, h)
    ensures Reaches(g, s, m, a + b, m2, h)
    decreases a
  {
    hide Step, Safe;
    if a > 0 {
      ReachesTrans(g, s, Step(g, s, m), a - 1, m1, b, m2, h);
    }
  }

  lemma {:induction false} ReachesLower(g: Grammar, s: seq<Byte>, m: Machine, n: nat, m': Machine, h: nat, h': nat)
    requires Reaches(g, s, m, n, m', h) && h' <= h
    ensures Reaches(g, s, m, n, m', h')
    decreases n
  {
    hide Step, Safe;
    if n > 0 {
      ReachesLower(g, s, Step(g, s, m), n - 1, m', h, h');
    }
  }

  lemma {:induction false} BusyLower(g: Grammar, s: seq<Byte>, m: Machine, n: nat, h: nat, n': nat, h': nat)
    requires Busy(g, s, m, n, h) && h' <= h && n' <= n
    ensures Busy(g, s, m, n', h')
    decreases n'
  {
    hide Step, Safe;
    if n' > 0 {
      BusyLower(g, s, Step(g, s, m), n - 1, h, n' - 1, h');
    }
  }

  lemma {:induction false} ReachesBusy(g: Grammar, s: seq<Byte>, m: Machine, a: nat, m1: Machine, n: nat, h: nat)
    requires Reaches(g, s, m, a, m1, h) && Busy(g, s, m1, n, h)
    ensures Busy(g, s, m, a + n, h)
    decreases a
  {
    hide Step, Safe;
    if a > 0 {
      ReachesBusy(g, s, Step(g, s, m), a - 1, m1, n, h);
    }
  }

  /** One turn. */
  lemma Turn(g: Grammar, s: seq<Byte>, m: Machine, m': Machine, h: nat)
    requires |m.parsers| > h && Safe(g, s, m) && Step(g, s, m) == m'
    ensures Reaches(g, s, m, 1, m', h)
    ensures forall n: nat :: Busy(g, s, m', n, h) ==> Busy(g, s, m, n + 1, h)
  {
    hide Step, Safe;
    assert Reaches(g, s, m', 0, m', h);
  }

  // ----- the input operations in terms of positions -----

  /** The input with its cursor at position `q`. */
  function Moved(s: seq<Byte>, i: Input, q: nat): Input
    requires q <= |s|
  {
    i.(state := StateAt(s, q), last := LastAt(s, q))
  }

  lemma {:induction false} TakeAllMoves(s: seq<Byte>, i: Input, cs: seq<Byte>)
    requires InputOk(s, i)
    ensures var k := MatchLength(s, i.state.pos, cs);
            TakeAll(s, i, cs) == (k == |cs|, Moved(s, i, i.state.pos + k))
    decreases |cs|
  {
    if cs == [] || i.state.pos == |s| || s[i.state.pos] != cs[0] {
      assert Moved(s, i, i.state.pos) == i;
    } else {
      assert Take(i, cs[0]) == Moved(s, i, i.state.pos + 1);
      TakeAllMoves(s, Take(i, cs[0]), cs[1..]);
    }
  }

  /** A mark is undone by unmarking and by rewinding, which also puts the cursor back. */
  lemma MarkUndone(s: seq<Byte>, i: Input, q: nat)
    requires InputOk(s, i) && q <= |s|
    ensures var j := Moved(s, Mark(i), q);
            && InputOk(s, Mark(i)) && InputOk(s, j) && Marked(j)
            && Unmark(j) == Moved(s, i, q)
            && Rewind(j) == if i.backtrack >= 1 then Moved(s, i, i.state.pos) else Moved(s, i, q)
  {
    var j := Moved(s, Mark(i), q);
    if i.backtrack >= 1 {
      assert j.marks[..|j.marks| - 1] == i.marks;
      assert j.lasts[..|j.lasts| - 1] == i.lasts;
    }
  }

  lemma MovedOk(s: seq<Byte>, i: Input, pos: nat, q: nat)
    requires pos <= |s| && q <= |s| && InputOk(s, Moved(s, i, pos))
    ensures InputOk(s, Moved(s, i, q))
  {
    hide StateAt, LastAt;
    assert StateAt(s, q).pos == q;
  }

  lemma TakeTextMoves(s: seq<Byte>, i: Input, cs: seq<Byte>)
    requires InputOk(s, i)
    ensures var k := MatchLength(s, i.state.pos, cs);
            var stop := if k < |cs| && i.backtrack >= 1 then i.state.pos else i.state.pos + k;
            TakeText(s, i, cs) == (k == |cs|, Moved(s, i, stop))
  {
    hide StateAt, LastAt, TakeAll, MatchLength, Unmark, Rewind, InputOk, Mark, Moved;
    Placed(s, i);
    var pos, k := i.state.pos, MatchLength(s, i.state.pos, cs);
    MarkUndone(s, i, pos);
    MarkKeeps(i);
    TakeAllMoves(s, Mark(i), cs);
    MarkUndone(s, i, pos + k);
    assert TakeAll(s, Mark(i), cs) == (k == |cs|, Moved(s, Mark(i), pos + k));
  }

  lemma Placed(s: seq<Byte>, i: Input)
    requires InputOk(s, i)
    ensures InText(s, i) && |i.marks| == |i.lasts|
  {
  }

  lemma MarkKeeps(i: Input)
    ensures Mark(i).state == i.state && Mark(i).backtrack == i.backtrack
  {
  }

  // ----- loop states -----

  /** `m` after a parser on top of it has ended with `r` at `q`. */
  function Finish(s: seq<Byte>, m: Machine, r: Result, q: nat, err: Err): Machine
    requires q <= |s|
  {
    m.(results := m.results + [r], inp := Moved(s, m.inp, q), err := err)
  }

  /** `m` with the parser `p` on top, which has collected the results `rs` and run its parts up to `q`. */
  function Round(s: seq<Byte>, m: Machine, p: Ptr, i: Input, rs: seq<Result>, q: nat, err: Err): Machine
    requires q <= |s|
  {
    Machine(Moved(s, i, q), m.parsers + [Frame(p, |rs| + 1)], m.results + rs, err)
  }

  function Outs(vs: seq<Value>): (rs: seq<Result>)
    ensures |rs| == |vs| && AllOut(rs) && Values(rs) == vs
  {
    seq(|vs|, i requires 0 <= i < |vs| => Out(vs[i]))
  }

  function Errs(es: seq<Err>): (rs: seq<Result>)
    ensures |rs| == |es| && AllError(rs) && Errors(rs) == es
  {
    seq(|es|, i requires 0 <= i < |es| => Error(es[i]))
  }

  ghost predicate Simulates(g: Grammar, s: seq<Byte>, from: Machine, m: Machine, o: Outcome, fuel: nat, n: nat) {
    match o
    case OutOfFuel => Busy(g, s, from, fuel, |m.parsers|)
    case Done(r, q, err) => 0 < n && q <= |s| && Reaches(g, s, from, n, Finish(s, m, r, q, err), |m.parsers|)
  }

  // ----- the simulation -----

  lemma {:induction false} RunEval(g: Grammar, s: seq<Byte>, fuel: nat, p: Ptr, m: Machine) returns (n: nat)
    requires Closed(g) && p < |g| && InputOk(s, m.inp)
    ensures Simulates(g, s, Push(m, p), m, Eval(g, s, fuel, p, m.inp.backtrack, m.inp.state.pos, m.err), fuel, n)
    decreases fuel, 0, 0
  {
    var from := Push(m, p);
    assert Top(from) == Frame(p, 0) && Safe(g, s, from);
    if fuel == 0 {
      n := 1;
    } else if IsLeaf(g[p]) {
      n := 1;
      LeafStep(g, s, p, m);
    } else if IsWrapper(g[p]) {
      n := RunWrapper(g, s, fuel, p, m);
    } else if IsRepeat(g[p]) {
      n := RunRepeat(g, s, fuel, p, m);
    } else if g[p].Or? {
      n := RunOr(g, s, fuel, p, m);
    } else {
      n := RunAnd(g, s, fuel, p, m);
    }
  }

  lemma LeafStep(g: Grammar, s: seq<Byte>, p: Ptr, m: Machine)
    requires p < |g| && InputOk(s, m.inp) && IsLeaf(g[p])
    ensures Ready(g, s, Push(m, p))
    ensures var o := Leaf(s, g[p], m.inp.backtrack, m.inp.state.pos, m.err);
            Step(g, s, Push(m, p)) == Finish(s, m, o.r, o.pos, o.err)
  {
    hide EnterWrapper, LeaveWrapper, StepRepeat, StepOr, StepAnd, TakeText, MatchLength;
    var from := Push(m, p);
    assert Pop(from).parsers == m.parsers;
    assert Moved(s, m.inp, m.inp.state.pos) == m.inp;
    if g[p].Text? {
      TakeTextMoves(s, m.inp, g[p].cs);
    }
  }

  // One visit down, the run of the parser below, and one visit up.
  lemma CallReturn(g: Grammar, s: seq<Byte>, from: Machine, below: Machine, n: nat, back: Machine, to: Machine, h: nat)
    requires Reaches(g, s, from, 1, below, h)
    requires Reaches(g, s, below, n, back, h)
    requires |back.parsers| > h && Safe(g, s, back) && Step(g, s, back) == to
    ensures Reaches(g, s, from, n + 2, to, h)
  {
    hide Step, Safe, Reaches;
    Turn(g, s, back, to, h);
    ReachesTrans(g, s, below, n, back, 1, to, h);
    ReachesTrans(g, s, from, 1, below, n + 1, to, h);
  }

  // The run of a part on top of `here`, seen from the state `m` below its parser.
  lemma PartRuns(g: Grammar, s: seq<Byte>, from: Machine, here: Machine, m: Machine, o: Outcome, fuel: nat, k: nat)
    requires Simulates(g, s, from, here, o, fuel, k) && |here.parsers| == |m.parsers| + 1
    ensures o.OutOfFuel? ==> Simulates(g, s, from, m, OutOfFuel, fuel, 0)
    ensures o.Done? ==>
              o.pos <= |s| && Reaches(g, s, from, k, Finish(s, here, o.r, o.pos, o.err), |m.parsers|)
  {
    hide Step, Safe, Reaches, Busy, Finish;
    var h := |m.parsers|;
    match o {
      case OutOfFuel => BusyLower(g, s, from, fuel, h + 1, fuel, h);
      case Done(r, q, e) => ReachesLower(g, s, from, k, Finish(s, here, r, q, e), h + 1, h);
    }
  }

  // A part has returned, and the parser goes on with another part or ends.

  lemma ReturnGoesOn(g: Grammar, s: seq<Byte>, from: Machine, k: nat, back: Machine, next: Machine, l: nat, m: Machine,
                     o: Outcome, fuel: nat)
    requires Reaches(g, s, from, k, back, |m.parsers|) && |back.parsers| > |m.parsers|
    requires Safe(g, s, back) && Step(g, s, back) == next && Simulates(g, s, next, m, o, fuel, l)
    ensures Simulates(g, s, from, m, o, fuel, k + 1 + l)
  {
    hide Step, Safe, Reaches, Busy, Finish;
    var h := |m.parsers|;
    Turn(g, s, back, next, h);
    ReachesTrans(g, s, from, k, back, 1, next, h);
    match o {
      case OutOfFuel =>
        ReachesBusy(g, s, from, k + 1, next, fuel, h);
        BusyLower(g, s, from, k + 1 + fuel, h, fuel, h);
      case Done(r, q, e) =>
        ReachesTrans(g, s, from, k + 1, next, l, Finish(s, m, r, q, e), h);
    }
  }

  lemma ReturnEnds(g: Grammar, s: seq<Byte>, from: Machine, k: nat, back: Machine, m: Machine, o: Outcome, fuel: nat)
    requires Reaches(g, s, from, k, back, |m.parsers|) && |back.parsers| > |m.parsers|
    requires o.Done? && o.pos <= |s| && Safe(g, s, back) && Step(g, s, back) == Finish(s, m, o.r, o.pos, o.err)
    ensures Simulates(g, s, from, m, o, fuel, k + 1)
  {
    hide Step, Safe, Reaches, Busy, Finish;
    var h, to := |m.parsers|, Finish(s, m, o.r, o.pos, o.err);
    Turn(g, s, back, to, h);
    ReachesTrans(g, s, from, k, back, 1, to, h);
  }

  /** The input that the parser below a wrapper starts on. */
  function InputBelow(p: Parser, i: Input): Input {
    if p.Predict? then i.(backtrack := i.backtrack - 1) else if p.Not? then Mark(i) else i
  }

  lemma WrapperEnters(g: Grammar, s: seq<Byte>, p: Ptr, m: Machine, m1: Machine)
    requires p < |g| && InputOk(s, m.inp) && IsWrapper(g[p])
    requires m1 == m.(parsers := m.parsers + [Frame(p, 1)], inp := InputBelow(g[p], m.inp))
    ensures InputOk(s, m1.inp)
    ensures Safe(g, s, Push(m, p)) && Step(g, s, Push(m, p)) == Push(m1, g[p].x)
  {
    hide LeaveWrapper, StepLeaf, StepRepeat, StepOr, StepAnd;
    MarkUndone(s, m.inp, m.inp.state.pos);
    assert Pop(Push(m, p)).parsers == m.parsers;
    assert Push(m1, g[p].x).parsers == m.parsers + [Frame(p, 1), Frame(g[p].x, 0)];
  }

  lemma {:induction false} RunWrapper(g: Grammar, s: seq<Byte>, fuel: nat, p: Ptr, m: Machine) returns (n: nat)
    requires Closed(g) && p < |g| && InputOk(s, m.inp) && fuel > 0 && IsWrapper(g[p])
    ensures Simulates(g, s, Push(m, p), m, Eval(g, s, fuel, p, m.inp.backtrack, m.inp.state.pos, m.err), fuel, n)
    decreases fuel - 1, 2, 0
  {
    hide Step, Safe, Reaches, Busy, Wrap;
    var from, h, x := Push(m, p), |m.parsers|, g[p].x;
    assert x in Children(g[p]);
    var m1 := m.(parsers := m.parsers + [Frame(p, 1)], inp := InputBelow(g[p], m.inp));
    WrapperEnters(g, s, p, m, m1);
    Turn(g, s, from, Push(m1, x), h);
    var k := RunEval(g, s, fuel - 1, x, m1);
    match Eval(g, s, fuel - 1, x, m1.inp.backtrack, m1.inp.state.pos, m1.err) {
      case OutOfFuel =>
        n := 0;
        BusyLower(g, s, Push(m1, x), fuel - 1, h + 1, fuel - 1, h);
      case Done(r, q, e1) =>
        n := k + 2;
        ReachesLower(g, s, Push(m1, x), k, Finish(s, m1, r, q, e1), h + 1, h);
        WrapperReturns(g, s, p, m, m1, r, q, e1);
        var o := Wrap(s, g[p], m.inp.backtrack, m.inp.state.pos, r, q, e1);
        CallReturn(g, s, from, Push(m1, x), k, Finish(s, m1, r, q, e1), Finish(s, m, o.r, o.pos, o.err), h);
    }
  }

  lemma WrapperReturns(g: Grammar, s: seq<Byte>, p: Ptr, m: Machine, m1: Machine, r: Result, q: nat, e1: Err)
    requires p < |g| && InputOk(s, m.inp) && IsWrapper(g[p]) && m.inp.state.pos <= q <= |s|
    requires m1 == m.(parsers := m.parsers + [Frame(p, 1)], inp := InputBelow(g[p], m.inp))
    ensures var back := Finish(s, m1, r, q, e1);
            var o := Wrap(s, g[p], m.inp.backtrack, m.inp.state.pos, r, q, e1);
            Safe(g, s, back) && Step(g, s, back) == Finish(s, m, o.r, o.pos, o.err)
  {
    hide EnterWrapper, LeaveWrapper, Wrap, StepLeaf, StepRepeat, StepOr, StepAnd;
    MarkUndone(s, m.inp, q);
    assert Top(Finish(s, m1, r, q, e1)) == Frame(p, 1);
    LeaveIsWrap(s, p, g[p], m, m1, r, q, e1);
  }

  lemma LeaveIsWrap(s: seq<Byte>, p: Ptr, w: Parser, m: Machine, m1: Machine, r: Result, q: nat, e1: Err)
    requires InputOk(s, m.inp) && IsWrapper(w) && m.inp.state.pos <= q <= |s|
    requires m1 == m.(parsers := m.parsers + [Frame(p, 1)], inp := InputBelow(w, m.inp))
    requires w.Not? ==> Marked(Finish(s, m1, r, q, e1).inp) && InputOk(s, Finish(s, m1, r, q, e1).inp)
    ensures var o := Wrap(s, w, m.inp.backtrack, m.inp.state.pos, r, q, e1);
            LeaveWrapper(s, Finish(s, m1, r, q, e1), w) == Finish(s, m, o.r, o.pos, o.err)
  {
    hide InputOk, Mark, Rewind, Unmark, StateAt;
    var back := Finish(s, m1, r, q, e1);
    MarkUndone(s, m.inp, q);
    assert Pop(back).parsers == m.parsers;
    assert Drop(back, 1).results == m.results;
    match w
    case Not(_, _) =>
    case _ =>
  }

  lemma RepeatEnters(g: Grammar, s: seq<Byte>, p: Ptr, m: Machine, i: Input)
    requires p < |g| && InputOk(s, m.inp) && IsRepeat(g[p])
    requires i == if g[p].Count? then Mark(m.inp) else m.inp
    ensures InputOk(s, Moved(s, i, m.inp.state.pos)) && (g[p].Count? ==> Marked(i))
    ensures Safe(g, s, Push(m, p))
    ensures Step(g, s, Push(m, p)) == Push(Round(s, m, p, i, Outs([]), m.inp.state.pos, m.err), g[p].x)
  {
    hide EnterWrapper, LeaveWrapper, StepLeaf, StepOr, StepAnd;
    MarkUndone(s, m.inp, m.inp.state.pos);
    var first := Push(Round(s, m, p, i, Outs([]), m.inp.state.pos, m.err), g[p].x);
    assert Pop(Push(m, p)).parsers == m.parsers;
    assert first.parsers == m.parsers + [Frame(p, 1), Frame(g[p].x, 0)];
    assert first.results == m.results;
  }

  lemma {:induction false} RunRepeat(g: Grammar, s: seq<Byte>, fuel: nat, p: Ptr, m: Machine) returns (n: nat)
    requires Closed(g) && p < |g| && InputOk(s, m.inp) && fuel > 0 && IsRepeat(g[p])
    ensures Simulates(g, s, Push(m, p), m, Eval(g, s, fuel, p, m.inp.backtrack, m.inp.state.pos, m.err), fuel, n)
    decreases fuel - 1, 2, 0
  {
    hide Step, Safe, Reaches, Busy, Gather;
    var from, h, x := Push(m, p), |m.parsers|, g[p].x;
    var pos := m.inp.state.pos;
    var i := if g[p].Count? then Mark(m.inp) else m.inp;
    var first := Push(Round(s, m, p, i, Outs([]), pos, m.err), x);
    RepeatEnters(g, s, p, m, i);
    Turn(g, s, from, first, h);
    var k := RunRounds(g, s, fuel - 1, p, m, i, [], pos, m.err);
    match Repeat(g, s, fuel - 1, x, i.backtrack, pos, m.err, []) {
      case Unfinished => n := 0;
      case Stopped(vs, e, q, e1) =>
        n := k + 2;
        RoundsReturn(g, s, p, m, i, vs, e, q, e1);
        var o := Gather(g[p], m.inp.backtrack, pos, vs, e, q, e1);
        CallReturn(g, s, from, first, k, RoundEnd(s, m, p, i, vs, e, q, e1), Finish(s, m, o.r, o.pos, o.err), h);
    }
  }

  /** A repetition whose last round failed with `e`. */
  function RoundEnd(s: seq<Byte>, m: Machine, p: Ptr, i: Input, vs: seq<Value>, e: Err, q: nat, err: Err): Machine
    requires q <= |s|
  {
    var r := Round(s, m, p, i, Outs(vs), q, err);
    r.(results := r.results + [Error(e)])
  }

  lemma {:induction false} RunRounds(g: Grammar, s: seq<Byte>, fuel: nat, p: Ptr, m: Machine, i: Input, vs: seq<Value>,
                                     pos: nat, err: Err) returns (n: nat)
    requires Closed(g) && p < |g| && IsRepeat(g[p]) && pos <= |s| && InputOk(s, Moved(s, i, pos))
    requires g[p].Count? ==> Marked(i)
    ensures var from := Push(Round(s, m, p, i, Outs(vs), pos, err), g[p].x);
            match Repeat(g, s, fuel, g[p].x, i.backtrack, pos, err, vs)
            case Unfinished => Busy(g, s, from, fuel, |m.parsers|)
            case Stopped(vs', e, q, e1) => Reaches(g, s, from, n, RoundEnd(s, m, p, i, vs', e, q, e1), |m.parsers|)
    decreases fuel, 1, 0
  {
    hide Step, Safe, Reaches, Busy, InputOk, StateAt, LastAt;
    var h, x := |m.parsers|, g[p].x;
    assert x in Children(g[p]);
    var here := Round(s, m, p, i, Outs(vs), pos, err);
    var from := Push(here, x);
    var k := RunEval(g, s, fuel, x, here);
    match Eval(g, s, fuel, x, i.backtrack, pos, err) {
      case OutOfFuel =>
        n := 0;
        BusyLower(g, s, from, fuel, h + 1, fuel, h);
      case Done(Error(e), q, e1) =>
        n := k;
        ReachesLower(g, s, from, k, Finish(s, here, Error(e), q, e1), h + 1, h);
        assert Finish(s, here, Error(e), q, e1) == RoundEnd(s, m, p, i, vs, e, q, e1);
      case Done(Out(v), q, e1) =>
        var back := Finish(s, here, Out(v), q, e1);
        ReachesLower(g, s, from, k, back, h + 1, h);
        var again := Push(Round(s, m, p, i, Outs(vs + [v]), q, e1), x);
        MovedOk(s, i, pos, q);
        NextRound(g, s, p, m, i, vs, v, q, e1);
        var l := RunRounds(g, s, fuel - 1, p, m, i, vs + [v], q, e1);
        Turn(g, s, back, again, h);
        ReachesTrans(g, s, from, k, back, 1, again, h);
        n := k + 1 + l;
        match Repeat(g, s, fuel - 1, x, i.backtrack, q, e1, vs + [v]) {
          case Unfinished =>
            ReachesBusy(g, s, from, k + 1, again, fuel - 1, h);
            BusyLower(g, s, from, k + 1 + fuel - 1, h, fuel, h);
          case Stopped(vs', e, q', e2) =>
            ReachesTrans(g, s, from, k + 1, again, l, RoundEnd(s, m, p, i, vs', e, q', e2), h);
        }
    }
  }

  lemma NextRound(g: Grammar, s: seq<Byte>, p: Ptr, m: Machine, i: Input, vs: seq<Value>, v: Value, q: nat, err: Err)
    requires p < |g| && IsRepeat(g[p]) && q <= |s| && InputOk(s, Moved(s, i, q))
    requires g[p].Count? ==> Marked(i)
    ensures var back := Finish(s, Round(s, m, p, i, Outs(vs), q, err), Out(v), q, err);
            Safe(g, s, back) && Step(g, s, back) == Push(Round(s, m, p, i, Outs(vs + [v]), q, err), g[p].x)
  {
    hide EnterWrapper, LeaveWrapper, StepLeaf, StepOr, StepAnd;
    var back := Finish(s, Round(s, m, p, i, Outs(vs), q, err), Out(v), q, err);
    var again := Push(Round(s, m, p, i, Outs(vs + [v]), q, err), g[p].x);
    assert Below(back, |vs|) == Outs(vs);
    assert Outs(vs + [v]) == Outs(vs) + [Out(v)];
    assert back.results == again.results;
    assert Continue(back, |vs| + 2, g[p].x).parsers == again.parsers;
  }

  lemma RoundsReturn(g: Grammar, s: seq<Byte>, p: Ptr, m: Machine, i: Input, vs: seq<Value>, e: Err, q: nat, e1: Err)
    requires p < |g| && InputOk(s, m.inp) && IsRepeat(g[p]) && m.inp.state.pos <= q <= |s|
    requires i == if g[p].Count? then Mark(m.inp) else m.inp
    ensures var back := RoundEnd(s, m, p, i, vs, e, q, e1);
            var o := Gather(g[p], m.inp.backtrack, m.inp.state.pos, vs, e, q, e1);
            |back.parsers| == |m.parsers| + 1 && Safe(g, s, back) && Step(g, s, back) == Finish(s, m, o.r, o.pos, o.err)
  {
    hide EnterWrapper, LeaveWrapper, StepLeaf, StepRepeat, StepOr, StepAnd, Gather;
    var back := RoundEnd(s, m, p, i, vs, e, q, e1);
    MarkUndone(s, m.inp, q);
    assert Below(back, |vs|) == Outs(vs);
    assert Top(back) == Frame(p, |vs| + 1);
    if g[p].Count? {
      CountReturns(s, p, g[p], m, vs, e, q, e1);
    } else {
      ManyReturns(s, p, g[p], m, vs, e, q, e1);
    }
  }

  /** The last visit of an unbounded repetition. */
  lemma ManyReturns(s: seq<Byte>, p: Ptr, w: Parser, m: Machine, vs: seq<Value>, e: Err, q: nat, e1: Err)
    requires (w.Many? || w.Many1?) && m.inp.state.pos <= q <= |s| && 0 <= m.inp.state.pos
    ensures var back := RoundEnd(s, m, p, m.inp, vs, e, q, e1);
            var o := Gather(w, m.inp.backtrack, m.inp.state.pos, vs, e, q, e1);
            AllOut(Below(back, |vs|)) && StepRepeat(back, w, |vs| + 1) == Finish(s, m, o.r, o.pos, o.err)
  {
    hide StateAt, LastAt;
    RoundEndUndone(s, p, m, m.inp, vs, e, q, e1);
  }

  /** The last visit of a count. */
  lemma CountReturns(s: seq<Byte>, p: Ptr, w: Parser, m: Machine, vs: seq<Value>, e: Err, q: nat, e1: Err)
    requires w.Count? && InputOk(s, m.inp) && m.inp.state.pos <= q <= |s|
    ensures var back := RoundEnd(s, m, p, Mark(m.inp), vs, e, q, e1);
            var o := Gather(w, m.inp.backtrack, m.inp.state.pos, vs, e, q, e1);
            && AllOut(Below(back, |vs|)) && Marked(back.inp)
            && StepRepeat(back, w, |vs| + 1) == Finish(s, m, o.r, o.pos, o.err)
  {
    MarkUndone(s, m.inp, q);
    hide StateAt, LastAt, Mark, Unmark, Rewind, InputOk;
    RoundEndUndone(s, p, m, Mark(m.inp), vs, e, q, e1);
  }

  /** Below the failed round lie the outputs, and below them what was there before the repetition. */
  lemma RoundEndUndone(s: seq<Byte>, p: Ptr, m: Machine, i: Input, vs: seq<Value>, e: Err, q: nat, e1: Err)
    requires q <= |s|
    ensures var back := RoundEnd(s, m, p, i, vs, e, q, e1);
            && Below(back, |vs|) == Outs(vs) && TopResult(back) == Error(e)
            && Pop(back).parsers == m.parsers && Drop(back, |vs| + 1).results == m.results
  {
  }

  lemma OrEnters(g: Grammar, s: seq<Byte>, p: Ptr, m: Machine)
    requires p < |g| && InputOk(s, m.inp) && g[p].Or?
    ensures Safe(g, s, Push(m, p))
    ensures Step(g, s, Push(m, p)) ==
              if g[p].xs == [] then Finish(s, m, Out(Null), m.inp.state.pos, m.err)
              else Push(Round(s, m, p, m.inp, Errs([]), m.inp.state.pos, m.err), g[p].xs[0])
  {
    hide EnterWrapper, LeaveWrapper, StepLeaf, StepRepeat, StepAnd;
    assert Pop(Push(m, p)).parsers == m.parsers;
    if g[p].xs != [] {
      var first := Push(Round(s, m, p, m.inp, Errs([]), m.inp.state.pos, m.err), g[p].xs[0]);
      assert first.parsers == m.parsers + [Frame(p, 1), Frame(g[p].xs[0], 0)];
      assert first.results == m.results;
    }
  }

  lemma {:induction false} RunOr(g: Grammar, s: seq<Byte>, fuel: nat, p: Ptr, m: Machine) returns (n: nat)
    requires Closed(g) && p < |g| && InputOk(s, m.inp) && fuel > 0 && g[p].Or?
    ensures Simulates(g, s, Push(m, p), m, Eval(g, s, fuel, p, m.inp.backtrack, m.inp.state.pos, m.err), fuel, n)
    decreases fuel - 1, 3, 0
  {
    hide Step, Safe, Reaches, Busy;
    var from, pos, h := Push(m, p), m.inp.state.pos, |m.parsers|;
    OrEnters(g, s, p, m);
    n := 1;
    if g[p].xs == [] {
      Turn(g, s, from, Finish(s, m, Out(Null), pos, m.err), h);
    } else {
      var first := Push(Round(s, m, p, m.inp, Errs([]), pos, m.err), g[p].xs[0]);
      Turn(g, s, from, first, h);
      var k := RunChoose(g, s, fuel - 1, p, m, [], pos, m.err);
      var o := Choose(g, s, fuel - 1, g[p].xs, 0, m.inp.backtrack, pos, m.err, []);
      if o.Done? {
        n := k + 1;
        ReachesTrans(g, s, from, 1, first, k, Finish(s, m, o.r, o.pos, o.err), h);
      }
    }
  }

  lemma {:induction false} RunChoose(g: Grammar, s: seq<Byte>, fuel: nat, p: Ptr, m: Machine, es: seq<Err>, pos: nat,
                                     err: Err) returns (n: nat)
    requires Closed(g) && p < |g| && g[p].Or? && |es| < |g[p].xs| && pos <= |s| && InputOk(s, m.inp)
    ensures Simulates(g, s, Push(Round(s, m, p, m.inp, Errs(es), pos, err), g[p].xs[|es|]), m,
                      Choose(g, s, fuel, g[p].xs, |es|, m.inp.backtrack, pos, err, es), fuel, n)
    decreases fuel, 2, |g[p].xs| - |es|
  {
    hide Step, Safe, Reaches, Busy, Simulates, MergeAll;
    var i, xs := m.inp, g[p].xs;
    var x := xs[|es|];
    assert x in Children(g[p]);
    var here := Round(s, m, p, i, Errs(es), pos, err);
    var from := Push(here, x);
    var k := RunEval(g, s, fuel, x, here);
    PartRuns(g, s, from, here, m, Eval(g, s, fuel, x, i.backtrack, pos, err), fuel, k);
    match Eval(g, s, fuel, x, i.backtrack, pos, err) {
      case OutOfFuel => n := 0;
      case Done(r, q, e1) =>
        var back := Finish(s, here, r, q, e1);
        ChoiceReturns(g, s, p, m, es, r, q, e1);
        if r.Error? && |es| + 1 < |xs| {
          var es' := es + [r.e];
          var next := Push(Round(s, m, p, i, Errs(es'), q, e1), xs[|es'|]);
          var l := RunChoose(g, s, fuel, p, m, es', q, e1);
          var o := Choose(g, s, fuel, xs, |es'|, i.backtrack, q, e1, es');
          ReturnGoesOn(g, s, from, k, back, next, l, m, o, fuel);
          n := k + 1 + l;
        } else {
          var o := if r.Out? then Done(r, q, MergeAll(e1, es)) else Done(Error(Merged(es + [r.e])), q, e1);
          ReturnEnds(g, s, from, k, back, m, o, fuel);
          n := k + 1;
        }
    }
  }

  lemma DropErrorsStep(m: Machine, n: nat)
    requires 0 < n <= |m.results| && AllError(m.results[|m.results| - n..])
    ensures TopResult(m).Error?
    ensures var m1 := Drop(Note(m, TopResult(m).e), 1);
            AllError(m1.results[|m1.results| - (n - 1)..]) && DropErrors(m, n) == DropErrors(m1, n - 1)
  {
    assert m.results[|m.results| - n..][n - 1] == TopResult(m);
    var m1 := Drop(Note(m, TopResult(m).e), 1);
    assert m1.results[|m1.results| - (n - 1)..] == m.results[|m.results| - n..][..n - 1];
  }

  lemma NoErrorsDropped(m: Machine)
    ensures DropErrors(m, 0) == m
  {
  }

  lemma {:induction false} DropErrorsMerges(m: Machine, n: nat)
    requires n <= |m.results| && AllError(m.results[|m.results| - n..])
    ensures DropErrors(m, n).err == MergeAll(m.err, Errors(m.results[|m.results| - n..]))
    decreases n
  {
    hide DropErrors;
    if n == 0 {
      NoErrorsDropped(m);
    } else {
      var top := m.results[|m.results| - n..];
      assert top[n - 1] == TopResult(m);
      var m1 := Drop(Note(m, TopResult(m).e), 1);
      DropErrorsStep(m, n);
      assert m1.results[|m1.results| - (n - 1)..] == top[..n - 1];
      DropErrorsMerges(m1, n - 1);
      assert Errors(top)[..n - 1] == Errors(top[..n - 1]);
    }
  }

  /** The visit of an ordered choice after alternative `|es|` has ended with `r`. */
  lemma ChoiceReturns(g: Grammar, s: seq<Byte>, p: Ptr, m: Machine, es: seq<Err>, r: Result, q: nat, e1: Err)
    requires p < |g| && g[p].Or? && |es| < |g[p].xs| && q <= |s| && InputOk(s, m.inp)
    ensures var back := Finish(s, Round(s, m, p, m.inp, Errs(es), q, e1), r, q, e1);
            && |back.parsers| == |m.parsers| + 1 && Safe(g, s, back)
            && Step(g, s, back) ==
                 if r.Out? then Finish(s, m, r, q, MergeAll(e1, es))
                 else if |es| + 1 < |g[p].xs|
                 then Push(Round(s, m, p, m.inp, Errs(es + [r.e]), q, e1), g[p].xs[|es| + 1])
                 else Finish(s, m, Error(Merged(es + [r.e])), q, e1)
  {
    hide EnterWrapper, LeaveWrapper, StepLeaf, StepRepeat, StepOr, StepAnd, MergeAll;
    var back := Finish(s, Round(s, m, p, m.inp, Errs(es), q, e1), r, q, e1);
    assert Below(back, |es|) == Errs(es);
    assert Top(back) == Frame(p, |es| + 1);
    if r.Out? {
      ChoiceTaken(s, p, m, g[p].xs, es, r, q, e1);
    } else {
      ChoicePassed(s, p, m, g[p].xs, es, r, q, e1);
    }
  }

  lemma ChoiceTaken(s: seq<Byte>, p: Ptr, m: Machine, xs: seq<Ptr>, es: seq<Err>, r: Result, q: nat, e1: Err)
    requires |es| < |xs| && q <= |s| && r.Out?
    ensures var back := Finish(s, Round(s, m, p, m.inp, Errs(es), q, e1), r, q, e1);
            && AllError(Below(back, |es|))
            && StepOr(back, xs, |es| + 1) == Finish(s, m, r, q, MergeAll(e1, es))
  {
    hide MergeAll, DropErrors;
    var back := Finish(s, Round(s, m, p, m.inp, Errs(es), q, e1), r, q, e1);
    var d := Drop(back, 1);
    assert Below(back, |es|) == Errs(es);
    assert Pop(back).parsers == m.parsers;
    assert d.results == m.results + Errs(es);
    assert d.results[|d.results| - |es|..] == Errs(es);
    assert d.results[..|d.results| - |es|] == m.results;
    DropErrorsMerges(d, |es|);
  }

  lemma ChoicePassed(s: seq<Byte>, p: Ptr, m: Machine, xs: seq<Ptr>, es: seq<Err>, r: Result, q: nat, e1: Err)
    requires |es| < |xs| && q <= |s| && r.Error?
    ensures var back := Finish(s, Round(s, m, p, m.inp, Errs(es), q, e1), r, q, e1);
            && AllError(Below(back, |es|))
            && StepOr(back, xs, |es| + 1) ==
                 if |es| + 1 < |xs| then Push(Round(s, m, p, m.inp, Errs(es + [r.e]), q, e1), xs[|es| + 1])
                 else Finish(s, m, Error(Merged(es + [r.e])), q, e1)
  {
    hide DropErrors;
    var back := Finish(s, Round(s, m, p, m.inp, Errs(es), q, e1), r, q, e1);
    assert Below(back, |es|) == Errs(es);
    assert Pop(back).parsers == m.parsers && Top(back) == Frame(p, |es| + 1);
    assert Errs(es + [r.e]) == Errs(es) + [r];
    if |es| + 1 < |xs| {
      var next := Push(Round(s, m, p, m.inp, Errs(es + [r.e]), q, e1), xs[|es| + 1]);
      assert back.results == next.results;
      assert Continue(back, |es| + 2, xs[|es| + 1]).parsers == next.parsers;
    } else {
      assert back.results[|back.results| - |es| - 1..] == Errs(es + [r.e]);
      assert Drop(back, |es| + 1).results == m.results;
    }
  }

  lemma AndEnters(g: Grammar, s: seq<Byte>, p: Ptr, m: Machine)
    requires p < |g| && InputOk(s, m.inp) && g[p].And?
    ensures Safe(g, s, Push(m, p))
    ensures Step(g, s, Push(m, p)) ==
              if g[p].xs == [] then Finish(s, m, Out(Folded(g[p].f, [])), m.inp.state.pos, m.err)
              else Push(Round(s, m, p, Mark(m.inp), Outs([]), m.inp.state.pos, m.err), g[p].xs[0])
  {
    hide EnterWrapper, LeaveWrapper, StepLeaf, StepRepeat, StepOr;
    MarkUndone(s, m.inp, m.inp.state.pos);
    assert Pop(Push(m, p)).parsers == m.parsers;
    if g[p].xs != [] {
      var first := Push(Round(s, m, p, Mark(m.inp), Outs([]), m.inp.state.pos, m.err), g[p].xs[0]);
      assert first.parsers == m.parsers + [Frame(p, 1), Frame(g[p].xs[0], 0)];
      assert first.results == m.results;
    }
  }

  lemma {:induction false} RunAnd(g: Grammar, s: seq<Byte>, fuel: nat, p: Ptr, m: Machine) returns (n: nat)
    requires Closed(g) && p < |g| && InputOk(s, m.inp) && fuel > 0 && g[p].And?
    ensures Simulates(g, s, Push(m, p), m, Eval(g, s, fuel, p, m.inp.backtrack, m.inp.state.pos, m.err), fuel, n)
    decreases fuel - 1, 3, 0
  {
    hide Step, Safe, Reaches, Busy;
    var from, pos, h := Push(m, p), m.inp.state.pos, |m.parsers|;
    AndEnters(g, s, p, m);
    n := 1;
    if g[p].xs == [] {
      Turn(g, s, from, Finish(s, m, Out(Folded(g[p].f, [])), pos, m.err), h);
    } else {
      var first := Push(Round(s, m, p, Mark(m.inp), Outs([]), pos, m.err), g[p].xs[0]);
      Turn(g, s, from, first, h);
      var k := RunInOrder(g, s, fuel - 1, p, m, [], pos, m.err);
      var o := InOrder(g, s, fuel - 1, g[p].xs, g[p].f, 0, m.inp.backtrack, pos, pos, m.err, []);
      if o.Done? {
        n := k + 1;
        ReachesTrans(g, s, from, 1, first, k, Finish(s, m, o.r, o.pos, o.err), h);
      }
    }
  }

  lemma {:induction false} RunInOrder(g: Grammar, s: seq<Byte>, fuel: nat, p: Ptr, m: Machine, vs: seq<Value>, pos: nat,
                                      err: Err) returns (n: nat)
    requires Closed(g) && p < |g| && g[p].And? && |vs| < |g[p].xs| && InputOk(s, m.inp) && m.inp.state.pos <= pos <= |s|
    ensures Simulates(g, s, Push(Round(s, m, p, Mark(m.inp), Outs(vs), pos, err), g[p].xs[|vs|]), m,
                      InOrder(g, s, fuel, g[p].xs, g[p].f, |vs|, m.inp.backtrack, m.inp.state.pos, pos, err, vs),
                      fuel, n)
    decreases fuel, 2, |g[p].xs| - |vs|
  {
    hide Step, Safe, Reaches, Busy, Simulates, InputOk, StateAt, LastAt, Outs, Eval, InOrder;
    Placed(s, m.inp);
    var i, xs, start := Mark(m.inp), g[p].xs, m.inp.state.pos;
    var x := xs[|vs|];
    assert x in Children(g[p]);
    MarkUndone(s, m.inp, pos);
    InOrderPart(g, s, fuel, xs, g[p].f, |vs|, i.backtrack, start, pos, err, vs);
    var here := Round(s, m, p, i, Outs(vs), pos, err);
    var from := Push(here, x);
    var k := RunEval(g, s, fuel, x, here);
    PartRuns(g, s, from, here, m, Eval(g, s, fuel, x, i.backtrack, pos, err), fuel, k);
    match Eval(g, s, fuel, x, i.backtrack, pos, err) {
      case OutOfFuel => n := 0;
      case Done(r, q, e1) =>
        var back := Finish(s, here, r, q, e1);
        SequenceReturns(g, s, p, m, vs, r, q, e1);
        if r.Out? && |vs| + 1 < |xs| {
          var vs' := vs + [r.v];
          var next := Push(Round(s, m, p, i, Outs(vs'), q, e1), xs[|vs'|]);
          var l := RunInOrder(g, s, fuel, p, m, vs', q, e1);
          var o := InOrder(g, s, fuel, xs, g[p].f, |vs'|, i.backtrack, start, q, e1, vs');
          ReturnGoesOn(g, s, from, k, back, next, l, m, o, fuel);
          n := k + 1 + l;
        } else {
          var o := if r.Out? then Done(Out(Folded(g[p].f, vs + [r.v])), q, e1)
                   else Done(r, if i.backtrack >= 1 then start else q, e1);
          ReturnEnds(g, s, from, k, back, m, o, fuel);
          n := k + 1;
        }
    }
  }

  /** One part of a sequence, unfolded. */
  lemma InOrderPart(g: Grammar, s: seq<Byte>, fuel: nat, xs: seq<Ptr>, f: nat, k: nat, bt: int, start: nat, pos: nat,
                    err: Err, vs: seq<Value>)
    requires start <= pos <= |s| && k < |xs|
    ensures var o := Eval(g, s, fuel, xs[k], bt, pos, err);
            InOrder(g, s, fuel, xs, f, k, bt, start, pos, err, vs) ==
              if o.OutOfFuel? then OutOfFuel
              else if o.r.Error? then Done(o.r, if bt >= 1 then start else o.pos, o.err)
              else if k + 1 < |xs| then InOrder(g, s, fuel, xs, f, k + 1, bt, start, o.pos, o.err, vs + [o.r.v])
              else Done(Out(Folded(f, vs + [o.r.v])), o.pos, o.err)
  {
    hide Eval;
  }

  /** The visit of a sequence after part `|vs|` has ended with `r`. */
  lemma SequenceReturns(g: Grammar, s: seq<Byte>, p: Ptr, m: Machine, vs: seq<Value>, r: Result, q: nat, e1: Err)
    requires p < |g| && g[p].And? && |vs| < |g[p].xs| && InputOk(s, m.inp) && q <= |s|
    ensures var back := Finish(s, Round(s, m, p, Mark(m.inp), Outs(vs), q, e1), r, q, e1);
            && |back.parsers| == |m.parsers| + 1 && Safe(g, s, back)
            && Step(g, s, back) ==
                 if r.Error? then Finish(s, m, r, if m.inp.backtrack >= 1 then m.inp.state.pos else q, e1)
                 else if |vs| + 1 < |g[p].xs|
                 then Push(Round(s, m, p, Mark(m.inp), Outs(vs + [r.v]), q, e1), g[p].xs[|vs| + 1])
                 else Finish(s, m, Out(Folded(g[p].f, vs + [r.v])), q, e1)
  {
    hide EnterWrapper, LeaveWrapper, StepLeaf, StepRepeat, StepOr, StepAnd;
    var back := Finish(s, Round(s, m, p, Mark(m.inp), Outs(vs), q, e1), r, q, e1);
    MarkUndone(s, m.inp, q);
    assert Below(back, |vs|) == Outs(vs);
    assert Top(back) == Frame(p, |vs| + 1);
    if r.Out? && |vs| + 1 < |g[p].xs| {
      SequenceGoesOn(s, p, m, g[p].xs, g[p].f, vs, r, q, e1);
    } else {
      SequenceEnds(s, p, m, g[p].xs, g[p].f, vs, r, q, e1);
    }
  }

  lemma SequenceGoesOn(s: seq<Byte>, p: Ptr, m: Machine, xs: seq<Ptr>, f: nat, vs: seq<Value>, r: Result, q: nat,
                       e1: Err)
    requires |vs| + 1 < |xs| && q <= |s| && r.Out? && Marked(Moved(s, Mark(m.inp), q))
    ensures var back := Finish(s, Round(s, m, p, Mark(m.inp), Outs(vs), q, e1), r, q, e1);
            && AllOut(Below(back, |vs|))
            && StepAnd(back, xs, f, |vs| + 1) ==
                 Push(Round(s, m, p, Mark(m.inp), Outs(vs + [r.v]), q, e1), xs[|vs| + 1])
  {
    hide StateAt, LastAt, Mark, Marked;
    var back := Finish(s, Round(s, m, p, Mark(m.inp), Outs(vs), q, e1), r, q, e1);
    var next := Push(Round(s, m, p, Mark(m.inp), Outs(vs + [r.v]), q, e1), xs[|vs| + 1]);
    assert Below(back, |vs|) == Outs(vs);
    assert Outs(vs + [r.v]) == Outs(vs) + [r];
    assert back.results == next.results;
    assert Continue(back, |vs| + 2, xs[|vs| + 1]).parsers == next.parsers;
  }

  lemma SequenceEnds(s: seq<Byte>, p: Ptr, m: Machine, xs: seq<Ptr>, f: nat, vs: seq<Value>, r: Result, q: nat,
                     e1: Err)
    requires |vs| < |xs| && q <= |s| && InputOk(s, m.inp) && (r.Error? || |vs| + 1 == |xs|)
    ensures var back := Finish(s, Round(s, m, p, Mark(m.inp), Outs(vs), q, e1), r, q, e1);
            && AllOut(Below(back, |vs|)) && Marked(back.inp)
            && StepAnd(back, xs, f, |vs| + 1) ==
                 if r.Error? then Finish(s, m, r, if m.inp.backtrack >= 1 then m.inp.state.pos else q, e1)
                 else Finish(s, m, Out(Folded(f, vs + [r.v])), q, e1)
  {
    hide StateAt, LastAt, Mark, Unmark, Rewind, InputOk;
    Placed(s, m.inp);
    var back := Finish(s, Round(s, m, p, Mark(m.inp), Outs(vs), q, e1), r, q, e1);
    MarkUndone(s, m.inp, q);
    assert Below(back, |vs|) == Outs(vs);
    assert Pop(back).parsers == m.parsers;
    assert Drop(back, |vs| + 1).results == m.results;
    if r.Out? {
      assert back.results[|back.results| - |vs| - 1..] == Outs(vs + [r.v]);
    }
  }

  // ----- whole runs -----

  lemma {:induction false} ReachesSplit(g: Grammar, s: seq<Byte>, m: Machine, a: nat, m1: Machine, b: nat, m2: Machine,
                                        h: nat)
    requires a <= b && Reaches(g, s, m, a, m1, h) && Reaches(g, s, m, b, m2, h)
    ensures Reaches(g, s, m1, b - a, m2, h)
    decreases a
  {
    hide Step, Safe;
    if a > 0 {
      ReachesSplit(g, s, Step(g, s, m), a - 1, m1, b - 1, m2, h);
    }
  }

  lemma {:induction false} BusySplit(g: Grammar, s: seq<Byte>, m: Machine, a: nat, m1: Machine, b: nat, h: nat)
    requires a <= b && Reaches(g, s, m, a, m1, h) && Busy(g, s, m, b, h)
    ensures Busy(g, s, m1, b - a, h)
    decreases a
  {
    hide Step, Safe;
    if a > 0 {
      BusySplit(g, s, Step(g, s, m), a - 1, m1, b - 1, h);
    }
  }

  /** The meaning of a whole parse of `s` by the parser at `p`. */
  function Meaning(g: Grammar, s: seq<Byte>, fuel: nat, p: Ptr): Outcome {
    Eval(g, s, fuel, p, 1, 0, UNKNOWN_ERROR)
  }

  /** The loop state at the end of a parse: empty parser stack, one result, no marks. */
  function Final(s: seq<Byte>, o: Outcome): Machine
    requires o.Done? && o.pos <= |s|
  {
    Machine(Moved(s, START, o.pos), [], [o.r], o.err)
  }

  /**
    In every state that a parse reaches, however long it runs, the next turn is safe: it reads only
    results, marks and characters that exist, and row, column and last character are those of the
    position.  If the parser stack is empty, as many units of fuel as turns give the meaning, and
    the loop holds exactly it.
   */
  lemma EveryTurnIsSafe(g: Grammar, s: seq<Byte>, p: Ptr, n: nat, m: Machine)
    requires Closed(g) && p < |g| && Reaches(g, s, Initial(p), n, m, 0)
    ensures m.parsers != [] ==> Safe(g, s, m)
    ensures m.parsers == [] ==> Meaning(g, s, n, p).Done? && m == Final(s, Meaning(g, s, n, p))
  {
    hide Step;
    var empty := Machine(START, [], [], UNKNOWN_ERROR);
    var o := Meaning(g, s, n, p);
    var k := RunEval(g, s, n, p, empty);
    if o.OutOfFuel? {
      BusySplit(g, s, Initial(p), n, m, n, 0);
    } else {
      var end := Finish(s, empty, o.r, o.pos, o.err);
      assert end == Final(s, o);
      if n <= k {
        ReachesSplit(g, s, Initial(p), n, m, k, end, 0);
      } else {
        ReachesSplit(g, s, Initial(p), k, end, n, m, 0);
      }
    }
  }

  /** The loop ends exactly when the parse has a meaning. */
  lemma LoopEndsIff(g: Grammar, s: seq<Byte>, p: Ptr)
    requires Closed(g) && p < |g|
    ensures (exists n: nat, m :: Reaches(g, s, Initial(p), n, m, 0) && m.parsers == []) <==>
            (exists fuel: nat :: Meaning(g, s, fuel, p).Done?)
  {
    hide Step, Safe, Reaches;
    if n: nat, m :| Reaches(g, s, Initial(p), n, m, 0) && m.parsers == [] {
      EveryTurnIsSafe(g, s, p, n, m);
    }
    if fuel: nat :| Meaning(g, s, fuel, p).Done? {
      var n := LoopEnds(g, s, fuel, p);
      assert Final(s, Meaning(g, s, fuel, p)).parsers == [];
    }
  }

  lemma LoopEnds(g: Grammar, s: seq<Byte>, fuel: nat, p: Ptr) returns (n: nat)
    requires Closed(g) && p < |g| && Meaning(g, s, fuel, p).Done?
    ensures Reaches(g, s, Initial(p), n, Final(s, Meaning(g, s, fuel, p)), 0)
  {
    hide Step, Safe, Reaches;
    var o := Meaning(g, s, fuel, p);
    var empty := Machine(START, [], [], UNKNOWN_ERROR);
    n := RunEval(g, s, fuel, p, empty);
    assert Finish(s, empty, o.r, o.pos, o.err) == Final(s, o);
  }

  /** A repetition whose body cannot fail keeps the loop busy for ever. */
  lemma ManyOfUnfailingDiverges(g: Grammar, s: seq<Byte>, p: Ptr, n: nat)
    requires Closed(g) && p < |g| && IsRepeat(g[p])
    requires forall k: nat, q: nat, e: Err :: q <= |s| && Eval(g, s, k, g[p].x, 1, q, e).Done? ==>
               Eval(g, s, k, g[p].x, 1, q, e).r.Out?
    ensures Busy(g, s, Initial(p), n, 0)
  {
    hide Step, Safe, Busy;
    if n > 0 {
      RepeatOfUnfailing(g, s, n - 1, g[p].x, 1, 0, UNKNOWN_ERROR, []);
    }
    var k := RunEval(g, s, n, p, Machine(START, [], [], UNKNOWN_ERROR));
  }
}
