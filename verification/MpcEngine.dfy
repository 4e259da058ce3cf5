/**
  The parse loop itself: the input and stack records with the operations that change them in
  place, the switch of one turn, and the loop.  Each operation is proved against the function of
  the same purpose in MpcMachine, and the loop against the recursive meaning.
 */
module MpcEngine {
  import opened MpcSyntax
  import opened MpcSemantics
  import opened MpcMachine
  import opened MpcRefinement
  import MpcStacks

  class Engine {
    // the input record
    var state: State
    var last: Byte
    var backtrack: int
    var marks: seq<State>
    var lasts: seq<Byte>
    // the stack record: the elements in use, and the slots allocated for them
    var parsers: seq<Ptr>
    var states: seq<int>
    var parsersSlots: nat
    var results: seq<Result>
    var resultsSlots: nat
    var err: Err

    ghost predicate Valid()
      reads this
    {
      |parsers| == |states| && |parsers| <= parsersSlots && |results| <= resultsSlots
    }

    ghost function View(): Machine
      reads this
      requires Valid()
    {
      Machine(Input(state, last, backtrack, marks, lasts),
              seq(|parsers|, i requires 0 <= i < |parsers| reads this requires Valid() => Frame(parsers[i], states[i])),
              results, err)
    }

    constructor ()
      ensures Valid() && View() == Machine(START, [], [], UNKNOWN_ERROR)
    {
      state, last, backtrack, marks, lasts := State(0, 0, 0), NUL, 1, [], [];
      parsers, states, parsersSlots, results, resultsSlots := [], [], 0, [], 0;
      err := UNKNOWN_ERROR;
    }

    // ----- input operations -----

    method MarkInput()
      requires Valid()
      modifies this`marks, this`lasts
      ensures Valid() && View() == old(View()).(inp := Mark(old(View().inp)))
    {
      if backtrack < 1 { return; }
      marks := marks + [state];
      lasts := lasts + [last];
    }

    method UnmarkInput()
      requires Valid() && Marked(View().inp)
      modifies this`marks, this`lasts
      ensures Valid() && View() == old(View()).(inp := Unmark(old(View().inp)))
    {
      if backtrack < 1 { return; }
      marks := marks[..|marks| - 1];
      lasts := lasts[..|lasts| - 1];
    }

    method RewindInput()
      requires Valid() && Marked(View().inp)
      modifies this`marks, this`lasts, this`state, this`last
      ensures Valid() && View() == old(View()).(inp := Rewind(old(View().inp)))
    {
      if backtrack < 1 { return; }
      state := marks[|marks| - 1];
      last := lasts[|lasts| - 1];
      UnmarkInput();
    }

    method TakeChar(c: Byte)
      requires Valid()
      modifies this`state, this`last
      ensures Valid() && View() == old(View()).(inp := Take(old(View().inp), c))
    {
      last := c;
      state := state.(pos := state.pos + 1, col := state.col + 1);
      if c == NEWLINE {
        state := state.(col := 0, row := state.row + 1);
      }
    }

    method MatchChar(s: seq<Byte>, p: Parser) returns (ok: bool, c: Byte)
      requires Valid() && InText(s, View().inp) && IsCharParser(p)
      modifies this`state, this`last
      ensures Valid()
      ensures ok <==> old(state.pos) < |s| && Accepts(p, s[old(state.pos)])
      ensures ok ==> c == s[old(state.pos)] && View() == old(View()).(inp := Take(old(View().inp), c))
      ensures !ok ==> View() == old(View())
    {
      ok, c := false, NUL;
      if state.pos == |s| { return; }
      c := s[state.pos];
      if Accepts(p, c) {
        TakeChar(c);
        ok := true;
      }
    }

    method MatchText(s: seq<Byte>, cs: seq<Byte>) returns (ok: bool)
      requires Valid() && InText(s, View().inp) && |marks| == |lasts|
      modifies this`state, this`last, this`marks, this`lasts
      ensures Valid()
      ensures var (ok', i) := TakeText(s, old(View().inp), cs);
              ok == ok' && View() == old(View()).(inp := i)
    {
      MarkInput();
      ghost var marked := View();
      var k := 0;
      while k < |cs|
        invariant 0 <= k <= |cs| && Valid() && InText(s, View().inp)
        invariant View() == marked.(inp := View().inp)
        invariant Marked(View().inp)
        invariant TakeAll(s, marked.inp, cs) == TakeAll(s, View().inp, cs[k..])
      {
        var hit, _ := MatchChar(s, Single(cs[k]));
        if !hit {
          RewindInput();
          return false;
        }
        assert cs[k..][1..] == cs[k + 1..];
        k := k + 1;
      }
      UnmarkInput();
      return true;
    }

    // ----- stack operations -----

    method PushParser(p: Ptr)
      requires Valid()
      modifies this`parsers, this`states, this`parsersSlots
      ensures Valid() && View() == Push(old(View()), p)
    {
      if |parsers| + 1 > parsersSlots {
        MpcStacks.GrowthSuffices(parsersSlots);
        parsersSlots := MpcStacks.Grown(parsersSlots);
      }
      parsers := parsers + [p];
      states := states + [0];
    }

    method PopParser()
      requires Valid() && parsers != []
      modifies this`parsers, this`states, this`parsersSlots
      ensures Valid() && View() == Pop(old(View()))
    {
      hide MpcStacks.TooRoomy, MpcStacks.Shrunk;
      parsers := parsers[..|parsers| - 1];
      states := states[..|states| - 1];
      if MpcStacks.TooRoomy(parsersSlots, |parsers|) {
        MpcStacks.ShrinkingKeeps(parsersSlots, |parsers|);
        parsersSlots := MpcStacks.Shrunk(parsersSlots);
      }
    }

    method ContinueWith(st: int, x: Ptr)
      requires Valid() && parsers != []
      modifies this`parsers, this`states, this`parsersSlots
      ensures Valid() && View() == Continue(old(View()), st, x)
    {
      states := states[|states| - 1 := st];
      PushParser(x);
    }

    method PushResult(r: Result)
      requires Valid()
      modifies this`results, this`resultsSlots
      ensures Valid() && View() == old(View()).(results := old(results) + [r])
    {
      if |results| + 1 > resultsSlots {
        MpcStacks.GrowthSuffices(resultsSlots);
        resultsSlots := MpcStacks.Grown(resultsSlots);
      }
      results := results + [r];
    }

    method PushOut(v: Value)
      requires Valid() && parsers != []
      modifies this`parsers, this`states, this`parsersSlots, this`results, this`resultsSlots
      ensures Valid() && View() == Succeed(old(View()), v)
    {
      PopParser();
      PushResult(Out(v));
    }

    method PushError(e: Err)
      requires Valid() && parsers != []
      modifies this`parsers, this`states, this`parsersSlots, this`results, this`resultsSlots
      ensures Valid() && View() == FailWith(old(View()), e)
    {
      PopParser();
      PushResult(Error(e));
    }

    method PopResult() returns (r: Result)
      requires Valid() && results != []
      modifies this`results, this`resultsSlots
      ensures Valid() && r == TopResult(old(View())) && View() == Drop(old(View()), 1)
    {
      hide MpcStacks.TooRoomy, MpcStacks.Shrunk;
      r := results[|results| - 1];
      results := results[..|results| - 1];
      if MpcStacks.TooRoomy(resultsSlots, |results|) {
        MpcStacks.ShrinkingKeeps(resultsSlots, |results|);
        resultsSlots := MpcStacks.Shrunk(resultsSlots);
      }
    }

    method PopResults(n: nat)
      requires Valid() && n <= |results|
      modifies this`results, this`resultsSlots
      ensures Valid() && View() == Drop(old(View()), n)
    {
      var left := n;
      while left > 0
        invariant 0 <= left <= n && Valid() && View() == Drop(old(View()), n - left)
      {
        var _ := PopResult();
        left := left - 1;
      }
    }

    method NoteError(e: Err)
      requires Valid()
      modifies this`err
      ensures Valid() && View() == Note(old(View()), e)
    {
      err := Merged([err, e]);
    }

    /** Pop one of `left` errors and merge it into the record. */
    method PopError(ghost left: nat)
      requires Valid() && 0 < left <= |results| && AllError(results[|results| - left..])
      modifies this`results, this`resultsSlots, this`err
      ensures Valid() && left - 1 <= |results| && AllError(results[|results| - (left - 1)..])
      ensures View().results == results
      ensures DropErrors(View(), left - 1) == DropErrors(old(View()), left)
    {
      hide Engine.View, Engine.Valid, DropErrors;
      ViewParts();
      DropErrorsStep(View(), left);
      var r := PopResult();
      ViewParts();
      NoteError(r.e);
      ViewParts();
    }

    method PopErrors(n: nat)
      requires Valid() && n <= |results| && AllError(results[|results| - n..])
      modifies this`results, this`resultsSlots, this`err
      ensures Valid() && View() == DropErrors(old(View()), n)
    {
      hide Engine.View, Engine.Valid, DropErrors, AllError;
      ViewParts();
      var left := n;
      while left > 0
        invariant 0 <= left <= n && Valid() && View().results == results
        invariant left <= |results| && AllError(results[|results| - left..])
        invariant DropErrors(View(), left) == DropErrors(old(View()), n)
      {
        PopError(left);
        left := left - 1;
      }
      NoErrorsDropped(View());
    }

    method MergeOut(n: nat, f: nat) returns (v: Value)
      requires Valid() && n <= |results| && AllOut(results[|results| - n..])
      modifies this`results, this`resultsSlots
      ensures Valid() && View() == Drop(old(View()), n)
      ensures v == Folded(f, Values(old(results)[|old(results)| - n..]))
    {
      v := Folded(f, Values(results[|results| - n..]));
      PopResults(n);
    }

    /** The parts of the view that a turn looks at. */
    lemma ViewParts()
      requires Valid()
      ensures View().results == results && |View().parsers| == |parsers|
      ensures View().inp == Input(state, last, backtrack, marks, lasts)
    {
    }

    // ----- one turn of the loop -----

    method TurnLeaf(s: seq<Byte>, p: Parser)
      requires Valid() && parsers != [] && InText(s, View().inp) && |marks| == |lasts| && IsLeaf(p)
      modifies this
      ensures Valid() && View() == StepLeaf(s, old(View()), p)
    {
      hide Engine.View, Engine.Valid, TakeText;
      ViewParts();
      if IsCharParser(p) {
        var ok, c := MatchChar(s, p);
        ViewParts();
        if ok { PushOut(Chars([c])); } else { PushError(Failed(state, "Incorrect Input")); }
        return;
      }
      match p
      case Text(cs) =>
        var ok := MatchText(s, cs);
        ViewParts();
        if ok { PushOut(Chars(cs)); } else { PushError(Failed(state, "Incorrect Input")); }
      case Undefined => PushError(Failed(state, "Parser Undefined!"));
      case Pass => PushOut(Null);
      case Fail(msg) => PushError(Failed(state, msg));
      case Lift(c) => PushOut(Built(c));
      case LiftVal(v) => PushOut(Given(v));
      case Position => PushOut(At(state));
      case Anchor(at) =>
        var next := if state.pos == |s| then NUL else s[state.pos];
        if at(last, next) { PushOut(Null); } else { PushError(Expected(state, "anchor", next)); }
      case UnknownType => PushError(Failed(state, "Unknown Parser Type Id!"));
    }

    method TurnWrapper(g: Grammar, s: seq<Byte>, p: Parser, st: int)
      requires Valid() && Safe(g, s, View()) && p == g[Top(View()).p] && st == Top(View()).st && IsWrapper(p)
      modifies this
      ensures Valid() && View() == if st == 0 then EnterWrapper(old(View()), p) else LeaveWrapper(s, old(View()), p)
    {
      hide StateAt, LastAt, EnterWrapper, LeaveWrapper, Engine.View, Engine.Valid;
      ViewParts();
      if st == 0 {
        Enter(p);
      } else if p.Not? {
        LeaveNot(s, p);
      } else {
        Leave(s, p);
      }
    }

    /** The first visit of a wrapper. */
    method Enter(p: Parser)
      requires Valid() && parsers != [] && IsWrapper(p)
      modifies this
      ensures Valid() && View() == EnterWrapper(old(View()), p)
    {
      if p.Predict? {
        backtrack := backtrack - 1;
      } else if p.Not? {
        MarkInput();
      }
      ContinueWith(1, p.x);
    }

    /** The second visit of a wrapper other than a negation. */
    method Leave(s: seq<Byte>, p: Parser)
      requires Valid() && InText(s, View().inp) && parsers != [] && results != [] && IsWrapper(p) && !p.Not?
      modifies this
      ensures Valid() && View() == LeaveWrapper(s, old(View()), p)
    {
      if p.Predict? {
        backtrack := backtrack + 1;
        PopParser();
        return;
      }
      hide Engine.View, Engine.Valid;
      ViewParts();
      var r := PopResult();
      ViewParts();
      match (p, r) {
        case (Expect(_, msg), Out(v)) => PushOut(v);
        case (Expect(_, msg), Error(_)) =>
          PushError(Expected(state, msg, if state.pos == |s| then NUL else s[state.pos]));
        case (Apply(_, f), Out(v)) => PushOut(Applied(f, v));
        case (Apply(_, f), Error(e)) => PushError(e);
        case (ApplyTo(_, f, d), Out(v)) => PushOut(AppliedTo(f, v, d));
        case (ApplyTo(_, f, d), Error(e)) => PushError(e);
        case (Maybe(_, c), Out(v)) => PushOut(v);
        case (Maybe(_, c), Error(e)) =>
          NoteError(e);
          ViewParts();
          PushOut(Built(c));
      }
    }

    method LeaveNot(s: seq<Byte>, p: Parser)
      requires Valid() && InText(s, View().inp) && parsers != [] && results != [] && p.Not? && Marked(View().inp)
      requires backtrack >= 1 ==> 0 <= marks[|marks| - 1].pos <= |s|
      modifies this
      ensures Valid() && View() == LeaveWrapper(s, old(View()), p)
    {
      var r := PopResult();
      if r.Out? {
        RewindInput();
        PushError(Expected(state, "opposite", if state.pos == |s| then NUL else s[state.pos]));
      } else {
        UnmarkInput();
        NoteError(r.e);
        PushOut(Built(p.ctor));
      }
    }

    method TurnRepeat(p: Parser, st: int)
      requires Valid() && parsers != [] && IsRepeat(p)
      requires st == 0 || (1 <= st <= |results| && AllOut(Below(View(), st - 1)) && (p.Count? ==> Marked(View().inp)))
      modifies this
      ensures Valid() && View() == StepRepeat(old(View()), p, st)
    {
      if st == 0 {
        if p.Count? { MarkInput(); }
        ContinueWith(1, p.x);
      } else if results[|results| - 1].Out? {
        ContinueWith(st + 1, p.x);
      } else {
        EndRepeat(p, st);
      }
    }

    /** The visit of a repetition whose last round has failed. */
    method EndRepeat(p: Parser, st: int)
      requires Valid() && parsers != [] && IsRepeat(p) && 1 <= st <= |results| && results[|results| - 1].Error?
      requires AllOut(Below(View(), st - 1)) && (p.Count? ==> Marked(View().inp))
      modifies this
      ensures Valid() && View() == StepRepeat(old(View()), p, st)
    {
      hide Unmark, Rewind, Values, Engine.View, Engine.Valid, Below;
      ViewParts();
      if p.Many1? && st == 1 {
        var r := PopResult();
        ViewParts();
        PushError(OneOrMoreOf(r.e));
      } else if p.Count? && st != p.n + 1 {
        FailCount(p.n, st);
      } else {
        GatherRounds(p.f, st, p.Count?);
      }
    }

    /** A count that stopped at the wrong number. */
    method FailCount(n: int, st: int)
      requires Valid() && parsers != [] && 1 <= st <= |results| && results[|results| - 1].Error? && Marked(View().inp)
      modifies this
      ensures Valid()
      ensures var was := old(View());
              View() == FailWith(Drop(was, st).(inp := Rewind(was.inp)), TimesOf(n, TopResult(was).e))
    {
      hide Rewind, Engine.View, Engine.Valid;
      ghost var was := View();
      ViewParts();
      var r := PopResult();
      ViewParts();
      PopResults(st - 1);
      assert results[..|results|] == was.results[..|was.results| - st] by { ViewParts(); }
      RewindInput();
      ViewParts();
      PushError(TimesOf(n, r.e));
    }

    /** A repetition that ends well: the error is noted and the outputs are folded. */
    method GatherRounds(f: nat, st: int, marked: bool)
      requires Valid() && parsers != [] && 1 <= st <= |results| && results[|results| - 1].Error?
      requires AllOut(Below(View(), st - 1)) && (marked ==> Marked(View().inp))
      modifies this
      ensures Valid()
      ensures var was := old(View());
              var inp := if marked then Unmark(was.inp) else was.inp;
              View() == Succeed(Drop(Note(was, TopResult(was).e), st).(inp := inp),
                                Folded(f, Values(Below(was, st - 1))))
    {
      hide Unmark, Values, Engine.View, Engine.Valid;
      ghost var was := View();
      ViewParts();
      var r := PopResult();
      ViewParts();
      assert results[|results| - (st - 1)..] == Below(was, st - 1);
      assert results[..|results| - (st - 1)] == was.results[..|was.results| - st];
      NoteError(r.e);
      if marked { UnmarkInput(); }
      ViewParts();
      var v := MergeOut(st - 1, f);
      ViewParts();
      PushOut(v);
    }

    method TurnOr(xs: seq<Ptr>, st: int)
      requires Valid() && parsers != []
      requires xs == [] || st == 0 || (1 <= st <= |xs| && st <= |results| && AllError(Below(View(), st - 1)))
      modifies this
      ensures Valid() && View() == StepOr(old(View()), xs, st)
    {
      hide Engine.View, Engine.Valid, DropErrors;
      ghost var was := View();
      ViewParts();
      if xs == [] {
        PushOut(Null);
      } else if st == 0 {
        ContinueWith(1, xs[0]);
      } else if results[|results| - 1].Out? {
        var r := PopResult();
        ViewParts();
        assert results[|results| - (st - 1)..] == Below(was, st - 1);
        PopErrors(st - 1);
        ViewParts();
        PushOut(r.v);
      } else if st < |xs| {
        ContinueWith(st + 1, xs[st]);
      } else {
        assert results[|results| - st..] == Below(was, st - 1) + [TopResult(was)];
        var e := Merged(Errors(results[|results| - st..]));
        PopResults(st);
        ViewParts();
        PushError(e);
      }
    }

    method TurnAnd(xs: seq<Ptr>, f: nat, st: int)
      requires Valid() && parsers != []
      requires xs == [] || st == 0
               || (1 <= st <= |xs| && st <= |results| && AllOut(Below(View(), st - 1)) && Marked(View().inp))
      modifies this
      ensures Valid() && View() == StepAnd(old(View()), xs, f, st)
    {
      hide Engine.View, Engine.Valid, Values;
      ghost var was := View();
      ViewParts();
      if xs == [] {
        PushOut(Folded(f, []));
      } else if st == 0 {
        MarkInput();
        ViewParts();
        ContinueWith(1, xs[0]);
      } else if results[|results| - 1].Error? {
        FailSequence(st);
      } else if st < |xs| {
        ContinueWith(st + 1, xs[st]);
      } else {
        assert results[|results| - st..] == Below(was, st - 1) + [TopResult(was)];
        EndSequence(f, st);
      }
    }

    /** A sequence whose last part has failed. */
    method FailSequence(st: int)
      requires Valid() && parsers != [] && 1 <= st <= |results| && results[|results| - 1].Error? && Marked(View().inp)
      modifies this
      ensures Valid()
      ensures var was := old(View());
              View() == FailWith(Drop(was, st).(inp := Rewind(was.inp)), TopResult(was).e)
    {
      hide Engine.View, Engine.Valid, Rewind;
      ghost var was := View();
      ViewParts();
      RewindInput();
      ViewParts();
      var r := PopResult();
      ViewParts();
      PopResults(st - 1);
      ViewParts();
      assert results == was.results[..|was.results| - st];
      PushError(r.e);
    }

    /** A sequence whose parts have all succeeded. */
    method EndSequence(f: nat, st: int)
      requires Valid() && parsers != [] && 1 <= st <= |results| && AllOut(results[|results| - st..])
      requires Marked(View().inp)
      modifies this
      ensures Valid()
      ensures var was := old(View());
              var vs := Values(was.results[|was.results| - st..]);
              View() == Succeed(Drop(was, st).(inp := Unmark(was.inp)), Folded(f, vs))
    {
      hide Engine.View, Engine.Valid, Values, Unmark;
      ViewParts();
      UnmarkInput();
      ViewParts();
      var v := MergeOut(st, f);
      ViewParts();
      PushOut(v);
    }

    method TakeTurn(g: Grammar, s: seq<Byte>)
      requires Valid() && Safe(g, s, View())
      modifies this
      ensures Valid() && View() == Step(g, s, old(View()))
    {
      hide StepLeaf, EnterWrapper, LeaveWrapper, StepRepeat, StepOr, StepAnd, StateAt, LastAt;
      var p, st := g[parsers[|parsers| - 1]], states[|states| - 1];
      assert Top(View()) == Frame(parsers[|parsers| - 1], st);
      if IsLeaf(p) {
        TurnLeaf(s, p);
      } else if IsWrapper(p) {
        TurnWrapper(g, s, p, st);
      } else if IsRepeat(p) {
        TurnRepeat(p, st);
      } else if p.Or? {
        TurnOr(p.xs, st);
      } else {
        TurnAnd(p.xs, p.f, st);
      }
    }
  }

  /**
    A whole parse.  It ends exactly for the inputs that have a meaning (LoopEndsIff), hence the
    fuel: a bound on the meaning that the caller knows, used by the proof alone.
   */
  method Parse(g: Grammar, s: seq<Byte>, init: Ptr, ghost fuel: nat) returns (r: Result)
    requires Closed(g) && init < |g| && Meaning(g, s, fuel, init).Done?
    ensures var o := Meaning(g, s, fuel, init);
            r == if o.r.Out? then o.r else Error(Merged([o.err, o.r.e]))
  {
    hide Step, Safe;
    var stk := new Engine();
    stk.PushParser(init);
    ghost var end := Final(s, Meaning(g, s, fuel, init));
    ghost var left := LoopEnds(g, s, fuel, init);
    while stk.parsers != []
      invariant stk.Valid() && Reaches(g, s, stk.View(), left, end, 0)
      decreases left
    {
      stk.TakeTurn(g, s);
      left := left - 1;
    }
    assert stk.View().parsers == [];
    assert left == 0;
    r := stk.results[0];
    if r.Error? {
      r := Error(Merged([stk.err, r.e]));
    }
  }
}
