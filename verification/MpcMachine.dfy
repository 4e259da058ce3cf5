/**
  One turn of the parse loop as a function of the whole loop state: the input with its cursor and
  mark stack, the parser stack with its state slots, the result stack and the error record.
 */
module MpcMachine {
  import opened MpcSyntax

  datatype Input = Input(state: State, last: Byte, backtrack: int, marks: seq<State>, lasts: seq<Byte>)

  datatype Frame = Frame(p: Ptr, st: int)

  datatype Machine = Machine(inp: Input, parsers: seq<Frame>, results: seq<Result>, err: Err)

  // ----- input -----

  function Mark(i: Input): Input {
    if i.backtrack < 1 then i else i.(marks := i.marks + [i.state], lasts := i.lasts + [i.last])
  }

  /** Unmarking and rewinding take the top of the mark stack, which must exist. */
  predicate Marked(i: Input) {
    i.backtrack >= 1 ==> |i.marks| == |i.lasts| && i.marks != []
  }

  function Unmark(i: Input): Input
    requires Marked(i)
  {
    if i.backtrack < 1 then i
    else i.(marks := i.marks[..|i.marks| - 1], lasts := i.lasts[..|i.lasts| - 1])
  }

  function Rewind(i: Input): Input
    requires Marked(i)
  {
    if i.backtrack < 1 then i
    else Unmark(i.(state := i.marks[|i.marks| - 1], last := i.lasts[|i.lasts| - 1]))
  }

  predicate InText(s: seq<Byte>, i: Input) {
    0 <= i.state.pos <= |s|
  }

  /** Reading at the end of the text finds the terminator. */
  function Peek(s: seq<Byte>, i: Input): Byte
    requires InText(s, i)
  {
    if i.state.pos == |s| then NUL else s[i.state.pos]
  }

  function Take(i: Input, c: Byte): Input {
    i.(last := c,
       state := if c == NEWLINE then State(i.state.pos + 1, i.state.row + 1, 0)
                else State(i.state.pos + 1, i.state.row, i.state.col + 1))
  }

  /** Consume `cs` character by character up to the first mismatch. */
  function TakeAll(s: seq<Byte>, i: Input, cs: seq<Byte>): (r: (bool, Input))
    requires InText(s, i)
    ensures InText(s, r.1)
    ensures r.1.backtrack == i.backtrack && r.1.marks == i.marks && r.1.lasts == i.lasts
    decreases |cs|
  {
    if cs == [] then (true, i)
    else if i.state.pos < |s| && s[i.state.pos] == cs[0] then TakeAll(s, Take(i, cs[0]), cs[1..])
    else (false, i)
  }

  function TakeText(s: seq<Byte>, i: Input, cs: seq<Byte>): (bool, Input)
    requires InText(s, i) && (i.backtrack >= 1 ==> |i.marks| == |i.lasts|)
  {
    var (ok, j) := TakeAll(s, Mark(i), cs);
    (ok, if ok then Unmark(j) else Rewind(j))
  }

  // ----- stacks -----

  function Push(m: Machine, p: Ptr): Machine {
    m.(parsers := m.parsers + [Frame(p, 0)])
  }

  function Top(m: Machine): Frame
    requires m.parsers != []
  {
    m.parsers[|m.parsers| - 1]
  }

  function Pop(m: Machine): Machine
    requires m.parsers != []
  {
    m.(parsers := m.parsers[..|m.parsers| - 1])
  }

  /** Remember `st` in the top frame and run the parser `x` on top of it. */
  function Continue(m: Machine, st: int, x: Ptr): Machine
    requires m.parsers != []
  {
    m.(parsers := m.parsers[..|m.parsers| - 1] + [Frame(Top(m).p, st), Frame(x, 0)])
  }

  function Succeed(m: Machine, v: Value): Machine
    requires m.parsers != []
  {
    Pop(m).(results := m.results + [Out(v)])
  }

  function FailWith(m: Machine, e: Err): Machine
    requires m.parsers != []
  {
    Pop(m).(results := m.results + [Error(e)])
  }

  function TopResult(m: Machine): Result
    requires m.results != []
  {
    m.results[|m.results| - 1]
  }

  function Drop(m: Machine, n: nat): Machine
    requires n <= |m.results|
  {
    m.(results := m.results[..|m.results| - n])
  }

  function Note(m: Machine, e: Err): Machine {
    m.(err := Merged([m.err, e]))
  }

  predicate AllOut(rs: seq<Result>) {
    forall i :: 0 <= i < |rs| ==> rs[i].Out?
  }

  predicate AllError(rs: seq<Result>) {
    forall i :: 0 <= i < |rs| ==> rs[i].Error?
  }

  function Values(rs: seq<Result>): seq<Value>
    requires AllOut(rs)
  {
    seq(|rs|, i requires 0 <= i < |rs| => rs[i].v)
  }

  function Errors(rs: seq<Result>): seq<Err>
    requires AllError(rs)
  {
    seq(|rs|, i requires 0 <= i < |rs| => rs[i].e)
  }

  /** The `n` results below the top one. */
  function Below(m: Machine, n: nat): seq<Result>
    requires n < |m.results|
  {
    m.results[|m.results| - 1 - n..|m.results| - 1]
  }

  /** Pop `n` error results, merging each into the error record. */
  function DropErrors(m: Machine, n: nat): (m': Machine)
    requires n <= |m.results| && AllError(m.results[|m.results| - n..])
    ensures m'.parsers == m.parsers && m'.inp == m.inp && m'.results == m.results[..|m.results| - n]
    decreases n
  {
    if n == 0 then m
    else
      assert m.results[|m.results| - n..][n - 1] == TopResult(m);
      var m1 := Drop(Note(m, TopResult(m).e), 1);
      assert m1.results[|m1.results| - (n - 1)..] == m.results[|m.results| - n..][..n - 1];
      DropErrors(m1, n - 1)
  }

  // ----- one turn of the loop -----

  /** What the turn reads exists and has the kind it is read as. */
  predicate Ready(g: Grammar, s: seq<Byte>, m: Machine) {
    && InText(s, m.inp) && |m.inp.marks| == |m.inp.lasts|
    && m.parsers != [] && Top(m).p < |g|
    && var p, st := g[Top(m).p], Top(m).st;
       if IsLeaf(p) then true
       else if IsWrapper(p) then
         st == 0 || (st == 1 && m.results != [] && (p.Not? ==> Marked(m.inp)))
       else if IsRepeat(p) then
         st == 0 || (1 <= st <= |m.results| && AllOut(Below(m, st - 1)) && (p.Count? ==> Marked(m.inp)))
       else if p.Or? then
         p.xs == [] || st == 0 || (1 <= st <= |p.xs| && st <= |m.results| && AllError(Below(m, st - 1)))
       else
         p.xs == [] || st == 0 || (1 <= st <= |p.xs| && st <= |m.results| && AllOut(Below(m, st - 1)) && Marked(m.inp))
  }

  /** Cursor, last character and every mark are the ones their positions determine. */
  predicate InputOk(s: seq<Byte>, i: Input) {
    && InText(s, i) && i.state == StateAt(s, i.state.pos) && i.last == LastAt(s, i.state.pos)
    && |i.marks| == |i.lasts|
    && forall k :: 0 <= k < |i.marks| ==>
         && 0 <= i.marks[k].pos <= |s|
         && i.marks[k] == StateAt(s, i.marks[k].pos) && i.lasts[k] == LastAt(s, i.marks[k].pos)
  }

  predicate Safe(g: Grammar, s: seq<Byte>, m: Machine) {
    Ready(g, s, m) && InputOk(s, m.inp)
  }

  function StepLeaf(s: seq<Byte>, m: Machine, p: Parser): Machine
    requires InText(s, m.inp) && |m.inp.marks| == |m.inp.lasts| && m.parsers != [] && IsLeaf(p)
  {
    var i := m.inp;
    if IsCharParser(p) then
      if i.state.pos < |s| && Accepts(p, s[i.state.pos]) then
        Succeed(m.(inp := Take(i, s[i.state.pos])), Chars([s[i.state.pos]]))
      else FailWith(m, Failed(i.state, "Incorrect Input"))
    else
    match p
    case Text(cs) =>
      var (ok, j) := TakeText(s, i, cs);
      if ok then Succeed(m.(inp := j), Chars(cs)) else FailWith(m.(inp := j), Failed(j.state, "Incorrect Input"))
    case Undefined => FailWith(m, Failed(i.state, "Parser Undefined!"))
    case Pass => Succeed(m, Null)
    case Fail(msg) => FailWith(m, Failed(i.state, msg))
    case Lift(c) => Succeed(m, Built(c))
    case LiftVal(v) => Succeed(m, Given(v))
    case Position => Succeed(m, At(i.state))
    case Anchor(at) =>
      if at(i.last, Peek(s, i)) then Succeed(m, Null) else FailWith(m, Expected(i.state, "anchor", Peek(s, i)))
    case UnknownType => FailWith(m, Failed(i.state, "Unknown Parser Type Id!"))
  }

  /** The first visit to a wrapper. */
  function EnterWrapper(m: Machine, p: Parser): Machine
    requires m.parsers != [] && IsWrapper(p)
  {
    if p.Predict? then Continue(m.(inp := m.inp.(backtrack := m.inp.backtrack - 1)), 1, p.x)
    else if p.Not? then Continue(m.(inp := Mark(m.inp)), 1, p.x)
    else Continue(m, 1, p.x)
  }

  /** The second visit to a wrapper, with the result of the parser below on top. */
  function LeaveWrapper(s: seq<Byte>, m: Machine, p: Parser): Machine
    requires InText(s, m.inp) && m.parsers != [] && m.results != [] && IsWrapper(p)
    requires p.Not? ==> Marked(m.inp)
    requires p.Not? && m.inp.backtrack >= 1 ==> 0 <= m.inp.marks[|m.inp.marks| - 1].pos <= |s|
  {
    var r, m1 := TopResult(m), Drop(m, 1);
    match p
    case Expect(_, msg) =>
      if r.Out? then Succeed(m1, r.v) else FailWith(m1, Expected(m.inp.state, msg, Peek(s, m.inp)))
    case Apply(_, f) =>
      if r.Out? then Succeed(m1, Applied(f, r.v)) else FailWith(m1, r.e)
    case ApplyTo(_, f, d) =>
      if r.Out? then Succeed(m1, AppliedTo(f, r.v, d)) else FailWith(m1, r.e)
    case Predict(_) =>
      Pop(m.(inp := m.inp.(backtrack := m.inp.backtrack + 1)))
    case Not(_, c) =>
      if r.Out? then
        var j := Rewind(m.inp);
        FailWith(m1.(inp := j), Expected(j.state, "opposite", Peek(s, j)))
      else Succeed(Note(m1.(inp := Unmark(m.inp)), r.e), Built(c))
    case Maybe(_, c) =>
      if r.Out? then Succeed(m1, r.v) else Succeed(Note(m1, r.e), Built(c))
  }

  function StepRepeat(m: Machine, p: Parser, st: int): Machine
    requires m.parsers != [] && IsRepeat(p)
    requires st == 0 || (1 <= st <= |m.results| && AllOut(Below(m, st - 1)) && (p.Count? ==> Marked(m.inp)))
  {
    if st == 0 then Continue(if p.Count? then m.(inp := Mark(m.inp)) else m, 1, p.x)
    else if TopResult(m).Out? then Continue(m, st + 1, p.x)
    else
      var e, vs := TopResult(m).e, Values(Below(m, st - 1));
      match p
      case Many(_, f) => Succeed(Drop(Note(m, e), st), Folded(f, vs))
      case Many1(_, f) =>
        if st == 1 then FailWith(Drop(m, 1), OneOrMoreOf(e)) else Succeed(Drop(Note(m, e), st), Folded(f, vs))
      case Count(_, f, n) =>
        if st != n + 1 then FailWith(Drop(m, st).(inp := Rewind(m.inp)), TimesOf(n, e))
        else Succeed(Drop(Note(m, e), st).(inp := Unmark(m.inp)), Folded(f, vs))
  }

  function StepOr(m: Machine, xs: seq<Ptr>, st: int): Machine
    requires m.parsers != []
    requires xs == [] || st == 0 || (1 <= st <= |xs| && st <= |m.results| && AllError(Below(m, st - 1)))
  {
    if xs == [] then Succeed(m, Null)
    else if st == 0 then Continue(m, 1, xs[0])
    else if TopResult(m).Out? then
      assert Drop(m, 1).results[|m.results| - st..] == Below(m, st - 1);
      Succeed(DropErrors(Drop(m, 1), st - 1), TopResult(m).v)
    else if st < |xs| then Continue(m, st + 1, xs[st])
    else
      assert m.results[|m.results| - st..] == Below(m, st - 1) + [TopResult(m)];
      FailWith(Drop(m, st), Merged(Errors(m.results[|m.results| - st..])))
  }

  function StepAnd(m: Machine, xs: seq<Ptr>, f: nat, st: int): Machine
    requires m.parsers != []
    requires xs == [] || st == 0 || (1 <= st <= |xs| && st <= |m.results| && AllOut(Below(m, st - 1)) && Marked(m.inp))
  {
    if xs == [] then Succeed(m, Folded(f, []))
    else if st == 0 then Continue(m.(inp := Mark(m.inp)), 1, xs[0])
    else if TopResult(m).Error? then FailWith(Drop(m, st).(inp := Rewind(m.inp)), TopResult(m).e)
    else if st < |xs| then Continue(m, st + 1, xs[st])
    else
      assert m.results[|m.results| - st..] == Below(m, st - 1) + [TopResult(m)];
      Succeed(Drop(m, st).(inp := Unmark(m.inp)), Folded(f, Values(m.results[|m.results| - st..])))
  }

  function Step(g: Grammar, s: seq<Byte>, m: Machine): Machine
    requires Safe(g, s, m)
  {
    var p, st := g[Top(m).p], Top(m).st;
    if IsLeaf(p) then StepLeaf(s, m, p)
    else if IsWrapper(p) then if st == 0 then EnterWrapper(m, p) else LeaveWrapper(s, m, p)
    else if IsRepeat(p) then StepRepeat(m, p, st)
    else if p.Or? then StepOr(m, p.xs, st)
    else StepAnd(m, p.xs, p.f, st)
  }

  const START: Input := Input(State(0, 0, 0), NUL, 1, [], [])

  const UNKNOWN_ERROR: Err := Failed(State(-1, -1, -1), "Unknown Error")

  /** The loop state on entry to a parse of the parser at `p`. */
  function Initial(p: Ptr): Machine {
    Push(Machine(START, [], [], UNKNOWN_ERROR), p)
  }
}
