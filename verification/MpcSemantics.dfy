/**
  The recursive meaning of a parser graph: what the parser at a pointer yields when it starts at a
  position of the text.  There is no mark stack here and no cursor besides the position.

  `bt` is the backtracking level of the input: at level one and above a failing sequence puts the
  position back, below it does not.  `err` is the error record that a parse keeps on the side.
  A parser may run for ever (left recursion, or a repetition whose body never fails), so the
  meaning is indexed by fuel; EvalMono shows that the fuel does not matter once it suffices.
 */
module MpcSemantics {
  import opened MpcSyntax

  datatype Outcome = OutOfFuel | Done(r: Result, pos: nat, err: Err)

  datatype Rounds = Unfinished | Stopped(vs: seq<Value>, e: Err, pos: nat, err: Err)

  /** Merge the errors of a list, last first, into the error record. */
  function MergeAll(err: Err, es: seq<Err>): Err
    decreases |es|
  {
    if es == [] then err else MergeAll(Merged([err, es[|es| - 1]]), es[..|es| - 1])
  }

  /** A parser that runs no other parser, at position `pos`. */
  function Leaf(s: seq<Byte>, p: Parser, bt: int, pos: nat, err: Err): (o: Outcome)
    requires pos <= |s| && IsLeaf(p)
    ensures o.Done? && pos <= o.pos <= |s|
    ensures o.r.Error? && (bt >= 1 || !p.Text?) ==> o.pos == pos
  {
    var here := StateAt(s, pos);
    if IsCharParser(p) then
      if pos < |s| && Accepts(p, s[pos]) then Done(Out(Chars([s[pos]])), pos + 1, err)
      else Done(Error(Failed(here, "Incorrect Input")), pos, err)
    else
    match p
    case Undefined => Done(Error(Failed(here, "Parser Undefined!")), pos, err)
    case Pass => Done(Out(Null), pos, err)
    case Fail(msg) => Done(Error(Failed(here, msg)), pos, err)
    case Lift(c) => Done(Out(Built(c)), pos, err)
    case LiftVal(v) => Done(Out(Given(v)), pos, err)
    case Position => Done(Out(At(here)), pos, err)
    case Anchor(at) =>
      if at(LastAt(s, pos), PeekAt(s, pos)) then Done(Out(Null), pos, err)
      else Done(Error(Expected(here, "anchor", PeekAt(s, pos))), pos, err)
    case Text(cs) =>
      var k := MatchLength(s, pos, cs);
      if k == |cs| then Done(Out(Chars(cs)), pos + k, err)
      else
        var stop := if bt >= 1 then pos else pos + k;
        Done(Error(Failed(StateAt(s, stop), "Incorrect Input")), stop, err)
    case UnknownType => Done(Error(Failed(here, "Unknown Parser Type Id!")), pos, err)
  }

  /** The backtracking level for the parser below `p`. */
  function LevelBelow(p: Parser, bt: int): int {
    if p.Predict? then bt - 1 else bt
  }

  /** What a wrapper that started at `pos` makes of the result `r` of the parser below it, ended at `q`. */
  function Wrap(s: seq<Byte>, p: Parser, bt: int, pos: nat, r: Result, q: nat, err: Err): (o: Outcome)
    requires pos <= q <= |s| && IsWrapper(p)
    ensures o.Done? && pos <= o.pos <= |s|
  {
    match (p, r)
    case (Expect(_, _), Out(v)) => Done(r, q, err)
    case (Expect(_, msg), Error(_)) => Done(Error(Expected(StateAt(s, q), msg, PeekAt(s, q))), q, err)
    case (Apply(_, f), Out(v)) => Done(Out(Applied(f, v)), q, err)
    case (Apply(_, _), Error(_)) => Done(r, q, err)
    case (ApplyTo(_, f, d), Out(v)) => Done(Out(AppliedTo(f, v, d)), q, err)
    case (ApplyTo(_, _, _), Error(_)) => Done(r, q, err)
    case (Predict(_), _) => Done(r, q, err)
    case (Not(_, _), Out(_)) =>
      var stop := if bt >= 1 then pos else q;
      Done(Error(Expected(StateAt(s, stop), "opposite", PeekAt(s, stop))), stop, err)
    case (Not(_, c), Error(e)) => Done(Out(Built(c)), q, Merged([err, e]))
    case (Maybe(_, _), Out(v)) => Done(r, q, err)
    case (Maybe(_, c), Error(e)) => Done(Out(Built(c)), q, Merged([err, e]))
  }

  /** What a repetition that started at `pos` makes of the outputs `vs` and the error `e` that stopped it at `q`. */
  function Gather(p: Parser, bt: int, pos: nat, vs: seq<Value>, e: Err, q: nat, err: Err): (o: Outcome)
    requires pos <= q && IsRepeat(p)
    ensures o.Done? && pos <= o.pos <= q
  {
    match p
    case Many(_, f) => Done(Out(Folded(f, vs)), q, Merged([err, e]))
    case Many1(_, f) =>
      if vs == [] then Done(Error(OneOrMoreOf(e)), q, err) else Done(Out(Folded(f, vs)), q, Merged([err, e]))
    case Count(_, f, n) =>
      if |vs| == n then Done(Out(Folded(f, vs)), q, Merged([err, e]))
      else Done(Error(TimesOf(n, e)), if bt >= 1 then pos else q, err)
  }

  function Eval(g: Grammar, s: seq<Byte>, fuel: nat, p: Ptr, bt: int, pos: nat, err: Err): (o: Outcome)
    requires pos <= |s|
    ensures o.Done? ==> pos <= o.pos <= |s|
    decreases fuel, 0, 0
  {
    if fuel == 0 || p >= |g| then OutOfFuel
    else if IsLeaf(g[p]) then Leaf(s, g[p], bt, pos, err)
    else if IsWrapper(g[p]) then
      match Eval(g, s, fuel - 1, g[p].x, LevelBelow(g[p], bt), pos, err)
      case OutOfFuel => OutOfFuel
      case Done(r, q, e1) => Wrap(s, g[p], bt, pos, r, q, e1)
    else if IsRepeat(g[p]) then
      match Repeat(g, s, fuel - 1, g[p].x, bt, pos, err, [])
      case Unfinished => OutOfFuel
      case Stopped(vs, e, q, e1) => Gather(g[p], bt, pos, vs, e, q, e1)
    else if g[p].Or? then
      if g[p].xs == [] then Done(Out(Null), pos, err)
      else Choose(g, s, fuel - 1, g[p].xs, 0, bt, pos, err, [])
    else InOrder(g, s, fuel - 1, g[p].xs, g[p].f, 0, bt, pos, pos, err, [])
  }

  /** Run `x` until it fails; `vs` are the outputs so far. */
  function Repeat(g: Grammar, s: seq<Byte>, fuel: nat, x: Ptr, bt: int, pos: nat, err: Err, vs: seq<Value>): (o: Rounds)
    requires pos <= |s|
    ensures o.Stopped? ==> pos <= o.pos <= |s|
    decreases fuel, 1, 0
  {
    match Eval(g, s, fuel, x, bt, pos, err)
    case OutOfFuel => Unfinished
    case Done(Error(e), q, e1) => Stopped(vs, e, q, e1)
    case Done(Out(v), q, e1) =>
      if fuel == 0 then Unfinished else Repeat(g, s, fuel - 1, x, bt, q, e1, vs + [v])
  }

  /** Ordered choice from alternative `k` on; `es` are the errors of the alternatives before it. */
  function Choose(g: Grammar, s: seq<Byte>, fuel: nat, xs: seq<Ptr>, k: nat, bt: int, pos: nat, err: Err,
                  es: seq<Err>): (o: Outcome)
    requires pos <= |s| && k <= |xs|
    ensures o.Done? ==> pos <= o.pos <= |s|
    decreases fuel, 1, |xs| - k
  {
    if k == |xs| then Done(Error(Merged(es)), pos, err)
    else
      match Eval(g, s, fuel, xs[k], bt, pos, err)
      case OutOfFuel => OutOfFuel
      case Done(Out(v), q, e1) => Done(Out(v), q, MergeAll(e1, es))
      case Done(Error(e), q, e1) => Choose(g, s, fuel, xs, k + 1, bt, q, e1, es + [e])
  }

  /** Sequence from part `k` on; `start` is where the sequence began, `vs` the outputs before `k`. */
  function InOrder(g: Grammar, s: seq<Byte>, fuel: nat, xs: seq<Ptr>, f: nat, k: nat, bt: int, start: nat, pos: nat,
                   err: Err, vs: seq<Value>): (o: Outcome)
    requires start <= pos <= |s| && k <= |xs|
    ensures o.Done? ==> start <= o.pos <= |s|
    decreases fuel, 1, |xs| - k
  {
    if k == |xs| then Done(Out(Folded(f, vs)), pos, err)
    else
      match Eval(g, s, fuel, xs[k], bt, pos, err)
      case OutOfFuel => OutOfFuel
      case Done(Out(v), q, e1) => InOrder(g, s, fuel, xs, f, k + 1, bt, start, q, e1, vs + [v])
      case Done(Error(e), q, e1) => Done(Error(e), if bt >= 1 then start else q, e1)
  }

  // ----- the fuel is immaterial -----

  lemma {:induction false} EvalMono(g: Grammar, s: seq<Byte>, fuel: nat, more: nat, p: Ptr, bt: int, pos: nat, err: Err)
    requires pos <= |s| && fuel <= more
    requires Eval(g, s, fuel, p, bt, pos, err).Done?
    ensures Eval(g, s, more, p, bt, pos, err) == Eval(g, s, fuel, p, bt, pos, err)
    decreases fuel, 0, 0
  {
    hide Leaf, Wrap, Gather, Repeat, Choose, InOrder;
    if IsWrapper(g[p]) {
      EvalMono(g, s, fuel - 1, more - 1, g[p].x, LevelBelow(g[p], bt), pos, err);
    } else if IsRepeat(g[p]) {
      RepeatMono(g, s, fuel - 1, more - 1, g[p].x, bt, pos, err, []);
    } else if g[p].Or? {
      if g[p].xs != [] {
        ChooseMono(g, s, fuel - 1, more - 1, g[p].xs, 0, bt, pos, err, []);
      }
    } else if g[p].And? {
      InOrderMono(g, s, fuel - 1, more - 1, g[p].xs, g[p].f, 0, bt, pos, pos, err, []);
    }
  }

  lemma {:induction false} RepeatMono(g: Grammar, s: seq<Byte>, fuel: nat, more: nat, x: Ptr, bt: int, pos: nat,
                                      err: Err, vs: seq<Value>)
    requires pos <= |s| && fuel <= more
    requires Repeat(g, s, fuel, x, bt, pos, err, vs).Stopped?
    ensures Repeat(g, s, more, x, bt, pos, err, vs) == Repeat(g, s, fuel, x, bt, pos, err, vs)
    decreases fuel, 1, 0
  {
    var o := Eval(g, s, fuel, x, bt, pos, err);
    EvalMono(g, s, fuel, more, x, bt, pos, err);
    if o.r.Out? {
      RepeatMono(g, s, fuel - 1, more - 1, x, bt, o.pos, o.err, vs + [o.r.v]);
    }
  }

  lemma {:induction false} ChooseMono(g: Grammar, s: seq<Byte>, fuel: nat, more: nat, xs: seq<Ptr>, k: nat, bt: int,
                                      pos: nat, err: Err, es: seq<Err>)
    requires pos <= |s| && k <= |xs| && fuel <= more
    requires Choose(g, s, fuel, xs, k, bt, pos, err, es).Done?
    ensures Choose(g, s, more, xs, k, bt, pos, err, es) == Choose(g, s, fuel, xs, k, bt, pos, err, es)
    decreases fuel, 1, |xs| - k
  {
    if k < |xs| {
      var o := Eval(g, s, fuel, xs[k], bt, pos, err);
      EvalMono(g, s, fuel, more, xs[k], bt, pos, err);
      if o.r.Error? {
        ChooseMono(g, s, fuel, more, xs, k + 1, bt, o.pos, o.err, es + [o.r.e]);
      }
    }
  }

  lemma {:induction false} InOrderMono(g: Grammar, s: seq<Byte>, fuel: nat, more: nat, xs: seq<Ptr>, f: nat, k: nat,
                                       bt: int, start: nat, pos: nat, err: Err, vs: seq<Value>)
    requires start <= pos <= |s| && k <= |xs| && fuel <= more
    requires InOrder(g, s, fuel, xs, f, k, bt, start, pos, err, vs).Done?
    ensures InOrder(g, s, more, xs, f, k, bt, start, pos, err, vs) ==
            InOrder(g, s, fuel, xs, f, k, bt, start, pos, err, vs)
    decreases fuel, 1, |xs| - k
  {
    if k < |xs| {
      var o := Eval(g, s, fuel, xs[k], bt, pos, err);
      EvalMono(g, s, fuel, more, xs[k], bt, pos, err);
      if o.r.Out? {
        InOrderMono(g, s, fuel, more, xs, f, k + 1, bt, start, o.pos, o.err, vs + [o.r.v]);
      }
    }
  }

  // ----- a failing parser puts the position back -----

  /** The parsers that fail where the parser below them failed; all others put the position back. */
  predicate HandsOn(p: Parser) {
    p.Expect? || p.Apply? || p.ApplyTo? || p.Many1? || p.Or?
  }

  /** No predictive node can be reached through nodes that hand the position of a failure on. */
  ghost predicate Shielded(g: Grammar, ps: set<Ptr>) {
    forall p :: p in ps && p < |g| ==> !g[p].Predict? && (HandsOn(g[p]) ==> Children(g[p]) <= ps)
  }

  lemma {:induction false} FailureRestores(g: Grammar, s: seq<Byte>, fuel: nat, p: Ptr, bt: int, pos: nat, err: Err,
                                           ps: set<Ptr>)
    requires pos <= |s| && bt >= 1 && Shielded(g, ps) && p in ps
    ensures var o := Eval(g, s, fuel, p, bt, pos, err);
            o.Done? && o.r.Error? ==> o.pos == pos
    decreases fuel, 0, 0
  {
    hide Leaf, Repeat, Choose, InOrder, StateAt;
    if fuel > 0 && p < |g| {
      if IsWrapper(g[p]) && HandsOn(g[p]) {
        assert g[p].x in Children(g[p]);
        FailureRestores(g, s, fuel - 1, g[p].x, bt, pos, err, ps);
      } else if g[p].Many1? {
        assert g[p].x in Children(g[p]);
        FirstRoundRestores(g, s, fuel - 1, g[p].x, bt, pos, err, [], ps);
      } else if g[p].Or? && g[p].xs != [] {
        assert forall k :: 0 <= k < |g[p].xs| ==> g[p].xs[k] in Children(g[p]);
        ChooseRestores(g, s, fuel - 1, g[p].xs, 0, bt, pos, err, [], ps);
      } else if g[p].And? {
        InOrderRestores(g, s, fuel - 1, g[p].xs, g[p].f, 0, bt, pos, pos, err, []);
      }
    }
  }

  lemma {:induction false} FirstRoundRestores(g: Grammar, s: seq<Byte>, fuel: nat, x: Ptr, bt: int, pos: nat, err: Err,
                                              vs: seq<Value>, ps: set<Ptr>)
    requires pos <= |s| && bt >= 1 && Shielded(g, ps) && x in ps
    ensures var o := Repeat(g, s, fuel, x, bt, pos, err, vs);
            o.Stopped? ==> |vs| <= |o.vs| && (o.vs == vs ==> o.pos == pos)
    decreases fuel, 1, 0
  {
    FailureRestores(g, s, fuel, x, bt, pos, err, ps);
    var o := Eval(g, s, fuel, x, bt, pos, err);
    if o.Done? && o.r.Out? && fuel > 0 {
      FirstRoundRestores(g, s, fuel - 1, x, bt, o.pos, o.err, vs + [o.r.v], ps);
    }
  }

  lemma {:induction false} ChooseRestores(g: Grammar, s: seq<Byte>, fuel: nat, xs: seq<Ptr>, k: nat, bt: int, pos: nat,
                                          err: Err, es: seq<Err>, ps: set<Ptr>)
    requires pos <= |s| && k <= |xs| && bt >= 1 && Shielded(g, ps) && forall i :: 0 <= i < |xs| ==> xs[i] in ps
    ensures var o := Choose(g, s, fuel, xs, k, bt, pos, err, es);
            o.Done? && o.r.Error? ==> o.pos == pos
    decreases fuel, 1, |xs| - k
  {
    if k < |xs| {
      FailureRestores(g, s, fuel, xs[k], bt, pos, err, ps);
      var o := Eval(g, s, fuel, xs[k], bt, pos, err);
      if o.Done? && o.r.Error? {
        ChooseRestores(g, s, fuel, xs, k + 1, bt, pos, o.err, es + [o.r.e], ps);
      }
    }
  }

  /** A sequence that fails with backtracking on is back at its start, predictive parts or not. */
  lemma {:induction false} InOrderRestores(g: Grammar, s: seq<Byte>, fuel: nat, xs: seq<Ptr>, f: nat, k: nat, bt: int,
                                           start: nat, pos: nat, err: Err, vs: seq<Value>)
    requires start <= pos <= |s| && k <= |xs| && bt >= 1
    ensures var o := InOrder(g, s, fuel, xs, f, k, bt, start, pos, err, vs);
            o.Done? && o.r.Error? ==> o.pos == start
    decreases |xs| - k
  {
    if k < |xs| {
      var o := Eval(g, s, fuel, xs[k], bt, pos, err);
      if o.Done? && o.r.Out? {
        InOrderRestores(g, s, fuel, xs, f, k + 1, bt, start, o.pos, o.err, vs + [o.r.v]);
      }
    }
  }

  /** Without the restriction it is false: a predictive sequence keeps what it read before it failed. */
  lemma PredictDoesNotRestore()
    ensures var g := [Predict(1), And([2, 3], 0), Single(1), Single(2)];
            var o := Eval(g, [1, 1], 5, 0, 1, 0, Merged([]));
            o.Done? && o.r.Error? && o.pos == 1
  {
  }

  // ----- a repetition whose body never fails has no outcome -----

  lemma {:induction false} RepeatOfUnfailing(g: Grammar, s: seq<Byte>, fuel: nat, x: Ptr, bt: int, pos: nat, err: Err,
                                             vs: seq<Value>)
    requires pos <= |s|
    requires forall n: nat, q: nat, e: Err :: q <= |s| && Eval(g, s, n, x, bt, q, e).Done? ==>
               Eval(g, s, n, x, bt, q, e).r.Out?
    ensures Repeat(g, s, fuel, x, bt, pos, err, vs).Unfinished?
    decreases fuel
  {
    var o := Eval(g, s, fuel, x, bt, pos, err);
    if o.Done? && fuel > 0 {
      RepeatOfUnfailing(g, s, fuel - 1, x, bt, o.pos, o.err, vs + [o.r.v]);
    }
  }

  // ----- counting is greedy -----

  datatype Progress = Short | Reached(pos: nat, err: Err)

  /** Where `n` successes of `x` in a row lead, if it has them. */
  function Times(g: Grammar, s: seq<Byte>, fuel: nat, x: Ptr, bt: int, pos: nat, err: Err, n: nat): (o: Progress)
    requires pos <= |s|
    ensures o.Reached? ==> pos <= o.pos <= |s|
    decreases n
  {
    if n == 0 then Reached(pos, err)
    else
      var o := Eval(g, s, fuel, x, bt, pos, err);
      if o.Done? && o.r.Out? then Times(g, s, fuel, x, bt, o.pos, o.err, n - 1) else Short
  }

  /** `x` succeeds `n` times in a row and then fails. */
  predicate FailsAfter(g: Grammar, s: seq<Byte>, fuel: nat, x: Ptr, bt: int, pos: nat, err: Err, n: int)
    requires pos <= |s|
  {
    && n >= 0
    && var t := Times(g, s, fuel, x, bt, pos, err, n);
    && t.Reached?
    && var o := Eval(g, s, fuel, x, bt, t.pos, t.err);
    && o.Done? && o.r.Error?
  }

  /** The rounds of a repetition are as many as its parser has successes before its first failure. */
  lemma {:induction false} RepeatCounts(g: Grammar, s: seq<Byte>, fuel: nat, more: nat, x: Ptr, bt: int, pos: nat,
                                        err: Err, vs: seq<Value>, n: nat)
    requires pos <= |s| && fuel <= more && Repeat(g, s, fuel, x, bt, pos, err, vs).Stopped?
    ensures var o := Repeat(g, s, fuel, x, bt, pos, err, vs);
            && |vs| <= |o.vs|
            && (FailsAfter(g, s, more, x, bt, pos, err, n) <==> |o.vs| == |vs| + n)
            && (|o.vs| == |vs| + n ==>
                var t := Times(g, s, more, x, bt, pos, err, n);
                Eval(g, s, more, x, bt, t.pos, t.err) == Done(Error(o.e), o.pos, o.err))
    decreases fuel
  {
    var o := Eval(g, s, fuel, x, bt, pos, err);
    EvalMono(g, s, fuel, more, x, bt, pos, err);
    if o.r.Out? {
      RepeatCounts(g, s, fuel - 1, more, x, bt, o.pos, o.err, vs + [o.r.v], if n > 0 then n - 1 else 0);
    }
  }

  /**
    A count runs its parser as often as it succeeds and only then compares: it succeeds exactly if
    the parser succeeds `n` times in a row and then fails, not if it succeeds at least that often,
    and it stops where that failure stopped.  A failing count is back at its start.
   */
  lemma CountIsGreedy(g: Grammar, s: seq<Byte>, fuel: nat, p: Ptr, bt: int, pos: nat, err: Err)
    requires p < |g| && g[p].Count? && pos <= |s| && Eval(g, s, fuel, p, bt, pos, err).Done?
    ensures var o, x, n := Eval(g, s, fuel, p, bt, pos, err), g[p].x, g[p].n;
            && (o.r.Out? <==> FailsAfter(g, s, fuel, x, bt, pos, err, n))
            && (o.r.Out? ==> var t := Times(g, s, fuel, x, bt, pos, err, n);
                             o.pos == Eval(g, s, fuel, x, bt, t.pos, t.err).pos)
            && (o.r.Error? && bt >= 1 ==> o.pos == pos)
  {
    var n := g[p].n;
    RepeatCounts(g, s, fuel - 1, fuel, g[p].x, bt, pos, err, [], if n >= 0 then n else 0);
  }

  lemma {:induction false} RepeatAny(g: Grammar, s: seq<Byte>, fuel: nat, x: Ptr, bt: int, pos: nat, err: Err,
                                     vs: seq<Value>)
    requires x < |g| && g[x] == Any && pos <= |s| && fuel > |s| - pos
    ensures var o := Repeat(g, s, fuel, x, bt, pos, err, vs);
            o.Stopped? && |o.vs| == |vs| + |s| - pos && o.pos == |s|
    decreases |s| - pos
  {
    if pos < |s| {
      RepeatAny(g, s, fuel - 1, x, bt, pos + 1, err, vs + [Chars([s[pos]])]);
    }
  }

  /** For characters: `n` of them are counted exactly if the rest of the text has `n`. */
  lemma CountOfAny(g: Grammar, s: seq<Byte>, fuel: nat, p: Ptr, x: Ptr, f: nat, n: int, bt: int, pos: nat, err: Err)
    requires p < |g| && x < |g| && g[p] == Count(x, f, n) && g[x] == Any && pos <= |s| && fuel > |s| - pos + 1
    ensures var o := Eval(g, s, fuel, p, bt, pos, err);
            o.Done? && (o.r.Out? <==> |s| - pos == n)
  {
    RepeatAny(g, s, fuel - 1, x, bt, pos, err, []);
  }

  // ----- the character classes -----

  /** The bytes from `lo` to `hi`. */
  function BytesBetween(lo: Byte, hi: Byte): (cs: seq<Byte>)
    ensures forall b :: b in cs <==> lo <= b <= hi
    decreases hi as int - lo as int
  {
    if lo > hi then []
    else if lo == hi then [lo]
    else [lo] + BytesBetween(lo + 1, hi)
  }

  /** A parser at a position takes the character there. */
  predicate TakesOne(g: Grammar, s: seq<Byte>, fuel: nat, p: Ptr, bt: int, pos: nat, err: Err)
    requires pos < |s|
  {
    Eval(g, s, fuel, p, bt, pos, err) == Done(Out(Chars([s[pos]])), pos + 1, err)
  }

  /** A parser fails and leaves the position alone. */
  predicate TakesNone(g: Grammar, s: seq<Byte>, fuel: nat, p: Ptr, bt: int, pos: nat, err: Err)
    requires pos <= |s|
  {
    var o := Eval(g, s, fuel, p, bt, pos, err);
    o.Done? && o.r.Error? && o.pos == pos
  }

  /** A list of characters and its complement: one of the two takes the character, the list if it is in it. */
  lemma OneOfOrNoneOf(g: Grammar, s: seq<Byte>, fuel: nat, p: Ptr, q: Ptr, cs: seq<Byte>, bt: int, pos: nat, err: Err)
    requires p < |g| && q < |g| && g[p] == OneOf(cs) && g[q] == NoneOf(cs) && fuel > 0 && pos < |s|
    ensures (exists k :: 0 <= k < |cs| && cs[k] == s[pos]) ==>
              TakesOne(g, s, fuel, p, bt, pos, err) && TakesNone(g, s, fuel, q, bt, pos, err)
    ensures (forall k :: 0 <= k < |cs| ==> cs[k] != s[pos]) ==>
              TakesNone(g, s, fuel, p, bt, pos, err) && TakesOne(g, s, fuel, q, bt, pos, err)
  {
  }

  /** A single character and a range are the lists of their characters. */
  lemma ClassesAreLists(g: Grammar, s: seq<Byte>, fuel: nat, p: Ptr, q: Ptr, bt: int, pos: nat, err: Err)
    requires p < |g| && q < |g| && fuel > 0 && pos <= |s|
    requires (g[p].Single? && g[q] == OneOf([g[p].c])) || (g[p].Range? && g[q] == OneOf(BytesBetween(g[p].lo, g[p].hi)))
    ensures Eval(g, s, fuel, p, bt, pos, err) == Eval(g, s, fuel, q, bt, pos, err)
  {
  }

  /** A parser for any character takes all, one for a condition those that meet it, and at the end none is left. */
  lemma AnyAndSatisfy(g: Grammar, s: seq<Byte>, fuel: nat, p: Ptr, bt: int, pos: nat, err: Err)
    requires p < |g| && fuel > 0 && pos <= |s| && IsCharParser(g[p])
    ensures pos == |s| ==> TakesNone(g, s, fuel, p, bt, pos, err)
    ensures pos < |s| && g[p].Any? ==> TakesOne(g, s, fuel, p, bt, pos, err)
    ensures pos < |s| && g[p].Satisfy? && g[p].cond(s[pos]) ==> TakesOne(g, s, fuel, p, bt, pos, err)
    ensures pos < |s| && g[p].Satisfy? && !g[p].cond(s[pos]) ==> TakesNone(g, s, fuel, p, bt, pos, err)
  {
  }
}
