/**
  What calls of the builtins evaluate to, stated on whole expressions: the results that the
  interpreter's user sees, without a look at how the builtins compute them.
 */
module LispyLaws {
  import opened Lispy

  function Call(f: string, args: seq<LVal>): LVal {
    Sexpr([Sym(f)] + args)
  }

  /** Arguments that evaluate to themselves, at least one and none of them an error. */
  predicate Settled(args: seq<LVal>) {
    args != [] && forall i :: 0 <= i < |args| ==> IsValue(args[i]) && !args[i].Err?
  }

  lemma ValueStays(v: LVal)
    requires IsValue(v)
    ensures Eval(v) == v
  {
  }

  lemma {:induction false} ValuesStay(vs: seq<LVal>)
    requires forall i :: 0 <= i < |vs| ==> IsValue(vs[i])
    ensures EvalAll(vs) == vs
  {
    hide Eval;
    if vs != [] {
      ValueStays(vs[0]);
      ValuesStay(vs[1..]);
    }
  }

  /** A call on settled arguments is the builtin on them. */
  lemma CallIsBuiltin(f: string, args: seq<LVal>)
    requires Settled(args)
    ensures Eval(Call(f, args)) == Builtin(args, f)
  {
    hide Builtin, EvalAll;
    var cells := [Sym(f)] + args;
    assert cells[1..] == args;
    assert forall i :: 0 < i < |cells| ==> cells[i] == args[i - 1];
    ValuesStay(cells);
    assert !HasError(cells);
  }

  // ----- expressions without a call -----

  /** Brackets around one expression change nothing, and around none they stay. */
  lemma FewCells(v: LVal)
    ensures Eval(Sexpr([v])) == Eval(v) && Eval(Sexpr([])) == Sexpr([])
  {
    hide Builtin;
    assert [v][1..] == [];
    var r := Eval(v);
    assert EvalAll([v]) == [r];
    if r.Err? {
      assert HasError([r]) && FirstError([r]) == 0;
    }
  }

  /** Two or more cells call their first one, which must be a symbol. */
  lemma NoSymbolNoCall(vs: seq<LVal>)
    requires |vs| >= 2 && Settled(vs) && !vs[0].Sym?
    ensures Eval(Sexpr(vs)) == Err("S-expression Does not start with symbol.")
  {
    ValuesStay(vs);
    assert !HasError(vs);
  }

  /** The interpreter looks a name up as a part of this text. */
  predicate PartOfOperators(f: string) {
    exists i, j :: 0 <= i <= j <= 4 && "+-/*"[i..j] == f
  }

  lemma OperatorsAreParts(f: string)
    ensures IsOperator(f) <==> PartOfOperators(f)
  {
    var text := "+-/*";
    assert OPERATORS == text;
    if i :| 0 <= i <= 4 - |f| && OPERATORS[i..][..|f|] == f {
      assert text[i..i + |f|] == OPERATORS[i..][..|f|];
    }
    if i, j :| 0 <= i <= j <= 4 && text[i..j] == f {
      assert OPERATORS[i..][..|f|] == text[i..j];
    }
  }

  lemma UnknownCall(f: string, args: seq<LVal>)
    requires Settled(args) && f !in {"list", "head", "tail", "join", "eval"} && !PartOfOperators(f)
    ensures Eval(Call(f, args)) == Err("Unknown Function!")
  {
    hide Eval;
    CallIsBuiltin(f, args);
    OperatorsAreParts(f);
  }

  // ----- lists -----

  lemma ListCall(args: seq<LVal>)
    requires Settled(args)
    ensures Eval(Call("list", args)) == Qexpr(args)
  {
    CallIsBuiltin("list", args);
  }

  lemma HeadCall(xs: seq<LVal>)
    requires xs != []
    ensures Eval(Call("head", [Qexpr(xs)])) == Qexpr([xs[0]])
  {
    CallIsBuiltin("head", [Qexpr(xs)]);
    assert xs[..1] == [xs[0]];
  }

  lemma TailCall(xs: seq<LVal>)
    requires xs != []
    ensures Eval(Call("tail", [Qexpr(xs)])) == Qexpr(xs[1..])
  {
    CallIsBuiltin("tail", [Qexpr(xs)]);
  }

  /** Head, tail and eval insist on one list, head and tail on one that is not empty. */
  lemma ListCallErrors(args: seq<LVal>)
    requires Settled(args)
    ensures |args| != 1 ==>
              && Eval(Call("head", args)) == Err("Function 'head' passed too many arguments.")
              && Eval(Call("tail", args)) == Err("Function 'tail' passed too many arguments.")
              && Eval(Call("eval", args)) == Err("Function 'eval' passed too many arguments.")
    ensures |args| == 1 && !args[0].Qexpr? ==>
              && Eval(Call("head", args)) == Err("Function 'head' passed incorrect type.")
              && Eval(Call("tail", args)) == Err("Function 'tail' passed incorrect type.")
              && Eval(Call("eval", args)) == Err("Function 'eval' passed incorrect type.")
    ensures args == [Qexpr([])] ==>
              && Eval(Call("head", args)) == Err("Function 'head' passed {}.")
              && Eval(Call("tail", args)) == Err("Function 'tail' passed {}.")
    ensures (exists i :: 0 <= i < |args| && !args[i].Qexpr?) ==>
              Eval(Call("join", args)) == Err("Function 'join' passed incorrect type.")
  {
    hide Eval;
    CallIsBuiltin("head", args);
    CallIsBuiltin("tail", args);
    CallIsBuiltin("eval", args);
    CallIsBuiltin("join", args);
  }

  function Quoted(xss: seq<seq<LVal>>): (qs: seq<LVal>)
    ensures |qs| == |xss| && forall i :: 0 <= i < |qs| ==> qs[i] == Qexpr(xss[i])
  {
    seq(|xss|, i requires 0 <= i < |xss| => Qexpr(xss[i]))
  }

  function Flatten(xss: seq<seq<LVal>>): seq<LVal>
    decreases |xss|
  {
    if xss == [] then [] else Flatten(xss[..|xss| - 1]) + xss[|xss| - 1]
  }

  lemma {:induction false} ConcatFlattens(xss: seq<seq<LVal>>)
    ensures Concat(Quoted(xss)) == Flatten(xss)
    decreases |xss|
  {
    hide SizeAll;
    if xss != [] {
      var before, last := xss[..|xss| - 1], xss[|xss| - 1];
      ConcatFlattens(before);
      assert Quoted(xss) == Quoted(before) + [Qexpr(last)];
      ConcatSnoc(Quoted(before), last);
    }
  }

  lemma {:induction false} ConcatSnoc(qs: seq<LVal>, xs: seq<LVal>)
    requires AllQexprs(qs)
    ensures Concat(qs + [Qexpr(xs)]) == Concat(qs) + xs
  {
    hide SizeAll;
    if qs == [] {
      assert qs + [Qexpr(xs)] == [Qexpr(xs)] && [Qexpr(xs)][1..] == [];
      assert Concat([Qexpr(xs)]) == xs + [];
    } else {
      ConcatSnoc(qs[1..], xs);
      assert (qs + [Qexpr(xs)])[1..] == qs[1..] + [Qexpr(xs)];
      assert qs[0].cell + (Concat(qs[1..]) + xs) == Concat(qs) + xs;
    }
  }

  lemma JoinCall(xss: seq<seq<LVal>>)
    requires xss != []
    ensures Eval(Call("join", Quoted(xss))) == Qexpr(Flatten(xss))
  {
    hide Eval;
    CallIsBuiltin("join", Quoted(xss));
    ConcatFlattens(xss);
  }

  // ----- arithmetic -----

  lemma OperatorCall(op: string, args: seq<LVal>)
    requires Settled(args) && op in {"+", "-", "*", "/"}
    ensures Eval(Call(op, args)) == Op(args, op)
  {
    hide Eval, Op;
    CallIsBuiltin(op, args);
    assert OPERATORS[0..][..1] == "+" && OPERATORS[1..][..1] == "-";
    assert OPERATORS[2..][..1] == "/" && OPERATORS[3..][..1] == "*";
  }

  lemma NumsSettled(x: int, ys: seq<LVal>)
    requires AllNums(ys)
    ensures var args := [Num(x)] + ys; Settled(args) && AllNums(args) && args[0] == Num(x) && args[1..] == ys
  {
    var args := [Num(x)] + ys;
    forall i | 0 < i < |args| ensures args[i].Num? { assert args[i] == ys[i - 1]; }
  }

  lemma NonNumberCall(op: string, args: seq<LVal>)
    requires Settled(args) && op in {"+", "-", "*", "/"} && exists i :: 0 <= i < |args| && !args[i].Num?
    ensures Eval(Call(op, args)) == Err("Cannot operate on non-number!")
  {
    hide Eval;
    OperatorCall(op, args);
  }

  /** One number: minus negates it, the others leave it. */
  lemma UnaryCall(x: int)
    ensures Eval(Call("-", [Num(x)])) == Num(-x)
    ensures Eval(Call("+", [Num(x)])) == Eval(Call("*", [Num(x)])) == Eval(Call("/", [Num(x)])) == Num(x)
  {
    hide Eval;
    OperatorCall("-", [Num(x)]);
    OperatorCall("+", [Num(x)]);
    OperatorCall("*", [Num(x)]);
    OperatorCall("/", [Num(x)]);
    assert [Num(x)][1..] == [];
  }

  lemma SumCall(x: int, ys: seq<LVal>)
    requires AllNums(ys) && ys != []
    ensures Eval(Call("+", [Num(x)] + ys)) == Num(x + Sum(ys))
    ensures Eval(Call("-", [Num(x)] + ys)) == Num(x - Sum(ys))
    ensures Eval(Call("*", [Num(x)] + ys)) == Num(x * Product(ys))
  {
    hide Eval, Fold, Sum, Product;
    var args := [Num(x)] + ys;
    NumsSettled(x, ys);
    OperatorCall("+", args);
    OperatorCall("-", args);
    OperatorCall("*", args);
    SumMeaning(x, ys);
    ProductMeaning(x, ys);
  }

  /** `q` is `p / y` rounded towards zero. */
  predicate IsTruncated(p: int, y: int, q: int) {
    var r := p - q * y;
    Abs(r) < Abs(y) && (p >= 0 ==> r >= 0) && (p <= 0 ==> r <= 0)
  }

  /** Divisors work from the left: one more divides what came out so far, unless that is an error already. */
  lemma DivisionCall(x: int, ys: seq<LVal>, y: int)
    requires AllNums(ys)
    ensures var before, after := Eval(Call("/", [Num(x)] + ys)), Eval(Call("/", [Num(x)] + ys + [Num(y)]));
            && (before == Err("Division By Zero.") || before.Num?)
            && (before.Err? ==> after == before)
            && (before.Num? && y == 0 ==> after == Err("Division By Zero."))
            && (before.Num? && y != 0 ==> after.Num? && IsTruncated(before.num, y, after.num))
  {
    hide Eval, Fold;
    NumsSettled(x, ys);
    NumsSettled(x, ys + [Num(y)]);
    assert [Num(x)] + ys + [Num(y)] == [Num(x)] + (ys + [Num(y)]);
    OperatorCall("/", [Num(x)] + ys);
    OperatorCall("/", [Num(x)] + (ys + [Num(y)]));
    FoldDivides(x, ys, y);
  }

  lemma {:induction false} FoldDivides(x: int, ys: seq<LVal>, y: int)
    requires AllNums(ys)
    ensures var before, after := Fold("/", x, ys), Fold("/", x, ys + [Num(y)]);
            && (before == Err("Division By Zero.") || before.Num?)
            && (before.Err? ==> after == before)
            && (before.Num? && y == 0 ==> after == Err("Division By Zero."))
            && (before.Num? && y != 0 ==> after.Num? && IsTruncated(before.num, y, after.num))
    decreases |ys|
  {
    hide Quotient, IsTruncated;
    if ys == [] {
      assert ys + [Num(y)] == [Num(y)] && [Num(y)][1..] == [];
      if y != 0 { QuotientTruncates(x, y); }
    } else {
      assert (ys + [Num(y)])[1..] == ys[1..] + [Num(y)] && (ys + [Num(y)])[0] == ys[0];
      if ys[0].num != 0 {
        FoldDivides(Quotient(x, ys[0].num), ys[1..], y);
      }
    }
  }

  lemma QuotientTruncates(x: int, y: int)
    requires y != 0
    ensures IsTruncated(x, y, Quotient(x, y))
  {
    QuotientMeaning(x, y);
  }

  /** There is only one such quotient. */
  lemma TruncatedOnce(p: int, y: int, q: int, q': int)
    requires y != 0 && IsTruncated(p, y, q) && IsTruncated(p, y, q')
    ensures q == q'
  {
    var d := q - q';
    MultipleIsFar(d, y);
    assert (p - q' * y) - (p - q * y) == d * y;
  }

  lemma MultipleIsFar(d: int, y: int)
    ensures d != 0 ==> Abs(d * y) >= Abs(y)
  {
    if d >= 1 {
      assert d * y == (d - 1) * y + y;
      assert y >= 0 ==> (d - 1) * y >= 0;
      assert y <= 0 ==> (d - 1) * y <= 0;
    } else if d <= -1 {
      assert d * y == (d + 1) * y - y;
      assert y >= 0 ==> (d + 1) * y <= 0;
      assert y <= 0 ==> (d + 1) * y >= 0;
    }
  }

  // ----- when the machine overflows -----

  /** The range of `long` on the usual 64-bit targets. */
  function Power(b: nat, e: nat): nat {
    if e == 0 then 1 else b * Power(b, e - 1)
  }

  lemma LongHasSixtyFourBits()
    ensures LONG_MAX + 1 == -LONG_MIN == Power(2, 63)
    ensures forall x :: InLong(x) <==> -(Power(2, 63) as int) <= x < Power(2, 63)
  {
    assert Power(2, 16) == 0x1_0000;
    PowerAdds(2, 16, 16);
    assert Power(2, 32) == 0x1_0000_0000;
    PowerAdds(2, 32, 16);
    assert Power(2, 48) == 0x1_0000_0000_0000;
    PowerAdds(2, 48, 15);
    assert Power(2, 15) == 0x8000;
  }

  lemma {:induction false} PowerAdds(b: nat, d: nat, e: nat)
    ensures Power(b, d + e) == Power(b, d) * Power(b, e)
  {
    if d > 0 {
      PowerAdds(b, d - 1, e);
      assert b * (Power(b, d - 1) * Power(b, e)) == (b * Power(b, d - 1)) * Power(b, e);
    }
  }

  datatype OpCall = OpCall(args: seq<LVal>, op: string)

  /** The arithmetic that evaluating `v` performs, in order. */
  function Calls(v: LVal): seq<OpCall>
    decreases Size(v), 0, 0
  {
    if v.Sexpr? then CallsAll(v.cell) + CallsApply(EvalAll(v.cell)) else []
  }

  function CallsAll(vs: seq<LVal>): seq<OpCall>
    decreases SizeAll(vs), 2, |vs|
  {
    if vs == [] then [] else Calls(vs[0]) + CallsAll(vs[1..])
  }

  /** The arithmetic of applying the first of the evaluated cells to the others. */
  function CallsApply(vs: seq<LVal>): seq<OpCall>
    requires forall i :: 0 <= i < |vs| ==> IsValue(vs[i])
    decreases SizeAll(vs), 1, 0
  {
    if HasError(vs) || |vs| < 2 || !vs[0].Sym? then []
    else
      var f, args := vs[0].sym, vs[1..];
      if f == "eval" && |args| == 1 && args[0].Qexpr? then
        SizeElement(vs, 1);
        SizeSplit(vs, 1);
        Calls(Sexpr(args[0].cell))
      else if f !in {"list", "head", "tail", "join", "eval"} && IsOperator(f) then [OpCall(args, f)]
      else []
  }

  predicate SomeOverflows(cs: seq<OpCall>) {
    exists i :: 0 <= i < |cs| && cs[i].args != [] && OpLong(cs[i].args, cs[i].op).Overflow?
  }

  lemma SomeOfBoth(cs: seq<OpCall>, ds: seq<OpCall>)
    ensures SomeOverflows(cs + ds) <==> SomeOverflows(cs) || SomeOverflows(ds)
  {
    hide OpLong;
    if i :| 0 <= i < |cs| && cs[i].args != [] && OpLong(cs[i].args, cs[i].op).Overflow? {
      assert (cs + ds)[i] == cs[i];
    }
    if i :| 0 <= i < |ds| && ds[i].args != [] && OpLong(ds[i].args, ds[i].op).Overflow? {
      assert (cs + ds)[|cs| + i] == ds[i];
    }
  }

  /** Evaluation leaves the range of `long` exactly if one of its arithmetic calls does. */
  lemma {:induction false} OverflowIff(v: LVal)
    ensures EvalLong(v).Overflow? <==> SomeOverflows(Calls(v))
    decreases Size(v), 0, 0
  {
    hide ApplyLong, CallsApply, EvalAllLong, CallsAll, SomeOverflows;
    if v.Sexpr? {
      AllOverflowIff(v.cell);
      SomeOfBoth(CallsAll(v.cell), CallsApply(EvalAll(v.cell)));
      if EvalAllLong(v.cell).Known? {
        ApplyOverflowIff(EvalAll(v.cell));
      }
    } else {
      NoneOverflow();
    }
  }

  lemma NoneOverflow()
    ensures !SomeOverflows([])
  {
  }

  lemma {:induction false} AllOverflowIff(vs: seq<LVal>)
    ensures EvalAllLong(vs).Overflow? <==> SomeOverflows(CallsAll(vs))
    decreases SizeAll(vs), 2, |vs|
  {
    hide EvalLong, Calls, SomeOverflows;
    if vs == [] {
      NoneOverflow();
    } else {
      OverflowIff(vs[0]);
      AllOverflowIff(vs[1..]);
      SomeOfBoth(Calls(vs[0]), CallsAll(vs[1..]));
    }
  }

  lemma {:induction false} ApplyOverflowIff(vs: seq<LVal>)
    requires forall i :: 0 <= i < |vs| ==> IsValue(vs[i])
    ensures ApplyLong(vs).Overflow? <==> SomeOverflows(CallsApply(vs))
    decreases SizeAll(vs), 1, 0
  {
    hide EvalLong, Calls, OpLong, Op, Builtin, Eval, IsOperator, FirstError;
    if !HasError(vs) && |vs| >= 2 && vs[0].Sym? {
      var args := vs[1..];
      if vs[0].sym == "eval" && |args| == 1 && args[0].Qexpr? {
        SizeElement(vs, 1);
        SizeSplit(vs, 1);
        OverflowIff(Sexpr(args[0].cell));
      } else if vs[0].sym !in {"list", "head", "tail", "join", "eval"} && IsOperator(vs[0].sym) {
        var cs := [OpCall(args, vs[0].sym)];
        assert cs[0] == OpCall(args, vs[0].sym);
      }
    }
  }

  lemma {:induction false} ValuesKnown(vs: seq<LVal>)
    requires forall i :: 0 <= i < |vs| ==> IsValue(vs[i])
    ensures EvalAllLong(vs) == Known(vs)
  {
    hide EvalLong, Eval;
    if vs != [] {
      ValueKnown(vs[0]);
      ValuesKnown(vs[1..]);
      assert vs == [vs[0]] + vs[1..];
    }
  }

  lemma ValueKnown(v: LVal)
    requires IsValue(v)
    ensures EvalLong(v) == Known(v)
  {
    hide BuiltinLong, Builtin;
    if v.Sexpr? {
      assert v == Sexpr([]) && EvalAllLong([]) == Known([]);
      assert ApplyLong([]) == Known(Apply([])) && Apply([]) == Sexpr([]);
    }
  }

  lemma LongCallIsBuiltin(f: string, args: seq<LVal>)
    requires Settled(args)
    ensures EvalLong(Call(f, args)) == BuiltinLong(args, f)
  {
    hide BuiltinLong, Builtin, EvalAllLong;
    var cells := [Sym(f)] + args;
    assert cells[1..] == args;
    assert forall i :: 0 < i < |cells| ==> cells[i] == args[i - 1];
    ValuesKnown(cells);
    assert !HasError(cells);
  }

  /** A call of an operator does its arithmetic, and evaluating a quoted list that of the list. */
  lemma LongCall(op: string, args: seq<LVal>, xs: seq<LVal>)
    requires Settled(args) && op in {"+", "-", "*", "/"}
    ensures EvalLong(Call(op, args)) == OpLong(args, op)
    ensures EvalLong(Call("eval", [Qexpr(xs)])) == EvalLong(Sexpr(xs))
  {
    hide OpLong, Op, EvalLong;
    LongCallIsBuiltin(op, args);
    LongCallIsBuiltin("eval", [Qexpr(xs)]);
    assert OPERATORS[0..][..1] == "+" && OPERATORS[1..][..1] == "-";
    assert OPERATORS[2..][..1] == "/" && OPERATORS[3..][..1] == "*";
  }

  /** An overflow in a cell is an overflow of the expression. */
  lemma LongNested(cells: seq<LVal>, i: nat)
    requires i < |cells| && EvalLong(cells[i]).Overflow?
    ensures EvalLong(Sexpr(cells)).Overflow?
  {
    OneOverflows(cells, i);
  }

  /** One call on numbers that fit overflows exactly if negating, or folding some operands, leaves the range. */
  lemma OpOverflowIff(x: int, ys: seq<LVal>, op: string)
    requires AllNums(ys) && InLong(x)
    ensures OpLong([Num(x)] + ys, op).Overflow? <==>
            if op == "-" && ys == [] then !InLong(-x) else exists k :: 0 <= k <= |ys| && LeavesLong(op, x, ys, k)
  {
    hide FoldLong, LeavesLong;
    NumsSettled(x, ys);
    FoldOverflowIff(op, x, ys);
  }

  /** The two ways in which a unary minus and a quotient of numbers that fit do not fit. */
  lemma OverflowsOfMinimum(x: int, y: int)
    requires InLong(x) && InLong(y)
    ensures OpLong([Num(x)], "-").Overflow? <==> x == LONG_MIN
    ensures y != 0 ==> (OpLong([Num(x), Num(y)], "/").Overflow? <==> x == LONG_MIN && y == -1)
  {
    hide Quotient;
    NumsSettled(x, []);
    assert [Num(x)] == [Num(x)] + [] && [Num(x), Num(y)][1..] == [Num(y)] && [Num(y)][1..] == [];
    if y != 0 {
      QuotientRange(x, y);
      assert FoldLong("/", x, [Num(y)]).Overflow? <==> !InLong(Quotient(x, y));
      assert OpLong([Num(x), Num(y)], "/") == FoldLong("/", x, [Num(y)]);
    }
  }

  lemma QuotientRange(x: int, y: int)
    requires InLong(x) && InLong(y) && y != 0
    ensures InLong(Quotient(x, y)) <==> !(x == LONG_MIN && y == -1)
  {
    if x == LONG_MIN && y == -1 {
      assert Quotient(x, y) == -LONG_MIN;
    } else {
      hide Quotient, IsTruncated;
      QuotientTruncates(x, y);
      TruncatedFits(x, y, Quotient(x, y));
    }
  }

  lemma TruncatedFits(x: int, y: int, q: int)
    requires InLong(x) && y != 0 && IsTruncated(x, y, q) && !(x == LONG_MIN && y == -1)
    ensures InLong(q)
  {
    hide IsTruncated;
    TruncatedNoLarger(x, y, q);
    if x == LONG_MIN {
      MinimumDivided(y, q);
    }
  }

  lemma TruncatedNoLarger(x: int, y: int, q: int)
    requires y != 0 && IsTruncated(x, y, q)
    ensures Abs(q) <= Abs(q * y) <= Abs(x) && (x <= 0 ==> q * y <= 0)
  {
    MultipleIsFar(y, q);
    MultipleIsFar(q, y);
    assert y * q == q * y;
    Near(x, y, q * y);
  }

  lemma Near(x: int, y: int, m: int)
    requires Abs(x - m) < Abs(y) && (x >= 0 ==> x - m >= 0) && (x <= 0 ==> x - m <= 0)
    requires m != 0 ==> Abs(m) >= Abs(y)
    ensures Abs(m) <= Abs(x) && (x <= 0 ==> m <= 0)
  {
  }

  lemma MinimumDivided(y: int, q: int)
    requires y != 0 && y != -1 && Abs(q * y) <= -LONG_MIN && q * y <= 0
    ensures q != -LONG_MIN
  {
  }
}
