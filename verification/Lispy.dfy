/**
  The values of the Lispy interpreter and their evaluation.  `eval` turns data back into code, so
  that evaluation ends at all is a size argument: no value is larger than what it came from.
 */
module Lispy {

  datatype LVal =
    | Num(num: int)
    | Err(msg: string)
    | Sym(sym: string)
    | Sexpr(cell: seq<LVal>)
    | Qexpr(cell: seq<LVal>)

  /** The number of nodes. */
  function Size(v: LVal): (n: nat)
    ensures n >= 1
  {
    if v.Sexpr? || v.Qexpr? then 1 + SizeAll(v.cell) else 1
  }

  function SizeAll(vs: seq<LVal>): (n: nat)
    ensures n >= |vs|
  {
    if vs == [] then 0 else Size(vs[0]) + SizeAll(vs[1..])
  }

  lemma {:induction false} SizeAppend(vs: seq<LVal>, ws: seq<LVal>)
    ensures SizeAll(vs + ws) == SizeAll(vs) + SizeAll(ws)
  {
    if vs == [] {
      assert vs + ws == ws;
    } else {
      assert (vs + ws)[1..] == vs[1..] + ws;
      SizeAppend(vs[1..], ws);
    }
  }

  lemma SizeSplit(vs: seq<LVal>, i: nat)
    requires i <= |vs|
    ensures SizeAll(vs) == SizeAll(vs[..i]) + SizeAll(vs[i..])
  {
    hide SizeAll, Size;
    SizeAppend(vs[..i], vs[i..]);
    assert vs == vs[..i] + vs[i..];
  }

  /** Part of a list is no larger than the list. */
  lemma SizePart(vs: seq<LVal>, i: nat, j: nat)
    requires i <= j <= |vs|
    ensures SizeAll(vs[i..j]) <= SizeAll(vs)
  {
    hide SizeAll, Size;
    SizeSplit(vs, j);
    SizeSplit(vs[..j], i);
    assert vs[..j][i..] == vs[i..j];
  }

  lemma SizeElement(vs: seq<LVal>, i: nat)
    requires i < |vs|
    ensures Size(vs[i]) <= SizeAll(vs)
  {
    SizePart(vs, i, i + 1);
    assert vs[i..i + 1] == [vs[i]];
  }

  /** Evaluation leaves these alone. */
  predicate IsValue(v: LVal) {
    v.Sexpr? ==> v.cell == []
  }

  // ----- arithmetic -----

  function Abs(a: int): nat {
    if a < 0 then -a else a
  }

  /** Division as in C: towards zero, so that what remains has the sign of `a`. */
  function Quotient(a: int, b: int): (q: int)
    requires b != 0
  {
    if a >= 0 then a / b else -((-a) / b)
  }

  lemma QuotientMeaning(a: int, b: int)
    requires b != 0
    ensures var r := a - Quotient(a, b) * b;
            Abs(r) < Abs(b) && (a >= 0 ==> r >= 0) && (a <= 0 ==> r <= 0)
  {
    hide Abs;
    if a == 0 {
      assert Quotient(0, b) == 0;
      Euclid(0, b);
      AbsOfNat(0);
    } else if a > 0 {
      Euclid(a, b);
      AbsOfNat(a - (a / b) * b);
    } else {
      var q := (-a) / b;
      Euclid(-a, b);
      NegatedProduct(q, b);
      AbsOfNat((-a) - q * b);
    }
  }

  lemma AbsOfNat(r: int)
    requires r >= 0
    ensures Abs(r) == r && Abs(-r) == r
  {
  }

  lemma Euclid(n: int, b: int)
    requires b != 0
    ensures 0 <= n - (n / b) * b < Abs(b)
  {
    assert n == (n / b) * b + n % b;
  }

  lemma NegatedProduct(q: int, b: int)
    ensures (-q) * b == -(q * b)
  {
  }

  predicate AllNums(vs: seq<LVal>) {
    forall i :: 0 <= i < |vs| ==> vs[i].Num?
  }

  predicate AllQexprs(vs: seq<LVal>) {
    forall i :: 0 <= i < |vs| ==> vs[i].Qexpr?
  }

  /** Fold the operator over the remaining numbers; a division by zero ends it. */
  function Fold(op: string, x: int, ys: seq<LVal>): (r: LVal)
    requires AllNums(ys)
    ensures r.Num? || r.Err?
    decreases |ys|
  {
    if ys == [] then Num(x)
    else
      var y, rest := ys[0].num, ys[1..];
      if op == "+" then Fold(op, x + y, rest)
      else if op == "-" then Fold(op, x - y, rest)
      else if op == "*" then Fold(op, x * y, rest)
      else if op == "/" then
        if y == 0 then Err("Division By Zero.") else Fold(op, Quotient(x, y), rest)
      else Fold(op, x, rest)
  }

  function Op(args: seq<LVal>, op: string): (r: LVal)
    requires args != []
    ensures r.Num? || r.Err?
  {
    if !AllNums(args) then Err("Cannot operate on non-number!")
    else if op == "-" && |args| == 1 then Num(-args[0].num)
    else Fold(op, args[0].num, args[1..])
  }

  // ----- list builtins -----

  function Head(args: seq<LVal>): (r: LVal)
    requires args != []
    ensures IsValue(r) && Size(r) <= SizeAll(args)
  {
    SizeElement(args, 0);
    if |args| != 1 then Err("Function 'head' passed too many arguments.")
    else if !args[0].Qexpr? then Err("Function 'head' passed incorrect type.")
    else if args[0].cell == [] then Err("Function 'head' passed {}.")
    else
      SizePart(args[0].cell, 0, 1);
      Qexpr(args[0].cell[..1])
  }

  function Tail(args: seq<LVal>): (r: LVal)
    requires args != []
    ensures IsValue(r) && Size(r) <= SizeAll(args)
  {
    SizeElement(args, 0);
    if |args| != 1 then Err("Function 'tail' passed too many arguments.")
    else if !args[0].Qexpr? then Err("Function 'tail' passed incorrect type.")
    else if args[0].cell == [] then Err("Function 'tail' passed {}.")
    else
      SizePart(args[0].cell, 1, |args[0].cell|);
      Qexpr(args[0].cell[1..])
  }

  function Concat(qs: seq<LVal>): (r: seq<LVal>)
    requires AllQexprs(qs)
    ensures SizeAll(r) + |qs| == SizeAll(qs)
  {
    if qs == [] then []
    else
      SizeAppend(qs[0].cell, Concat(qs[1..]));
      qs[0].cell + Concat(qs[1..])
  }

  function Join(args: seq<LVal>): (r: LVal)
    requires args != []
    ensures IsValue(r) && Size(r) <= SizeAll(args)
  {
    if !AllQexprs(args) then Err("Function 'join' passed incorrect type.") else Qexpr(Concat(args))
  }

  const OPERATORS: string := ['+', '-', '/', '*']

  /** Does `func` occur as a substring of the operators? */
  predicate IsOperator(func: string) {
    exists i :: 0 <= i <= |OPERATORS| - |func| && OPERATORS[i..][..|func|] == func
  }

  // ----- evaluation -----

  /** A builtin on evaluated arguments, of which there is at least one. */
  function Builtin(args: seq<LVal>, func: string): (r: LVal)
    requires args != [] && forall i :: 0 <= i < |args| ==> IsValue(args[i])
    ensures IsValue(r) && Size(r) <= 1 + SizeAll(args)
    decreases SizeAll(args), 1, 0
  {
    if func == "list" then Qexpr(args)
    else if func == "head" then Head(args)
    else if func == "tail" then Tail(args)
    else if func == "join" then Join(args)
    else if func == "eval" then
      if |args| != 1 then Err("Function 'eval' passed too many arguments.")
      else if !args[0].Qexpr? then Err("Function 'eval' passed incorrect type.")
      else
        SizeElement(args, 0);
        Eval(Sexpr(args[0].cell))
    else if IsOperator(func) then Op(args, func)
    else Err("Unknown Function!")
  }

  function EvalAll(vs: seq<LVal>): (rs: seq<LVal>)
    ensures |rs| == |vs| && SizeAll(rs) <= SizeAll(vs)
    ensures forall i :: 0 <= i < |rs| ==> IsValue(rs[i])
    decreases SizeAll(vs), 2, |vs|
  {
    if vs == [] then []
    else
      var r, rest := Eval(vs[0]), EvalAll(vs[1..]);
      assert ([r] + rest)[1..] == rest;
      [r] + rest
  }

  predicate HasError(vs: seq<LVal>) {
    exists i :: 0 <= i < |vs| && vs[i].Err?
  }

  function FirstError(vs: seq<LVal>): (k: nat)
    requires HasError(vs)
    ensures k < |vs| && vs[k].Err? && forall i :: 0 <= i < k ==> !vs[i].Err?
  {
    if vs[0].Err? then 0
    else
      assert HasError(vs[1..]) by {
        var i :| 0 <= i < |vs| && vs[i].Err?;
        assert vs[1..][i - 1].Err?;
      }
      1 + FirstError(vs[1..])
  }

  /** What becomes of an S-expression whose cells have been evaluated to `vs`. */
  function Apply(vs: seq<LVal>): (r: LVal)
    requires forall i :: 0 <= i < |vs| ==> IsValue(vs[i])
    ensures IsValue(r) && Size(r) <= 1 + SizeAll(vs)
    decreases SizeAll(vs), 1, 1
  {
    if HasError(vs) then vs[FirstError(vs)]
    else if vs == [] then Sexpr([])
    else if |vs| == 1 then SizeElement(vs, 0); vs[0]
    else if !vs[0].Sym? then Err("S-expression Does not start with symbol.")
    else Builtin(vs[1..], vs[0].sym)
  }

  /** Evaluation: total, never growing, and ending in a value. */
  function Eval(v: LVal): (r: LVal)
    ensures Size(r) <= Size(v)
    ensures IsValue(r)
    decreases Size(v), 0, 0
  {
    if v.Sexpr? then Apply(EvalAll(v.cell)) else v
  }

  // ----- machine arithmetic -----

  const LONG_MIN := -0x8000_0000_0000_0000
  const LONG_MAX := 0x7fff_ffff_ffff_ffff

  predicate InLong(x: int) {
    LONG_MIN <= x <= LONG_MAX
  }

  /** A result, or that a number left the range of `long` on the way: from there on C defines nothing. */
  datatype Checked<T> = Known(value: T) | Overflow

  /** One step of an operator. */
  function Combine(op: string, x: int, y: int): int
    requires op == "/" ==> y != 0
  {
    if op == "+" then x + y
    else if op == "-" then x - y
    else if op == "*" then x * y
    else if op == "/" then Quotient(x, y)
    else x
  }

  function FoldLong(op: string, x: int, ys: seq<LVal>): (r: Checked<LVal>)
    requires AllNums(ys)
    ensures r.Known? ==> r.value == Fold(op, x, ys)
    decreases |ys|
  {
    if ys == [] then Known(Num(x))
    else if op == "/" && ys[0].num == 0 then Known(Err("Division By Zero."))
    else if !InLong(Combine(op, x, ys[0].num)) then Overflow
    else FoldLong(op, Combine(op, x, ys[0].num), ys[1..])
  }

  function OpLong(args: seq<LVal>, op: string): (r: Checked<LVal>)
    requires args != []
    ensures r.Known? ==> r.value == Op(args, op)
  {
    if !AllNums(args) then Known(Err("Cannot operate on non-number!"))
    else if op == "-" && |args| == 1 then
      if InLong(-args[0].num) then Known(Num(-args[0].num)) else Overflow
    else FoldLong(op, args[0].num, args[1..])
  }

  function BuiltinLong(args: seq<LVal>, func: string): (r: Checked<LVal>)
    requires args != [] && forall i :: 0 <= i < |args| ==> IsValue(args[i])
    ensures r.Known? ==> r.value == Builtin(args, func)
    decreases SizeAll(args), 1, 0
  {
    if func == "eval" && |args| == 1 && args[0].Qexpr? then
      SizeElement(args, 0);
      EvalLong(Sexpr(args[0].cell))
    else if func !in {"list", "head", "tail", "join", "eval"} && IsOperator(func) then OpLong(args, func)
    else Known(Builtin(args, func))
  }

  function EvalAllLong(vs: seq<LVal>): (rs: Checked<seq<LVal>>)
    ensures rs.Known? ==> rs.value == EvalAll(vs)
    decreases SizeAll(vs), 2, |vs|
  {
    if vs == [] then Known([])
    else
      var r, rest := EvalLong(vs[0]), EvalAllLong(vs[1..]);
      if r.Known? && rest.Known? then Known([r.value] + rest.value) else Overflow
  }

  function ApplyLong(vs: seq<LVal>): (r: Checked<LVal>)
    requires forall i :: 0 <= i < |vs| ==> IsValue(vs[i])
    ensures r.Known? ==> r.value == Apply(vs)
    decreases SizeAll(vs), 1, 1
  {
    if !HasError(vs) && |vs| > 1 && vs[0].Sym? then BuiltinLong(vs[1..], vs[0].sym) else Known(Apply(vs))
  }

  /** Evaluation as the machine does it: while its numbers fit it is evaluation. */
  function EvalLong(v: LVal): (r: Checked<LVal>)
    ensures r.Known? ==> r.value == Eval(v)
    decreases Size(v), 0, 0
  {
    if !v.Sexpr? then Known(v)
    else
      var vs := EvalAllLong(v.cell);
      if vs.Known? then ApplyLong(vs.value) else Overflow
  }

  /** All numbers of a value fit. */
  predicate Fits(v: LVal)
    decreases v
  {
    match v
    case Num(n) => InLong(n)
    case Err(_) => true
    case Sym(_) => true
    case Sexpr(vs) => forall i :: 0 <= i < |vs| ==> Fits(vs[i])
    case Qexpr(vs) => forall i :: 0 <= i < |vs| ==> Fits(vs[i])
  }

  predicate AllFit(vs: seq<LVal>) {
    forall i :: 0 <= i < |vs| ==> Fits(vs[i])
  }

  /** Folding a prefix of the operands gives a number that does not fit. */
  predicate LeavesLong(op: string, x: int, ys: seq<LVal>, k: nat)
    requires AllNums(ys) && k <= |ys|
  {
    Fold(op, x, ys[..k]).Num? && !InLong(Fold(op, x, ys[..k]).num)
  }

  /** The machine overflows exactly if folding some of the operands gives a number that does not fit. */
  lemma {:induction false} FoldOverflowIff(op: string, x: int, ys: seq<LVal>)
    requires AllNums(ys) && InLong(x)
    ensures FoldLong(op, x, ys).Overflow? <==> exists k :: 0 <= k <= |ys| && LeavesLong(op, x, ys, k)
    ensures FoldLong(op, x, ys).Known? ==> Fits(FoldLong(op, x, ys).value)
    decreases |ys|
  {
    if ys == [] {
      assert ys[..0] == [];
    } else if op == "/" && ys[0].num == 0 {
      forall k | 0 <= k <= |ys| ensures !LeavesLong(op, x, ys, k) {
        if k > 0 { assert ys[..k][0] == ys[0]; }
      }
    } else {
      var z, rest := Combine(op, x, ys[0].num), ys[1..];
      forall k | 0 < k <= |ys| ensures LeavesLong(op, x, ys, k) == LeavesLong(op, z, rest, k - 1) {
        FoldPrefix(op, x, ys, k);
      }
      assert !LeavesLong(op, x, ys, 0) by { assert ys[..0] == []; }
      if !InLong(z) {
        assert rest[..0] == [];
        assert LeavesLong(op, x, ys, 1);
      } else {
        FoldOverflowIff(op, z, rest);
        if k :| 0 <= k <= |rest| && LeavesLong(op, z, rest, k) {
          assert LeavesLong(op, x, ys, k + 1);
        }
      }
    }
  }

  lemma FoldPrefix(op: string, x: int, ys: seq<LVal>, k: nat)
    requires AllNums(ys) && 0 < k <= |ys| && (op == "/" ==> ys[0].num != 0)
    ensures Fold(op, x, ys[..k]) == Fold(op, Combine(op, x, ys[0].num), ys[1..][..k - 1])
  {
    assert ys[..k][0] == ys[0] && ys[..k][1..] == ys[1..][..k - 1];
  }

  // What fits stays what fits.

  lemma OpFits(args: seq<LVal>, op: string)
    requires args != [] && AllFit(args) && OpLong(args, op).Known?
    ensures Fits(OpLong(args, op).value)
  {
    hide FoldLong;
    assert Fits(args[0]);
    if AllNums(args) && !(op == "-" && |args| == 1) {
      FoldOverflowIff(op, args[0].num, args[1..]);
    }
  }

  lemma {:induction false} ConcatFits(qs: seq<LVal>)
    requires AllQexprs(qs) && AllFit(qs)
    ensures AllFit(Concat(qs))
  {
    if qs != [] {
      ConcatFits(qs[1..]);
      assert Fits(qs[0]);
    }
  }

  lemma {:induction false} BuiltinFits(args: seq<LVal>, func: string)
    requires args != [] && (forall i :: 0 <= i < |args| ==> IsValue(args[i])) && AllFit(args)
    requires BuiltinLong(args, func).Known?
    ensures Fits(BuiltinLong(args, func).value)
    decreases SizeAll(args), 1, 0
  {
    hide Op, OpLong, Eval, EvalLong, IsOperator, Concat;
    assert Fits(args[0]);
    if func == "eval" && |args| == 1 && args[0].Qexpr? {
      SizeElement(args, 0);
      EvalFits(Sexpr(args[0].cell));
    } else if func == "join" {
      if AllQexprs(args) { ConcatFits(args); }
    } else if func !in {"list", "head", "tail", "join", "eval"} && IsOperator(func) {
      OpFits(args, func);
    }
  }

  lemma {:induction false} EvalAllFits(vs: seq<LVal>)
    requires AllFit(vs) && EvalAllLong(vs).Known?
    ensures AllFit(EvalAllLong(vs).value)
    decreases SizeAll(vs), 2, |vs|
  {
    hide EvalLong;
    if vs != [] {
      EvalFits(vs[0]);
      EvalAllFits(vs[1..]);
    }
  }

  /** A value whose numbers fit evaluates, if at all, to a value whose numbers fit. */
  lemma {:induction false} EvalFits(v: LVal)
    requires Fits(v) && EvalLong(v).Known?
    ensures Fits(EvalLong(v).value)
    decreases Size(v), 0, 0
  {
    hide BuiltinLong, Builtin, EvalAllLong, EvalAll, FirstError;
    if v.Sexpr? {
      EvalAllFits(v.cell);
      var vs := EvalAllLong(v.cell).value;
      if !HasError(vs) && |vs| > 1 && vs[0].Sym? {
        BuiltinFits(vs[1..], vs[0].sym);
      }
    }
  }

  /** Evaluating twice is evaluating once. */
  lemma EvalIdempotent(v: LVal)
    ensures Eval(Eval(v)) == Eval(v)
  {
    var r := Eval(v);
    if r.Sexpr? {
      assert EvalAll(r.cell) == [];
    }
  }

  // ----- laws of the builtins -----

  /** The head and the tail of a list join to the list. */
  lemma HeadJoinsTail(xs: seq<LVal>)
    requires xs != []
    ensures Join([Head([Qexpr(xs)]), Tail([Qexpr(xs)])]) == Qexpr(xs)
  {
    var h, t := Qexpr(xs[..1]), Qexpr(xs[1..]);
    assert [h, t][1..] == [t] && [t][1..] == [];
    assert Concat([t]) == xs[1..] + [];
    assert Concat([h, t]) == xs[..1] + Concat([t]) == xs;
  }

  /** Joining is the same whether lists are joined one after the other or all at once. */
  lemma {:induction false} JoinAssociates(xs: seq<LVal>, qs: seq<LVal>)
    requires AllQexprs(qs)
    ensures Join([Qexpr(xs)] + qs) == if qs == [] then Qexpr(xs) else Join([Join([Qexpr(xs), qs[0]])] + qs[1..])
  {
    hide SizeAll, Size;
    var q := [Qexpr(xs)];
    assert (q + qs)[1..] == qs;
    if qs != [] {
      var two := [Qexpr(xs), qs[0]];
      assert two[1..] == [qs[0]] && [qs[0]][1..] == [];
      assert Concat([qs[0]]) == qs[0].cell + [];
      assert Concat(two) == xs + qs[0].cell;
      var one := [Qexpr(Concat(two))];
      assert (one + qs[1..])[1..] == qs[1..];
      assert Concat(one + qs[1..]) == (xs + qs[0].cell) + Concat(qs[1..]);
      assert Concat(q + qs) == xs + (qs[0].cell + Concat(qs[1..]));
    }
  }

  /** Evaluating quoted code is evaluating the code. */
  lemma EvalUnquotes(xs: seq<LVal>)
    ensures Eval(Sexpr([Sym("eval"), Qexpr(xs)])) == Eval(Sexpr(xs))
  {
    var cells := [Sym("eval"), Qexpr(xs)];
    assert cells[1..] == [Qexpr(xs)] && cells[1..][1..] == [];
    assert EvalAll(cells[1..]) == cells[1..];
    assert EvalAll(cells) == cells;
    assert Eval(Sexpr(cells)) == Apply(cells);
    assert !HasError(cells);
    assert Apply(cells) == Builtin([Qexpr(xs)], "eval");
  }

  function Sum(vs: seq<LVal>): int
    requires AllNums(vs)
  {
    if vs == [] then 0 else vs[0].num + Sum(vs[1..])
  }

  function Product(vs: seq<LVal>): int
    requires AllNums(vs)
  {
    if vs == [] then 1 else vs[0].num * Product(vs[1..])
  }

  /** Addition and subtraction over any number of arguments. */
  lemma {:induction false} SumMeaning(x: int, vs: seq<LVal>)
    requires AllNums(vs)
    ensures Fold("+", x, vs) == Num(x + Sum(vs)) && Fold("-", x, vs) == Num(x - Sum(vs))
    decreases |vs|
  {
    if vs != [] {
      SumMeaning(x + vs[0].num, vs[1..]);
      SumMeaning(x - vs[0].num, vs[1..]);
    }
  }

  /** Multiplication over any number of arguments. */
  lemma {:induction false} ProductMeaning(x: int, vs: seq<LVal>)
    requires AllNums(vs)
    ensures Fold("*", x, vs) == Num(x * Product(vs))
    decreases |vs|
  {
    if vs != [] {
      ProductMeaning(x * vs[0].num, vs[1..]);
      ProductAssociates(x, vs[0].num, Product(vs[1..]));
    }
  }

  lemma ProductAssociates(x: int, y: int, z: int)
    ensures (x * y) * z == x * (y * z)
  {
  }

  /** A division reports an error exactly when a divisor is zero. */
  lemma {:induction false} DivisionByZero(x: int, vs: seq<LVal>)
    requires AllNums(vs)
    ensures Fold("/", x, vs) == Err("Division By Zero.") <==> Num(0) in vs
    ensures Num(0) !in vs ==> Fold("/", x, vs).Num?
    decreases |vs|
  {
    if vs != [] && vs[0].num != 0 {
      DivisionByZero(Quotient(x, vs[0].num), vs[1..]);
    }
  }

  /** If a cell evaluates to an error, the whole expression is the leftmost such error. */
  lemma FirstErrorWins(cells: seq<LVal>, k: nat)
    requires k < |cells| && Eval(cells[k]).Err? && forall i :: 0 <= i < k ==> !Eval(cells[i]).Err?
    ensures Eval(Sexpr(cells)) == Eval(cells[k])
  {
    var vs := EvalAll(cells);
    forall i | 0 <= i < |cells| ensures vs[i] == Eval(cells[i]) { EvalAllAt(cells, i); }
    assert HasError(vs) && FirstError(vs) == k;
  }

  // ----- the operations as the interpreter runs them -----

  method BuiltinOp(a: seq<LVal>, op: string) returns (r: Checked<LVal>)
    requires a != []
    ensures r == OpLong(a, op)
  {
    for i := 0 to |a|
      invariant AllNums(a[..i])
    {
      if !a[i].Num? {
        return Known(Err("Cannot operate on non-number!"));
      }
    }
    var x, args := a[0].num, a[1..];
    if op == "-" && |args| == 0 {
      x := -x;
      return if InLong(x) then Known(Num(x)) else Overflow;
    }
    while |args| > 0
      invariant AllNums(args)
      invariant FoldLong(op, x, args) == OpLong(a, op)
      decreases |args|
    {
      var y := args[0].num;
      args := args[1..];
      if op == "/" && y == 0 {
        return Known(Err("Division By Zero."));
      }
      x := Combine(op, x, y);
      if !InLong(x) {
        return Overflow;
      }
    }
    return Known(Num(x));
  }

  method BuiltinJoin(a: seq<LVal>) returns (r: LVal)
    requires a != []
    ensures r == Join(a)
  {
    hide SizeAll, Size;
    for i := 0 to |a|
      invariant AllQexprs(a[..i])
    {
      if !a[i].Qexpr? {
        return Err("Function 'join' passed incorrect type.");
      }
    }
    var x, rest := a[0].cell, a[1..];
    while |rest| > 0
      invariant AllQexprs(rest) && x + Concat(rest) == Concat(a)
      decreases |rest|
    {
      ghost var before, head, tail := x, rest[0].cell, rest[1..];
      x := LvalJoin(x, rest[0].cell);
      rest := rest[1..];
      assert x + Concat(tail) == before + (head + Concat(tail));
    }
    return Qexpr(x);
  }

  /** Move the cells of `y` to the end of `x`, one by one. */
  method LvalJoin(x: seq<LVal>, y: seq<LVal>) returns (r: seq<LVal>)
    ensures r == x + y
  {
    r := x;
    var rest := y;
    while |rest| > 0
      invariant r + rest == x + y
      decreases |rest|
    {
      r, rest := r + [rest[0]], rest[1..];
    }
  }

  method EvalSexpr(v: LVal) returns (r: Checked<LVal>)
    requires v.Sexpr?
    ensures r == EvalLong(v)
    decreases Size(v), 0
  {
    hide Builtin, BuiltinLong, EvalAll, EvalAllLong, FirstError;
    var evaluated := EvalCells(v.cell);
    if evaluated.Overflow? {
      return Overflow;
    }
    var cell := evaluated.value;
    for i := 0 to |cell|
      invariant forall j :: 0 <= j < i ==> !cell[j].Err?
    {
      if cell[i].Err? {
        assert HasError(cell) && FirstError(cell) == i;
        return Known(cell[i]);
      }
    }
    if |cell| == 0 {
      return Known(Sexpr([]));
    }
    if |cell| == 1 {
      return Known(cell[0]);
    }
    var f, args := cell[0], cell[1..];
    if !f.Sym? {
      return Known(Err("S-expression Does not start with symbol."));
    }
    assert SizeAll(args) + 1 <= SizeAll(cell);
    r := CallBuiltin(args, f.sym);
  }

  /** Evaluate the cells from the left. */
  method EvalCells(cells: seq<LVal>) returns (r: Checked<seq<LVal>>)
    ensures r == EvalAllLong(cells)
    decreases SizeAll(cells), 2
  {
    hide EvalLong, EvalAllLong, Size, SizeAll;
    var cell := cells;
    for i := 0 to |cell|
      invariant |cell| == |cells|
      invariant forall j :: 0 <= j < i ==> EvalLong(cells[j]) == Known(cell[j])
      invariant forall j :: i <= j < |cell| ==> cell[j] == cells[j]
    {
      SizeElement(cells, i);
      var x := LvalEval(cell[i]);
      if x.Overflow? {
        OneOverflows(cells, i);
        return Overflow;
      }
      cell := cell[i := x.value];
    }
    AllKnown(cells, cell);
    r := Known(cell);
  }

  lemma {:induction false} OneOverflows(cells: seq<LVal>, i: nat)
    requires i < |cells| && EvalLong(cells[i]).Overflow?
    ensures EvalAllLong(cells).Overflow?
  {
    hide EvalLong;
    if i > 0 {
      OneOverflows(cells[1..], i - 1);
    }
  }

  lemma {:induction false} AllKnown(cells: seq<LVal>, cell: seq<LVal>)
    requires |cells| == |cell| && forall j :: 0 <= j < |cells| ==> EvalLong(cells[j]) == Known(cell[j])
    ensures EvalAllLong(cells) == Known(cell)
  {
    hide EvalLong;
    if cells != [] {
      AllKnown(cells[1..], cell[1..]);
      assert cell == [cell[0]] + cell[1..];
    }
  }

  lemma {:induction false} EvalAllAt(vs: seq<LVal>, i: nat)
    requires i < |vs|
    ensures EvalAll(vs)[i] == Eval(vs[i])
  {
    if i > 0 {
      EvalAllAt(vs[1..], i - 1);
    }
  }

  method CallBuiltin(a: seq<LVal>, func: string) returns (r: Checked<LVal>)
    requires a != [] && forall i :: 0 <= i < |a| ==> IsValue(a[i])
    ensures r == BuiltinLong(a, func)
    decreases SizeAll(a) + 1, 1
  {
    hide EvalLong, OpLong;
    if func == "list" { return Known(Qexpr(a)); }
    if func == "head" { return Known(Head(a)); }
    if func == "tail" { return Known(Tail(a)); }
    if func == "join" {
      var joined := BuiltinJoin(a);
      return Known(joined);
    }
    if func == "eval" {
      if |a| != 1 { return Known(Err("Function 'eval' passed too many arguments.")); }
      if !a[0].Qexpr? { return Known(Err("Function 'eval' passed incorrect type.")); }
      SizeElement(a, 0);
      r := LvalEval(Sexpr(a[0].cell));
      return;
    }
    if IsOperator(func) {
      r := BuiltinOp(a, func);
      return;
    }
    return Known(Err("Unknown Function!"));
  }

  method LvalEval(v: LVal) returns (r: Checked<LVal>)
    ensures r == EvalLong(v)
    decreases Size(v), 1
  {
    if v.Sexpr? {
      r := EvalSexpr(v);
    } else {
      r := Known(v);
    }
  }
}
