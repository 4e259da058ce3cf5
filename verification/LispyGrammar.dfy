/**
  The grammar of the Lispy interpreter as the parser graph that the library builds from it, and
  what the parse engine makes of it: on every text the parse ends, and the term that it yields
  denotes the syntax tree of LispyText.  With that the engine, the reader, the evaluator and the
  printer compose to the interpreter.

  Parsers that the library builds anew for every use are shared here: a node keeps no state.
 */
module LispyGrammar {
  import opened MpcSyntax
  import opened MpcSemantics
  import L = LispyText

  // ----- texts -----

  /** A signed C character as a character code. */
  function CharOf(b: Byte): char {
    (if b >= 0 then b else b + 256) as char
  }

  function TextOf(s: seq<Byte>): (t: string)
    ensures |t| == |s| && forall i :: 0 <= i < |s| ==> t[i] == CharOf(s[i])
  {
    seq(|s|, i requires 0 <= i < |s| => CharOf(s[i]))
  }

  function BytesOf(t: string): (s: seq<Byte>)
    requires forall i :: 0 <= i < |t| ==> (t[i] as int) < 128
    ensures TextOf(s) == t
  {
    seq(|t|, i requires 0 <= i < |t| => t[i] as int)
  }

  // ----- what the terms of the engine denote -----

  // folds
  const STRFOLD := 0
  const FST := 1
  const SND := 2
  const FOLD_AST := 3
  const STATE_AST := 4
  // applied functions
  const FREE := 0
  const STR_AST := 1
  const ADD_ROOT := 2
  // applied functions with an argument, the index of a name
  const TAG := 0
  const ADD_TAG := 1
  // constructors
  const CTOR_STR := 0

  const NAMES: seq<L.Name> := [L.Regex, L.StringTag, L.CharTag, L.Number, L.Symbol, L.SexprTag, L.QexprTag, L.Expr]

  datatype Meaning = Nothing | Str(t: string) | Tree(a: L.Ast) | Where

  function Concat(ms: seq<Meaning>): string {
    if ms == [] then "" else (if ms[0].Str? then ms[0].t else "") + Concat(ms[1..])
  }

  function ToOption(m: Meaning): L.Option<L.Ast> {
    if m.Tree? then L.Some(m.a) else L.None
  }

  function FromOption(o: L.Option<L.Ast>): Meaning {
    if o.Some? then Tree(o.value) else Nothing
  }

  function ToOptions(ms: seq<Meaning>): seq<L.Option<L.Ast>> {
    seq(|ms|, i requires 0 <= i < |ms| => ToOption(ms[i]))
  }

  function FoldMeaning(f: nat, ms: seq<Meaning>): Meaning {
    if f == STRFOLD then Str(Concat(ms))
    else if f == FOLD_AST then FromOption(L.FoldAst(ToOptions(ms)))
    else if f == FST && |ms| >= 1 then ms[0]
    else if |ms| >= 2 then ms[1]
    else Nothing
  }

  function ApplyMeaning(f: nat, m: Meaning): Meaning {
    if f == STR_AST && m.Str? then Tree(L.Ast([], m.t, []))
    else if f == ADD_ROOT && m.Tree? then Tree(L.AddRoot(m.a))
    else Nothing
  }

  function ApplyToMeaning(f: nat, m: Meaning, d: nat): Meaning {
    if !m.Tree? || d >= |NAMES| then m
    else if f == TAG then Tree(m.a.(tag := [NAMES[d]]))
    else Tree(L.AddTag(m.a, NAMES[d]))
  }

  function Denote(v: Value): Meaning
    decreases v
  {
    match v
    case Null => Nothing
    case Chars(s) => Str(TextOf(s))
    case Built(_) => Str("")
    case Given(_) => Nothing
    case At(_) => Where
    case Applied(f, x) => ApplyMeaning(f, Denote(x))
    case AppliedTo(f, x, d) => ApplyToMeaning(f, Denote(x), d)
    case Folded(f, vs) => FoldMeaning(f, DenoteAll(vs))
  }

  function DenoteAll(vs: seq<Value>): (ms: seq<Meaning>)
    ensures |ms| == |vs|
    decreases vs
  {
    if vs == [] then [] else [Denote(vs[0])] + DenoteAll(vs[1..])
  }

  lemma {:induction false} DenoteSnoc(vs: seq<Value>, v: Value)
    ensures DenoteAll(vs + [v]) == DenoteAll(vs) + [Denote(v)]
  {
    if vs == [] {
      assert vs + [v] == [v] && [v][1..] == [];
    } else {
      assert (vs + [v])[1..] == vs[1..] + [v];
      DenoteSnoc(vs[1..], v);
    }
  }

  lemma DenotePair(v: Value, w: Value)
    ensures DenoteAll([v, w]) == [Denote(v), Denote(w)]
  {
    assert [v, w] == [] + [v] + [w];
    DenoteSnoc([], v);
    DenoteSnoc([] + [v], w);
  }

  // ----- what a parser yields -----

  datatype Want = Fails | Gives(m: Meaning, q: nat)

  /** With fuel `n` the parser at `p` fails and is back at `pos`, or gives a term that denotes `m` and stops at `q`. */
  ghost predicate Yields(g: Grammar, s: seq<Byte>, n: nat, p: Ptr, pos: nat, err: Err, w: Want) {
    && pos <= |s|
    && var o := Eval(g, s, n, p, 1, pos, err);
    && o.Done?
    && match w
       case Fails => o.r.Error? && o.pos == pos
       case Gives(m, q) => o.r.Out? && Denote(o.r.v) == m && o.pos == q
  }

  /** The error record after it. */
  function Record(g: Grammar, s: seq<Byte>, n: nat, p: Ptr, pos: nat, err: Err): Err
    requires pos <= |s|
  {
    var o := Eval(g, s, n, p, 1, pos, err);
    if o.Done? then o.err else err
  }

  function Max(a: nat, b: nat): nat {
    if a < b then b else a
  }

  lemma YieldsMore(g: Grammar, s: seq<Byte>, n: nat, more: nat, p: Ptr, pos: nat, err: Err, w: Want)
    requires Yields(g, s, n, p, pos, err, w) && n <= more
    ensures Yields(g, s, more, p, pos, err, w) && Record(g, s, more, p, pos, err) == Record(g, s, n, p, pos, err)
  {
    hide Eval;
    EvalMono(g, s, n, more, p, 1, pos, err);
  }

  // The combinators, one lemma each.

  lemma ExpectYields(g: Grammar, s: seq<Byte>, n: nat, p: Ptr, pos: nat, err: Err, w: Want)
    requires p < |g| && g[p].Expect? && Yields(g, s, n, g[p].x, pos, err, w)
    ensures Yields(g, s, n + 1, p, pos, err, w)
  {
  }

  function Mapped(f: nat, w: Want): Want {
    if w.Fails? then w else w.(m := ApplyMeaning(f, w.m))
  }

  lemma ApplyYields(g: Grammar, s: seq<Byte>, n: nat, p: Ptr, pos: nat, err: Err, w: Want)
    requires p < |g| && g[p].Apply? && Yields(g, s, n, g[p].x, pos, err, w)
    ensures Yields(g, s, n + 1, p, pos, err, Mapped(g[p].f, w))
  {
  }

  function MappedTo(f: nat, w: Want, d: nat): Want {
    if w.Fails? then w else w.(m := ApplyToMeaning(f, w.m, d))
  }

  lemma ApplyToYields(g: Grammar, s: seq<Byte>, n: nat, p: Ptr, pos: nat, err: Err, w: Want)
    requires p < |g| && g[p].ApplyTo? && Yields(g, s, n, g[p].x, pos, err, w)
    ensures Yields(g, s, n + 1, p, pos, err, MappedTo(g[p].f, w, g[p].d))
  {
  }

  lemma MaybeYields(g: Grammar, s: seq<Byte>, n: nat, p: Ptr, pos: nat, err: Err, w: Want)
    requires p < |g| && g[p].Maybe? && Yields(g, s, n, g[p].x, pos, err, w)
    ensures Yields(g, s, n + 1, p, pos, err, if w.Fails? then Gives(Str(""), pos) else w)
  {
  }

  function Both(f: nat, w1: Want, w2: Want): Want {
    if w1.Fails? || w2.Fails? then Fails else Gives(FoldMeaning(f, [w1.m, w2.m]), w2.q)
  }

  lemma AndYields(g: Grammar, s: seq<Byte>, n1: nat, n2: nat, p: Ptr, pos: nat, err: Err, w1: Want, w2: Want)
    requires p < |g| && g[p].And? && |g[p].xs| == 2
    requires Yields(g, s, n1, g[p].xs[0], pos, err, w1)
    requires w1.Gives? ==> Yields(g, s, n2, g[p].xs[1], w1.q, Record(g, s, n1, g[p].xs[0], pos, err), w2)
    ensures Yields(g, s, Max(n1, n2) + 1, p, pos, err, Both(g[p].f, w1, w2))
  {
    var n, xs := Max(n1, n2), g[p].xs;
    YieldsMore(g, s, n1, n, xs[0], pos, err, w1);
    var o := Eval(g, s, n, xs[0], 1, pos, err);
    if w1.Gives? {
      YieldsMore(g, s, n2, n, xs[1], w1.q, o.err, w2);
      var o2 := Eval(g, s, n, xs[1], 1, o.pos, o.err);
      if w2.Gives? {
        DenotePair(o.r.v, o2.r.v);
        assert [] + [o.r.v] + [o2.r.v] == [o.r.v, o2.r.v];
      }
    }
    InOrderTwo(g, s, n, xs, g[p].f, pos, err);
  }

  /** A sequence of two parts, unfolded. */
  lemma InOrderTwo(g: Grammar, s: seq<Byte>, n: nat, xs: seq<Ptr>, f: nat, pos: nat, err: Err)
    requires pos <= |s| && |xs| == 2
    ensures var o := Eval(g, s, n, xs[0], 1, pos, err);
            InOrder(g, s, n, xs, f, 0, 1, pos, pos, err, []) ==
              if !o.Done? then OutOfFuel
              else if o.r.Error? then Done(o.r, pos, o.err)
              else
                var o2 := Eval(g, s, n, xs[1], 1, o.pos, o.err);
                if !o2.Done? then OutOfFuel
                else if o2.r.Error? then Done(o2.r, pos, o2.err)
                else Done(Out(Folded(f, [] + [o.r.v] + [o2.r.v])), o2.pos, o2.err)
  {
    hide Eval;
    var o := Eval(g, s, n, xs[0], 1, pos, err);
    if o.Done? && o.r.Out? {
      var second := InOrder(g, s, n, xs, f, 1, 1, pos, o.pos, o.err, [] + [o.r.v]);
      assert InOrder(g, s, n, xs, f, 0, 1, pos, pos, err, []) == second;
      var o2 := Eval(g, s, n, xs[1], 1, o.pos, o.err);
      if o2.Done? && o2.r.Out? {
        var third := InOrder(g, s, n, xs, f, 2, 1, pos, o2.pos, o2.err, [] + [o.r.v] + [o2.r.v]);
        assert second == third;
      }
    }
  }

  function Either(w1: Want, w2: Want): Want {
    if w1.Fails? then w2 else w1
  }

  lemma OrYields(g: Grammar, s: seq<Byte>, n1: nat, n2: nat, p: Ptr, pos: nat, err: Err, w1: Want, w2: Want)
    requires p < |g| && g[p].Or? && |g[p].xs| == 2
    requires Yields(g, s, n1, g[p].xs[0], pos, err, w1)
    requires w1.Fails? ==> Yields(g, s, n2, g[p].xs[1], pos, Record(g, s, n1, g[p].xs[0], pos, err), w2)
    ensures Yields(g, s, Max(n1, n2) + 1, p, pos, err, Either(w1, w2))
  {
    var n, xs := Max(n1, n2), g[p].xs;
    YieldsMore(g, s, n1, n, xs[0], pos, err, w1);
    if w1.Fails? {
      YieldsMore(g, s, n2, n, xs[1], pos, Record(g, s, n1, xs[0], pos, err), w2);
    }
    ChooseTwo(g, s, n, xs, pos, err);
  }

  lemma ChooseTwo(g: Grammar, s: seq<Byte>, n: nat, xs: seq<Ptr>, pos: nat, err: Err)
    requires pos <= |s| && |xs| == 2
    ensures var o, c := Eval(g, s, n, xs[0], 1, pos, err), Choose(g, s, n, xs, 0, 1, pos, err, []);
            if !o.Done? then c == OutOfFuel
            else if o.r.Out? then c.Done? && c.r == o.r && c.pos == o.pos
            else
              var o2 := Eval(g, s, n, xs[1], 1, o.pos, o.err);
              if !o2.Done? then c == OutOfFuel
              else c.Done? && c.r.Out? == o2.r.Out? && c.pos == o2.pos && (c.r.Out? ==> c.r == o2.r)
  {
    hide Eval, MergeAll;
    var o := Eval(g, s, n, xs[0], 1, pos, err);
    if o.Done? && o.r.Error? {
      var second := Choose(g, s, n, xs, 1, 1, o.pos, o.err, [] + [o.r.e]);
      assert Choose(g, s, n, xs, 0, 1, pos, err, []) == second;
      var o2 := Eval(g, s, n, xs[1], 1, o.pos, o.err);
      if o2.Done? && o2.r.Error? {
        var third := Choose(g, s, n, xs, 2, 1, o2.pos, o2.err, [] + [o.r.e] + [o2.r.e]);
        assert second == third;
      }
    }
  }

  /** Rounds of `x` from `pos` on: they stop at `q` and add terms that denote `ms` to `vs`. */
  ghost predicate Repeats(g: Grammar, s: seq<Byte>, n: nat, x: Ptr, pos: nat, err: Err, vs: seq<Value>,
                          ms: seq<Meaning>, q: nat)
  {
    && pos <= |s|
    && var o := Repeat(g, s, n, x, 1, pos, err, vs);
    && o.Stopped? && DenoteAll(o.vs) == DenoteAll(vs) + ms && o.pos == q
  }

  lemma RepeatsNot(g: Grammar, s: seq<Byte>, n: nat, x: Ptr, pos: nat, err: Err, vs: seq<Value>)
    requires Yields(g, s, n, x, pos, err, Fails)
    ensures Repeats(g, s, n, x, pos, err, vs, [], pos)
  {
    hide Eval;
  }

  lemma RepeatsAgain(g: Grammar, s: seq<Byte>, n1: nat, n2: nat, x: Ptr, pos: nat, err: Err, vs: seq<Value>,
                     m: Meaning, q: nat, ms: seq<Meaning>, end: nat)
    requires Yields(g, s, n1, x, pos, err, Gives(m, q))
    requires var o := Eval(g, s, n1, x, 1, pos, err);
             Repeats(g, s, n2, x, q, o.err, vs + [o.r.v], ms, end)
    ensures Repeats(g, s, Max(n1, n2) + 1, x, pos, err, vs, [m] + ms, end)
  {
    hide Eval;
    var n := Max(n1, n2) + 1;
    var o := Eval(g, s, n1, x, 1, pos, err);
    EvalMono(g, s, n1, n, x, 1, pos, err);
    RepeatMono(g, s, n2, n - 1, x, 1, q, o.err, vs + [o.r.v]);
    DenoteSnoc(vs, o.r.v);
    assert DenoteAll(vs) + [m] + ms == DenoteAll(vs) + ([m] + ms);
  }

  lemma ManyYields(g: Grammar, s: seq<Byte>, n: nat, p: Ptr, pos: nat, err: Err, ms: seq<Meaning>, q: nat)
    requires p < |g| && g[p].Many? && Repeats(g, s, n, g[p].x, pos, err, [], ms, q)
    ensures Yields(g, s, n + 1, p, pos, err, Gives(FoldMeaning(g[p].f, ms), q))
  {
    hide Repeat, DenoteAll, FoldMeaning;
    NoneDenoted();
    assert [] + ms == ms;
  }

  lemma Many1Yields(g: Grammar, s: seq<Byte>, n: nat, p: Ptr, pos: nat, err: Err, ms: seq<Meaning>, q: nat)
    requires p < |g| && g[p].Many1? && Repeats(g, s, n, g[p].x, pos, err, [], ms, q) && (ms == [] ==> q == pos)
    ensures Yields(g, s, n + 1, p, pos, err, if ms == [] then Fails else Gives(FoldMeaning(g[p].f, ms), q))
  {
    hide Repeat, FoldMeaning;
    assert [] + ms == ms;
  }

  lemma NoneDenoted()
    ensures DenoteAll([]) == []
  {
  }

  // ----- the parser graph -----

  // kinds of tokens, as indices of their names
  const REGEX := 0
  const STRING := 1
  const CHAR := 2

  // the nodes that others point to
  const BLANK := 6
  const EMPTY := 7
  const PASS := 8
  const HERE := 9
  const NUMBER := 22
  const START_OF_LINE := 30
  const END_OF_LINE := 38
  const EXPRS := 39
  const SYMBOL := 103
  const SEXPR := 152
  const QEXPR := 155
  const EXPR := 162
  const LINE := 165
  const NODES := 166

  const SPACES: seq<Byte> := [32, 12, 10, 13, 9, 11]
  const DIGITS: seq<Byte> := [48, 49, 50, 51, 52, 53, 54, 55, 56, 57]
  const MINUS: Byte := 45
  const BRACKETS: seq<Byte> := [40, 41, 123, 125]

  /** A token: the parser at `core`, the blanks behind it, and a leaf of the given kind made of it. */
  function TokenNode(core: Ptr, at: Ptr, kind: nat, j: int): Parser {
    if j == 0 then And([core, BLANK], FST)
    else if j == 1 then Apply(at, STR_AST)
    else if j == 2 then ApplyTo(at + 1, TAG, kind)
    else And([HERE, at + 2], STATE_AST)
  }

  /** The four nodes of a token lie from `at` on. */
  ghost predicate IsToken(core: Ptr, at: Ptr, kind: nat) {
    && Node(at) == TokenNode(core, at, kind, 0) && Node(at + 1) == TokenNode(core, at, kind, 1)
    && Node(at + 2) == TokenNode(core, at, kind, 2) && Node(at + 3) == TokenNode(core, at, kind, 3)
  }

  function BaseNode(i: nat): Parser {
    match i
    case 0 => OneOf(SPACES)
    case 1 => Expect(0, "one of ' \U{C}\n\r\t\U{B}'")
    case 2 => Expect(1, "whitespace")
    case 3 => Many(2, STRFOLD)
    case 4 => Expect(3, "spaces")
    case 5 => Apply(4, FREE)
    case 6 => Expect(5, "whitespace")
    case 7 => Lift(CTOR_STR)
    case 8 => Pass
    case _ => Position
  }

  /** An optional minus sign and digits. */
  function NumberNode(i: nat): Parser {
    match i
    case 10 => Single(MINUS)
    case 11 => Expect(10, "'-'")
    case 12 => Maybe(11, CTOR_STR)
    case 13 => OneOf(DIGITS)
    case 14 => Expect(13, "one of '0123456789'")
    case 15 => Many1(14, STRFOLD)
    case 16 => And([EMPTY, 12], STRFOLD)
    case 17 => And([16, 15], STRFOLD)
    case 22 => And([PASS, 21], FOLD_AST)
    case _ => TokenNode(17, 18, REGEX, i - 18)
  }

  predicate IsStart(last: Byte, next: Byte) {
    last == NUL
  }

  predicate IsEnd(last: Byte, next: Byte) {
    next == NUL
  }

  /** The two anchors of a line. */
  function AnchorNode(i: nat): Parser {
    match i
    case 23 => Anchor(IsStart)
    case 24 => Expect(23, "start of input")
    case 25 => And([24, EMPTY], SND)
    case 26 => And([EMPTY, 25], STRFOLD)
    case 31 => Anchor(IsEnd)
    case 32 => Expect(31, "end of input")
    case 33 => And([32, EMPTY], SND)
    case 34 => And([EMPTY, 33], STRFOLD)
    case _ => if i < 31 then TokenNode(26, 27, REGEX, i - 27) else TokenNode(34, 35, REGEX, i - 35)
  }

  function SymbolBytes(k: nat): seq<Byte>
    requires k < 9
  {
    [[108, 105, 115, 116], [104, 101, 97, 100], [116, 97, 105, 108], [101, 118, 97, 108], [106, 111, 105, 110],
     [43], [45], [42], [47]][k]
  }

  /** Alternative `k` of the symbols: a string for the first five, a character for the others. */
  function SymbolNode(k: nat, j: nat): Parser
    requires k < 9
  {
    var at := 40 + 7 * k;
    if j == 0 then if k < 5 then Text(SymbolBytes(k)) else Single(SymbolBytes(k)[0])
    else if j == 1 then Expect(at, if k < 5 then "\"" + L.SYMBOLS[k] + "\"" else "'" + L.SYMBOLS[k] + "'")
    else if j == 6 then And([PASS, at + 5], FOLD_AST)
    else TokenNode(at + 1, at + 2, if k < 5 then STRING else CHAR, j - 2)
  }

  /** The alternatives nest to the right. */
  function SymbolChoice(k: nat): Parser {
    Or([40 + 7 * k + 6, if k < 7 then SYMBOL + k + 1 else 40 + 7 * 8 + 6])
  }

  function BracketNode(k: nat, j: nat): Parser
    requires k < 4
  {
    var at := 111 + 6 * k;
    if j == 0 then Single(BRACKETS[k])
    else if j == 1 then Expect(at, "'" + [CharOf(BRACKETS[k])] + "'")
    else TokenNode(at + 1, at + 2, CHAR, j - 2)
  }

  /** References to number, symbol, sexpr, qexpr and expr: tag the tree and give it a root. */
  function RefNode(k: nat, j: nat): Parser
    requires k < 5
  {
    var at := 135 + 3 * k;
    if j == 0 then ApplyTo([NUMBER, SYMBOL, SEXPR, QEXPR, EXPR][k], ADD_TAG, 3 + k)
    else if j == 1 then Apply(at, ADD_ROOT)
    else And([HERE, at + 1], STATE_AST)
  }

  function RuleNode(i: nat): Parser {
    match i
    case 150 => And([PASS, 116], FOLD_AST)
    case 151 => And([150, EXPRS], FOLD_AST)
    case 152 => And([151, 122], FOLD_AST)
    case 153 => And([PASS, 128], FOLD_AST)
    case 154 => And([153, EXPRS], FOLD_AST)
    case 155 => And([154, 134], FOLD_AST)
    case 156 => And([PASS, 137], FOLD_AST)
    case 157 => And([PASS, 140], FOLD_AST)
    case 158 => And([PASS, 143], FOLD_AST)
    case 159 => And([PASS, 146], FOLD_AST)
    case 160 => Or([158, 159])
    case 161 => Or([157, 160])
    case 162 => Or([156, 161])
    case 163 => And([PASS, START_OF_LINE], FOLD_AST)
    case 164 => And([163, EXPRS], FOLD_AST)
    case _ => And([164, END_OF_LINE], FOLD_AST)
  }

  function Node(i: nat): Parser {
    if i < 10 then BaseNode(i)
    else if i < 23 then NumberNode(i)
    else if i < 39 then AnchorNode(i)
    else if i == 39 then Many(149, FOLD_AST)
    else if i < 103 then SymbolNode((i - 40) / 7, (i - 40) % 7)
    else if i < 111 then SymbolChoice(i - 103)
    else if i < 135 then BracketNode((i - 111) / 6, (i - 111) % 6)
    else if i < 150 then RefNode((i - 135) / 3, (i - 135) % 3)
    else RuleNode(i)
  }

  const LISPY: Grammar := seq(NODES, i requires 0 <= i < NODES => Node(i))

  lemma LispyClosed()
    ensures Closed(LISPY)
  {
    forall i, c | 0 <= i < NODES && c in Children(Node(i)) ensures c < NODES {
      ChildInside(i, c);
    }
  }

  lemma ChildInside(i: nat, c: Ptr)
    requires i < NODES && c in Children(Node(i))
    ensures c < NODES
  {
    hide Children, BaseNode, NumberNode, AnchorNode, SymbolNode, SymbolChoice, BracketNode, RefNode, RuleNode;
    if i < 39 {
      EarlyInside(i, c);
    } else if 40 <= i < 103 {
      SymbolInside((i - 40) / 7, (i - 40) % 7, c);
    } else if 111 <= i < 135 {
      BracketInside((i - 111) / 6, (i - 111) % 6, c);
    } else {
      LateInside(i, c);
    }
  }

  lemma EarlyInside(i: nat, c: Ptr)
    requires i < 39 && c in Children(Node(i))
    ensures c < NODES
  {
    hide SymbolNode, SymbolChoice, BracketNode, RefNode, RuleNode;
  }

  lemma SymbolInside(k: nat, j: nat, c: Ptr)
    requires k < 9 && j < 7 && c in Children(SymbolNode(k, j))
    ensures c < NODES
  {
    hide SymbolBytes;
  }

  lemma BracketInside(k: nat, j: nat, c: Ptr)
    requires k < 4 && j < 6 && c in Children(BracketNode(k, j))
    ensures c < NODES
  {
  }

  lemma LateInside(i: nat, c: Ptr)
    requires (i == 39 || 103 <= i < 111 || 135 <= i < NODES) && c in Children(Node(i))
    ensures c < NODES
  {
    hide BaseNode, NumberNode, AnchorNode, SymbolNode, BracketNode;
  }

  // ----- blanks and tokens -----

  lemma NodeOf(i: nat)
    requires i < NODES
    ensures LISPY[i] == Node(i)
  {
  }

  // The nodes of one group, without a look at the others.

  lemma BaseAt(i: nat)
    requires i < 10
    ensures LISPY[i] == Node(i) == BaseNode(i)
  {
    hide BaseNode, NumberNode, AnchorNode, SymbolNode, SymbolChoice, BracketNode, RefNode, RuleNode;
  }

  lemma NumberAt(i: nat)
    requires 10 <= i < 23
    ensures LISPY[i] == Node(i) == NumberNode(i)
  {
    hide BaseNode, NumberNode, AnchorNode, SymbolNode, SymbolChoice, BracketNode, RefNode, RuleNode;
  }

  lemma AnchorAt(i: nat)
    requires 23 <= i < 39
    ensures LISPY[i] == Node(i) == AnchorNode(i)
  {
    hide BaseNode, NumberNode, AnchorNode, SymbolNode, SymbolChoice, BracketNode, RefNode, RuleNode;
  }

  lemma RuleAt(i: nat)
    requires 150 <= i < NODES
    ensures LISPY[i] == Node(i) == RuleNode(i)
  {
    hide BaseNode, NumberNode, AnchorNode, SymbolNode, SymbolChoice, BracketNode, RefNode, RuleNode;
  }

  lemma CharYields(s: seq<Byte>, p: Ptr, pos: nat, err: Err)
    requires p < NODES && IsCharParser(Node(p)) && pos <= |s|
    ensures Yields(LISPY, s, 1, p, pos, err,
                   if pos < |s| && Accepts(Node(p), s[pos]) then Gives(Str([CharOf(s[pos])]), pos + 1) else Fails)
  {
    hide Node;
    NodeOf(p);
    if pos < |s| {
      assert TextOf([s[pos]]) == [CharOf(s[pos])];
    }
  }

  lemma {:induction false} BlanksRepeat(s: seq<Byte>, pos: nat, err: Err, vs: seq<Value>)
      returns (n: nat, ms: seq<Meaning>)
    requires pos <= |s|
    ensures Repeats(LISPY, s, n, 2, pos, err, vs, ms, L.SkipBlank(TextOf(s), pos))
    decreases |s| - pos
  {
    hide Repeats, Yields, Node;
    BaseAt(0); BaseAt(1); BaseAt(2);
    CharYields(s, 0, pos, err);
    var w := if pos < |s| && s[pos] in SPACES then Gives(Str([CharOf(s[pos])]), pos + 1) else Fails;
    ExpectYields(LISPY, s, 1, 1, pos, err, w);
    ExpectYields(LISPY, s, 2, 2, pos, err, w);
    if w.Gives? {
      assert Yields(LISPY, s, 3, 2, pos, err, w);
      YieldsDone(s, 3, 2, pos, err, w);
      var o := Eval(LISPY, s, 3, 2, 1, pos, err);
      var k, rest := BlanksRepeat(s, pos + 1, o.err, vs + [o.r.v]);
      RepeatsAgain(LISPY, s, 3, k, 2, pos, err, vs, w.m, pos + 1, rest, L.SkipBlank(TextOf(s), pos + 1));
      n, ms := Max(3, k) + 1, [w.m] + rest;
    } else {
      RepeatsNot(LISPY, s, 3, 2, pos, err, vs);
      n, ms := 3, [];
    }
  }

  lemma YieldsDone(s: seq<Byte>, n: nat, p: Ptr, pos: nat, err: Err, w: Want)
    requires Yields(LISPY, s, n, p, pos, err, w)
    ensures pos <= |s| && Eval(LISPY, s, n, p, 1, pos, err).Done?
    ensures w.Gives? ==> Eval(LISPY, s, n, p, 1, pos, err).r.Out?
    ensures Record(LISPY, s, n, p, pos, err) == Eval(LISPY, s, n, p, 1, pos, err).err
  {
    hide Eval;
  }

  lemma BlankYields(s: seq<Byte>, pos: nat, err: Err) returns (n: nat)
    requires pos <= |s|
    ensures Yields(LISPY, s, n, BLANK, pos, err, Gives(Nothing, L.SkipBlank(TextOf(s), pos)))
  {
    hide Repeats, Yields, Node;
    BaseAt(3); BaseAt(4); BaseAt(5); BaseAt(6);
    var k, ms := BlanksRepeat(s, pos, err, []);
    var q := L.SkipBlank(TextOf(s), pos);
    var w := Gives(FoldMeaning(STRFOLD, ms), q);
    ManyYields(LISPY, s, k, 3, pos, err, ms, q);
    ExpectYields(LISPY, s, k + 1, 4, pos, err, w);
    ApplyYields(LISPY, s, k + 2, 5, pos, err, w);
    ExpectYields(LISPY, s, k + 3, 6, pos, err, Gives(Nothing, q));
    n := k + 4;
  }

  /** What a token gives for what its core gives. */
  function Token(s: seq<Byte>, kind: nat, w: Want): Want
    requires kind < |NAMES| && (w.Gives? ==> w.m.Str? && w.q <= |s|)
  {
    if w.Fails? then Fails else Gives(Tree(L.Leaf(NAMES[kind], w.m.t)), L.SkipBlank(TextOf(s), w.q))
  }

  lemma TokenYields(s: seq<Byte>, core: Ptr, at: Ptr, kind: nat, n: nat, pos: nat, err: Err, w: Want)
      returns (k: nat)
    requires at + 3 < NODES && kind < |NAMES| && (w.Gives? ==> w.m.Str? && w.q <= |s|)
    requires IsToken(core, at, kind)
    requires Yields(LISPY, s, n, core, pos, err, w)
    ensures Yields(LISPY, s, k, at + 3, pos, err, Token(s, kind, w))
  {
    hide Yields, Record, Node;
    NodeOf(at); NodeOf(at + 1); NodeOf(at + 2); NodeOf(at + 3);
    YieldsPos(s, n, core, pos, err, w);
    HereYields(s, pos, err);
    var e := Record(LISPY, s, 1, HERE, pos, err);
    var n2, blank := 0, Fails;
    if w.Gives? {
      blank := Gives(Nothing, L.SkipBlank(TextOf(s), w.q));
      n2 := BlankYields(s, w.q, Record(LISPY, s, n, core, pos, err));
    }
    AndYields(LISPY, s, n, n2, at, pos, err, w, blank);
    var w1 := Both(FST, w, blank);
    var m := Max(n, n2) + 1;
    ApplyYields(LISPY, s, m, at + 1, pos, err, w1);
    ApplyToYields(LISPY, s, m + 1, at + 2, pos, err, Mapped(STR_AST, w1));
    var w2 := MappedTo(TAG, Mapped(STR_AST, w1), kind);
    assert e == err;
    AndYields(LISPY, s, 1, m + 2, at + 3, pos, err, Gives(Where, pos), w2);
    k := Max(1, m + 2) + 1;
    assert Both(STATE_AST, Gives(Where, pos), w2) == Token(s, kind, w);
  }

  lemma YieldsPos(s: seq<Byte>, n: nat, p: Ptr, pos: nat, err: Err, w: Want)
    requires Yields(LISPY, s, n, p, pos, err, w)
    ensures pos <= |s| && (w.Gives? ==> w.q <= |s|)
  {
    hide Eval;
  }

  lemma HereYields(s: seq<Byte>, pos: nat, err: Err)
    requires pos <= |s|
    ensures Yields(LISPY, s, 1, HERE, pos, err, Gives(Where, pos)) && Record(LISPY, s, 1, HERE, pos, err) == err
    ensures Yields(LISPY, s, 1, PASS, pos, err, Gives(Nothing, pos)) && Record(LISPY, s, 1, PASS, pos, err) == err
    ensures Yields(LISPY, s, 1, EMPTY, pos, err, Gives(Str(""), pos)) && Record(LISPY, s, 1, EMPTY, pos, err) == err
  {
    hide Node, StateAt;
    ConstantNodes();
  }

  lemma ConstantNodes()
    ensures LISPY[HERE] == Position && LISPY[PASS] == Pass && LISPY[EMPTY] == Lift(CTOR_STR)
  {
    hide Node;
    BaseAt(HERE); BaseAt(PASS); BaseAt(EMPTY);
  }

  /** A term of one factor hands its tree on. */
  lemma PassYields(s: seq<Byte>, p: Ptr, x: Ptr, n: nat, pos: nat, err: Err, w: Want) returns (k: nat)
    requires p < NODES && Node(p) == And([PASS, x], FOLD_AST)
    requires Yields(LISPY, s, n, x, pos, err, w) && (w.Gives? ==> w.m.Tree?)
    ensures Yields(LISPY, s, k, p, pos, err, w)
  {
    hide Yields, Record, Node;
    NodeOf(p);
    YieldsPos(s, n, x, pos, err, w);
    HereYields(s, pos, err);
    AndYields(LISPY, s, 1, n, p, pos, err, Gives(Nothing, pos), w);
    k := Max(1, n) + 1;
    if w.Gives? {
      assert ToOptions([Nothing, w.m]) == [L.None, L.Some(w.m.a)];
    }
  }

  // ----- the rules -----

  function WantOf(r: L.Parsed): Want {
    if r.None? then Fails else Gives(Tree(r.value.0), r.value.1)
  }

  lemma ConcatPair(a: string, b: string)
    ensures Concat([Str(a), Str(b)]) == a + b
  {
    assert [Str(a), Str(b)][1..] == [Str(b)] && [Str(b)][1..] == [];
    assert Concat([Str(b)]) == b + "";
  }

  lemma ConcatCons(m: Meaning, ms: seq<Meaning>)
    requires m.Str?
    ensures Concat([m] + ms) == m.t + Concat(ms)
  {
    assert ([m] + ms)[1..] == ms;
  }

  lemma DigitAccepted(b: Byte)
    ensures b in DIGITS <==> L.IsDigit(CharOf(b))
  {
  }

  lemma DigitNodes()
    ensures LISPY[13] == Node(13) == OneOf(DIGITS) && LISPY[14] == Node(14) && Node(14).Expect? && Node(14).x == 13
  {
    hide Node;
    NumberAt(13); NumberAt(14);
  }

  lemma NextDigit(s: seq<Byte>, pos: nat)
    requires pos <= |s|
    ensures L.SkipDigits(TextOf(s), pos) ==
            if pos < |s| && s[pos] in DIGITS then L.SkipDigits(TextOf(s), pos + 1) else pos
  {
    if pos < |s| { DigitAccepted(s[pos]); }
  }

  lemma NoText()
    ensures Concat([]) == ""
  {
  }

  lemma {:induction false} DigitsRepeat(s: seq<Byte>, pos: nat, err: Err, vs: seq<Value>)
      returns (n: nat, ms: seq<Meaning>)
    requires pos <= |s|
    ensures var q := L.SkipDigits(TextOf(s), pos);
            && Repeats(LISPY, s, n, 14, pos, err, vs, ms, q)
            && (ms == [] <==> q == pos) && Concat(ms) == TextOf(s)[pos..q]
    decreases |s| - pos
  {
    hide Repeats, Yields, Eval, Concat, Node, L.SkipDigits;
    DigitNodes();
    NextDigit(s, pos);
    NoText();
    CharYields(s, 13, pos, err);
    var w := if pos < |s| && s[pos] in DIGITS then Gives(Str([CharOf(s[pos])]), pos + 1) else Fails;
    ExpectYields(LISPY, s, 1, 14, pos, err, w);
    if w.Gives? {
      YieldsDone(s, 2, 14, pos, err, w);
      var o := Eval(LISPY, s, 2, 14, 1, pos, err);
      var k, rest := DigitsRepeat(s, pos + 1, o.err, vs + [o.r.v]);
      var q := L.SkipDigits(TextOf(s), pos + 1);
      RepeatsAgain(LISPY, s, 2, k, 14, pos, err, vs, w.m, pos + 1, rest, q);
      n, ms := Max(2, k) + 1, [w.m] + rest;
      ConcatCons(w.m, rest);
      assert TextOf(s)[pos..q] == [CharOf(s[pos])] + TextOf(s)[pos + 1..q];
    } else {
      RepeatsNot(LISPY, s, 2, 14, pos, err, vs);
      n, ms := 2, [];
    }
  }

  /** The optional sign: its text and where the digits start. */
  lemma SignYields(s: seq<Byte>, pos: nat, err: Err) returns (n: nat)
    requires pos <= |s|
    ensures var start := if pos < |s| && s[pos] == MINUS then pos + 1 else pos;
            Yields(LISPY, s, n, 16, pos, err, Gives(Str(TextOf(s)[pos..start]), start))
  {
    hide Yields, Record, Node, Concat;
    NumberAt(10); NumberAt(11); NumberAt(12); NumberAt(16);
    CharYields(s, 10, pos, err);
    var start := if pos < |s| && s[pos] == MINUS then pos + 1 else pos;
    var w := if start > pos then Gives(Str([CharOf(MINUS)]), start) else Fails;
    ExpectYields(LISPY, s, 1, 11, pos, err, w);
    MaybeYields(LISPY, s, 2, 12, pos, err, w);
    var sign := TextOf(s)[pos..start];
    assert sign == if start > pos then [CharOf(MINUS)] else "";
    HereYields(s, pos, err);
    AndYields(LISPY, s, 1, 3, 16, pos, err, Gives(Str(""), pos), Gives(Str(sign), start));
    ConcatPair("", sign);
    assert "" + sign == sign;
    n := 4;
  }

  lemma NumberNodes()
    ensures LISPY[15] == Many1(14, STRFOLD) && LISPY[17] == And([16, 15], STRFOLD)
    ensures IsToken(17, 18, REGEX) && Node(22) == And([PASS, 21], FOLD_AST)
  {
    hide Node, TokenNode;
    NumberAt(15); NumberAt(17); NumberAt(22);
    NumberAt(18); NumberAt(19); NumberAt(20); NumberAt(21);
  }

  /** The text of a number: the sign and at least one digit. */
  lemma NumeralYields(s: seq<Byte>, pos: nat, err: Err) returns (n: nat)
    requires pos <= |s|
    ensures var t := TextOf(s);
            var start := if pos < |t| && t[pos] == '-' then pos + 1 else pos;
            var end := L.SkipDigits(t, start);
            Yields(LISPY, s, n, 17, pos, err, if end == start then Fails else Gives(Str(t[pos..end]), end))
  {
    hide Yields, Record, Repeats, Node, Concat, L.SkipDigits, IsToken, L.FoldAst, ToOptions;
    NumberNodes();
    var t := TextOf(s);
    var start := if pos < |s| && s[pos] == MINUS then pos + 1 else pos;
    if pos < |s| { CharOfInjective(s[pos], MINUS); }
    assert start == if pos < |t| && t[pos] == '-' then pos + 1 else pos;
    var end := L.SkipDigits(t, start);
    var n1 := SignYields(s, pos, err);
    var e1 := Record(LISPY, s, n1, 16, pos, err);
    var n2, ms := DigitsRepeat(s, start, e1, []);
    Many1Yields(LISPY, s, n2, 15, start, e1, ms, end);
    var digits := if ms == [] then Fails else Gives(Str(t[start..end]), end);
    AndYields(LISPY, s, n1, n2 + 1, 17, pos, err, Gives(Str(t[pos..start]), start), digits);
    ConcatPair(t[pos..start], t[start..end]);
    assert t[pos..start] + t[start..end] == t[pos..end];
    n := Max(n1, n2 + 1) + 1;
  }

  lemma NumberYields(s: seq<Byte>, pos: nat, err: Err) returns (n: nat)
    requires pos <= |s|
    ensures Yields(LISPY, s, n, NUMBER, pos, err, WantOf(L.ParseNumber(TextOf(s), pos)))
  {
    hide Yields, Node, IsToken, L.SkipDigits;
    NumberNodes();
    var t := TextOf(s);
    var start := if pos < |t| && t[pos] == '-' then pos + 1 else pos;
    var end := L.SkipDigits(t, start);
    var core := if end == start then Fails else Gives(Str(t[pos..end]), end);
    var m := NumeralYields(s, pos, err);
    var k := TokenYields(s, 17, 18, REGEX, m, pos, err, core);
    n := PassYields(s, 22, 21, k, pos, err, Token(s, REGEX, core));
  }

  // the symbols

  lemma SymbolText(k: nat)
    requires k < 9
    ensures TextOf(SymbolBytes(k)) == L.SYMBOLS[k] && SymbolBytes(k) != [] && (k >= 5 ==> |SymbolBytes(k)| == 1)
  {
  }

  lemma CharOfInjective(a: Byte, b: Byte)
    ensures CharOf(a) == CharOf(b) <==> a == b
  {
  }

  /** A literal is at a position of the text exactly if all its characters match there. */
  lemma LiteralAt(s: seq<Byte>, pos: nat, cs: seq<Byte>)
    requires pos <= |s|
    ensures MatchLength(s, pos, cs) == |cs| <==> L.At(TextOf(s), pos, TextOf(cs))
  {
    var k := MatchLength(s, pos, cs);
    var t := TextOf(s);
    if k == |cs| {
      forall i | 0 <= i < |cs| ensures t[pos + i] == TextOf(cs)[i] {
        assert s[pos..pos + k][i] == cs[..k][i];
      }
      assert t[pos..pos + |cs|] == TextOf(cs);
    } else if pos + |cs| <= |s| {
      CharOfInjective(s[pos + k], cs[k]);
      assert t[pos..pos + |cs|][k] != TextOf(cs)[k];
    }
  }

  /** The literal of alternative `k`, as text or as a single character. */
  lemma LiteralYields(s: seq<Byte>, k: nat, pos: nat, err: Err)
    requires k < 9 && pos <= |s|
    ensures var x := L.SYMBOLS[k];
            Yields(LISPY, s, 1, 40 + 7 * k, pos, err,
                   if L.At(TextOf(s), pos, x) then Gives(Str(x), pos + |x|) else Fails)
  {
    hide Node, Yields, SymbolBytes, MatchLength;
    var at, cs := 40 + 7 * k, SymbolBytes(k);
    SymbolNodeAt(k, 0);
    SymbolText(k);
    LiteralAt(s, pos, cs);
    if k < 5 {
      TextYields(s, at, cs, pos, err);
    } else {
      SingleYields(s, at, cs[0], pos, err);
      assert cs == [cs[0]];
    }
  }

  /** A single character is a literal of length one. */
  lemma SingleYields(s: seq<Byte>, p: Ptr, c: Byte, pos: nat, err: Err)
    requires p < NODES && Node(p) == Single(c) && pos <= |s|
    ensures Yields(LISPY, s, 1, p, pos, err,
                   if MatchLength(s, pos, [c]) == 1 then Gives(Str(TextOf([c])), pos + 1) else Fails)
  {
    hide Node, Yields;
    CharYields(s, p, pos, err);
    assert MatchLength(s, pos, [c]) == 1 <==> pos < |s| && s[pos] == c;
    assert TextOf([c]) == [CharOf(c)];
  }

  lemma TextYields(s: seq<Byte>, p: Ptr, cs: seq<Byte>, pos: nat, err: Err)
    requires p < NODES && Node(p) == Text(cs) && pos <= |s|
    ensures Yields(LISPY, s, 1, p, pos, err,
                   if MatchLength(s, pos, cs) == |cs| then Gives(Str(TextOf(cs)), pos + |cs|) else Fails)
  {
    hide Node, MatchLength, StateAt;
    NodeOf(p);
  }

  /** What alternative `k` should give. */
  function SymbolWant(t: string, pos: nat, k: nat): Want
    requires k < 9
  {
    var x := L.SYMBOLS[k];
    if L.At(t, pos, x)
    then Gives(Tree(L.Leaf(if k < 5 then L.StringTag else L.CharTag, x)), L.SkipBlank(t, pos + |x|))
    else Fails
  }

  lemma SymbolWanted(t: string, pos: nat, k: nat)
    requires pos <= |t| && k < 9
    ensures WantOf(L.ParseSymbol(t, pos, k)) == Either(SymbolWant(t, pos, k), WantOf(L.ParseSymbol(t, pos, k + 1)))
    ensures L.ParseSymbol(t, pos, 9) == L.None
  {
    hide L.SkipBlank;
  }

  lemma AlternativeYields(s: seq<Byte>, k: nat, pos: nat, err: Err) returns (n: nat)
    requires k < 9 && pos <= |s|
    ensures Yields(LISPY, s, n, 40 + 7 * k + 6, pos, err, SymbolWant(TextOf(s), pos, k))
  {
    hide Yields, Record, Node, IsToken, L.SkipBlank;
    var t, x, at := TextOf(s), L.SYMBOLS[k], 40 + 7 * k;
    var w := if L.At(t, pos, x) then Gives(Str(x), pos + |x|) else Fails;
    LiteralYields(s, k, pos, err);
    SymbolNodes(k);
    NodeOf(at + 1);
    ExpectYields(LISPY, s, 1, at + 1, pos, err, w);
    var kind := if k < 5 then STRING else CHAR;
    var m := TokenYields(s, at + 1, at + 2, kind, 2, pos, err, w);
    n := PassYields(s, at + 6, at + 5, m, pos, err, Token(s, kind, w));
  }

  lemma SymbolNodes(k: nat)
    requires k < 9
    ensures var at := 40 + 7 * k;
            && Node(at + 1).Expect? && Node(at + 1).x == at
            && Node(at + 6) == And([PASS, at + 5], FOLD_AST)
            && IsToken(at + 1, at + 2, if k < 5 then STRING else CHAR)
  {
    hide Node, SymbolBytes, IsToken;
    SymbolToken(k);
    SymbolNodeAt(k, 1);
    SymbolNodeAt(k, 6);
  }

  lemma SymbolToken(k: nat)
    requires k < 9
    ensures IsToken(40 + 7 * k + 1, 40 + 7 * k + 2, if k < 5 then STRING else CHAR)
  {
    hide Node, SymbolBytes, TokenNode;
    SymbolNodeAt(k, 2);
    SymbolNodeAt(k, 3);
    SymbolNodeAt(k, 4);
    SymbolNodeAt(k, 5);
  }

  lemma SymbolNodeAt(k: nat, j: nat)
    requires k < 9 && j < 7
    ensures Node(40 + 7 * k + j) == SymbolNode(k, j)
  {
    var i := 40 + 7 * k + j;
    assert (i - 40) / 7 == k && (i - 40) % 7 == j;
  }

  lemma ChoiceNode(k: nat)
    requires k < 8
    ensures LISPY[SYMBOL + k] == SymbolChoice(k)
  {
    NodeOf(SYMBOL + k);
  }

  /** The alternatives from `k` on. */
  lemma {:induction false} SymbolsYield(s: seq<Byte>, k: nat, pos: nat, err: Err) returns (n: nat)
    requires k < 9 && pos <= |s|
    ensures Yields(LISPY, s, n, if k < 8 then SYMBOL + k else 40 + 7 * 8 + 6, pos, err,
                   WantOf(L.ParseSymbol(TextOf(s), pos, k)))
    decreases 9 - k
  {
    hide Yields, Record, Node, SymbolWant, L.ParseSymbol;
    var t := TextOf(s);
    n := AlternativeYields(s, k, pos, err);
    SymbolWanted(t, pos, k);
    if k < 8 {
      ChoiceNode(k);
      var n2 := SymbolsYield(s, k + 1, pos, Record(LISPY, s, n, 40 + 7 * k + 6, pos, err));
      OrYields(LISPY, s, n, n2, SYMBOL + k, pos, err, SymbolWant(t, pos, k), WantOf(L.ParseSymbol(t, pos, k + 1)));
      n := Max(n, n2) + 1;
    }
  }

  // brackets and references

  lemma BracketYields(s: seq<Byte>, k: nat, pos: nat, err: Err) returns (n: nat)
    requires k < 4 && pos <= |s|
    ensures var t, c := TextOf(s), CharOf(BRACKETS[k]);
            Yields(LISPY, s, n, 111 + 6 * k + 5, pos, err,
                   if pos < |t| && t[pos] == c
                   then Gives(Tree(L.Leaf(L.CharTag, [c])), L.SkipBlank(t, pos + 1))
                   else Fails)
  {
    hide Yields, Node, IsToken, L.SkipBlank;
    var t, at := TextOf(s), 111 + 6 * k;
    var c := CharOf(BRACKETS[k]);
    BracketNodes(k);
    CharYields(s, at, pos, err);
    if pos < |s| { CharOfInjective(s[pos], BRACKETS[k]); }
    var w := if pos < |t| && t[pos] == c then Gives(Str([c]), pos + 1) else Fails;
    NodeOf(at + 1);
    ExpectYields(LISPY, s, 1, at + 1, pos, err, w);
    n := TokenYields(s, at + 1, at + 2, CHAR, 2, pos, err, w);
  }

  lemma BracketNodes(k: nat)
    requires k < 4
    ensures var at := 111 + 6 * k;
            && Node(at) == Single(BRACKETS[k]) && Node(at + 1).Expect? && Node(at + 1).x == at
            && IsToken(at + 1, at + 2, CHAR)
  {
    hide Node, TokenNode;
    BracketNodeAt(k, 0);
    BracketNodeAt(k, 1);
    BracketNodeAt(k, 2);
    BracketNodeAt(k, 3);
    BracketNodeAt(k, 4);
    BracketNodeAt(k, 5);
  }

  lemma BracketNodeAt(k: nat, j: nat)
    requires k < 4 && j < 6
    ensures Node(111 + 6 * k + j) == BracketNode(k, j)
  {
    var i := 111 + 6 * k + j;
    assert (i - 111) / 6 == k && (i - 111) % 6 == j;
  }

  /** What a reference makes of what the rule gives. */
  function Referenced(k: nat, w: Want): Want
    requires k < 5 && (w.Gives? ==> w.m.Tree?)
  {
    if w.Fails? then Fails else Gives(Tree(L.Reference(NAMES[3 + k], w.m.a)), w.q)
  }

  lemma RefYields(s: seq<Byte>, k: nat, n: nat, pos: nat, err: Err, w: Want) returns (m: nat)
    requires k < 5 && (w.Gives? ==> w.m.Tree?)
    requires Yields(LISPY, s, n, [NUMBER, SYMBOL, SEXPR, QEXPR, EXPR][k], pos, err, w)
    ensures Yields(LISPY, s, m, 135 + 3 * k + 2, pos, err, Referenced(k, w))
  {
    hide Yields, Record, Node, L.AddRoot, L.AddTag;
    var at := 135 + 3 * k;
    RefNodes(k);
    NodeOf(at); NodeOf(at + 1); NodeOf(at + 2);
    YieldsPos(s, n, [NUMBER, SYMBOL, SEXPR, QEXPR, EXPR][k], pos, err, w);
    ApplyToYields(LISPY, s, n, at, pos, err, w);
    var w1 := MappedTo(ADD_TAG, w, 3 + k);
    ApplyYields(LISPY, s, n + 1, at + 1, pos, err, w1);
    HereYields(s, pos, err);
    AndYields(LISPY, s, 1, n + 2, at + 2, pos, err, Gives(Where, pos), Mapped(ADD_ROOT, w1));
    m := Max(1, n + 2) + 1;
    assert Both(STATE_AST, Gives(Where, pos), Mapped(ADD_ROOT, w1)) == Referenced(k, w);
  }

  lemma RefNodes(k: nat)
    requires k < 5
    ensures var at := 135 + 3 * k;
            Node(at) == RefNode(k, 0) && Node(at + 1) == RefNode(k, 1) && Node(at + 2) == RefNode(k, 2)
  {
    var at := 135 + 3 * k;
    assert (at - 135) / 3 == k && (at + 1 - 135) / 3 == k && (at + 2 - 135) / 3 == k;
  }

  // expressions and lists

  lemma RuleNodes()
    ensures LISPY[EXPRS] == Many(149, FOLD_AST)
    ensures Node(156) == And([PASS, 137], FOLD_AST) && Node(157) == And([PASS, 140], FOLD_AST)
    ensures Node(158) == And([PASS, 143], FOLD_AST) && Node(159) == And([PASS, 146], FOLD_AST)
    ensures LISPY[160] == Or([158, 159]) && LISPY[161] == Or([157, 160]) && LISPY[162] == Or([156, 161])
  {
    hide Node;
    ExprsNode();
    AlternativeNodes();
    RuleAt(160); RuleAt(161); RuleAt(162);
  }

  lemma ExprsNode()
    ensures LISPY[EXPRS] == Many(149, FOLD_AST)
  {
    hide BaseNode, NumberNode, AnchorNode, SymbolNode, SymbolChoice, BracketNode, RefNode, RuleNode;
  }

  lemma AlternativeNodes()
    ensures Node(156) == And([PASS, 137], FOLD_AST) && Node(157) == And([PASS, 140], FOLD_AST)
    ensures Node(158) == And([PASS, 143], FOLD_AST) && Node(159) == And([PASS, 146], FOLD_AST)
  {
    hide Node;
    RuleAt(156); RuleAt(157); RuleAt(158); RuleAt(159);
  }

  lemma ListNodes(k: nat)
    requires k < 2
    ensures Node(150 + 3 * k) == And([PASS, 116 + 12 * k], FOLD_AST)
    ensures LISPY[151 + 3 * k] == And([150 + 3 * k, EXPRS], FOLD_AST)
    ensures LISPY[152 + 3 * k] == And([151 + 3 * k, 122 + 12 * k], FOLD_AST)
  {
    hide Node;
    RuleAt(150 + 3 * k); RuleAt(151 + 3 * k); RuleAt(152 + 3 * k);
  }

  lemma FoldPair(a: L.Option<L.Ast>, b: L.Option<L.Ast>)
    ensures FoldMeaning(FOLD_AST, [FromOption(a), FromOption(b)]) == FromOption(L.FoldAst([a, b]))
  {
    assert ToOptions([FromOption(a), FromOption(b)]) == [a, b];
  }

  function Trees(parts: seq<L.Ast>): (ms: seq<Meaning>)
    ensures |ms| == |parts|
  {
    seq(|parts|, i requires 0 <= i < |parts| => Tree(parts[i]))
  }

  lemma FoldTrees(parts: seq<L.Ast>)
    ensures FoldMeaning(FOLD_AST, Trees(parts)) == FromOption(L.FoldAst(L.Somes(parts)))
  {
    assert ToOptions(Trees(parts)) == L.Somes(parts);
  }

  /** From a rule to its alternative in an expression. */
  lemma RuleYields(s: seq<Byte>, k: nat, n: nat, pos: nat, err: Err, r: L.Parsed) returns (m: nat)
    requires k < 4 && Yields(LISPY, s, n, [NUMBER, SYMBOL, SEXPR, QEXPR, EXPR][k], pos, err, WantOf(r))
    ensures Yields(LISPY, s, m, 156 + k, pos, err, Referenced(k, WantOf(r)))
  {
    hide Yields, Node, L.Reference;
    RuleNodes();
    var i := RefYields(s, k, n, pos, err, WantOf(r));
    m := PassYields(s, 156 + k, 137 + 3 * k, i, pos, err, Referenced(k, WantOf(r)));
  }

  /** The brackets of list rule `k`. */
  function Open(k: nat): char {
    if k == 0 then '(' else '{'
  }

  function Close(k: nat): char {
    if k == 0 then ')' else '}'
  }

  lemma {:induction false} ExprYields(s: seq<Byte>, pos: nat, err: Err) returns (n: nat)
    requires pos <= |s|
    ensures Yields(LISPY, s, n, 149, pos, err, WantOf(L.ParseExpr(TextOf(s), pos)))
    decreases |s| - pos, 3
  {
    hide Yields, Record, Node, L.ParseExpr, L.ParseNumber, L.ParseSymbol, L.ParseList, L.Reference;
    RuleNodes();
    var t := TextOf(s);
    var number := L.ParseNumber(t, pos);
    var w := Referenced(0, WantOf(number));
    var k := NumberYields(s, pos, err);
    var n1 := RuleYields(s, 0, k, pos, err, number);
    var n2, rest := 0, Fails;
    if number.None? {
      rest := OtherWant(t, pos);
      n2 := OtherYields(s, pos, Record(LISPY, s, n1, 156, pos, err));
    }
    OrYields(LISPY, s, n1, n2, 162, pos, err, w, rest);
    n := RefYields(s, 4, Max(n1, n2) + 1, pos, err, Either(w, rest));
    ExprWanted(t, pos);
  }

  function ListWant(t: string, pos: nat): Want
    requires pos <= |t|
  {
    Either(Referenced(2, WantOf(L.ParseList(t, pos, '(', ')'))), Referenced(3, WantOf(L.ParseList(t, pos, '{', '}'))))
  }

  function OtherWant(t: string, pos: nat): Want
    requires pos <= |t|
  {
    Either(Referenced(1, WantOf(L.ParseSymbol(t, pos, 0))), ListWant(t, pos))
  }

  lemma ExprWanted(t: string, pos: nat)
    requires pos <= |t|
    ensures var number := L.ParseNumber(t, pos);
            var w := Either(Referenced(0, WantOf(number)), if number.None? then OtherWant(t, pos) else Fails);
            WantOf(L.ParseExpr(t, pos)) == Referenced(4, w)
  {
    hide L.ParseExpr, L.ParseNumber, L.ParseSymbol, L.ParseList, L.Reference;
    if L.ParseNumber(t, pos).Some? {
      L.ExprIsNumber(t, pos);
    } else if L.ParseSymbol(t, pos, 0).Some? {
      L.ExprIsSymbol(t, pos);
    } else if L.ParseList(t, pos, '(', ')').Some? {
      L.ExprIsSexpr(t, pos);
    } else if L.ParseList(t, pos, '{', '}').Some? {
      L.ExprIsQexpr(t, pos);
    } else {
      L.ExprIsNothing(t, pos);
    }
  }

  lemma {:induction false} OtherYields(s: seq<Byte>, pos: nat, err: Err) returns (n: nat)
    requires pos <= |s|
    ensures Yields(LISPY, s, n, 161, pos, err, OtherWant(TextOf(s), pos))
    decreases |s| - pos, 2
  {
    hide Yields, Record, Node, L.ParseSymbol, L.ParseList, L.Reference, ListWant;
    RuleNodes();
    var symbol := L.ParseSymbol(TextOf(s), pos, 0);
    var w := Referenced(1, WantOf(symbol));
    var k := SymbolsYield(s, 0, pos, err);
    var n1 := RuleYields(s, 1, k, pos, err, symbol);
    var n2 := ListsYield(s, pos, Record(LISPY, s, n1, 157, pos, err));
    OrYields(LISPY, s, n1, n2, 161, pos, err, w, ListWant(TextOf(s), pos));
    n := Max(n1, n2) + 1;
  }

  lemma {:induction false} ListsYield(s: seq<Byte>, pos: nat, err: Err) returns (n: nat)
    requires pos <= |s|
    ensures Yields(LISPY, s, n, 160, pos, err, ListWant(TextOf(s), pos))
    decreases |s| - pos, 1
  {
    hide Yields, Record, Node, L.ParseList, L.Reference;
    RuleNodes();
    var sexpr, qexpr := L.ParseList(TextOf(s), pos, '(', ')'), L.ParseList(TextOf(s), pos, '{', '}');
    var k := ListYields(s, 0, pos, err);
    var n1 := RuleYields(s, 2, k, pos, err, sexpr);
    var e := Record(LISPY, s, n1, 158, pos, err);
    k := ListYields(s, 1, pos, e);
    var n2 := RuleYields(s, 3, k, pos, e, qexpr);
    OrYields(LISPY, s, n1, n2, 160, pos, err, Referenced(2, WantOf(sexpr)), Referenced(3, WantOf(qexpr)));
    n := Max(n1, n2) + 1;
  }

  lemma {:induction false} ListYields(s: seq<Byte>, k: nat, pos: nat, err: Err) returns (n: nat)
    requires k < 2 && pos <= |s|
    ensures Yields(LISPY, s, n, if k == 0 then SEXPR else QEXPR, pos, err,
                   WantOf(L.ParseList(TextOf(s), pos, Open(k), Close(k))))
    decreases |s| - pos, 0
  {
    hide Yields, Record, Node, L.ParseMany, L.Bracket, L.FoldAst, FoldMeaning, L.SkipBlank;
    ListNodes(k);
    BracketChars(k);
    var t := TextOf(s);
    var open := L.Leaf(L.CharTag, [Open(k)]);
    var w1 := if pos < |t| && t[pos] == Open(k) then Gives(Tree(open), L.SkipBlank(t, pos + 1)) else Fails;
    var i := BracketYields(s, 2 * k, pos, err);
    var n1 := PassYields(s, 150 + 3 * k, 116 + 12 * k, i, pos, err, w1);
    if w1.Fails? {
      AndYields(LISPY, s, n1, 0, 151 + 3 * k, pos, err, w1, Fails);
      AndYields(LISPY, s, Max(n1, 0) + 1, 0, 152 + 3 * k, pos, err, Fails, Fails);
      n := Max(Max(n1, 0) + 1, 0) + 1;
    } else {
      var (parts, q) := L.ParseMany(t, w1.q);
      var n2 := ExprsYield(s, w1.q, Record(LISPY, s, n1, 150 + 3 * k, pos, err));
      var inner := L.FoldAst(L.Somes(parts));
      AndYields(LISPY, s, n1, n2, 151 + 3 * k, pos, err, w1, Gives(FromOption(inner), q));
      FoldPair(L.Some(open), inner);
      n := CloseYields(s, k, Max(n1, n2) + 1, pos, err, L.FoldAst([L.Some(open), inner]), q);
      BracketFolds(open, parts, L.Leaf(L.CharTag, [Close(k)]));
      ListWanted(t, k, pos);
    }
  }

  lemma BracketChars(k: nat)
    requires k < 2
    ensures CharOf(BRACKETS[2 * k]) == Open(k) && CharOf(BRACKETS[2 * k + 1]) == Close(k)
  {
  }

  lemma BracketFolds(open: L.Ast, parts: seq<L.Ast>, close: L.Ast)
    ensures L.Bracket(open, parts, close) ==
            L.FoldAst([L.FoldAst([L.Some(open), L.FoldAst(L.Somes(parts))]), L.Some(close)])
  {
    hide L.FoldAst;
    L.FirstMissing(open);
  }

  /** The closing bracket of a list. */
  lemma CloseYields(s: seq<Byte>, k: nat, n: nat, pos: nat, err: Err, body: L.Option<L.Ast>, q: nat) returns (m: nat)
    requires k < 2 && q <= |s| && Yields(LISPY, s, n, 151 + 3 * k, pos, err, Gives(FromOption(body), q))
    ensures var t, close := TextOf(s), L.Leaf(L.CharTag, [Close(k)]);
            Yields(LISPY, s, m, 152 + 3 * k, pos, err,
                   if q < |t| && t[q] == Close(k)
                   then Gives(FromOption(L.FoldAst([body, L.Some(close)])), L.SkipBlank(t, q + 1))
                   else Fails)
  {
    hide Yields, Record, Node, L.FoldAst, FoldMeaning, L.SkipBlank;
    ListNodes(k);
    BracketChars(k);
    var t, close := TextOf(s), L.Leaf(L.CharTag, [Close(k)]);
    var w := if q < |t| && t[q] == Close(k) then Gives(Tree(close), L.SkipBlank(t, q + 1)) else Fails;
    YieldsPos(s, n, 151 + 3 * k, pos, err, Gives(FromOption(body), q));
    var i := BracketYields(s, 2 * k + 1, q, Record(LISPY, s, n, 151 + 3 * k, pos, err));
    AndYields(LISPY, s, n, i, 152 + 3 * k, pos, err, Gives(FromOption(body), q), w);
    FoldPair(body, L.Some(close));
    m := Max(n, i) + 1;
  }

  lemma ListWanted(t: string, k: nat, pos: nat)
    requires k < 2 && pos < |t| && t[pos] == Open(k)
    ensures var (parts, q) := L.ParseMany(t, L.SkipBlank(t, pos + 1));
            var open, close := L.Leaf(L.CharTag, [Open(k)]), L.Leaf(L.CharTag, [Close(k)]);
            WantOf(L.ParseList(t, pos, Open(k), Close(k))) ==
              if q < |t| && t[q] == Close(k)
              then Gives(FromOption(L.Bracket(open, parts, close)), L.SkipBlank(t, q + 1))
              else Fails
  {
    hide L.ParseMany, L.Bracket;
    var (parts, q) := L.ParseMany(t, L.SkipBlank(t, pos + 1));
    L.BracketOk(L.Leaf(L.CharTag, [Open(k)]), parts, L.Leaf(L.CharTag, [Close(k)]));
  }

  lemma {:induction false} ExprsRepeat(s: seq<Byte>, pos: nat, err: Err, vs: seq<Value>) returns (n: nat)
    requires pos <= |s|
    ensures var (parts, q) := L.ParseMany(TextOf(s), pos);
            Repeats(LISPY, s, n, 149, pos, err, vs, Trees(parts), q)
    decreases |s| - pos, 4
  {
    hide Repeats, Yields, Node, Eval, L.ParseExpr;
    var t := TextOf(s);
    var first := L.ParseExpr(t, pos);
    var k := ExprYields(s, pos, err);
    if first.None? {
      RepeatsNot(LISPY, s, k, 149, pos, err, vs);
      n := k;
    } else {
      var (a, q) := first.value;
      YieldsDone(s, k, 149, pos, err, Gives(Tree(a), q));
      var o := Eval(LISPY, s, k, 149, 1, pos, err);
      var m := ExprsRepeat(s, q, o.err, vs + [o.r.v]);
      var (rest, end) := L.ParseMany(t, q);
      RepeatsAgain(LISPY, s, k, m, 149, pos, err, vs, Tree(a), q, Trees(rest), end);
      assert [Tree(a)] + Trees(rest) == Trees([a] + rest);
      n := Max(k, m) + 1;
    }
  }

  lemma {:induction false} ExprsYield(s: seq<Byte>, pos: nat, err: Err) returns (n: nat)
    requires pos <= |s|
    ensures var (parts, q) := L.ParseMany(TextOf(s), pos);
            Yields(LISPY, s, n, EXPRS, pos, err, Gives(FromOption(L.FoldAst(L.Somes(parts))), q))
    decreases |s| - pos, 5
  {
    hide Repeats, Yields, Node, L.ParseMany, FoldMeaning;
    RuleNodes();
    var (parts, q) := L.ParseMany(TextOf(s), pos);
    var k := ExprsRepeat(s, pos, err, []);
    ManyYields(LISPY, s, k, EXPRS, pos, err, Trees(parts), q);
    FoldTrees(parts);
    n := k + 1;
  }

  // ----- a line -----

  lemma AnchorNodes(b: nat)
    requires b == 23 || b == 31
    ensures Node(b).Anchor? && LISPY[b] == Node(b) && LISPY[b + 1].Expect? && LISPY[b + 1].x == b
    ensures LISPY[b + 2] == And([b + 1, EMPTY], SND) && LISPY[b + 3] == And([EMPTY, b + 2], STRFOLD)
    ensures IsToken(b + 3, b + 4, REGEX)
    ensures Node(b) == Anchor(if b == 23 then IsStart else IsEnd)
  {
    hide Node, TokenNode;
    AnchorAt(b); AnchorAt(b + 1); AnchorAt(b + 2); AnchorAt(b + 3);
    AnchorAt(b + 4); AnchorAt(b + 5); AnchorAt(b + 6); AnchorAt(b + 7);
  }

  lemma AnchorLeaf(s: seq<Byte>, b: nat, pos: nat, err: Err)
    requires (b == 23 || b == 31) && pos <= |s|
    ensures var holds := if b == 23 then LastAt(s, pos) == NUL else PeekAt(s, pos) == NUL;
            Yields(LISPY, s, 1, b, pos, err, if holds then Gives(Nothing, pos) else Fails)
  {
    hide Node, StateAt, IsToken;
    AnchorNodes(b);
  }

  /** An anchor as a token: a leaf without text. */
  lemma AnchorYields(s: seq<Byte>, b: nat, pos: nat, err: Err) returns (n: nat)
    requires (b == 23 || b == 31) && pos <= |s|
    ensures var holds := if b == 23 then LastAt(s, pos) == NUL else PeekAt(s, pos) == NUL;
            Yields(LISPY, s, n, b + 7, pos, err,
                   if holds then Gives(Tree(L.Leaf(L.Regex, "")), L.SkipBlank(TextOf(s), pos)) else Fails)
  {
    hide Yields, Record, Node, IsToken, LastAt, PeekAt;
    AnchorNodes(b);
    AnchorLeaf(s, b, pos, err);
    var holds := if b == 23 then LastAt(s, pos) == NUL else PeekAt(s, pos) == NUL;
    var w := if holds then Gives(Nothing, pos) else Fails;
    ExpectYields(LISPY, s, 1, b + 1, pos, err, w);
    HereYields(s, pos, Record(LISPY, s, 2, b + 1, pos, err));
    HereYields(s, pos, err);
    AndYields(LISPY, s, 2, 1, b + 2, pos, err, w, Gives(Str(""), pos));
    var w1 := if holds then Gives(Str(""), pos) else Fails;
    AndYields(LISPY, s, 1, 3, b + 3, pos, err, Gives(Str(""), pos), w1);
    ConcatPair("", "");
    n := TokenYields(s, b + 3, b + 4, REGEX, 4, pos, err, w1);
  }

  lemma LineNodes()
    ensures Node(163) == And([PASS, START_OF_LINE], FOLD_AST)
    ensures LISPY[164] == And([163, EXPRS], FOLD_AST) && LISPY[165] == And([164, END_OF_LINE], FOLD_AST)
  {
    hide Node;
    RuleAt(163); RuleAt(164); RuleAt(165);
  }

  /**
    On every C string the parse of a line has a meaning: it fails exactly if the line does not
    parse, and otherwise gives a term that denotes the syntax tree.
   */
  lemma LineYields(s: seq<Byte>, err: Err) returns (n: nat)
    requires 0 !in s
    ensures var r := L.ParseLine(TextOf(s));
            Yields(LISPY, s, n, LINE, 0, err, if r.None? then Fails else Gives(Tree(r.value), |s|))
  {
    hide Yields, Record, Node, L.ParseMany, L.FoldAst, FoldMeaning, L.SkipBlank, L.Bracket, L.PartOk, L.BodyOk,
         L.CellsOk, L.ReadCells, L.SpliceAll, L.Somes;
    LineNodes();
    var t, anchor := TextOf(s), L.Leaf(L.Regex, "");
    var start := L.SkipBlank(t, 0);
    var i := AnchorYields(s, 23, 0, err);
    var n1 := PassYields(s, 163, START_OF_LINE, i, 0, err, Gives(Tree(anchor), start));
    var (parts, q) := L.ParseMany(t, start);
    var n2 := ExprsYield(s, start, Record(LISPY, s, n1, 163, 0, err));
    var inner := L.FoldAst(L.Somes(parts));
    AndYields(LISPY, s, n1, n2, 164, 0, err, Gives(Tree(anchor), start), Gives(FromOption(inner), q));
    FoldPair(L.Some(anchor), inner);
    var body := L.FoldAst([L.Some(anchor), inner]);
    var m := Max(n1, n2) + 1;
    var k := AnchorYields(s, 31, q, Record(LISPY, s, m, 164, 0, err));
    EndsOnlyAtEnd(s, q);
    var w := if q == |s| then Gives(Tree(anchor), q) else Fails;
    AndYields(LISPY, s, m, k, 165, 0, err, Gives(FromOption(body), q), w);
    FoldPair(body, L.Some(anchor));
    BracketFolds(anchor, parts, anchor);
    L.BracketOk(anchor, parts, anchor);
    n := Max(m, k) + 1;
  }

  lemma EndsOnlyAtEnd(s: seq<Byte>, q: nat)
    requires 0 !in s && q <= |s|
    ensures PeekAt(s, q) == NUL <==> q == |s|
    ensures L.SkipBlank(TextOf(s), |s|) == |s|
  {
  }
}

/** The interpreter: a line through the parse engine, the reader, the evaluator and the printer. */
module LispyInterpreter {
  import opened MpcSyntax
  import opened LispyGrammar
  import Refinement = MpcRefinement
  import Engine = MpcEngine
  import Machine = MpcMachine
  import Lispy
  import L = LispyText

  /** Every line has a parse, whatever it holds. */
  lemma LineParses(s: seq<Byte>) returns (fuel: nat)
    requires 0 !in s
    ensures var o, r := Refinement.Meaning(LISPY, s, fuel, LINE), L.ParseLine(TextOf(s));
            && o.Done? && (o.r.Out? <==> r.Some?)
            && (o.r.Out? ==> Denote(o.r.v) == Tree(r.value))
  {
    fuel := LineYields(s, Machine.UNKNOWN_ERROR);
  }

  /** So the loop of the engine ends on every line, and the parser that it started with is popped. */
  lemma LoopEndsOnEveryLine(s: seq<Byte>)
    requires 0 !in s
    ensures exists n: nat, m :: Refinement.Reaches(LISPY, s, Machine.Initial(LINE), n, m, 0) && m.parsers == []
  {
    var fuel := LineParses(s);
    LispyClosed();
    Refinement.LoopEndsIff(LISPY, s, LINE);
  }

  /** The characters that plain values are printed with. */
  predicate Ascii(t: string) {
    forall i :: 0 <= i < |t| ==> 0 < t[i] as int < 128
  }

  lemma {:induction false} DecimalAscii(n: nat)
    ensures Ascii(L.Decimal(n))
  {
    if n >= 10 {
      DecimalAscii(n / 10);
    }
  }

  lemma {:induction false} PrintAscii(v: Lispy.LVal)
    requires L.Plain(v)
    ensures Ascii(L.Print(v))
    decreases v
  {
    match v
    case Num(n) => DecimalAscii(Lispy.Abs(n));
    case Sym(x) => assert forall k :: 0 <= k < 9 ==> Ascii(L.SYMBOLS[k]);
    case Sexpr(vs) => PrintAllAscii(vs);
    case Qexpr(vs) => PrintAllAscii(vs);
  }

  lemma {:induction false} PrintAllAscii(vs: seq<Lispy.LVal>)
    requires forall i :: 0 <= i < |vs| ==> L.Plain(vs[i])
    ensures Ascii(L.PrintAll(vs))
    decreases vs
  {
    hide L.Plain, L.Print;
    if vs != [] {
      PrintAscii(vs[0]);
      PrintAllAscii(vs[1..]);
    }
  }

  /** The round trip through the engine: the text of a plain value parses to a tree that reads as the value. */
  lemma EngineRoundTrip(v: Lispy.LVal) returns (s: seq<Byte>, fuel: nat)
    requires L.Plain(v)
    ensures TextOf(s) == L.Print(v) && 0 !in s
    ensures var o := Refinement.Meaning(LISPY, s, fuel, LINE);
            && o.Done? && o.r.Out? && Denote(o.r.v).Tree?
            && L.Readable(Denote(o.r.v).a) && L.Read(Denote(o.r.v).a) == Lispy.Sexpr([v])
  {
    hide L.Print, L.Plain, L.ParseLine, Denote, L.Read, L.Readable;
    PrintAscii(v);
    s := BytesOf(L.Print(v));
    assert forall i :: 0 <= i < |s| ==> CharOf(s[i]) == L.Print(v)[i];
    fuel := LineParses(s);
    L.PrintReadRoundTrip(v);
  }

  /** What a line reads as, by way of the engine. */
  method ReadLispy(s: seq<Byte>) returns (v: L.Option<Lispy.LVal>)
    requires 0 !in s
    ensures v == L.ReadLine(TextOf(s))
  {
    ghost var fuel := LineParses(s);
    LispyClosed();
    var r := Engine.Parse(LISPY, s, LINE, fuel);
    if r.Error? {
      return L.None;
    }
    var tree := Denote(r.v).a;
    var x := L.LvalRead(tree);
    v := L.Some(x);
  }

  /** What one round of the prompt answers: for numbers beyond `long` C does not say. */
  datatype Reply = Rejected | Printed(text: string) | Unspecified

  /**
    One round of the prompt.  A line that does not parse is rejected; the others print their
    value, unless a number leaves the range of `long` while they are evaluated.
   */
  method Interpret(s: seq<Byte>) returns (reply: Reply)
    requires 0 !in s
    ensures var v := L.ReadLine(TextOf(s));
            reply == if v.None? then Rejected
                     else if Lispy.EvalLong(v.value).Overflow? then Unspecified
                     else Printed(L.Print(Lispy.Eval(v.value)))
  {
    var v := ReadLispy(s);
    if v.None? {
      return Rejected;
    }
    var x := Lispy.LvalEval(v.value);
    if x.Overflow? {
      return Unspecified;
    }
    var text := L.LvalPrint(x.value);
    reply := Printed(text);
  }

  /** Everything that a line reads as fits, and so does everything it evaluates to. */
  lemma RepliesFit(s: seq<Byte>)
    requires L.ReadLine(TextOf(s)).Some?
    ensures var v := L.ReadLine(TextOf(s)).value;
            Lispy.Fits(v) && (Lispy.EvalLong(v).Known? ==> Lispy.Fits(Lispy.EvalLong(v).value))
  {
    hide L.ReadLine, Lispy.EvalLong;
    L.LineIsGood(TextOf(s));
    var v := L.ReadLine(TextOf(s)).value;
    forall i | 0 <= i < |v.cell| ensures Lispy.Fits(v.cell[i]) { ShapedFits(v.cell[i]); }
    if Lispy.EvalLong(v).Known? {
      Lispy.EvalFits(v);
    }
  }

  lemma {:induction false} ShapedFits(v: Lispy.LVal)
    requires L.Shaped(v)
    ensures Lispy.Fits(v)
    decreases v
  {
    if v.Sexpr? || v.Qexpr? {
      forall i | 0 <= i < |v.cell| ensures Lispy.Fits(v.cell[i]) { ShapedFits(v.cell[i]); }
    }
  }
}
