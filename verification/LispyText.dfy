/**
  Printing a Lispy value, and reading a line back: the grammar of the interpreter, the syntax tree
  that the parser library folds together for it, and the translation of that tree into a value.
 */
module LispyText {
  import opened Lispy

  datatype Option<T> = None | Some(value: T)

  // ----- printing -----

  function DigitChar(d: nat): char
    requires d < 10
  {
    ['0', '1', '2', '3', '4', '5', '6', '7', '8', '9'][d]
  }

  function Decimal(n: nat): string {
    if n < 10 then [DigitChar(n)] else Decimal(n / 10) + [DigitChar(n % 10)]
  }

  function NumText(n: int): string {
    if n < 0 then "-" + Decimal(-n) else Decimal(n)
  }

  function Print(v: LVal): string
    decreases v
  {
    match v
    case Num(n) => NumText(n)
    case Err(m) => "Error: " + m
    case Sym(x) => x
    case Sexpr(vs) => "(" + PrintAll(vs) + ")"
    case Qexpr(vs) => "{" + PrintAll(vs) + "}"
  }

  function PrintAll(vs: seq<LVal>): string
    decreases vs
  {
    if vs == [] then ""
    else if |vs| == 1 then Print(vs[0])
    else Print(vs[0]) + " " + PrintAll(vs[1..])
  }

  // ----- the syntax tree -----

  /** The names that make up a tag; the library joins them with bars, `Root` is its ">". */
  datatype Name = Expr | Number | Symbol | SexprTag | QexprTag | Regex | StringTag | CharTag | Root

  datatype Ast = Ast(tag: seq<Name>, contents: string, children: seq<Ast>)

  function Leaf(name: Name, contents: string): Ast {
    Ast([name], contents, [])
  }

  function AddTag(a: Ast, name: Name): Ast {
    a.(tag := [name] + a.tag)
  }

  /** Put a tree with several children below a new root, so that folding keeps it together. */
  function AddRoot(a: Ast): Ast {
    if |a.children| <= 1 then a else Ast([Root], "", [a])
  }

  /** What a reference to a named rule makes of the tree of that rule. */
  function Reference(name: Name, a: Ast): Ast {
    AddRoot(AddTag(a, name))
  }

  /** What folding splices into the new node: the children of a tree, or a leaf itself. */
  function Splice(a: Ast): seq<Ast> {
    if a.children == [] then [a] else a.children
  }

  function SpliceAll(xs: seq<Option<Ast>>): seq<Ast> {
    if xs == [] then []
    else (if xs[0].None? then [] else Splice(xs[0].value)) + SpliceAll(xs[1..])
  }

  function FoldAst(xs: seq<Option<Ast>>): Option<Ast> {
    if |xs| == 0 then None
    else if |xs| == 1 then xs[0]
    else if |xs| == 2 && xs[1].None? then xs[0]
    else if |xs| == 2 && xs[0].None? then xs[1]
    else Some(Ast([Root], "", SpliceAll(xs)))
  }

  function Somes(xs: seq<Ast>): seq<Option<Ast>> {
    seq(|xs|, i requires 0 <= i < |xs| => Some(xs[i]))
  }

  /** The tree of a rule made of an opening part, a repetition and a closing part. */
  function Bracket(open: Ast, parts: seq<Ast>, close: Ast): Option<Ast> {
    FoldAst([FoldAst([FoldAst([None, Some(open)]), FoldAst(Somes(parts))]), Some(close)])
  }

  /** Folding flattens: the result is one node with the leaves and spliced parts in order. */
  lemma BracketSplices(open: Ast, parts: seq<Ast>, close: Ast)
    requires open.children == [] && close.children == []
    ensures Bracket(open, parts, close) == Some(Ast([Root], "", [open] + SpliceAll(Somes(parts)) + [close]))
  {
    hide FoldAst;
    var inner := SpliceAll(Somes(parts));
    var m := FoldAst(Somes(parts));
    assert FoldAst([None, Some(open)]) == Some(open) by { FirstMissing(open); }
    PairSplices(Some(open), m);
    PairSplices(FoldAst([Some(open), m]), Some(close));
    if parts == [] {
      assert m == None by { NoneToFold(); }
      assert [open] + inner + [close] == [open] + [close];
    } else {
      PartsSplice(parts);
      assert [open] + inner != [];
    }
  }

  lemma FirstMissing(a: Ast)
    ensures FoldAst([None, Some(a)]) == Some(a)
  {
  }

  lemma NoneToFold()
    ensures FoldAst(Somes([])) == None
  {
  }

  lemma PartsSplice(parts: seq<Ast>)
    requires parts != []
    ensures FoldAst(Somes(parts)).Some? && Splice(FoldAst(Somes(parts)).value) == SpliceAll(Somes(parts))
  {
    if |parts| == 1 {
      assert Somes(parts)[1..] == [];
    } else {
      assert SpliceAll(Somes(parts)) == Splice(parts[0]) + SpliceAll(Somes(parts)[1..]);
    }
  }

  lemma PairSplices(a: Option<Ast>, b: Option<Ast>)
    requires a.Some?
    ensures FoldAst([a, b]) == if b.None? then a else Some(Ast([Root], "", Splice(a.value) + Splice(b.value)))
  {
    if b.Some? {
      assert [a, b][1..] == [b] && [b][1..] == [];
      assert SpliceAll([b]) == Splice(b.value);
    }
  }

  // ----- reading a tree -----

  predicate AllDigits(t: string) {
    forall i :: 0 <= i < |t| ==> IsDigit(t[i])
  }

  /** The texts that the number rule takes. */
  predicate IsNumeral(t: string) {
    if t != "" && t[0] == '-' then |t| > 1 && AllDigits(t[1..]) else t != "" && AllDigits(t)
  }

  function NatValue(t: string): nat
    requires AllDigits(t)
  {
    if t == "" then 0 else 10 * NatValue(t[..|t| - 1]) + (t[|t| - 1] as int - '0' as int)
  }

  function NumeralValue(t: string): int
    requires IsNumeral(t)
  {
    if t[0] == '-' then 0 - NatValue(t[1..]) else NatValue(t)
  }

  function ReadNum(t: string): LVal
    requires IsNumeral(t)
  {
    var x := NumeralValue(t);
    if LONG_MIN <= x <= LONG_MAX then Num(x) else Err("invalid number")
  }

  /** The children that reading passes over. */
  predicate Skipped(t: Ast) {
    t.contents in {"(", ")", "}", "{"} || t.tag == [Regex]
  }

  predicate IsListTag(tag: seq<Name>) {
    tag == [Root] || SexprTag in tag || QexprTag in tag
  }

  /** A tree that reading can handle: without a known tag it would work on a null pointer. */
  predicate Readable(t: Ast)
    decreases t
  {
    if Number in t.tag then IsNumeral(t.contents)
    else
      || Symbol in t.tag
      || (IsListTag(t.tag) && forall i :: 0 <= i < |t.children| ==> Skipped(t.children[i]) || Readable(t.children[i]))
  }

  predicate CellsOk(cs: seq<Ast>) {
    forall i :: 0 <= i < |cs| ==> Skipped(cs[i]) || Readable(cs[i])
  }

  function Read(t: Ast): LVal
    requires Readable(t)
    decreases t
  {
    if Number in t.tag then ReadNum(t.contents)
    else if Symbol in t.tag then Sym(t.contents)
    else if QexprTag in t.tag then Qexpr(ReadCells(t.children))
    else Sexpr(ReadCells(t.children))
  }

  function ReadCells(cs: seq<Ast>): seq<LVal>
    requires CellsOk(cs)
    decreases cs
  {
    if cs == [] then []
    else
      assert CellsOk(cs[1..]);
      (if Skipped(cs[0]) then [] else [Read(cs[0])]) + ReadCells(cs[1..])
  }

  lemma {:induction false} ReadCellsAppend(cs: seq<Ast>, ds: seq<Ast>)
    requires CellsOk(cs) && CellsOk(ds)
    ensures CellsOk(cs + ds) && ReadCells(cs + ds) == ReadCells(cs) + ReadCells(ds)
  {
    hide Readable, Skipped, Read;
    if cs == [] {
      assert cs + ds == ds;
    } else {
      var rest := cs[1..];
      assert CellsOk(rest);
      ReadCellsAppend(rest, ds);
      assert cs + ds == [cs[0]] + (rest + ds);
      ReadCellsCons(cs[0], rest + ds);
      ReadCellsCons(cs[0], rest);
      assert cs == [cs[0]] + rest;
    }
  }

  lemma NoCells()
    ensures ReadCells([]) == []
  {}

  lemma ReadCellsCons(c: Ast, cs: seq<Ast>)
    requires (Skipped(c) || Readable(c)) && CellsOk(cs)
    ensures CellsOk([c] + cs) && ReadCells([c] + cs) == (if Skipped(c) then [] else [Read(c)]) + ReadCells(cs)
  {
    hide Readable, Skipped, Read;
    assert ([c] + cs)[1..] == cs;
  }

  /** The tree of an expression: what it splices into a list can be read and is not passed over. */
  predicate PartOk(a: Ast) {
    forall i :: 0 <= i < |Splice(a)| ==> Readable(Splice(a)[i]) && !Skipped(Splice(a)[i])
  }

  /** The tree of a bracketed list. */
  predicate BodyOk(a: Ast) {
    a.tag == [Root] && a.contents == "" && |a.children| >= 2 && CellsOk(a.children)
  }

  lemma {:induction false} SplicedCellsOk(parts: seq<Ast>)
    requires forall i :: 0 <= i < |parts| ==> PartOk(parts[i])
    ensures CellsOk(SpliceAll(Somes(parts)))
  {
    if parts != [] {
      SplicedCellsOk(parts[1..]);
      assert Somes(parts)[1..] == Somes(parts[1..]);
      assert PartOk(parts[0]);
    }
  }

  lemma LineEndsSkipped()
    ensures Skipped(Leaf(Regex, ""))
  {}

  lemma BracketOk(open: Ast, parts: seq<Ast>, close: Ast)
    requires Skipped(open) && Skipped(close) && open.children == [] && close.children == []
    requires forall i :: 0 <= i < |parts| ==> PartOk(parts[i])
    ensures var b := Bracket(open, parts, close);
            && b.Some? && BodyOk(b.value) && CellsOk(SpliceAll(Somes(parts)))
            && ReadCells(b.value.children) == ReadCells(SpliceAll(Somes(parts)))
  {
    hide Readable, Skipped, Read, PartOk, Bracket, SpliceAll, Somes, ReadCells;
    var inner := SpliceAll(Somes(parts));
    BracketSplices(open, parts, close);
    SplicedCellsOk(parts);
    NoCells();
    ReadCellsCons(close, []);
    assert [close] + [] == [close];
    ReadCellsAppend(inner, [close]);
    ReadCellsCons(open, inner + [close]);
    assert [open] + inner + [close] == [open] + (inner + [close]);
  }

  lemma LeafPart(a: Ast, name: Name)
    requires a.children == []
    requires || (name == Number && IsNumeral(a.contents))
             || (name == Symbol && a.contents !in {"(", ")", "}", "{"} && Number !in a.tag)
    ensures var r := Reference(Expr, Reference(name, a));
            Splice(r) == [r] && PartOk(r) && Read(r) == if name == Number then ReadNum(a.contents) else Sym(a.contents)
  {
    var r := Reference(Expr, Reference(name, a));
    assert r == Ast([Expr] + ([name] + a.tag), a.contents, []);
    assert r.tag[1] == name && |r.tag| >= 2;
    if name == Number && IsNumeral(a.contents) {
      assert !Skipped(r);
    }
  }

  lemma ListPart(a: Ast, name: Name)
    requires BodyOk(a) && (name == SexprTag || name == QexprTag)
    ensures var r := Reference(Expr, Reference(name, a));
            && PartOk(r) && |Splice(r)| == 1
            && Read(Splice(r)[0]) ==
                 if name == SexprTag then Sexpr(ReadCells(a.children)) else Qexpr(ReadCells(a.children))
  {
    var tagged := AddTag(a, name);
    assert tagged.tag == [name, Root] && tagged.children == a.children;
    assert Reference(Expr, Reference(name, a)).children == [tagged];
    assert Readable(tagged);
  }

  // ----- the grammar -----

  predicate IsBlank(c: char) {
    c as int == 32 || 9 <= c as int <= 13
  }

  predicate IsDigit(c: char) {
    '0' <= c <= '9'
  }

  function SkipBlank(s: string, pos: nat): (q: nat)
    requires pos <= |s|
    ensures pos <= q <= |s|
    decreases |s| - pos
  {
    if pos < |s| && IsBlank(s[pos]) then SkipBlank(s, pos + 1) else pos
  }

  function SkipDigits(s: string, pos: nat): (q: nat)
    requires pos <= |s|
    ensures pos <= q <= |s| && (forall i :: pos <= i < q ==> IsDigit(s[i])) && (q < |s| ==> !IsDigit(s[q]))
    decreases |s| - pos
  {
    if pos < |s| && IsDigit(s[pos]) then SkipDigits(s, pos + 1) else pos
  }

  predicate At(s: string, pos: nat, t: string) {
    pos + |t| <= |s| && s[pos..pos + |t|] == t
  }

  type Parsed = Option<(Ast, nat)>

  function ParseNumber(s: string, pos: nat): (r: Parsed)
    requires pos <= |s|
    ensures r.Some? ==> pos < r.value.1 <= |s| && r.value.0.children == [] && IsNumeral(r.value.0.contents)
  {
    var start := if pos < |s| && s[pos] == '-' then pos + 1 else pos;
    var end := SkipDigits(s, start);
    if end == start then None else Some((Leaf(Regex, s[pos..end]), SkipBlank(s, end)))
  }

  const SYMBOLS: seq<string> := ["list", "head", "tail", "eval", "join", "+", "-", "*", "/"]

  function ParseSymbol(s: string, pos: nat, i: nat): (r: Parsed)
    requires pos <= |s| && i <= 9
    ensures r.Some? ==> pos < r.value.1 <= |s| && r.value.0.children == []
    ensures r.Some? ==> r.value.0.contents in SYMBOLS && Number !in r.value.0.tag
    decreases 9 - i
  {
    if i == 9 then None
    else if At(s, pos, SYMBOLS[i]) then
      Some((Leaf(if i < 5 then StringTag else CharTag, SYMBOLS[i]), SkipBlank(s, pos + |SYMBOLS[i]|)))
    else ParseSymbol(s, pos, i + 1)
  }

  function ParseList(s: string, pos: nat, open: char, close: char): (r: Parsed)
    requires pos <= |s| && [open] in {"(", "{"} && [close] in {")", "}"}
    ensures r.Some? ==> pos < r.value.1 <= |s| && BodyOk(r.value.0)
    decreases |s| - pos, 0
  {
    if pos == |s| || s[pos] != open then None
    else
      var (parts, q) := ParseMany(s, SkipBlank(s, pos + 1));
      if q == |s| || s[q] != close then None
      else
        BracketOk(Leaf(CharTag, [open]), parts, Leaf(CharTag, [close]));
        Some((Bracket(Leaf(CharTag, [open]), parts, Leaf(CharTag, [close])).value, SkipBlank(s, q + 1)))
  }

  function ParseExpr(s: string, pos: nat): (r: Parsed)
    requires pos <= |s|
    ensures r.Some? ==> pos < r.value.1 <= |s| && PartOk(r.value.0)
    decreases |s| - pos, 1
  {
    var number := ParseNumber(s, pos);
    if number.Some? then
      LeafPart(number.value.0, Number);
      Some((Reference(Expr, Reference(Number, number.value.0)), number.value.1))
    else
      var symbol := ParseSymbol(s, pos, 0);
      if symbol.Some? then
        LeafPart(symbol.value.0, Symbol);
        Some((Reference(Expr, Reference(Symbol, symbol.value.0)), symbol.value.1))
      else
        var sexpr := ParseList(s, pos, '(', ')');
        if sexpr.Some? then
          ListPart(sexpr.value.0, SexprTag);
          Some((Reference(Expr, Reference(SexprTag, sexpr.value.0)), sexpr.value.1))
        else
          var qexpr := ParseList(s, pos, '{', '}');
          if qexpr.Some? then
            ListPart(qexpr.value.0, QexprTag);
            Some((Reference(Expr, Reference(QexprTag, qexpr.value.0)), qexpr.value.1))
          else None
  }

  function ParseMany(s: string, pos: nat): (r: (seq<Ast>, nat))
    requires pos <= |s|
    ensures pos <= r.1 <= |s| && forall i :: 0 <= i < |r.0| ==> PartOk(r.0[i])
    decreases |s| - pos, 2
  {
    var first := ParseExpr(s, pos);
    if first.None? then ([], pos)
    else
      var (rest, q) := ParseMany(s, first.value.1);
      ([first.value.0] + rest, q)
  }

  /** A whole line. */
  function ParseLine(s: string): (r: Option<Ast>)
    ensures r.Some? ==> BodyOk(r.value) && Readable(r.value)
  {
    var (parts, q) := ParseMany(s, SkipBlank(s, 0));
    if q < |s| then None
    else
      BracketOk(Leaf(Regex, ""), parts, Leaf(Regex, ""));
      Bracket(Leaf(Regex, ""), parts, Leaf(Regex, ""))
  }

  /** Parse a line and read its tree; no line makes reading meet a tree it cannot handle. */
  function ReadLine(s: string): Option<LVal> {
    var t := ParseLine(s);
    if t.None? then None else Some(Read(t.value))
  }

  // ----- what is printed reads back -----

  /** Values that the printer and the grammar share: numbers of the machine, the nine symbols, no errors. */
  predicate Plain(v: LVal)
    decreases v
  {
    match v
    case Num(n) => LONG_MIN <= n <= LONG_MAX
    case Err(_) => false
    case Sym(x) => x in SYMBOLS
    case Sexpr(vs) => forall i :: 0 <= i < |vs| ==> Plain(vs[i])
    case Qexpr(vs) => forall i :: 0 <= i < |vs| ==> Plain(vs[i])
  }

  lemma DigitCharValue(d: nat)
    requires d < 10
    ensures IsDigit(DigitChar(d)) && DigitChar(d) as int - '0' as int == d
  {
  }

  lemma NatValueSnoc(t: string, c: char)
    requires AllDigits(t) && IsDigit(c)
    ensures AllDigits(t + [c]) && NatValue(t + [c]) == 10 * NatValue(t) + (c as int - '0' as int)
  {
    assert (t + [c])[..|t|] == t;
  }

  lemma {:induction false} DecimalValue(n: nat)
    ensures Decimal(n) != "" && AllDigits(Decimal(n)) && NatValue(Decimal(n)) == n
  {
    hide NatValue, DigitChar;
    if n < 10 {
      DigitCharValue(n);
      NatValueSnoc("", DigitChar(n));
      assert "" + [DigitChar(n)] == Decimal(n);
      assert NatValue("") == 0 by { NatValueEmpty(); }
    } else {
      DigitCharValue(n % 10);
      DecimalValue(n / 10);
      NatValueSnoc(Decimal(n / 10), DigitChar(n % 10));
    }
  }

  lemma NatValueEmpty()
    ensures NatValue("") == 0
  {
  }

  lemma NumTextValue(n: int)
    ensures IsNumeral(NumText(n)) && NumeralValue(NumText(n)) == n
  {
    hide NatValue, Decimal;
    if n < 0 {
      DecimalValue(-n);
      assert NumText(n)[1..] == Decimal(-n);
    } else {
      DecimalValue(n);
      assert IsDigit(Decimal(n)[0]);
    }
  }

  /** After a printed value comes the end of the line, a blank or a closing bracket. */
  predicate Ends(s: string, q: nat)
    requires q <= |s|
  {
    q == |s| || s[q] == ' ' || s[q] == ')' || s[q] == '}'
  }

  lemma NumberPrinted(n: int, s: string, pos: nat)
    requires At(s, pos, NumText(n)) && Ends(s, pos + |NumText(n)|)
    ensures ParseNumber(s, pos) == Some((Leaf(Regex, NumText(n)), SkipBlank(s, pos + |NumText(n)|)))
  {
    hide NumText, NumeralValue, NatValue;
    NumTextValue(n);
    NumeralTaken(NumText(n), s, pos);
  }

  lemma NumeralTaken(t: string, s: string, pos: nat)
    requires IsNumeral(t) && At(s, pos, t) && Ends(s, pos + |t|)
    ensures ParseNumber(s, pos) == Some((Leaf(Regex, t), SkipBlank(s, pos + |t|)))
  {
    hide SkipBlank;
    assert s[pos] == t[0];
    var start := if s[pos] == '-' then pos + 1 else pos;
    forall i | start <= i < pos + |t| ensures IsDigit(s[i]) {
      assert s[i] == t[i - pos];
      if start == pos + 1 { assert t[i - pos] == t[1..][i - pos - 1]; }
    }
    assert SkipDigits(s, start) == pos + |t|;
  }

  lemma NotANumber(s: string, pos: nat)
    requires pos <= |s|
    requires pos == |s| || (!IsDigit(s[pos]) && (s[pos] == '-' ==> pos + 1 == |s| || !IsDigit(s[pos + 1])))
    ensures ParseNumber(s, pos) == None
  {
  }

  /** Two symbols cannot both be present at a position. */
  lemma SymbolsDiffer(s: string, pos: nat, i: nat, j: nat)
    requires i < 9 && j < 9 && At(s, pos, SYMBOLS[i]) && At(s, pos, SYMBOLS[j])
    ensures i == j
  {
    assert s[pos] == SYMBOLS[i][0] && s[pos] == SYMBOLS[j][0];
  }

  lemma {:induction false} SymbolFound(s: string, pos: nat, i: nat, k: nat)
    requires i <= k < 9 && At(s, pos, SYMBOLS[k])
    ensures ParseSymbol(s, pos, i).Some?
    ensures ParseSymbol(s, pos, i).value.0.contents == SYMBOLS[k]
    ensures ParseSymbol(s, pos, i).value.1 == SkipBlank(s, pos + |SYMBOLS[k]|)
    decreases k - i
  {
    if At(s, pos, SYMBOLS[i]) {
      SymbolsDiffer(s, pos, i, k);
    } else {
      SymbolFound(s, pos, i + 1, k);
    }
  }

  lemma NotAt(s: string, pos: nat, t: string)
    requires t != "" && (pos >= |s| || s[pos] != t[0])
    ensures !At(s, pos, t)
  {
    if pos + |t| <= |s| {
      assert s[pos..pos + |t|][0] == s[pos];
    }
  }

  lemma {:induction false} NotASymbol(s: string, pos: nat, i: nat)
    requires pos <= |s| && i <= 9 && (pos == |s| || s[pos] in ['(', ')', '{', '}'])
    ensures ParseSymbol(s, pos, i) == None
    decreases 9 - i
  {
    if i < 9 {
      NotASymbol(s, pos, i + 1);
      NotAt(s, pos, SYMBOLS[i]);
    }
  }

  lemma PrintStarts(v: LVal)
    requires Plain(v)
    ensures Print(v) != "" && !IsBlank(Print(v)[0])
  {
    if v.Num? {
      NumTextValue(v.num);
    }
  }

  lemma SymbolPrinted(x: string, s: string, pos: nat)
    requires x in SYMBOLS && At(s, pos, x) && Ends(s, pos + |x|)
    ensures ParseNumber(s, pos) == None
    ensures ParseSymbol(s, pos, 0).Some?
    ensures ParseSymbol(s, pos, 0).value.0.contents == x && ParseSymbol(s, pos, 0).value.1 == SkipBlank(s, pos + |x|)
  {
    hide ParseNumber, ParseSymbol, SkipBlank;
    var k :| 0 <= k < 9 && SYMBOLS[k] == x;
    SymbolFound(s, pos, 0, k);
    SymbolIsNoNumber(k, s, pos);
    NotANumber(s, pos);
  }

  /** No symbol starts with a digit, and the minus sign ends where it stands. */
  lemma SymbolIsNoNumber(k: nat, s: string, pos: nat)
    requires k < 9 && At(s, pos, SYMBOLS[k]) && Ends(s, pos + |SYMBOLS[k]|)
    ensures !IsDigit(s[pos]) && (s[pos] == '-' ==> pos + 1 == |s| || !IsDigit(s[pos + 1]))
  {
    assert s[pos] == SYMBOLS[k][0];
  }

  /** The parse of the text of `v` at `pos` reads back as `v`. */
  ghost predicate ReadsBack(v: LVal, s: string, pos: nat)
    requires At(s, pos, Print(v))
  {
    var r := ParseExpr(s, pos);
    && r.Some? && r.value.1 == SkipBlank(s, pos + |Print(v)|)
    && CellsOk(Splice(r.value.0)) && ReadCells(Splice(r.value.0)) == [v]
  }

  // The four rules of an expression.

  lemma ExprIsNumber(s: string, pos: nat)
    requires pos <= |s| && ParseNumber(s, pos).Some?
    ensures var r := ParseNumber(s, pos).value;
            ParseExpr(s, pos) == Some((Reference(Expr, Reference(Number, r.0)), r.1))
  {
    hide ParseNumber, ParseSymbol, ParseList, Reference, PartOk, BodyOk;
  }

  lemma ExprIsSymbol(s: string, pos: nat)
    requires pos <= |s| && ParseNumber(s, pos).None? && ParseSymbol(s, pos, 0).Some?
    ensures var r := ParseSymbol(s, pos, 0).value;
            ParseExpr(s, pos) == Some((Reference(Expr, Reference(Symbol, r.0)), r.1))
  {
    hide ParseNumber, ParseSymbol, ParseList, Reference, PartOk, BodyOk;
  }

  lemma ExprIsSexpr(s: string, pos: nat)
    requires pos <= |s| && ParseNumber(s, pos).None? && ParseSymbol(s, pos, 0).None?
    requires ParseList(s, pos, '(', ')').Some?
    ensures var r := ParseList(s, pos, '(', ')').value;
            ParseExpr(s, pos) == Some((Reference(Expr, Reference(SexprTag, r.0)), r.1))
  {
    hide ParseNumber, ParseSymbol, ParseList, Reference, PartOk, BodyOk;
  }

  lemma ExprIsQexpr(s: string, pos: nat)
    requires pos <= |s| && ParseNumber(s, pos).None? && ParseSymbol(s, pos, 0).None?
    requires ParseList(s, pos, '(', ')').None? && ParseList(s, pos, '{', '}').Some?
    ensures var r := ParseList(s, pos, '{', '}').value;
            ParseExpr(s, pos) == Some((Reference(Expr, Reference(QexprTag, r.0)), r.1))
  {
    hide ParseNumber, ParseSymbol, ParseList, Reference, PartOk, BodyOk;
  }

  lemma ReadOne(c: Ast)
    requires Readable(c) && !Skipped(c)
    ensures CellsOk([c]) && ReadCells([c]) == [Read(c)]
  {
    hide Readable, Skipped, Read;
    assert [c][1..] == [];
  }

  lemma {:induction false} ExprReadsBack(v: LVal, s: string, pos: nat)
    requires Plain(v) && At(s, pos, Print(v)) && Ends(s, pos + |Print(v)|)
    ensures ReadsBack(v, s, pos)
    decreases v
  {
    hide ParseExpr, ParseNumber, ParseSymbol, ParseList, ParseMany;
    hide Reference, Splice, Readable, Read, ReadCells, Skipped, NumText;
    match v
    case Num(n) =>
      NumberPrinted(n, s, pos);
      NumTextValue(n);
      var leaf := Leaf(Regex, NumText(n));
      LeafPart(leaf, Number);
      ExprIsNumber(s, pos);
      ReadOne(Splice(Reference(Expr, Reference(Number, leaf)))[0]);
    case Sym(x) =>
      SymbolPrinted(x, s, pos);
      var leaf := ParseSymbol(s, pos, 0).value.0;
      LeafPart(leaf, Symbol);
      ExprIsSymbol(s, pos);
      ReadOne(Splice(Reference(Expr, Reference(Symbol, leaf)))[0]);
    case Sexpr(vs) =>
      ListReadsBack(vs, s, pos, '(', ')');
      SexprReadsBack(vs, s, pos);
    case Qexpr(vs) =>
      ListReadsBack(vs, s, pos, '{', '}');
      QexprReadsBack(vs, s, pos);
  }

  lemma SexprReadsBack(vs: seq<LVal>, s: string, pos: nat)
    requires At(s, pos, Print(Sexpr(vs)))
    requires var r := ParseList(s, pos, '(', ')');
             r.Some? && r.value.1 == SkipBlank(s, pos + |PrintAll(vs)| + 2) && ReadCells(r.value.0.children) == vs
    ensures ReadsBack(Sexpr(vs), s, pos)
  {
    hide ParseExpr, ParseNumber, ParseSymbol, ParseList, ParseMany;
    hide Reference, Splice, Readable, Read, ReadCells, Skipped, PrintAll;
    NotALeaf(s, pos, Print(Sexpr(vs)));
    var body := ParseList(s, pos, '(', ')').value.0;
    ListPart(body, SexprTag);
    ExprIsSexpr(s, pos);
    var cells := Splice(Reference(Expr, Reference(SexprTag, body)));
    ReadOne(cells[0]);
    assert cells == [cells[0]];
  }

  lemma QexprReadsBack(vs: seq<LVal>, s: string, pos: nat)
    requires At(s, pos, Print(Qexpr(vs)))
    requires var r := ParseList(s, pos, '{', '}');
             r.Some? && r.value.1 == SkipBlank(s, pos + |PrintAll(vs)| + 2) && ReadCells(r.value.0.children) == vs
    ensures ReadsBack(Qexpr(vs), s, pos)
  {
    hide ParseExpr, ParseNumber, ParseSymbol, ParseList, ParseMany;
    hide Reference, Splice, Readable, Read, ReadCells, Skipped, PrintAll;
    NotALeaf(s, pos, Print(Qexpr(vs)));
    NotAList(s, pos, Print(Qexpr(vs)));
    var body := ParseList(s, pos, '{', '}').value.0;
    ListPart(body, QexprTag);
    ExprIsQexpr(s, pos);
    var cells := Splice(Reference(Expr, Reference(QexprTag, body)));
    ReadOne(cells[0]);
    assert cells == [cells[0]];
  }

  lemma NotALeaf(s: string, pos: nat, t: string)
    requires At(s, pos, t) && t != "" && (t[0] == '(' || t[0] == '{')
    ensures ParseNumber(s, pos).None? && ParseSymbol(s, pos, 0).None?
  {
    assert s[pos] == t[0];
    NotANumber(s, pos);
    NotASymbol(s, pos, 0);
  }

  lemma NotAList(s: string, pos: nat, t: string)
    requires At(s, pos, t) && t != "" && t[0] != '('
    ensures ParseList(s, pos, '(', ')').None?
  {
    assert s[pos] == t[0];
  }

  lemma {:induction false} ListReadsBack(vs: seq<LVal>, s: string, pos: nat, open: char, close: char)
    requires (forall i :: 0 <= i < |vs| ==> Plain(vs[i])) && At(s, pos, [open] + PrintAll(vs) + [close])
    requires (open == '(' && close == ')') || (open == '{' && close == '}')
    ensures var r := ParseList(s, pos, open, close);
            && r.Some? && r.value.1 == SkipBlank(s, pos + |PrintAll(vs)| + 2)
            && ReadCells(r.value.0.children) == vs
    decreases vs, 1
  {
    hide ParseMany, Bracket, BodyOk, CellsOk, ReadCells, Plain, Print, PrintAll, SpliceAll, Somes;
    Brackets(s, pos, open, PrintAll(vs), close);
    ListStarts(vs);
    assert vs != [] ==> s[pos + 1] == s[pos + 1..pos + 1 + |PrintAll(vs)|][0];
    assert SkipBlank(s, pos + 1) == pos + 1;
    ManyReadsBack(vs, s, pos + 1);
    BracketOk(Leaf(CharTag, [open]), ParseMany(s, pos + 1).0, Leaf(CharTag, [close]));
  }

  /** What a text carries at a position it carries in parts. */
  lemma SubAt(s: string, pos: nat, t: string, i: nat, j: nat)
    requires At(s, pos, t) && i <= j <= |t|
    ensures At(s, pos + i, t[i..j])
    ensures i < |t| ==> s[pos + i] == t[i]
  {
    var part := s[pos..pos + |t|];
    assert i < |t| ==> s[pos + i] == part[i];
    forall k | i <= k < j ensures s[pos + k] == t[k] { assert s[pos + k] == part[k]; }
    assert s[pos + i..pos + j] == t[i..j];
  }

  lemma Brackets(s: string, pos: nat, open: char, body: string, close: char)
    requires At(s, pos, [open] + body + [close])
    ensures s[pos] == open && At(s, pos + 1, body) && s[pos + 1 + |body|] == close
  {
    var t := [open] + body + [close];
    assert |t| == |body| + 2;
    assert t[0] == open && t[1 + |body|] == close;
    assert t[1..1 + |body|] == body;
    SubAt(s, pos, t, 0, 1);
    SubAt(s, pos, t, 1 + |body|, 2 + |body|);
    SubAt(s, pos, t, 1, 1 + |body|);
  }

  lemma ListStarts(vs: seq<LVal>)
    requires forall i :: 0 <= i < |vs| ==> Plain(vs[i])
    ensures if vs == [] then PrintAll(vs) == "" else PrintAll(vs) != "" && !IsBlank(PrintAll(vs)[0])
  {
    if vs != [] { PrintStarts(vs[0]); }
  }

  lemma {:induction false} ManyReadsBack(vs: seq<LVal>, s: string, pos: nat)
    requires (forall i :: 0 <= i < |vs| ==> Plain(vs[i])) && At(s, pos, PrintAll(vs))
    requires var q := pos + |PrintAll(vs)|; q == |s| || s[q] == ')' || s[q] == '}'
    ensures ParseMany(s, pos).1 == pos + |PrintAll(vs)|
    ensures var cells := SpliceAll(Somes(ParseMany(s, pos).0));
            CellsOk(cells) && ReadCells(cells) == vs
    decreases vs, 0
  {
    hide ParseExpr, ParseMany, ReadCells, Plain, Print, Splice, SpliceAll, Somes, Readable, Skipped, SkipBlank;
    if vs == [] {
      NothingToParse(s, pos);
      NothingRead();
    } else {
      var e := pos + |Print(vs[0])|;
      ListText(vs, s, pos);
      ExprReadsBack(vs[0], s, pos);
      ManyReadsBack(vs[1..], s, if |vs| > 1 then e + 1 else e);
      ReadFirst(s, pos, vs[0], vs[1..]);
    }
  }

  lemma NothingToParse(s: string, pos: nat)
    requires pos <= |s| && (pos == |s| || s[pos] == ')' || s[pos] == '}')
    ensures ParseMany(s, pos) == ([], pos) && ReadCells(SpliceAll(Somes([]))) == []
  {
    hide ParseExpr, Readable, Skipped;
    NoExpr(s, pos);
    assert Somes([]) == [];
  }

  lemma NoExpr(s: string, pos: nat)
    requires pos <= |s| && (pos == |s| || s[pos] == ')' || s[pos] == '}')
    ensures ParseExpr(s, pos) == None
  {
    hide ParseNumber, ParseSymbol, ParseMany, Bracket, Reference, PartOk, BodyOk;
    NotANumber(s, pos);
    NotASymbol(s, pos, 0);
  }

  /** The text of a list is the text of its first value, and after a blank that of the others. */
  lemma ListText(vs: seq<LVal>, s: string, pos: nat)
    requires vs != [] && (forall i :: 0 <= i < |vs| ==> Plain(vs[i])) && At(s, pos, PrintAll(vs))
    requires var q := pos + |PrintAll(vs)|; q == |s| || s[q] == ')' || s[q] == '}'
    ensures At(s, pos, Print(vs[0])) && Ends(s, pos + |Print(vs[0])|)
    ensures var next := if |vs| > 1 then pos + |Print(vs[0])| + 1 else pos + |Print(vs[0])|;
            && SkipBlank(s, pos + |Print(vs[0])|) == next && At(s, next, PrintAll(vs[1..]))
            && next + |PrintAll(vs[1..])| == pos + |PrintAll(vs)|
  {
    hide Plain, Print;
    var text, first := PrintAll(vs), Print(vs[0]);
    var e := pos + |first|;
    assert s[pos..e] == text[..|first|];
    if |vs| > 1 {
      assert s[e] == text[|first|] == ' ';
      assert s[e + 1..pos + |text|] == text[|first| + 1..] == PrintAll(vs[1..]);
      ListStarts(vs[1..]);
      assert s[e + 1] == s[e + 1..pos + |text|][0];
      assert SkipBlank(s, e + 1) == e + 1;
    } else {
      assert vs[1..] == [];
    }
  }

  lemma ReadFirst(s: string, pos: nat, v: LVal, vs: seq<LVal>)
    requires At(s, pos, Print(v)) && ReadsBack(v, s, pos)
    requires var cells := SpliceAll(Somes(ParseMany(s, SkipBlank(s, pos + |Print(v)|)).0));
             CellsOk(cells) && ReadCells(cells) == vs
    ensures ParseMany(s, pos).1 == ParseMany(s, SkipBlank(s, pos + |Print(v)|)).1
    ensures var cells := SpliceAll(Somes(ParseMany(s, pos).0));
            CellsOk(cells) && ReadCells(cells) == [v] + vs
  {
    hide ParseExpr, ReadCells, Print, Splice, Readable, Skipped, CellsOk, SkipBlank;
    var parts := ParseMany(s, pos).0;
    var a, rest := parts[0], parts[1..];
    assert parts == [a] + rest && rest == ParseMany(s, SkipBlank(s, pos + |Print(v)|)).0;
    assert Somes(parts)[1..] == Somes(rest);
    ReadCellsAppend(Splice(a), SpliceAll(Somes(rest)));
  }

  /** The round trip: a printed value reads back as itself, inside the S-expression of the line. */
  lemma PrintReadRoundTrip(v: LVal)
    requires Plain(v)
    ensures ReadLine(Print(v)) == Some(Sexpr([v]))
  {
    hide Plain, Print, ParseMany, Bracket, Read, Readable, ReadCells, Skipped, SpliceAll, Somes;
    var s := Print(v);
    PrintStarts(v);
    assert PrintAll([v]) == s && s[0..|s|] == s;
    ManyReadsBack([v], s, 0);
    var parts := ParseMany(s, 0).0;
    LineEndsSkipped();
    BracketOk(Leaf(Regex, ""), parts, Leaf(Regex, ""));
    ReadRoot(ParseLine(s).value);
  }

  lemma ReadRoot(t: Ast)
    requires BodyOk(t)
    ensures Readable(t) && Read(t) == Sexpr(ReadCells(t.children))
  {
  }

  // ----- nothing else reads back -----

  /** What reading a line can yield: machine numbers, or an error in their place, and the nine symbols. */
  predicate Shaped(v: LVal)
    decreases v
  {
    match v
    case Num(n) => LONG_MIN <= n <= LONG_MAX
    case Err(m) => m == "invalid number"
    case Sym(x) => x in SYMBOLS
    case Sexpr(vs) => forall i :: 0 <= i < |vs| ==> Shaped(vs[i])
    case Qexpr(vs) => forall i :: 0 <= i < |vs| ==> Shaped(vs[i])
  }

  predicate AllShaped(vs: seq<LVal>) {
    forall i :: 0 <= i < |vs| ==> Shaped(vs[i])
  }

  /** The text from `pos` to `q` has no `E`, the letter that a printed error starts with. */
  predicate Plainly(s: string, pos: nat, q: nat) {
    forall i :: pos <= i < q && i < |s| ==> s[i] != 'E'
  }

  lemma {:induction false} BlanksPlainly(s: string, pos: nat)
    requires pos <= |s|
    ensures Plainly(s, pos, SkipBlank(s, pos))
    decreases |s| - pos
  {
    if pos < |s| && IsBlank(s[pos]) {
      BlanksPlainly(s, pos + 1);
    }
  }

  lemma NumberPlainly(s: string, pos: nat)
    requires pos <= |s| && ParseNumber(s, pos).Some?
    ensures Plainly(s, pos, ParseNumber(s, pos).value.1)
  {
    var start := if pos < |s| && s[pos] == '-' then pos + 1 else pos;
    BlanksPlainly(s, SkipDigits(s, start));
  }

  lemma {:induction false} SymbolPlainly(s: string, pos: nat, i: nat)
    requires pos <= |s| && i <= 9 && ParseSymbol(s, pos, i).Some?
    ensures Plainly(s, pos, ParseSymbol(s, pos, i).value.1)
    decreases 9 - i
  {
    if At(s, pos, SYMBOLS[i]) {
      var t := SYMBOLS[i];
      assert 'E' !in t;
      forall j | pos <= j < pos + |t| ensures s[j] != 'E' { assert s[j] == s[pos..pos + |t|][j - pos]; }
      BlanksPlainly(s, pos + |t|);
    } else {
      SymbolPlainly(s, pos, i + 1);
    }
  }

  /** What an expression reads as, and that its text has no `E`. */
  ghost predicate ExprGood(s: string, pos: nat)
    requires pos <= |s|
  {
    var r := ParseExpr(s, pos);
    r.Some? ==> && CellsOk(Splice(r.value.0)) && AllShaped(ReadCells(Splice(r.value.0)))
                && Plainly(s, pos, r.value.1)
  }

  ghost predicate ListGood(s: string, pos: nat, open: char, close: char)
    requires pos <= |s| && [open] in {"(", "{"} && [close] in {")", "}"}
  {
    var r := ParseList(s, pos, open, close);
    r.Some? ==> AllShaped(ReadCells(r.value.0.children)) && Plainly(s, pos, r.value.1)
  }

  lemma {:induction false} ExprIsGood(s: string, pos: nat)
    requires pos <= |s|
    ensures ExprGood(s, pos)
    decreases |s| - pos, 1
  {
    hide ParseExpr, ParseNumber, ParseSymbol, ParseList, Reference, Splice, Readable, Read, ReadCells, Skipped, Plainly;
    if ParseNumber(s, pos).Some? {
      var leaf := ParseNumber(s, pos).value.0;
      LeafPart(leaf, Number);
      ExprIsNumber(s, pos);
      NumberPlainly(s, pos);
      ReadOne(Splice(Reference(Expr, Reference(Number, leaf)))[0]);
    } else if ParseSymbol(s, pos, 0).Some? {
      var leaf := ParseSymbol(s, pos, 0).value.0;
      LeafPart(leaf, Symbol);
      ExprIsSymbol(s, pos);
      SymbolPlainly(s, pos, 0);
      ReadOne(Splice(Reference(Expr, Reference(Symbol, leaf)))[0]);
    } else if ParseList(s, pos, '(', ')').Some? {
      ListIsGood(s, pos, '(', ')');
      ExprIsSexpr(s, pos);
      ListExprGood(ParseList(s, pos, '(', ')').value.0, SexprTag);
    } else if ParseList(s, pos, '{', '}').Some? {
      ListIsGood(s, pos, '{', '}');
      ExprIsQexpr(s, pos);
      ListExprGood(ParseList(s, pos, '{', '}').value.0, QexprTag);
    } else {
      ExprIsNothing(s, pos);
    }
  }

  lemma ExprIsNothing(s: string, pos: nat)
    requires pos <= |s| && ParseNumber(s, pos).None? && ParseSymbol(s, pos, 0).None?
    requires ParseList(s, pos, '(', ')').None? && ParseList(s, pos, '{', '}').None?
    ensures ParseExpr(s, pos) == None
  {
    hide ParseNumber, ParseSymbol, ParseList, Reference, PartOk, BodyOk;
  }

  lemma ListExprGood(body: Ast, name: Name)
    requires BodyOk(body) && (name == SexprTag || name == QexprTag) && AllShaped(ReadCells(body.children))
    ensures var cells := Splice(Reference(Expr, Reference(name, body)));
            CellsOk(cells) && AllShaped(ReadCells(cells))
  {
    hide Reference, Splice, Readable, Read, ReadCells, Skipped;
    ListPart(body, name);
    var cells := Splice(Reference(Expr, Reference(name, body)));
    ReadOne(cells[0]);
    assert cells == [cells[0]];
  }

  lemma {:induction false} ListIsGood(s: string, pos: nat, open: char, close: char)
    requires pos <= |s| && [open] in {"(", "{"} && [close] in {")", "}"}
    ensures ListGood(s, pos, open, close)
    decreases |s| - pos, 0
  {
    hide ParseMany, Bracket, BodyOk, CellsOk, ReadCells, SpliceAll, Somes, Shaped, SkipBlank;
    if pos < |s| && s[pos] == open {
      var q := SkipBlank(s, pos + 1);
      BlanksPlainly(s, pos + 1);
      ManyIsGood(s, q);
      var (parts, e) := ParseMany(s, q);
      BracketOk(Leaf(CharTag, [open]), parts, Leaf(CharTag, [close]));
      if e < |s| && s[e] == close {
        BlanksPlainly(s, e + 1);
        assert open != 'E' && close != 'E' by { assert "E" !in {"(", "{"} && "E" !in {")", "}"}; }
      }
    }
  }

  lemma {:induction false} ManyIsGood(s: string, pos: nat)
    requires pos <= |s|
    ensures var (parts, q) := ParseMany(s, pos);
            && CellsOk(SpliceAll(Somes(parts))) && AllShaped(ReadCells(SpliceAll(Somes(parts))))
            && Plainly(s, pos, q)
    decreases |s| - pos, 2
  {
    hide ParseExpr, ReadCells, Splice, Readable, Skipped, CellsOk, Shaped;
    ExprIsGood(s, pos);
    var first := ParseExpr(s, pos);
    if first.None? {
      NothingRead();
    } else {
      ManyIsGood(s, first.value.1);
      var parts, rest := ParseMany(s, pos).0, ParseMany(s, first.value.1).0;
      assert parts == [first.value.0] + rest && Somes(parts)[1..] == Somes(rest);
      ReadCellsAppend(Splice(first.value.0), SpliceAll(Somes(rest)));
    }
  }

  lemma NothingRead()
    ensures CellsOk(SpliceAll(Somes([]))) && ReadCells(SpliceAll(Somes([]))) == []
  {
    assert Somes([]) == [];
  }

  /** Every line that parses reads as a list of such values, and has no `E`. */
  lemma LineIsGood(s: string)
    requires ReadLine(s).Some?
    ensures ReadLine(s).value.Sexpr? && AllShaped(ReadLine(s).value.cell) && 'E' !in s
  {
    hide ParseMany, Bracket, Read, Readable, ReadCells, Skipped, SpliceAll, Somes, Shaped, SkipBlank;
    var q := SkipBlank(s, 0);
    BlanksPlainly(s, 0);
    ManyIsGood(s, q);
    LineEndsSkipped();
    BracketOk(Leaf(Regex, ""), ParseMany(s, q).0, Leaf(Regex, ""));
    ReadRoot(ParseLine(s).value);
  }

  /** A value that reading can yield but that is not plain has an error in it, which prints an `E`. */
  lemma {:induction false} ErrorShows(v: LVal)
    requires Shaped(v) && !Plain(v)
    ensures 'E' in Print(v)
    decreases v
  {
    match v
    case Num(_) =>
    case Err(m) => assert ("Error: " + m)[0] == 'E';
    case Sym(_) =>
    case Sexpr(vs) => ErrorShowsIn(vs);
    case Qexpr(vs) => ErrorShowsIn(vs);
  }

  lemma {:induction false} ErrorShowsIn(vs: seq<LVal>)
    requires AllShaped(vs) && !(forall i :: 0 <= i < |vs| ==> Plain(vs[i]))
    ensures 'E' in PrintAll(vs)
    decreases vs
  {
    hide Plain, Shaped, Print;
    if Plain(vs[0]) {
      ErrorShowsIn(vs[1..]);
    } else {
      ErrorShows(vs[0]);
    }
  }

  /** The round trip works for exactly the plain values. */
  lemma RoundTripIff(v: LVal)
    ensures ReadLine(Print(v)) == Some(Sexpr([v])) <==> Plain(v)
  {
    hide ReadLine, Plain, Shaped, Print;
    if Plain(v) {
      PrintReadRoundTrip(v);
    } else if ReadLine(Print(v)) == Some(Sexpr([v])) {
      LineIsGood(Print(v));
      assert Shaped([v][0]);
      ErrorShows(v);
    }
  }

  // ----- the loops of the printer and the reader -----

  method LvalPrint(v: LVal) returns (out: string)
    ensures out == Print(v)
    decreases v
  {
    match v
    case Num(n) => out := NumText(n);
    case Err(m) => out := "Error: " + m;
    case Sym(x) => out := x;
    case Sexpr(vs) => out := ExprPrint(vs, '(', ')');
    case Qexpr(vs) => out := ExprPrint(vs, '{', '}');
  }

  method ExprPrint(vs: seq<LVal>, open: char, close: char) returns (out: string)
    ensures out == [open] + PrintAll(vs) + [close]
    decreases vs
  {
    hide Print;
    out := [open];
    for i := 0 to |vs|
      invariant out + PrintAll(vs[i..]) == [open] + PrintAll(vs)
    {
      ghost var before, rest := out, PrintAll(vs[i + 1..]);
      assert vs[i..][1..] == vs[i + 1..];
      var text := LvalPrint(vs[i]);
      out := out + text;
      if i != |vs| - 1 {
        out := out + " ";
        assert out + rest == before + (text + " " + rest);
      } else {
        assert out + rest == before + text;
      }
    }
    assert vs[|vs|..] == [];
    out := out + [close];
  }

  method LvalRead(t: Ast) returns (v: LVal)
    requires Readable(t)
    ensures v == Read(t)
    decreases t
  {
    if Number in t.tag { return ReadNum(t.contents); }
    if Symbol in t.tag { return Sym(t.contents); }
    var x := ReadChildren(t.children);
    v := if QexprTag in t.tag then Qexpr(x) else Sexpr(x);
  }

  method ReadChildren(cs: seq<Ast>) returns (x: seq<LVal>)
    requires CellsOk(cs)
    ensures x == ReadCells(cs)
    decreases cs
  {
    hide Readable, Read, ReadCells, Skipped;
    x := [];
    for i := 0 to |cs|
      invariant CellsOk(cs[i..]) && x + ReadCells(cs[i..]) == ReadCells(cs)
    {
      ghost var before, rest := x, cs[i + 1..];
      assert cs[i..] == [cs[i]] + rest;
      assert CellsOk(rest);
      ReadCellsCons(cs[i], rest);
      if !Skipped(cs[i]) {
        var c := LvalRead(cs[i]);
        x := x + [c];
        assert x + ReadCells(rest) == before + ([c] + ReadCells(rest));
      }
    }
    assert cs[|cs|..] == [];
    assert ReadCells([]) == [] by { ReadNothing(); }
  }

  lemma ReadNothing()
    ensures ReadCells([]) == []
  {
  }
}
