/** What numerals read as and what values print as, from the decimal system and the look of the text. */
module LispyTextLaws {
  import opened Lispy
  import opened LispyText

  // ----- numerals -----

  const DIGITS := "0123456789"

  predicate DigitText(t: string) {
    t != "" && forall i :: 0 <= i < |t| ==> t[i] in DIGITS
  }

  function DigitValue(c: char): (d: nat)
    requires c in DIGITS
    ensures d < 10 && DIGITS[d] == c
  {
    var d: nat :| d < 10 && DIGITS[d] == c;
    d
  }

  function TenToThe(e: nat): nat {
    if e == 0 then 1 else 10 * TenToThe(e - 1)
  }

  /** The sum of each digit times its power of ten. */
  function Positional(t: string): nat
    requires forall i :: 0 <= i < |t| ==> t[i] in DIGITS
  {
    if t == "" then 0 else DigitValue(t[0]) * TenToThe(|t| - 1) + Positional(t[1..])
  }

  lemma DigitIs(c: char)
    ensures c in DIGITS <==> IsDigit(c)
    ensures c in DIGITS ==> DigitValue(c) == c as int - '0' as int
  {
    if c in DIGITS {
      var d := DigitValue(c);
      assert DIGITS[d] as int == '0' as int + d;
    }
    if IsDigit(c) {
      var d := c as int - '0' as int;
      assert DIGITS[d] == c;
    }
  }

  lemma DigitsAre(t: string)
    ensures (forall i :: 0 <= i < |t| ==> t[i] in DIGITS) <==> AllDigits(t)
  {
    forall i | 0 <= i < |t| ensures t[i] in DIGITS <==> IsDigit(t[i]) { DigitIs(t[i]); }
  }

  lemma {:induction false} PositionalSnoc(t: string, c: char)
    requires (forall i :: 0 <= i < |t| ==> t[i] in DIGITS) && c in DIGITS
    ensures Positional(t + [c]) == 10 * Positional(t) + DigitValue(c)
  {
    hide DigitValue;
    if t == "" {
      assert t + [c] == [c] && [c][1..] == "";
    } else {
      PositionalSnoc(t[1..], c);
      var u := t + [c];
      assert u[1..] == t[1..] + [c] && u[0] == t[0];
      TenMore(DigitValue(t[0]), TenToThe(|t| - 1));
    }
  }

  lemma TenMore(d: nat, p: nat)
    ensures d * (10 * p) == 10 * (d * p)
  {
  }

  lemma {:induction false} NatValueIsPositional(t: string)
    requires forall i :: 0 <= i < |t| ==> t[i] in DIGITS
    ensures AllDigits(t) && NatValue(t) == Positional(t)
    decreases |t|
  {
    DigitsAre(t);
    if t != "" {
      var before, c := t[..|t| - 1], t[|t| - 1];
      NatValueIsPositional(before);
      PositionalSnoc(before, c);
      DigitIs(c);
      assert t == before + [c];
    }
  }

  /** A line with one numeral, leading zeros or not: the number, or an error if `long` cannot hold it. */
  lemma NumeralReads(minus: bool, digits: string)
    requires DigitText(digits)
    ensures var t := (if minus then "-" else "") + digits;
            var v: int := if minus then 0 - Positional(digits) else Positional(digits);
            ReadLine(t) == Some(Sexpr([if -0x8000_0000_0000_0000 <= v <= 0x7fff_ffff_ffff_ffff then Num(v)
                                       else Err("invalid number")]))
  {
    hide ReadLine, IsNumeral, NumeralValue, Positional, DigitText, IsBlank;
    var t := (if minus then "-" else "") + digits;
    NumeralText(minus, digits);
    LoneNumeral(t);
  }

  /** A printed number is its decimal notation: a minus sign exactly if negative, and no leading zero. */
  lemma NumberText(n: int)
    ensures var t := Print(Num(n));
            var digits := if n < 0 then t[1..] else t;
            && t != "" && (t[0] == '-' <==> n < 0)
            && DigitText(digits) && Positional(digits) == (if n < 0 then -n else n)
            && (digits[0] == '0' ==> digits == "0")
  {
    hide Positional, Decimal;
    var m := if n < 0 then -n else n;
    DecimalText(m);
    assert n < 0 ==> ("-" + Decimal(m))[1..] == Decimal(m);
  }

  lemma {:induction false} DecimalText(n: nat)
    ensures var t := Decimal(n); DigitText(t) && t[0] != '-' && Positional(t) == n && (t[0] == '0' <==> n == 0)
    ensures n == 0 ==> Decimal(n) == "0"
  {
    DecimalValue(n);
    DigitsAre(Decimal(n));
    NatValueIsPositional(Decimal(n));
    if n >= 10 { DecimalText(n / 10); }
  }

  lemma NumeralText(minus: bool, digits: string)
    requires DigitText(digits)
    ensures var t := (if minus then "-" else "") + digits;
            && IsNumeral(t) && !IsBlank(t[0])
            && NumeralValue(t) == if minus then 0 - Positional(digits) else Positional(digits)
  {
    hide NatValue, Positional;
    NatValueIsPositional(digits);
    DigitIs(digits[0]);
    if minus {
      assert ("-" + digits)[1..] == digits;
    } else {
      assert "" + digits == digits;
    }
  }

  lemma LoneNumeral(t: string)
    requires IsNumeral(t) && !IsBlank(t[0])
    ensures ReadLine(t) == Some(Sexpr([ReadNum(t)]))
  {
    hide ParseNumber, ParseExpr, ParseMany, Bracket, Read, ReadCells, Readable, Skipped, Splice, SpliceAll, Somes;
    hide Reference, ReadNum;
    assert At(t, 0, t) && SkipBlank(t, 0) == 0 && SkipBlank(t, |t|) == |t|;
    NumeralTaken(t, t, 0);
    ExprIsNumber(t, 0);
    var leaf := Leaf(Regex, t);
    LeafPart(leaf, Number);
    var part := Reference(Expr, Reference(Number, leaf));
    ReadOne(Splice(part)[0]);
    NothingToParse(t, |t|);
    OnePart(t, part);
    LineEndsSkipped();
    BracketOk(Leaf(Regex, ""), ParseMany(t, 0).0, Leaf(Regex, ""));
    ReadRoot(ParseLine(t).value);
  }

  lemma OnePart(t: string, part: Ast)
    requires ParseExpr(t, 0) == Some((part, |t|)) && ParseMany(t, |t|) == ([], |t|)
    ensures ParseMany(t, 0) == ([part], |t|) && SpliceAll(Somes([part])) == Splice(part)
  {
    hide ParseExpr, Splice;
    assert [part] + [] == [part];
    assert Somes([part])[0] == Some(part) && Somes([part])[1..] == [];
  }

  // ----- printing -----

  /** An error prints its message behind the word. */
  lemma ErrorText(m: string)
    ensures |Print(Err(m))| == 7 + |m| && Print(Err(m))[..7] == "Error: " && Print(Err(m))[7..] == m
  {
  }

  /** Where value `i` of a printed list starts: behind the earlier ones, each with one blank. */
  function Offset(vs: seq<LVal>, i: nat): nat
    requires i <= |vs|
  {
    if i == 0 then 0 else Offset(vs, i - 1) + |Print(vs[i - 1])| + 1
  }

  lemma {:induction false} OffsetShift(vs: seq<LVal>, i: nat)
    requires 0 < i <= |vs|
    ensures Offset(vs, i) == |Print(vs[0])| + 1 + Offset(vs[1..], i - 1)
  {
    hide Print;
    if i > 1 {
      OffsetShift(vs, i - 1);
      assert vs[1..][i - 2] == vs[i - 1];
    }
  }

  lemma OffsetStart(vs: seq<LVal>)
    ensures Offset(vs, 0) == 0 && (|vs| == 1 ==> Offset(vs, 1) == |Print(vs[0])| + 1)
  {
    hide Print;
  }

  lemma {:induction false} ListLength(vs: seq<LVal>)
    requires vs != []
    ensures |PrintAll(vs)| + 1 == Offset(vs, |vs|)
  {
    hide Print, Offset;
    if |vs| == 1 {
      OffsetStart(vs);
    } else {
      ListLength(vs[1..]);
      OffsetShift(vs, |vs|);
    }
  }

  /** The text of a list holds the texts of its values in order, one blank between two and nothing else. */
  lemma {:induction false} ListLayout(vs: seq<LVal>, i: nat)
    requires i < |vs|
    ensures |PrintAll(vs)| + 1 == Offset(vs, |vs|)
    ensures At(PrintAll(vs), Offset(vs, i), Print(vs[i]))
    ensures i > 0 ==> Offset(vs, i) > 0 && PrintAll(vs)[Offset(vs, i) - 1] == ' '
    decreases |vs|
  {
    hide Print, Offset, PrintAll;
    ListLength(vs);
    OffsetStart(vs);
    if i == 0 {
      FirstText(vs);
    } else {
      var first, rest := Print(vs[0]), PrintAll(vs[1..]);
      ListLayout(vs[1..], i - 1);
      OffsetShift(vs, i);
      OffsetStart(vs[1..]);
      ShiftedAt(first + " ", rest, Offset(vs[1..], i - 1), Print(vs[i]));
      RestText(vs);
    }
  }

  lemma RestText(vs: seq<LVal>)
    requires |vs| >= 2
    ensures PrintAll(vs) == Print(vs[0]) + " " + PrintAll(vs[1..]) && PrintAll(vs)[|Print(vs[0])|] == ' '
  {
    hide Print;
  }

  lemma FirstText(vs: seq<LVal>)
    requires vs != []
    ensures At(PrintAll(vs), 0, Print(vs[0]))
  {
    hide Print;
    assert PrintAll(vs)[0..|Print(vs[0])|] == Print(vs[0]);
  }

  lemma ShiftedAt(a: string, b: string, pos: nat, t: string)
    requires At(b, pos, t)
    ensures At(a + b, |a| + pos, t)
    ensures pos > 0 ==> (a + b)[|a| + pos - 1] == b[pos - 1]
  {
    assert (a + b)[|a| + pos..|a| + pos + |t|] == b[pos..pos + |t|];
  }

  /** Round brackets around expressions, curly ones around quoted lists. */
  lemma ListBrackets(vs: seq<LVal>)
    ensures var s, q := Print(Sexpr(vs)), Print(Qexpr(vs));
            && |s| == |q| == |PrintAll(vs)| + 2 && s[1..|s| - 1] == q[1..|q| - 1] == PrintAll(vs)
            && s[0] == '(' && s[|s| - 1] == ')' && q[0] == '{' && q[|q| - 1] == '}'
  {
  }

  /** The six blanks. */
  lemma Blanks(c: char)
    ensures IsBlank(c) <==> c in [' ', '\t', '\n', '\r', '\U{B}', '\U{C}']
  {
  }

  // ----- what is typed -----

  /** Values typed one behind the other, with blanks between, are the cells of the line. */
  lemma LineReadsBack(vs: seq<LVal>)
    requires forall i :: 0 <= i < |vs| ==> Plain(vs[i])
    ensures ReadLine(PrintAll(vs)) == Some(Sexpr(vs))
  {
    hide Plain, Print, PrintAll, ParseMany, Bracket, Read, Readable, ReadCells, Skipped, SpliceAll, Somes;
    var s := PrintAll(vs);
    ListStarts(vs);
    assert s[0..|s|] == s;
    ManyReadsBack(vs, s, 0);
    LineEndsSkipped();
    BracketOk(Leaf(Regex, ""), ParseMany(s, 0).0, Leaf(Regex, ""));
    ReadRoot(ParseLine(s).value);
  }

  /** A call as it is typed: one of the nine names and its arguments. */
  lemma CallLine(name: string, args: seq<LVal>)
    requires name in ["list", "head", "tail", "eval", "join", "+", "-", "*", "/"]
    requires forall i :: 0 <= i < |args| ==> Plain(args[i])
    ensures ReadLine(name) == Some(Sexpr([Sym(name)]))
    ensures args != [] ==> ReadLine(name + " " + PrintAll(args)) == Some(Sexpr([Sym(name)] + args))
  {
    hide ReadLine;
    assert Plain(Sym(name)) && PrintAll([Sym(name)]) == name;
    LineReadsBack([Sym(name)]);
    var vs := [Sym(name)] + args;
    assert vs[1..] == args;
    LineReadsBack(vs);
  }
}
