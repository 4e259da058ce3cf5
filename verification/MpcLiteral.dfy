/**
  The parser of string literals that the library uses on grammars: a quote, characters that are
  escaped or are no quote, and a quote.  It takes a literal whole, and with escaping before and
  unescaping behind it a literal stands for every text.
 */
module MpcLiteral {
  import opened MpcSyntax
  import opened MpcSemantics
  import opened LispyGrammar
  import E = MpcEscape

  const QUOTE: Byte := 34
  const SLASH: Byte := 92

  // ----- the graph -----

  const CHARACTER := 7
  const LITERAL := 12

  const GRAPH: Grammar := [
    NoneOf([QUOTE]), Expect(0, "one of '\"'"),
    Single(SLASH), Expect(2, "'\\'"), Any, Expect(4, "any character"), And([3, 5], STRFOLD),
    Or([6, 1]), Many(CHARACTER, STRFOLD),
    Text([QUOTE]), Expect(9, "\"\"\""), And([10, 8, 10], SND), Expect(11, "string")]

  /** The inside of a literal: characters behind a backslash, and others that are no quote. */
  predicate Body(b: seq<Byte>)
    decreases |b|
  {
    if b == [] then true
    else if b[0] == SLASH then |b| >= 2 && Body(b[2..])
    else b[0] != QUOTE && Body(b[1..])
  }

  // ----- one character -----

  lemma PlainChar(s: seq<Byte>, p: Ptr, pos: nat, err: Err)
    requires p < |GRAPH| && IsCharParser(GRAPH[p]) && pos <= |s|
    ensures Yields(GRAPH, s, 1, p, pos, err,
                   if pos < |s| && Accepts(GRAPH[p], s[pos]) then Gives(Str([CharOf(s[pos])]), pos + 1) else Fails)
  {
    if pos < |s| {
      assert TextOf([s[pos]]) == [CharOf(s[pos])];
    }
  }

  /** A backslash and the character behind it. */
  lemma EscapeYields(s: seq<Byte>, pos: nat, err: Err)
    requires pos <= |s|
    ensures var taken := pos + 1 < |s| && s[pos] == SLASH;
            Yields(GRAPH, s, 3, 6, pos, err, if taken then Gives(Str(TextOf(s[pos..pos + 2])), pos + 2) else Fails)
  {
    hide Yields, Record;
    PlainChar(s, 2, pos, err);
    var w1 := if pos < |s| && s[pos] == SLASH then Gives(Str([CharOf(SLASH)]), pos + 1) else Fails;
    ExpectYields(GRAPH, s, 1, 3, pos, err, w1);
    var w2 := Fails;
    if w1.Gives? {
      var e := Record(GRAPH, s, 2, 3, pos, err);
      PlainChar(s, 4, pos + 1, e);
      w2 := if pos + 1 < |s| then Gives(Str([CharOf(s[pos + 1])]), pos + 2) else Fails;
      ExpectYields(GRAPH, s, 1, 5, pos + 1, e, w2);
    }
    AndYields(GRAPH, s, 2, 2, 6, pos, err, w1, w2);
    if w2.Gives? {
      ConcatPair([CharOf(SLASH)], [CharOf(s[pos + 1])]);
      assert TextOf(s[pos..pos + 2]) == [CharOf(SLASH)] + [CharOf(s[pos + 1])];
    }
  }

  /** How many bytes a character of the inside takes at `pos`: none at a quote and at the end. */
  function Width(s: seq<Byte>, pos: nat): nat
    requires pos <= |s|
  {
    if pos + 1 < |s| && s[pos] == SLASH then 2
    else if pos < |s| && s[pos] != QUOTE then 1
    else 0
  }

  lemma CharacterYields(s: seq<Byte>, pos: nat, err: Err)
    requires pos <= |s|
    ensures var w := Width(s, pos);
            Yields(GRAPH, s, 4, CHARACTER, pos, err,
                   if w > 0 then Gives(Str(TextOf(s[pos..pos + w])), pos + w) else Fails)
  {
    hide Yields, Record;
    EscapeYields(s, pos, err);
    var w1 := if pos + 1 < |s| && s[pos] == SLASH then Gives(Str(TextOf(s[pos..pos + 2])), pos + 2) else Fails;
    var e := Record(GRAPH, s, 3, 6, pos, err);
    PlainChar(s, 0, pos, e);
    var w2 := if pos < |s| && s[pos] != QUOTE then Gives(Str([CharOf(s[pos])]), pos + 1) else Fails;
    ExpectYields(GRAPH, s, 1, 1, pos, e, w2);
    if pos < |s| {
      assert TextOf(s[pos..pos + 1]) == [CharOf(s[pos])];
    }
    OrYields(GRAPH, s, 3, 2, CHARACTER, pos, err, w1, w2);
  }

  // ----- the inside -----

  lemma {:induction false} InsideRepeats(s: seq<Byte>, pos: nat, b: seq<Byte>, err: Err, vs: seq<Value>)
      returns (n: nat, ms: seq<Meaning>)
    requires Body(b) && pos + |b| < |s| && s[pos..pos + |b|] == b && s[pos + |b|] == QUOTE
    ensures Repeats(GRAPH, s, n, CHARACTER, pos, err, vs, ms, pos + |b|) && Concat(ms) == TextOf(b)
    decreases |b|
  {
    hide Repeats, Yields, Eval, Concat;
    CharacterYields(s, pos, err);
    if b == [] {
      assert s[pos] == QUOTE;
      RepeatsNot(GRAPH, s, 4, CHARACTER, pos, err, vs);
      n, ms := 4, [];
      NoText();
    } else {
      assert s[pos] == b[0];
      var w := Width(s, pos);
      assert w <= |b| && Body(b[w..]) && s[pos..pos + w] == b[..w];
      var m := Str(TextOf(s[pos..pos + w]));
      GraphDone(s, 4, CHARACTER, pos, err, Gives(m, pos + w));
      var o := Eval(GRAPH, s, 4, CHARACTER, 1, pos, err);
      assert s[pos + w..pos + w + |b[w..]|] == b[w..];
      var k, rest := InsideRepeats(s, pos + w, b[w..], o.err, vs + [o.r.v]);
      RepeatsAgain(GRAPH, s, 4, k, CHARACTER, pos, err, vs, m, pos + w, rest, pos + |b|);
      n, ms := Max(4, k) + 1, [m] + rest;
      ConcatCons(m, rest);
      assert TextOf(b) == TextOf(b[..w]) + TextOf(b[w..]);
    }
  }

  lemma GraphDone(s: seq<Byte>, n: nat, p: Ptr, pos: nat, err: Err, w: Want)
    requires Yields(GRAPH, s, n, p, pos, err, w)
    ensures pos <= |s| && Eval(GRAPH, s, n, p, 1, pos, err).Done?
    ensures w.Gives? ==> Eval(GRAPH, s, n, p, 1, pos, err).r.Out?
  {
    hide Eval;
  }

  // ----- the literal -----

  lemma QuoteYields(s: seq<Byte>, pos: nat, err: Err)
    requires pos < |s| && s[pos] == QUOTE
    ensures Yields(GRAPH, s, 2, 10, pos, err, Gives(Str(TextOf([QUOTE])), pos + 1))
  {
    hide StateAt;
    assert Yields(GRAPH, s, 1, 9, pos, err, Gives(Str(TextOf([QUOTE])), pos + 1)) by {
      assert MatchLength(s, pos, [QUOTE]) == 1;
    }
    ExpectYields(GRAPH, s, 1, 10, pos, err, Gives(Str(TextOf([QUOTE])), pos + 1));
  }

  lemma AndOfThree(g: Grammar, s: seq<Byte>, n: nat, p: Ptr, pos: nat, err: Err, w1: Want, w2: Want, w3: Want)
    requires p < |g| && g[p].And? && |g[p].xs| == 3 && w1.Gives? && w2.Gives? && w3.Gives?
    requires Yields(g, s, n, g[p].xs[0], pos, err, w1)
    requires Yields(g, s, n, g[p].xs[1], w1.q, Record(g, s, n, g[p].xs[0], pos, err), w2)
    requires var e := Record(g, s, n, g[p].xs[0], pos, err);
             w1.q <= |s| && Yields(g, s, n, g[p].xs[2], w2.q, Record(g, s, n, g[p].xs[1], w1.q, e), w3)
    ensures Yields(g, s, n + 1, p, pos, err, Gives(FoldMeaning(g[p].f, [w1.m, w2.m, w3.m]), w3.q))
  {
    hide Eval, FoldMeaning;
    var xs, f := g[p].xs, g[p].f;
    var o := Eval(g, s, n, xs[0], 1, pos, err);
    var o2 := Eval(g, s, n, xs[1], 1, o.pos, o.err);
    var o3 := Eval(g, s, n, xs[2], 1, o2.pos, o2.err);
    var vs := [] + [o.r.v] + [o2.r.v] + [o3.r.v];
    InOrderThree(g, s, n, xs, f, pos, err);
    AndEval(g, s, n, p, pos, err);
    DenoteSnoc([], o.r.v);
    DenoteSnoc([] + [o.r.v], o2.r.v);
    DenoteSnoc([] + [o.r.v] + [o2.r.v], o3.r.v);
    assert DenoteAll(vs) == [w1.m, w2.m, w3.m];
  }

  lemma AndEval(g: Grammar, s: seq<Byte>, n: nat, p: Ptr, pos: nat, err: Err)
    requires p < |g| && g[p].And? && pos <= |s|
    ensures Eval(g, s, n + 1, p, 1, pos, err) == InOrder(g, s, n, g[p].xs, g[p].f, 0, 1, pos, pos, err, [])
  {
  }

  lemma InOrderThree(g: Grammar, s: seq<Byte>, n: nat, xs: seq<Ptr>, f: nat, pos: nat, err: Err)
    requires pos <= |s| && |xs| == 3
    requires var o := Eval(g, s, n, xs[0], 1, pos, err);
             && o.Done? && o.r.Out?
             && var o2 := Eval(g, s, n, xs[1], 1, o.pos, o.err);
             && o2.Done? && o2.r.Out?
             && var o3 := Eval(g, s, n, xs[2], 1, o2.pos, o2.err);
             o3.Done? && o3.r.Out?
    ensures var o := Eval(g, s, n, xs[0], 1, pos, err);
            var o2 := Eval(g, s, n, xs[1], 1, o.pos, o.err);
            var o3 := Eval(g, s, n, xs[2], 1, o2.pos, o2.err);
            InOrder(g, s, n, xs, f, 0, 1, pos, pos, err, []) ==
              Done(Out(Folded(f, [] + [o.r.v] + [o2.r.v] + [o3.r.v])), o3.pos, o3.err)
  {
    hide Eval;
    var o := Eval(g, s, n, xs[0], 1, pos, err);
    var o2 := Eval(g, s, n, xs[1], 1, o.pos, o.err);
    var o3 := Eval(g, s, n, xs[2], 1, o2.pos, o2.err);
    var second := InOrder(g, s, n, xs, f, 1, 1, pos, o.pos, o.err, [] + [o.r.v]);
    var third := InOrder(g, s, n, xs, f, 2, 1, pos, o2.pos, o2.err, [] + [o.r.v] + [o2.r.v]);
    var fourth := InOrder(g, s, n, xs, f, 3, 1, pos, o3.pos, o3.err, [] + [o.r.v] + [o2.r.v] + [o3.r.v]);
    assert InOrder(g, s, n, xs, f, 0, 1, pos, pos, err, []) == second == third == fourth;
  }

  /** A literal at the start of a text is taken whole, and gives its inside. */
  lemma LiteralYields(b: seq<Byte>, rest: seq<Byte>, err: Err) returns (n: nat)
    requires Body(b)
    ensures Yields(GRAPH, [QUOTE] + b + [QUOTE] + rest, n, LITERAL, 0, err, Gives(Str(TextOf(b)), |b| + 2))
  {
    hide Repeats, Yields, Record, FoldMeaning;
    var s := [QUOTE] + b + [QUOTE] + rest;
    QuoteYields(s, 0, err);
    var first := Gives(Str(TextOf([QUOTE])), 1);
    assert s[1..1 + |b|] == b;
    var e := Record(GRAPH, s, 2, 10, 0, err);
    var k, ms := InsideRepeats(s, 1, b, e, []);
    ManyYields(GRAPH, s, k, 8, 1, e, ms, 1 + |b|);
    var m := Max(2, k + 1);
    var inside := Gives(Str(TextOf(b)), 1 + |b|);
    StrFolds(ms);
    YieldsMore(GRAPH, s, 2, m, 10, 0, err, first);
    YieldsMore(GRAPH, s, k + 1, m, 8, 1, e, inside);
    var e2 := Record(GRAPH, s, m, 8, 1, e);
    QuoteYields(s, 1 + |b|, e2);
    var last := Gives(Str(TextOf([QUOTE])), |b| + 2);
    YieldsMore(GRAPH, s, 2, m, 10, 1 + |b|, e2, last);
    AndOfThree(GRAPH, s, m, 11, 0, err, first, inside, last);
    SecondOfThree(first.m, inside.m, last.m);
    ExpectYields(GRAPH, s, m + 1, LITERAL, 0, err, Gives(inside.m, |b| + 2));
    n := m + 2;
  }

  lemma StrFolds(ms: seq<Meaning>)
    ensures FoldMeaning(STRFOLD, ms) == Str(Concat(ms))
  {
  }

  lemma SecondOfThree(a: Meaning, b: Meaning, c: Meaning)
    ensures FoldMeaning(SND, [a, b, c]) == b
  {
  }

  // ----- literals stand for texts -----

  /** A character code as a signed C character. */
  function ByteOf(c: char): Byte
    requires c as int < 256
    ensures CharOf(ByteOf(c)) == c
  {
    if c as int < 128 then c as int else c as int - 256
  }

  predicate Narrow(t: string) {
    forall i :: 0 <= i < |t| ==> t[i] as int < 256
  }

  function Encoded(t: string): (b: seq<Byte>)
    requires Narrow(t)
    ensures TextOf(b) == t
  {
    seq(|t|, i requires 0 <= i < |t| => ByteOf(t[i]))
  }

  lemma EncodedParts(t: string, k: nat)
    requires Narrow(t) && k <= |t|
    ensures Narrow(t[k..]) && Encoded(t)[k..] == Encoded(t[k..])
  {
  }

  lemma EscapeOfChar(c: char)
    requires c as int < 256
    ensures var t := E.EscapeChar(E.C_TABLE, c);
            && Narrow(t)
            && ((|t| == 2 && t[0] == '\\') || (t == [c] && c != '\\' && c != '\"'))
  {
    var i := E.FindInput(E.C_TABLE, c);
    if i < |E.C_TABLE| {
      assert E.C_TABLE[i].code as int < 256;
    } else {
      assert E.C_TABLE[7].input == '\\' && E.C_TABLE[9].input == '\"';
    }
  }

  /** Escaped text is the inside of a literal. */
  lemma {:induction false} EscapedIsBody(x: string)
    requires Narrow(x)
    ensures var t := E.Escape(E.C_TABLE, x); Narrow(t) && Body(Encoded(t))
  {
    hide E.EscapeChar, E.FindInput;
    if x != [] {
      var c, rest := x[0], x[1..];
      EscapedIsBody(rest);
      EscapeOfChar(c);
      var first, tail := E.EscapeChar(E.C_TABLE, c), E.Escape(E.C_TABLE, rest);
      var t := first + tail;
      assert Narrow(t) && t[|first|..] == tail && t[0] == first[0];
      EncodedParts(t, |first|);
    }
  }

  /**
    For every C string: quoted after escaping, it is parsed as one literal, and unescaping what the
    parser gives returns the string.
   */
  lemma LiteralRoundTrip(x: string, rest: seq<Byte>, err: Err) returns (n: nat)
    requires Narrow(x) && E.IsCString(x)
    ensures var t := E.Escape(E.C_TABLE, x);
            && Narrow(t)
            && var b := Encoded(t);
            && Yields(GRAPH, [QUOTE] + b + [QUOTE] + rest, n, LITERAL, 0, err, Gives(Str(t), |b| + 2))
            && E.Unescape(E.C_TABLE, t) == x
  {
    hide Yields, E.Escape, E.Unescape, Body;
    EscapedIsBody(x);
    n := LiteralYields(Encoded(E.Escape(E.C_TABLE, x)), rest, err);
    E.LibraryTables();
    E.UnescapeEscape(E.C_TABLE, x);
  }
}
