/**
  The parser graph of the mpc library, the values and errors its parsers produce, and the
  position-only view of a string input.

  A parser is reached through a pointer, so grammars may be recursive: a grammar is a sequence of
  nodes and a pointer is an index into it.  Constructors, folds and applied functions are kept as
  uninterpreted symbols: a result is the term that records which of them was called on what, so
  that equality of results means that the same calls were made with the same arguments.
 */
module MpcSyntax {

  /** A C `char`, signed as on the usual targets. */
  type Byte = x: int | -128 <= x < 128

  const NUL: Byte := 0
  const NEWLINE: Byte := 10

  type Ptr = nat

  datatype State = State(pos: int, row: int, col: int)

  datatype Parser =
    | Undefined
    | Pass
    | Fail(msg: string)
    | Lift(ctor: nat)
    | LiftVal(val: nat)
    | Anchor(at: (Byte, Byte) -> bool)
    | Position
    | Any
    | Single(c: Byte)
    | OneOf(cs: seq<Byte>)
    | NoneOf(cs: seq<Byte>)
    | Range(lo: Byte, hi: Byte)
    | Satisfy(cond: Byte -> bool)
    | Text(cs: seq<Byte>)
    | Expect(x: Ptr, msg: string)
    | Apply(x: Ptr, f: nat)
    | ApplyTo(x: Ptr, f: nat, d: nat)
    | Predict(x: Ptr)
    | Not(x: Ptr, ctor: nat)
    | Maybe(x: Ptr, ctor: nat)
    | Many(x: Ptr, f: nat)
    | Many1(x: Ptr, f: nat)
    | Count(x: Ptr, f: nat, n: int)
    | Or(xs: seq<Ptr>)
    | And(xs: seq<Ptr>, f: nat)
    | UnknownType

  type Grammar = seq<Parser>

  datatype Value =
    | Null
    | Chars(s: seq<Byte>)
    | Built(ctor: nat)
    | Given(val: nat)
    | At(state: State)
    | Applied(f: nat, v: Value)
    | AppliedTo(f: nat, v: Value, d: nat)
    | Folded(f: nat, vs: seq<Value>)

  datatype Err =
    | Failed(state: State, msg: string)
    | Expected(state: State, msg: string, received: Byte)
    | Merged(es: seq<Err>)
    | OneOrMoreOf(e: Err)
    | TimesOf(n: int, e: Err)

  datatype Result = Out(v: Value) | Error(e: Err)

  /** The parsers that look at one character, and which characters they take. */
  predicate IsCharParser(p: Parser) {
    p.Any? || p.Single? || p.OneOf? || p.NoneOf? || p.Range? || p.Satisfy?
  }

  predicate Accepts(p: Parser, x: Byte)
    requires IsCharParser(p)
  {
    match p
    case Any => true
    case Single(c) => x == c
    case OneOf(cs) => x in cs
    case NoneOf(cs) => x !in cs
    case Range(lo, hi) => lo <= x <= hi
    case Satisfy(cond) => cond(x)
  }

  /** A parser that runs one other parser once. */
  predicate IsWrapper(p: Parser) {
    p.Expect? || p.Apply? || p.ApplyTo? || p.Predict? || p.Not? || p.Maybe?
  }

  /** A parser that runs one other parser until it fails. */
  predicate IsRepeat(p: Parser) {
    p.Many? || p.Many1? || p.Count?
  }

  /** A parser that runs no other parser. */
  predicate IsLeaf(p: Parser) {
    !IsWrapper(p) && !IsRepeat(p) && !p.Or? && !p.And?
  }

  /** The pointers a node holds. */
  function Children(p: Parser): set<Ptr> {
    match p
    case Expect(x, _) => {x}
    case Apply(x, _) => {x}
    case ApplyTo(x, _, _) => {x}
    case Predict(x) => {x}
    case Not(x, _) => {x}
    case Maybe(x, _) => {x}
    case Many(x, _) => {x}
    case Many1(x, _) => {x}
    case Count(x, _, _) => {x}
    case Or(xs) => set x | x in xs
    case And(xs, _) => set x | x in xs
    case _ => {}
  }

  /** Every pointer in the graph is live. */
  ghost predicate Closed(g: Grammar) {
    forall i, c :: 0 <= i < |g| && c in Children(g[i]) ==> c < |g|
  }

  /** The cursor that the text read so far determines. */
  function StateAt(s: seq<Byte>, pos: nat): (r: State)
    requires pos <= |s|
    ensures r.pos == pos
  {
    if pos == 0 then State(0, 0, 0)
    else
      var q := StateAt(s, pos - 1);
      if s[pos - 1] == NEWLINE then State(pos, q.row + 1, 0) else State(pos, q.row, q.col + 1)
  }

  function LastAt(s: seq<Byte>, pos: nat): Byte
    requires pos <= |s|
  {
    if pos == 0 then NUL else s[pos - 1]
  }

  function PeekAt(s: seq<Byte>, pos: nat): Byte
    requires pos <= |s|
  {
    if pos == |s| then NUL else s[pos]
  }

  /** `row` counts the newlines before the cursor, `col` the characters since the last of them. */
  lemma {:induction false} StateAtMeaning(s: seq<Byte>, pos: nat)
    requires pos <= |s|
    ensures var q := StateAt(s, pos);
            && q.row == multiset(s[..pos])[10]
            && 0 <= q.col <= pos
            && 10 !in s[pos - q.col..pos]
            && (q.col < pos ==> s[pos - q.col - 1] == 10)
  {
    if pos > 0 {
      StateAtMeaning(s, pos - 1);
      assert s[..pos] == s[..pos - 1] + [s[pos - 1]];
    }
  }

  /** How many leading characters of `cs` the text carries from `pos` on. */
  function MatchLength(s: seq<Byte>, pos: nat, cs: seq<Byte>): (k: nat)
    requires pos <= |s|
    ensures k <= |cs| && pos + k <= |s|
    ensures s[pos..pos + k] == cs[..k]
    ensures k < |cs| ==> pos + k == |s| || s[pos + k] != cs[k]
    decreases |cs|
  {
    if cs == [] || pos == |s| || s[pos] != cs[0] then 0
    else
      var k := 1 + MatchLength(s, pos + 1, cs[1..]);
      assert s[pos..pos + k] == [s[pos]] + s[pos + 1..pos + k];
      assert cs[..k] == [cs[0]] + cs[1..][..k - 1];
      k
  }
}
