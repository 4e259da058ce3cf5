/** Escaping and unescaping of text by a table, and exactly which tables undo themselves. */
module MpcEscape {

  const NUL: char := '\0'
  const BACKSLASH: char := '\\'

  /** Each entry escapes `input` as a backslash followed by `code`. */
  datatype Entry = Entry(input: char, code: char)

  type Table = seq<Entry>

  /** Texts and table outputs are C strings. */
  predicate IsCString(s: string) {
    NUL !in s
  }

  predicate TableOk(t: Table) {
    forall i :: 0 <= i < |t| ==> t[i].code != NUL
  }

  const C_TABLE: Table :=
    [Entry(7 as char, 'a'), Entry(8 as char, 'b'), Entry(12 as char, 'f'), Entry('\n', 'n'), Entry('\r', 'r'),
     Entry('\t', 't'), Entry(11 as char, 'v'), Entry('\\', '\\'), Entry('\'', '\''), Entry('\"', '\"'),
     Entry('\0', '0')]

  const RAW_REGEX_TABLE: Table := [Entry('/', '/')]
  const RAW_STRING_TABLE: Table := [Entry('\"', '\"')]
  const RAW_CHAR_TABLE: Table := [Entry('\'', '\'')]

  // ----- the functions -----

  predicate Escapes(t: Table, c: char) {
    exists i :: 0 <= i < |t| && t[i].input == c
  }

  function FindInput(t: Table, c: char): (i: nat)
    ensures i <= |t| && (forall j :: 0 <= j < i ==> t[j].input != c) && (i < |t| ==> t[i].input == c)
    ensures i < |t| <==> Escapes(t, c)
  {
    if t == [] || t[0].input == c then 0
    else
      var i := 1 + FindInput(t[1..], c);
      assert i < |t| ==> t[i] == t[1..][i - 1];
      i
  }

  function FindCode(t: Table, c: char): (i: nat)
    ensures i <= |t| && (forall j :: 0 <= j < i ==> t[j].code != c) && (i < |t| ==> t[i].code == c)
  {
    if t == [] || t[0].code == c then 0
    else
      var i := 1 + FindCode(t[1..], c);
      assert i < |t| ==> t[i] == t[1..][i - 1];
      i
  }

  function EscapeChar(t: Table, c: char): string {
    var i := FindInput(t, c);
    if i < |t| then [BACKSLASH, t[i].code] else [c]
  }

  function Escape(t: Table, s: string): string {
    if s == [] then [] else EscapeChar(t, s[0]) + Escape(t, s[1..])
  }

  /** The entry, if any, whose output stands at the start of `s`. */
  function CodeAt(t: Table, s: string): (i: nat)
    ensures i <= |t|
  {
    if |s| >= 2 && s[0] == BACKSLASH then FindCode(t, s[1]) else |t|
  }

  /** Appending a NUL to a C string appends nothing. */
  function Appended(c: char): string {
    if c == NUL then [] else [c]
  }

  function Unescape(t: Table, s: string): string
    decreases |s|
  {
    if s == [] then []
    else
      var i := CodeAt(t, s);
      if i < |t| then Appended(t[i].input) + Unescape(t, s[2..]) else [s[0]] + Unescape(t, s[1..])
  }

  // ----- exactly which tables work -----

  /** An escaped character's own entry is the first with its code. */
  predicate CodesClear(t: Table) {
    forall c :: c != NUL && Escapes(t, c) ==> FindCode(t, t[FindInput(t, c)].code) == FindInput(t, c)
  }

  /** Nothing that is left bare after a bare backslash looks like a code. */
  predicate CodesGuarded(t: Table) {
    Escapes(t, BACKSLASH) || forall i :: 0 <= i < |t| ==> Escapes(t, t[i].code)
  }

  predicate Decodable(t: Table) {
    CodesClear(t) && CodesGuarded(t)
  }

  lemma {:induction false} UnescapeEscape(t: Table, s: string)
    requires TableOk(t) && Decodable(t) && IsCString(s)
    ensures Unescape(t, Escape(t, s)) == s
    decreases |s|
  {
    if s != [] {
      var c, rest := s[0], s[1..];
      assert c in s && IsCString(rest);
      var tail := Escape(t, rest);
      UnescapeEscape(t, rest);
      hide Unescape, CodeAt, FindInput;
      assert Escape(t, s) == EscapeChar(t, c) + tail;
      if FindInput(t, c) < |t| {
        EscapedReturns(t, c, tail);
      } else {
        BareReturns(t, c, rest);
      }
      assert s == [c] + rest;
    }
  }

  /** An escaped character is read back. */
  lemma EscapedReturns(t: Table, c: char, tail: string)
    requires TableOk(t) && CodesClear(t) && c != NUL && FindInput(t, c) < |t|
    ensures Unescape(t, EscapeChar(t, c) + tail) == [c] + Unescape(t, tail)
  {
    var i := FindInput(t, c);
    var text := [BACKSLASH, t[i].code] + tail;
    assert EscapeChar(t, c) + tail == text && text[2..] == tail;
    assert Escapes(t, c) && CodeAt(t, text) == i;
  }

  /** A character that is not escaped is read back, also a backslash. */
  lemma BareReturns(t: Table, c: char, rest: string)
    requires TableOk(t) && Decodable(t) && FindInput(t, c) == |t|
    ensures Unescape(t, EscapeChar(t, c) + Escape(t, rest)) == [c] + Unescape(t, Escape(t, rest))
  {
    var tail := Escape(t, rest);
    var text := [c] + tail;
    assert EscapeChar(t, c) + tail == text && text[1..] == tail;
    if c == BACKSLASH {
      BareBackslash(t, rest);
    }
    assert CodeAt(t, text) == |t|;
  }

  /** After a bare backslash the escaped text does not go on with a code. */
  lemma BareBackslash(t: Table, rest: string)
    requires CodesGuarded(t) && !Escapes(t, BACKSLASH)
    ensures var tail := Escape(t, rest); tail != [] ==> FindCode(t, tail[0]) == |t|
  {
    var tail := Escape(t, rest);
    if tail != [] {
      var k := FindCode(t, tail[0]);
      assert tail[0] == EscapeChar(t, rest[0])[0];
      assert !Escapes(t, tail[0]);
    }
  }

  /** A table that is not decodable mistakes some text. */
  lemma Undecodable(t: Table) returns (s: string)
    requires TableOk(t) && !Decodable(t)
    ensures IsCString(s) && Unescape(t, Escape(t, s)) != s
  {
    if !CodesClear(t) {
      var c :| c != NUL && Escapes(t, c) && FindCode(t, t[FindInput(t, c)].code) != FindInput(t, c);
      s := [c];
      CodeTaken(t, c);
    } else {
      var i :| 0 <= i < |t| && !Escapes(t, t[i].code);
      s := [BACKSLASH, t[i].code];
      BackslashMistaken(t, t[i].code);
    }
  }

  /** A code that an earlier entry has reads back as the character of that entry. */
  lemma CodeTaken(t: Table, c: char)
    requires TableOk(t) && c != NUL && Escapes(t, c) && FindCode(t, t[FindInput(t, c)].code) != FindInput(t, c)
    ensures Unescape(t, Escape(t, [c])) != [c]
  {
    var i := FindInput(t, c);
    var k := FindCode(t, t[i].code);
    assert [c][1..] == [];
    var text := [BACKSLASH, t[i].code];
    assert Escape(t, [c]) == text && text[2..] == [];
    assert k < i && CodeAt(t, text) == k;
    assert Unescape(t, text) == Appended(t[k].input);
  }

  /** A bare backslash and a bare code are taken for an escaped character. */
  lemma BackslashMistaken(t: Table, code: char)
    requires !Escapes(t, BACKSLASH) && !Escapes(t, code) && FindCode(t, code) < |t|
    ensures Unescape(t, Escape(t, [BACKSLASH, code])) != [BACKSLASH, code]
  {
    var s := [BACKSLASH, code];
    assert s[1..] == [code] && s[1..][1..] == [] && s[2..] == [];
    assert Escape(t, s[1..]) == [code];
    assert Escape(t, s) == s;
    assert CodeAt(t, s) < |t|;
    assert |Unescape(t, s)| <= 1;
  }

  /** Unescaping undoes escaping on all texts exactly for the decodable tables. */
  lemma RoundTripIff(t: Table)
    requires TableOk(t)
    ensures Decodable(t) <==> forall s: string :: IsCString(s) ==> Unescape(t, Escape(t, s)) == s
  {
    if Decodable(t) {
      forall s: string | IsCString(s) ensures Unescape(t, Escape(t, s)) == s { UnescapeEscape(t, s); }
    } else {
      var s := Undecodable(t);
    }
  }

  /** All tables of the library are among them, also those that leave the backslash bare. */
  lemma LibraryTables()
    ensures TableOk(C_TABLE) && Decodable(C_TABLE)
    ensures TableOk(RAW_REGEX_TABLE) && Decodable(RAW_REGEX_TABLE)
    ensures TableOk(RAW_STRING_TABLE) && Decodable(RAW_STRING_TABLE)
    ensures TableOk(RAW_CHAR_TABLE) && Decodable(RAW_CHAR_TABLE)
  {
    DistinctIsClear(C_TABLE);
    assert C_TABLE[7].input == BACKSLASH;
    DistinctIsClear(RAW_REGEX_TABLE);
    assert RAW_REGEX_TABLE[0].input == '/';
    DistinctIsClear(RAW_STRING_TABLE);
    assert RAW_STRING_TABLE[0].input == '\"';
    DistinctIsClear(RAW_CHAR_TABLE);
    assert RAW_CHAR_TABLE[0].input == '\'';
  }

  /** What the letters behind a backslash name in C: the control characters 7 to 13, in this order. */
  const CONTROL_CODES := "abtnvfr"

  /** The table pairs these letters with these characters, both ways. */
  lemma ControlCodes(k: nat)
    requires k < 7
    ensures var code, c := CONTROL_CODES[k], (7 + k) as char;
            Escape(C_TABLE, [c]) == [BACKSLASH, code] && Unescape(C_TABLE, [BACKSLASH, code]) == [c]
  {
    hide Escape, Unescape;
    var i := [0, 1, 5, 3, 6, 2, 4][k];
    assert C_TABLE[i] == Entry((7 + k) as char, CONTROL_CODES[k]);
    PairedAt(C_TABLE, i);
  }

  /** Backslash and quotes name themselves. */
  lemma SelfCodes(c: char)
    requires c in ['\\', '\'', '\"']
    ensures Escape(C_TABLE, [c]) == [BACKSLASH, c] && Unescape(C_TABLE, [BACKSLASH, c]) == [c]
  {
    hide Escape, Unescape;
    var i := if c == '\\' then 7 else if c == '\'' then 8 else 9;
    assert C_TABLE[i] == Entry(c, c);
    PairedAt(C_TABLE, i);
  }

  /** Zero names the character that ends a text, so nothing is left of it. */
  lemma ZeroCode()
    ensures Unescape(C_TABLE, [BACKSLASH, '0']) == []
  {
    hide Escape, Unescape;
    assert C_TABLE[10] == Entry('\0', '0');
    PairedAt(C_TABLE, 10);
  }

  /** All other characters stay, escaped or not. */
  lemma OtherCharacters(c: char)
    requires !(7 <= c as int <= 13) && c !in ['\\', '\'', '\"', '\0']
    ensures Escape(C_TABLE, [c]) == [c]
    ensures c !in CONTROL_CODES && c != '0' ==> Unescape(C_TABLE, [BACKSLASH, c]) == [BACKSLASH, c]
  {
    hide Escape, Unescape;
    BareAt(C_TABLE, c);
    if c !in CONTROL_CODES && c != '0' {
      var codes := CONTROL_CODES;
      assert codes[0] == 'a' && codes[1] == 'b' && codes[2] == 't' && codes[3] == 'n';
      assert codes[4] == 'v' && codes[5] == 'f' && codes[6] == 'r';
      NoCodeAt(C_TABLE, c);
    }
  }

  /** The raw tables escape the delimiter of their literal and nothing else. */
  lemma RawTables(c: char)
    ensures Escape(RAW_REGEX_TABLE, [c]) == if c == '/' then "\\/" else [c]
    ensures Escape(RAW_STRING_TABLE, [c]) == if c == '\"' then "\\\"" else [c]
    ensures Escape(RAW_CHAR_TABLE, [c]) == if c == '\'' then "\\\'" else [c]
    ensures Unescape(RAW_REGEX_TABLE, [BACKSLASH, c]) == if c == '/' then "/" else [BACKSLASH, c]
    ensures Unescape(RAW_STRING_TABLE, [BACKSLASH, c]) == if c == '\"' then "\"" else [BACKSLASH, c]
    ensures Unescape(RAW_CHAR_TABLE, [BACKSLASH, c]) == if c == '\'' then "\'" else [BACKSLASH, c]
  {
    hide Escape, Unescape;
    RawTable('/', c);
    RawTable('\"', c);
    RawTable('\'', c);
  }

  lemma RawTable(d: char, c: char)
    requires d != NUL && d != BACKSLASH
    ensures Escape([Entry(d, d)], [c]) == if c == d then [BACKSLASH, d] else [c]
    ensures Unescape([Entry(d, d)], [BACKSLASH, c]) == if c == d then [d] else [BACKSLASH, c]
  {
    var t := [Entry(d, d)];
    if c == d {
      PairedAt(t, 0);
    } else {
      BareAt(t, c);
      NoCodeAt(t, c);
    }
  }

  // One character, or a backslash and one, against a table.

  lemma PairedAt(t: Table, i: nat)
    requires i < |t| && forall j :: 0 <= j < i ==> t[j].input != t[i].input && t[j].code != t[i].code
    ensures Escape(t, [t[i].input]) == [BACKSLASH, t[i].code]
    ensures Unescape(t, [BACKSLASH, t[i].code]) == Appended(t[i].input)
  {
    var text := [BACKSLASH, t[i].code];
    assert [t[i].input][1..] == [] && text[2..] == [];
    assert FindInput(t, t[i].input) == i && FindCode(t, t[i].code) == i;
  }

  lemma BareAt(t: Table, c: char)
    requires !Escapes(t, c)
    ensures Escape(t, [c]) == [c]
  {
    assert [c][1..] == [];
  }

  lemma NoCodeAt(t: Table, c: char)
    requires forall i :: 0 <= i < |t| ==> t[i].code != c
    ensures Unescape(t, [BACKSLASH, c]) == [BACKSLASH, c]
  {
    var text := [BACKSLASH, c];
    assert text[1..] == [c] && [c][1..] == [];
    assert CodeAt(t, text) == |t| && CodeAt(t, [c]) == |t|;
    assert Unescape(t, [c]) == [c] + Unescape(t, []);
  }

  lemma DistinctIsClear(t: Table)
    requires forall i, j :: 0 <= i < j < |t| ==> t[i].code != t[j].code
    ensures CodesClear(t)
  {
  }

  /** What escaping is for: a character of the table never stands bare in the result. */
  lemma {:induction false} EscapedIsGuarded(t: Table, s: string, i: nat)
    requires i < |Escape(t, s)| && Escapes(t, Escape(t, s)[i]) && Escape(t, s)[i] != BACKSLASH
    ensures i > 0 && Escape(t, s)[i - 1] == BACKSLASH
    decreases |s|
  {
    var head, tail := EscapeChar(t, s[0]), Escape(t, s[1..]);
    assert Escape(t, s) == head + tail;
    if i >= |head| {
      EscapedIsGuarded(t, s[1..], i - |head|);
    }
  }

  // ----- the loops -----

  /** The search through the table that escaping makes for each character. */
  method Lookup(t: Table, c: char) returns (i: nat)
    ensures i == FindInput(t, c)
  {
    i := 0;
    while i < |t| && t[i].input != c
      invariant 0 <= i <= |t| && forall j :: 0 <= j < i ==> t[j].input != c
    {
      i := i + 1;
    }
  }

  method EscapeNew(x: string, t: Table) returns (y: string)
    ensures y == Escape(t, x)
  {
    hide EscapeChar;
    y := [];
    for s := 0 to |x|
      invariant y + Escape(t, x[s..]) == Escape(t, x)
    {
      ghost var before, rest := y, Escape(t, x[s + 1..]);
      assert x[s..][1..] == x[s + 1..];
      var i := Lookup(t, x[s]);
      var piece := if i < |t| then [BACKSLASH, t[i].code] else [x[s]];
      EscapeCharCases(t, x[s]);
      y := y + piece;
      Regroup(before, piece, rest);
    }
    assert x[|x|..] == [];
  }

  lemma Regroup(a: string, b: string, c: string)
    ensures (a + b) + c == a + (b + c)
  {
  }

  lemma EscapeCharCases(t: Table, c: char)
    ensures var i := FindInput(t, c);
            EscapeChar(t, c) == if i < |t| then [BACKSLASH, t[i].code] else [c]
  {
  }

  /** The search for an output that stands at `s`. */
  method LookupCode(t: Table, x: string, s: nat) returns (i: nat)
    requires s < |x|
    ensures i == CodeAt(t, x[s..])
  {
    i := 0;
    while i < |t| && !(s + 1 < |x| && x[s] == BACKSLASH && x[s + 1] == t[i].code)
      invariant 0 <= i <= |t|
      invariant s + 1 < |x| && x[s] == BACKSLASH ==> forall j :: 0 <= j < i ==> t[j].code != x[s + 1]
    {
      i := i + 1;
    }
  }

  method UnescapeNew(x: string, t: Table) returns (y: string)
    ensures y == Unescape(t, x)
  {
    hide CodeAt, Appended;
    y := [];
    var s := 0;
    while s < |x|
      invariant 0 <= s <= |x| && y + Unescape(t, x[s..]) == Unescape(t, x)
      decreases |x| - s
    {
      var i := LookupCode(t, x, s);
      CodeNeedsTwo(t, x[s..]);
      ghost var before, from := y, s;
      var piece;
      if i < |t| {
        piece := Appended(t[i].input);
        s := s + 2;
        assert x[from..][2..] == x[s..];
      } else {
        piece := [x[s]];
        s := s + 1;
        assert x[from..][1..] == x[s..];
      }
      y := y + piece;
      Regroup(before, piece, Unescape(t, x[s..]));
    }
    assert x[s..] == [];
  }

  lemma CodeNeedsTwo(t: Table, s: string)
    ensures CodeAt(t, s) < |t| ==> |s| >= 2
  {
  }
}
