/**
 The line classifier of `rust_source_scope.py`: which lines of a Rust file are compiled
 for tests only. It reads the lexed code of each line and keeps a brace depth, a stack of
 test modules and one slot for a test item.
 */
module RustScope {
  import opened Wrappers
  import opened Strings
  import opened RustLexer

  // ----- What the classifier looks at in one line -----

  /** The characters `str.strip` removes. */
  predicate IsSpace(c: char) {
    || '\t' <= c <= '\r' || c == ' '
    || '\U{1C}' <= c <= '\U{1F}' || c == '\U{85}' || c == '\U{A0}' || c == '\U{1680}'
    || '\U{2000}' <= c <= '\U{200A}' || c == '\U{2028}' || c == '\U{2029}' || c == '\U{202F}'
    || c == '\U{205F}' || c == '\U{3000}'
  }

  function StripLeft(s: string): string {
    if s != [] && IsSpace(s[0]) then StripLeft(s[1..]) else s
  }

  function StripRight(s: string): string {
    if s != [] && IsSpace(s[|s| - 1]) then StripRight(s[..|s| - 1]) else s
  }

  function Strip(s: string): string {
    StripRight(StripLeft(s))
  }

  predicate EndsWith(s: string, suffix: string) {
    |suffix| <= |s| && s[|s| - |suffix|..] == suffix
  }

  predicate Contains(s: string, part: string) {
    StartsWith(s, part) || (s != [] && Contains(s[1..], part))
  }

  function Count(s: string, c: char): nat {
    if s == [] then 0 else (if s[0] == c then 1 else 0) + Count(s[1..], c)
  }

  function RemoveSpaces(s: string): string {
    if s == [] then []
    else if s[0] == ' ' then RemoveSpaces(s[1..])
    else [s[0]] + RemoveSpaces(s[1..])
  }

  predicate IsWordChar(c: char) {
    'a' <= c <= 'z' || 'A' <= c <= 'Z' || '0' <= c <= '9' || c == '_'
  }

  /** `\bmod\b`, searched from a position that `before` says follows a word character. */
  predicate HasModWord(s: string, before: bool) {
    || (!before && StartsWith(s, "mod") && (|s| == 3 || !IsWordChar(s[3])))
    || (s != [] && HasModWord(s[1..], IsWordChar(s[0])))
  }

  /** Whether a whole `#[cfg(...)]` attribute demands `test`. */
  predicate IsTestOnlyCfg(attribute: string)
    requires |attribute| >= 8
  {
    var inner := RemoveSpaces(attribute[6..|attribute| - 2]);
    || inner == "test"
    || (StartsWith(inner, "all(")
        && (Contains(inner, "all(test,") || Contains(inner, "all(test)")
            || Contains(inner, ",test,") || Contains(inner, ",test)")))
  }

  predicate IsTestAttribute(stripped: string) {
    |stripped| >= 8 && StartsWith(stripped, "#[cfg(") && EndsWith(stripped, ")]") && IsTestOnlyCfg(stripped)
  }

  datatype Line = Line(
    isTestAttribute: bool,
    isBlank: bool,
    isAttribute: bool,
    opensModule: bool,
    opens: nat,
    closes: nat,
    hasSemicolon: bool)

  function Read(code: string): Line {
    var stripped := Strip(code);
    Line(
      IsTestAttribute(stripped),
      stripped == "",
      StartsWith(stripped, "#[") && EndsWith(stripped, "]"),
      HasModWord(stripped, false) && '{' in stripped,
      Count(code, '{'),
      Count(code, '}'),
      ';' in code)
  }

  // ----- The state -----

  datatype Item = Item(isOpen: bool, bodyDepth: int)

  datatype Scope = Scope(depth: int, modules: seq<int>, item: Option<Item>, pending: bool)
  {
    predicate Active() {
      modules != [] || item.Some?
    }
  }

  const OUTERMOST := Scope(0, [], None, false)

  function PopClosed(modules: seq<int>, depth: int): (r: seq<int>)
    ensures r <= modules
    ensures r != [] ==> r[|r| - 1] <= depth
    ensures |r| < |modules| ==> modules[|r|] > depth
  {
    if modules != [] && depth < modules[|modules| - 1] then PopClosed(modules[..|modules| - 1], depth) else modules
  }

  /** The item slot after a line, given the depths before and after it. */
  function ItemAfter(item: Option<Item>, line: Line, before: int, after: int): Option<Item> {
    if item.None? then None
    else
      var it := if !item.value.isOpen && line.opens > 0 then Item(true, before + 1) else item.value;
      if !it.isOpen then (if line.hasSemicolon then None else Some(it))
      else if after < it.bodyDepth then None
      else Some(it)
  }

  /** A line of code: its braces count, and it may end regions. */
  function CountBraces(st: Scope, line: Line): Scope {
    var after := st.depth + line.opens - line.closes;
    Scope(after, PopClosed(st.modules, after), ItemAfter(st.item, line, st.depth, after), false)
  }

  function Resolve(st: Scope, line: Line): Scope {
    if !st.pending then st
    else if line.opensModule then st.(modules := st.modules + [st.depth + 1])
    else st.(item := Some(Item(false, 0)))
  }

  /** Lines the classifier marks and otherwise passes over: their braces do not count. */
  predicate PassedOver(st: Scope, line: Line) {
    line.isTestAttribute || (st.pending && (line.isBlank || line.isAttribute))
  }

  function Step(st: Scope, line: Line): Scope {
    if PassedOver(st, line) then st.(pending := true)
    else CountBraces(Resolve(st, line), line)
  }

  predicate Marked(st: Scope, line: Line) {
    PassedOver(st, line) || st.pending || st.Active()
  }

  function Run(st: Scope, lines: seq<Line>): Scope
    decreases |lines|
  {
    if lines == [] then st else Run(Step(st, lines[0]), lines[1..])
  }

  function Verdicts(st: Scope, lines: seq<Line>): (r: seq<bool>)
    ensures |r| == |lines|
    decreases |lines|
  {
    if lines == [] then [] else [Marked(st, lines[0])] + Verdicts(Step(st, lines[0]), lines[1..])
  }

  function ReadAll(lex: LexState, lines: seq<string>): (r: seq<Line>)
    ensures |r| == |lines|
    decreases |lines|
  {
    if lines == [] then []
    else
      var l := Lex(lex, lines[0]);
      [Read(l.code)] + ReadAll(l.end, lines[1..])
  }

  // ----- The implementation -----

  method ClassifyRustLines(lines: seq<string>, dedicatedTest: bool) returns (classified: seq<bool>)
    ensures |classified| == |lines|
    ensures dedicatedTest ==> forall i :: 0 <= i < |classified| ==> classified[i]
    ensures !dedicatedTest ==> classified == Verdicts(OUTERMOST, ReadAll(INITIAL, lines))
  {
    hide Verdicts, ReadAll, Lex, LexFrom, Read, Step, Marked;
    if dedicatedTest {
      return seq(|lines|, _ => true);
    }
    var lexer := new RustLexState();
    var braceDepth, testModules, pendingTest := 0, [], false;
    var testItem: Option<Item> := None;
    classified := [];
    ghost var goal := Verdicts(OUTERMOST, ReadAll(INITIAL, lines));
    assert lines[0..] == lines && [] + goal == goal;
    for n := 0 to |lines|
      invariant |classified| == n
      invariant classified + Verdicts(Scope(braceDepth, testModules, testItem, pendingTest), ReadAll(lexer.State(), lines[n..])) == goal
    {
      VerdictsUnfold(Scope(braceDepth, testModules, testItem, pendingTest), lexer.State(), lines, n, classified);
      var code := lexer.Code(lines[n]);
      var verdict;
      verdict, braceDepth, testModules, testItem, pendingTest :=
        ClassifyLine(code, braceDepth, testModules, testItem, pendingTest);
      classified := classified + [verdict];
    }
    EndOfVerdicts(lines, lexer.State(), Scope(braceDepth, testModules, testItem, pendingTest), classified);
  }

  /** One iteration of the classifier's loop. */
  method ClassifyLine(code: string, depth: int, modules: seq<int>, item: Option<Item>, pending: bool)
    returns (verdict: bool, braceDepth: int, testModules: seq<int>, testItem: Option<Item>, pendingTest: bool)
    ensures verdict == Marked(Scope(depth, modules, item, pending), Read(code))
    ensures Scope(braceDepth, testModules, testItem, pendingTest) == Step(Scope(depth, modules, item, pending), Read(code))
  {
    hide Strip, Count, HasModWord, IsTestAttribute, StartsWith, EndsWith, PopClosed, ItemAfter, IsTestOnlyCfg;
    braceDepth, testModules, testItem, pendingTest := depth, modules, item, pending;
    var stripped := Strip(code);
    var isAttribute := StartsWith(stripped, "#[") && EndsWith(stripped, "]");
    if IsTestAttribute(stripped) {
      pendingTest := true;
      return true, braceDepth, testModules, testItem, pendingTest;
    }
    if pendingTest && (stripped == "" || isAttribute) {
      return true, braceDepth, testModules, testItem, pendingTest;
    }
    verdict := testModules != [] || testItem.Some?;
    if pendingTest {
      if HasModWord(stripped, false) && '{' in stripped {
        testModules := testModules + [braceDepth + 1];
      } else {
        testItem := Some(Item(false, 0));
      }
      verdict := true;
      pendingTest := false;
    }
    testItem, testModules, braceDepth :=
      EndOfLine(testItem, testModules, braceDepth, Count(code, '{'), Count(code, '}'), ';' in code);
    assert Scope(braceDepth, testModules, testItem, false) ==
           CountBraces(Resolve(Scope(depth, modules, item, pending), Read(code)), Read(code)) by {
      hide CountBraces;
    }
  }

  /** Counts the braces of one line, and closes the item and the modules that end on it. */
  method EndOfLine(item: Option<Item>, modules: seq<int>, depth: int, opens: nat, closes: nat, semicolon: bool)
    returns (testItem: Option<Item>, testModules: seq<int>, braceDepth: int)
    ensures forall line: Line :: line.opens == opens && line.closes == closes && line.hasSemicolon == semicolon ==>
              Scope(braceDepth, testModules, testItem, false) == CountBraces(Scope(depth, modules, item, false), line)
  {
    testItem, testModules := item, modules;
    if testItem.Some? {
      if !testItem.value.isOpen && opens > 0 {
        testItem := Some(Item(true, depth + 1));
      }
      if semicolon && !testItem.value.isOpen {
        testItem := None;
      }
    }
    braceDepth := depth + opens - closes;
    if testItem.Some? && testItem.value.isOpen && braceDepth < testItem.value.bodyDepth {
      testItem := None;
    }
    while testModules != [] && braceDepth < testModules[|testModules| - 1]
      invariant PopClosed(testModules, braceDepth) == PopClosed(modules, braceDepth)
      decreases |testModules|
    {
      testModules := testModules[..|testModules| - 1];
    }
  }

  lemma EndOfVerdicts(lines: seq<string>, lex: LexState, st: Scope, classified: seq<bool>)
    ensures classified + Verdicts(st, ReadAll(lex, lines[|lines|..])) == classified
  {
  }

  lemma VerdictsUnfold(st: Scope, lex: LexState, lines: seq<string>, n: nat, classified: seq<bool>)
    requires n < |lines|
    ensures var l := Lex(lex, lines[n]);
            var line := Read(l.code);
            classified + Verdicts(st, ReadAll(lex, lines[n..])) ==
            (classified + [Marked(st, line)]) + Verdicts(Step(st, line), ReadAll(l.end, lines[n + 1..]))
  {
  }
}
