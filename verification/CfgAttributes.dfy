/**
 The test for test-only `cfg` attributes against the predicates they are written in: the search
 in the text of an attribute, spaces left out, sees exactly which calls list `test`.
 */
module CfgAttributes {
  import opened Strings
  import opened RustScope

  // ----- Configuration predicates -----

  /** A flag such as `test` or `feature="x"`, or a call such as `all(...)`. */
  datatype Cfg = Flag(name: string) | Call(name: string, args: Args)

  /** Comma-separated arguments; `More(a, Empty)` has a trailing comma. */
  datatype Args = Empty | Last(arg: Cfg) | More(arg: Cfg, rest: Args)

  function Print(p: Cfg): string {
    match p
    case Flag(name) => name
    case Call(name, args) => name + "(" + PrintArgs(args) + ")"
  }

  function PrintArgs(args: Args): string {
    match args
    case Empty => ""
    case Last(arg) => Print(arg)
    case More(arg, rest) => Print(arg) + "," + PrintArgs(rest)
  }

  /** Names hold no parentheses, commas or spaces. */
  predicate ProperName(name: string) {
    forall c :: c in name ==> c !in "(,) "
  }

  predicate Proper(p: Cfg) {
    ProperName(p.name) && (p.Call? ==> ProperArgs(p.args))
  }

  predicate ProperArgs(args: Args) {
    match args
    case Empty => true
    case Last(arg) => Proper(arg)
    case More(arg, rest) => Proper(arg) && ProperArgs(rest)
  }

  /** The text with some spaces put in. */
  predicate SpacedOut(s: string, text: string)
    decreases |text|
  {
    if text == "" then s == ""
    else if text[0] == ' ' then SpacedOut(s, text[1..])
    else s != "" && s[0] == text[0] && SpacedOut(s[1..], text[1..])
  }

  lemma {:induction false} SpacesAreRemoved(s: string, text: string)
    requires SpacedOut(s, text)
    ensures RemoveSpaces(text) == s
    decreases |text|
  {
    if text != "" {
      SpacesAreRemoved(if text[0] == ' ' then s else s[1..], text[1..]);
      assert text[0] != ' ' ==> s == [s[0]] + s[1..];
    }
  }

  // ----- What is found -----

  predicate EndsInAll(name: string) {
    |name| >= 3 && name[|name| - 3..] == "all"
  }

  /** `test` is listed: first in a call whose name ends in `all`, or later in any call. */
  predicate Lists(p: Cfg) {
    p.Call? && ArgsList(p.args, EndsInAll(p.name))
  }

  /** `seen` says whether `test` would be found at the first of these places. */
  predicate ArgsList(args: Args, seen: bool) {
    match args
    case Empty => false
    case Last(arg) => (seen && arg == Flag("test")) || Lists(arg)
    case More(arg, rest) => (seen && arg == Flag("test")) || Lists(arg) || ArgsList(rest, true)
  }

  // ----- The search, one character at a time -----

  /** The text since the last delimiter, whether `test` is looked for there, and whether it was found. */
  datatype Search = Search(field: string, armed: bool, hit: bool)

  const START := Search("", false, false)

  predicate IsDelimiter(c: char) {
    c == '(' || c == ',' || c == ')'
  }

  function SearchChar(st: Search, c: char): Search {
    if IsDelimiter(c) then
      Search("", c == ',' || (c == '(' && EndsInAll(st.field)), st.hit || (c != '(' && st.armed && st.field == "test"))
    else st.(field := st.field + [c])
  }

  function SearchAll(st: Search, s: string): Search
    decreases |s|
  {
    if s == "" then st else SearchChar(SearchAll(st, s[..|s| - 1]), s[|s| - 1])
  }

  /** Some occurrence of the expression the source searches for. */
  predicate Matches(s: string) {
    Contains(s, "all(test,") || Contains(s, "all(test)") || Contains(s, ",test,") || Contains(s, ",test)")
  }

  lemma {:induction false} ContainsAt(s: string, part: string)
    ensures Contains(s, part) <==> exists i :: 0 <= i <= |s| && StartsWith(s[i..], part)
    decreases |s|
  {
    if StartsWith(s, part) {
      assert s[0..] == s;
    }
    if s != "" {
      ContainsAt(s[1..], part);
      if i :| 0 <= i <= |s[1..]| && StartsWith(s[1..][i..], part) {
        assert s[i + 1..] == s[1..][i..];
      }
      if i :| 0 <= i <= |s| && StartsWith(s[i..], part) {
        if i > 0 {
          assert s[1..][i - 1..] == s[i..];
        } else {
          assert s[0..] == s;
        }
      }
    }
  }

  lemma PlaceInLonger(s: string, c: char, part: string, i: nat)
    requires i <= |s|
    ensures StartsWith((s + [c])[i..], part) <==> StartsWith(s[i..], part) || (s + [c])[i..] == part
  {
    assert (s + [c])[i..] == s[i..] + [c];
    PrefixOfSnoc(s[i..], c, part);
  }

  lemma PrefixOfSnoc(s: string, c: char, part: string)
    ensures StartsWith(s + [c], part) <==> StartsWith(s, part) || s + [c] == part
  {
    if |part| <= |s| {
      assert (s + [c])[..|part|] == s[..|part|];
    }
  }

  lemma EndPlace(t: string, part: string, i: nat)
    requires i <= |t| && t[i..] == part
    ensures EndsWith(t, part)
  {
  }

  /** One more character gives one more place for an occurrence: the end. */
  lemma ContainsSnoc(s: string, c: char, part: string)
    requires part != ""
    ensures Contains(s + [c], part) <==> Contains(s, part) || EndsWith(s + [c], part)
  {
    hide Contains, StartsWith;
    ContainsAt(s, part);
    ContainsAt(s + [c], part);
    var t := s + [c];
    if Contains(s, part) {
      var i :| 0 <= i <= |s| && StartsWith(s[i..], part);
      PlaceInLonger(s, c, part, i);
    } else if Contains(t, part) {
      var i :| 0 <= i <= |t| && StartsWith(t[i..], part);
      if i <= |s| {
        PlaceInLonger(s, c, part, i);
        EndPlace(t, part, i);
      } else {
        assert t[i..] == "";
        NothingStarts(part);
      }
    } else if EndsWith(t, part) {
      EndsAtPlace(t, part);
      PlaceInLonger(s, c, part, |t| - |part|);
    }
  }

  lemma EndsAtPlace(t: string, part: string)
    requires EndsWith(t, part)
    ensures |part| <= |t| && t[|t| - |part|..] == part
  {
  }

  lemma NothingStarts(part: string)
    requires part != ""
    ensures !StartsWith("", part)
  {
  }

  /** The state of the search tells what the text read so far ends in. */
  predicate Tells(st: Search, s: string) {
    && |st.field| <= |s| && s[|s| - |st.field|..] == st.field
    && (forall c :: c in st.field ==> !IsDelimiter(c))
    && var k := |s| - |st.field|;
       && (k > 0 ==> IsDelimiter(s[k - 1]))
       && (st.armed <==> k > 0 && (s[k - 1] == ',' || (s[k - 1] == '(' && EndsInAll(s[..k - 1]))))
  }

  lemma CharInSuffix(s: string, word: string, i: nat)
    requires EndsWith(s, word) && |s| - |word| <= i < |s|
    ensures s[i] in word
  {
    assert s[|s| - |word|..][i - (|s| - |word|)] == s[i];
  }

  lemma SuffixOfSuffix(s: string, n: nat, word: string)
    requires |word| <= n <= |s|
    ensures EndsWith(s, word) <==> EndsWith(s[|s| - n..], word)
  {
    assert s[|s| - n..][n - |word|..] == s[|s| - |word|..];
  }

  lemma EndsInWord(st: Search, s: string, word: string)
    requires Tells(st, s) && (forall c :: c in word ==> !IsDelimiter(c))
    ensures EndsWith(s, word) <==> EndsWith(st.field, word)
  {
    hide EndsWith;
    if |word| <= |st.field| {
      SuffixOfSuffix(s, |st.field|, word);
    } else {
      assert !EndsWith(st.field, word) by {
        TooLong(st.field, word);
      }
      if EndsWith(s, word) {
        FitsIn(s, word);
        CharInSuffix(s, word, |s| - |st.field| - 1);
      }
    }
  }

  lemma TooLong(s: string, word: string)
    requires |word| > |s|
    ensures !EndsWith(s, word)
  {
  }

  lemma FitsIn(s: string, word: string)
    requires EndsWith(s, word)
    ensures |word| <= |s|
  {
  }

  lemma EndsInTwo(s: string, a: string, b: string)
    ensures EndsWith(s, a + b) <==> EndsWith(s, b) && EndsWith(s[..|s| - |b|], a)
  {
    if EndsWith(s, a + b) {
      assert s[|s| - |b|..] == s[|s| - |a| - |b|..][|a|..] == (a + b)[|a|..] == b;
      assert s[..|s| - |b|][|s| - |b| - |a|..] == s[|s| - |a| - |b|..][..|a|] == (a + b)[..|a|] == a;
    }
    if EndsWith(s, b) && EndsWith(s[..|s| - |b|], a) {
      assert s[|s| - |a| - |b|..] == s[..|s| - |b|][|s| - |b| - |a|..] + s[|s| - |b|..];
    }
  }

  lemma EndsInTest(st: Search, s: string, before: string)
    requires Tells(st, s) && before != "" && IsDelimiter(before[|before| - 1])
    ensures EndsWith(s, before + "test") <==>
            st.field == "test" && EndsWith(s[..|s| - |st.field|], before)
  {
    EndsInTwo(s, before, "test");
    EndsInWord(st, s, "test");
    if EndsWith(s, "test") && |st.field| > 4 {
      LastChar(s[..|s| - 4], before);
      assert s[..|s| - 4][|s| - 5] == st.field[|st.field| - 5];
      assert st.field[|st.field| - 5] in st.field;
    } else if EndsWith(st.field, "test") {
      assert st.field[|st.field| - 4..] == st.field;
    }
  }

  lemma LastChar(s: string, part: string)
    requires part != ""
    ensures EndsWith(s, part) ==> s != "" && s[|s| - 1] == part[|part| - 1]
  {
    if EndsWith(s, part) {
      assert s[|s| - |part|..][|part| - 1] == s[|s| - 1];
    }
  }

  lemma ArmedTells(st: Search, s: string)
    requires Tells(st, s)
    ensures st.armed <==> EndsWith(s[..|s| - |st.field|], ",") || EndsWith(s[..|s| - |st.field|], "all(")
  {
    hide EndsInAll, EndsWith;
    var k := |s| - |st.field|;
    if k > 0 {
      var head := s[..k - 1];
      assert s[..k] == head + [s[k - 1]];
      EndsInSnoc(head, s[k - 1], ",");
      EndsInSnoc(head, s[k - 1], "all(");
      assert ","[..0] == "" && "all("[..3] == "all";
      AllAtEnd(head);
    } else {
      TooLong(s[..k], ",");
      TooLong(s[..k], "all(");
    }
  }

  lemma AllAtEnd(s: string)
    ensures EndsWith(s, "") && (EndsWith(s, "all") <==> EndsInAll(s))
  {
  }

  lemma EndsInSnoc(s: string, c: char, part: string)
    requires part != ""
    ensures EndsWith(s + [c], part) <==> part[|part| - 1] == c && EndsWith(s, part[..|part| - 1])
  {
    var t, n := s + [c], |part| - 1;
    assert part == part[..n] + [part[n]];
    if |part| <= |t| {
      assert t[|t| - |part|..] == s[|s| - n..] + [c];
    }
  }

  /** A closing character completes an occurrence exactly when the search was armed and read `test`. */
  lemma CompletesAt(st: Search, s: string, c: char)
    requires Tells(st, s)
    ensures (EndsWith(s + [c], "all(test,") || EndsWith(s + [c], "all(test)")
             || EndsWith(s + [c], ",test,") || EndsWith(s + [c], ",test)"))
            <==> (c == ',' || c == ')') && st.armed && st.field == "test"
  {
    hide Tells, EndsWith;
    EndsInSnoc(s, c, "all(test,");
    EndsInSnoc(s, c, "all(test)");
    EndsInSnoc(s, c, ",test,");
    EndsInSnoc(s, c, ",test)");
    assert "all(test,"[..8] == "all(" + "test" == "all(test)"[..8];
    assert ",test,"[..5] == "," + "test" == ",test)"[..5];
    EndsInTest(st, s, "all(");
    EndsInTest(st, s, ",");
    ArmedTells(st, s);
  }

  lemma TellsNext(st: Search, s: string, c: char)
    requires Tells(st, s)
    ensures Tells(SearchChar(st, c), s + [c])
  {
    var t := s + [c];
    if IsDelimiter(c) {
      assert t[..|t| - 1] == s && t[|t|..] == "";
      EndsInWord(st, s, "all");
    } else {
      var k := |s| - |st.field|;
      assert t[k..] == s[k..] + [c];
      assert k > 0 ==> t[k - 1] == s[k - 1] && t[..k - 1] == s[..k - 1];
    }
  }

  /** The search ends in a hit exactly when the expression occurs. */
  lemma {:induction false} SearchIsExact(s: string)
    ensures var st := SearchAll(START, s); Tells(st, s) && (st.hit <==> Matches(s))
    decreases |s|
  {
    hide Tells, Contains, EndsWith, SearchChar;
    if s == "" {
      NothingIsRead();
    } else {
      var front, c := s[..|s| - 1], s[|s| - 1];
      var st := SearchAll(START, front);
      assert s == front + [c];
      SearchIsExact(front);
      TellsNext(st, front, c);
      CompletesAt(st, front, c);
      ContainsSnoc(front, c, "all(test,");
      ContainsSnoc(front, c, "all(test)");
      ContainsSnoc(front, c, ",test,");
      ContainsSnoc(front, c, ",test)");
      HitNext(st, c);
    }
  }

  lemma HitNext(st: Search, c: char)
    ensures SearchChar(st, c).hit <==> st.hit || ((c == ',' || c == ')') && st.armed && st.field == "test")
  {
  }

  lemma NothingInside(part: string)
    requires part != ""
    ensures !Contains("", part)
  {
  }

  lemma NothingIsRead()
    ensures Tells(START, "") && !Matches("")
  {
    hide Contains;
    NothingInside("all(test,");
    NothingInside("all(test)");
    NothingInside(",test,");
    NothingInside(",test)");
  }

  // ----- The search over a printed predicate -----

  lemma {:induction false} SearchAppend(st: Search, a: string, b: string)
    ensures SearchAll(st, a + b) == SearchAll(SearchAll(st, a), b)
    decreases |b|
  {
    hide SearchChar;
    if b == "" {
      assert a + b == a;
    } else {
      var n := |b| - 1;
      assert (a + b)[..|a + b| - 1] == a + b[..n];
      SearchAppend(st, a, b[..n]);
    }
  }

  lemma SearchOne(st: Search, c: char)
    ensures SearchAll(st, [c]) == SearchChar(st, c)
  {
    assert [c][..0] == "";
  }

  lemma {:induction false} SearchName(st: Search, name: string)
    requires ProperName(name)
    ensures SearchAll(st, name) == st.(field := st.field + name)
    decreases |name|
  {
    if name == "" {
      assert st.field + name == st.field;
    } else {
      var n := |name| - 1;
      assert name[n] in name && forall c :: c in name[..n] ==> c in name;
      SearchName(st, name[..n]);
      assert st.field + name == st.field + name[..n] + [name[n]];
    }
  }

  /** After a predicate the search holds its name, or after a call nothing but what was found inside. */
  lemma {:induction false} SearchCfg(st: Search, p: Cfg)
    requires Proper(p) && st.field == ""
    ensures SearchAll(st, Print(p)) == if p.Flag? then st.(field := p.name) else Search("", false, st.hit || Lists(p))
    decreases p, 1
  {
    hide SearchAll, SearchChar;
    SearchName(st, p.name);
    assert "" + p.name == p.name;
    if p.Call? {
      var named := st.(field := p.name);
      var inside := Search("", EndsInAll(p.name), st.hit);
      SearchAppend(st, p.name + "(" + PrintArgs(p.args), ")");
      SearchAppend(st, p.name + "(", PrintArgs(p.args));
      SearchAppend(st, p.name, "(");
      SearchOne(named, '(');
      OpenCall(named);
      SearchArgs(inside, p.args);
      SearchAppend(inside, PrintArgs(p.args), ")");
    }
  }

  lemma OpenCall(st: Search)
    ensures SearchChar(st, '(') == Search("", EndsInAll(st.field), st.hit)
  {
  }

  lemma {:induction false} SearchArgs(st: Search, args: Args)
    requires ProperArgs(args) && st.field == ""
    ensures SearchAll(st, PrintArgs(args) + ")") == Search("", false, st.hit || ArgsList(args, st.armed))
    decreases args, 0
  {
    hide SearchAll, Print;
    match args
    case Empty =>
      SearchOne(st, ')');
      assert PrintArgs(args) + ")" == ")";
    case Last(arg) =>
      SearchCfg(st, arg);
      SearchAppend(st, Print(arg), ")");
      SearchOne(SearchAll(st, Print(arg)), ')');
    case More(arg, rest) =>
      SearchCfg(st, arg);
      var after := SearchChar(SearchAll(st, Print(arg)), ',');
      SearchOne(SearchAll(st, Print(arg)), ',');
      SearchArgs(after, rest);
      assert Print(arg) + "," + PrintArgs(rest) + ")" == Print(arg) + ("," + (PrintArgs(rest) + ")"));
      SearchAppend(st, Print(arg), "," + (PrintArgs(rest) + ")"));
      SearchAppend(SearchAll(st, Print(arg)), ",", PrintArgs(rest) + ")");
  }

  // ----- The attribute -----

  /** The predicates that the classifier takes for test-only. */
  predicate TakenForTest(p: Cfg) {
    p == Flag("test") || (p.Call? && p.name == "all" && Lists(p))
  }

  lemma {:induction false} PrintedArgsHaveNoSpace(args: Args)
    requires ProperArgs(args)
    ensures ' ' !in PrintArgs(args)
    decreases args, 0
  {
    match args
    case Empty =>
    case Last(arg) => PrintedHasNoSpace(arg);
    case More(arg, rest) => PrintedHasNoSpace(arg); PrintedArgsHaveNoSpace(rest);
  }

  lemma {:induction false} PrintedHasNoSpace(p: Cfg)
    requires Proper(p)
    ensures ' ' !in Print(p)
    decreases p, 1
  {
    if p.Call? {
      PrintedArgsHaveNoSpace(p.args);
    }
  }

  lemma AllHead(s: string)
    ensures StartsWith(s, "all(") <==> |s| >= 4 && s[..3] == "all" && s[3] == '('
  {
    assert "all(" == "all" + ['('];
    assert |s| >= 4 ==> s[..4] == s[..3] + [s[3]];
  }

  lemma FirstParenthesis(s: string, m: nat, n: nat)
    requires m < |s| && n < |s| && s[m] == '(' && s[n] == '('
    requires (forall i :: 0 <= i < m ==> s[i] != '(') && (forall i :: 0 <= i < n ==> s[i] != '(')
    ensures m == n
  {
  }

  lemma PrintedHead(p: Cfg)
    requires Proper(p)
    ensures Print(p) == "test" <==> p == Flag("test")
    ensures StartsWith(Print(p), "all(") <==> p.Call? && p.name == "all"
  {
    hide PrintArgs, StartsWith;
    var s, n := Print(p), |p.name|;
    AllHead(s);
    assert forall i :: 0 <= i < n ==> s[i] == p.name[i] && p.name[i] in p.name;
    if p.Call? {
      assert s[n] == '(' && s[..n] == p.name;
      assert forall c :: c in "test" ==> c != '(';
      assert s[n] in s;
      if StartsWith(s, "all(") {
        assert forall i :: 0 <= i < 3 ==> s[i] == s[..3][i] == "all"[i];
        FirstParenthesis(s, n, 3);
      }
    }
  }

  /** For every predicate, however its text is spaced: the attribute is a test attribute exactly when it is taken for one. */
  lemma TestAttributeExactly(p: Cfg, text: string)
    requires Proper(p) && SpacedOut(Print(p), text)
    ensures IsTestAttribute("#[cfg(" + text + ")]") <==> TakenForTest(p)
  {
    hide Contains, SearchAll, Print, Lists, SpacedOut, RemoveSpaces, Tells;
    var attribute := "#[cfg(" + text + ")]";
    assert attribute[..6] == "#[cfg(" && attribute[|attribute| - 2..] == ")]";
    assert attribute[6..|attribute| - 2] == text;
    SpacesAreRemoved(Print(p), text);
    PrintedHead(p);
    SearchIsExact(Print(p));
    SearchCfg(START, p);
  }

  // ----- What the attribute demands -----

  /** Whether the predicate holds of a build. */
  predicate Holds(p: Cfg, build: string -> bool) {
    match p
    case Flag(name) => build(name)
    case Call(name, args) =>
      if name == "all" then All(args, build)
      else if name == "any" then Any(args, build)
      else name == "not" && args.Last? && !Holds(args.arg, build)
  }

  predicate All(args: Args, build: string -> bool) {
    match args
    case Empty => true
    case Last(arg) => Holds(arg, build)
    case More(arg, rest) => Holds(arg, build) && All(rest, build)
  }

  predicate Any(args: Args, build: string -> bool) {
    match args
    case Empty => false
    case Last(arg) => Holds(arg, build)
    case More(arg, rest) => Holds(arg, build) || Any(rest, build)
  }

  /** No call among the arguments. */
  predicate Flat(args: Args) {
    match args
    case Empty => true
    case Last(arg) => arg.Flag?
    case More(arg, rest) => arg.Flag? && Flat(rest)
  }

  /** The build that has everything but `test`. */
  predicate Production(name: string) {
    name != "test"
  }

  lemma FlagHolds(p: Cfg, build: string -> bool)
    requires p.Flag?
    ensures (Holds(p, build) <==> build(p.name)) && !Lists(p)
  {
  }

  lemma {:induction false} FlatAll(args: Args, build: string -> bool)
    requires Flat(args)
    ensures ArgsList(args, true) && All(args, build) ==> build("test")
    ensures !ArgsList(args, true) ==> All(args, Production)
    decreases args
  {
    hide Holds, Lists;
    if !args.Empty? {
      FlagHolds(args.arg, build);
      FlagHolds(args.arg, Production);
    }
    if args.More? {
      FlatAll(args.rest, build);
    }
  }

  ghost predicate DemandsTest(p: Cfg) {
    forall build: string -> bool :: Holds(p, build) ==> build("test")
  }

  /** A flag, or `all` of flags, is taken for test-only exactly when it holds only of test builds. */
  lemma FlatIsExact(p: Cfg)
    requires p.Flag? || (p.name == "all" && Flat(p.args))
    ensures TakenForTest(p) <==> DemandsTest(p)
  {
    if p.Flag? {
      FlagHolds(p, Production);
      assert p.name == "test" ==> forall build: string -> bool :: Holds(p, build) ==> build("test");
    } else {
      forall build: string -> bool
        ensures ArgsList(p.args, true) && Holds(p, build) ==> build("test")
      {
        FlatAll(p.args, build);
      }
      FlatAll(p.args, Production);
      assert EndsInAll("all");
      assert !ArgsList(p.args, true) ==> Holds(p, Production);
    }
  }

  lemma CallHolds(args: Args, build: string -> bool)
    ensures Holds(Call("all", args), build) <==> All(args, build)
    ensures Holds(Call("any", args), build) <==> Any(args, build)
  {
    assert "any"[1] == 'n' && "all"[1] == 'l';
  }

  lemma EndsOfNames()
    ensures EndsInAll("all") && !EndsInAll("any")
  {
    assert "any"[0..] == "any" && "any"[1] == 'n' && "all"[1] == 'l';
  }

  lemma ListsNested(x: string, y: string)
    ensures Lists(Call("all", More(Flag(x), Last(Call("any", More(Flag(y), Last(Flag("test"))))))))
    ensures !Lists(Call("all", Last(Call("any", Last(Flag("test"))))))
  {
    hide EndsInAll;
    EndsOfNames();
    var later := Last(Flag("test"));
    assert ArgsList(later, true) && !ArgsList(later, false);
    var any := Call("any", More(Flag(y), later));
    assert Lists(any) && ArgsList(Last(any), true);
    var only := Call("any", later);
    assert !Lists(only) && !ArgsList(Last(only), true);
  }

  /** With nested calls it can be wrong either way: `all(x,any(y,test))` is taken for test-only, `all(any(test))` is not. */
  lemma NestedIsInexact(x: string, y: string)
    requires x != "test" && y != "test"
    ensures var p := Call("all", More(Flag(x), Last(Call("any", More(Flag(y), Last(Flag("test")))))));
            TakenForTest(p) && !DemandsTest(p)
    ensures var q := Call("all", Last(Call("any", Last(Flag("test"))))); !TakenForTest(q) && DemandsTest(q)
  {
    hide Holds, Lists;
    ListsNested(x, y);
    var later := Last(Flag("test"));
    var inner := Last(Call("any", More(Flag(y), later)));
    FlagHolds(Flag(x), Production);
    FlagHolds(Flag(y), Production);
    CallHolds(More(Flag(y), later), Production);
    CallHolds(More(Flag(x), inner), Production);
    assert All(inner, Production);
    assert Holds(Call("all", More(Flag(x), inner)), Production);
    var q := Call("all", Last(Call("any", later)));
    forall build: string -> bool
      ensures Holds(q, build) ==> build("test")
    {
      FlagHolds(Flag("test"), build);
      CallHolds(later, build);
      CallHolds(Last(Call("any", later)), build);
    }
  }
}
