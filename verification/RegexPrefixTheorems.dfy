/**
 The scanner's verdict against the language of the pattern: it tells top-level alternation
 from any other `|`, and every match of an accepted pattern starts with the prefix.
 */
module RegexPrefixTheorems {
  import opened Strings
  import opened RegexPrefix

  function Outside(depth: int): Scan {
    Scanning(depth, false, false)
  }

  // ----- The scan of a printed expression -----

  lemma {:induction false} ScanAppend(st: Scan, a: string, b: string)
    ensures ScanAll(st, a + b) == ScanAll(ScanAll(st, a), b)
    decreases |a|
  {
    if a == [] {
      assert a + b == b;
    } else {
      assert (a + b)[1..] == a[1..] + b;
      ScanAppend(ScanChar(st, a[0]), a[1..], b);
    }
  }

  /** Text without characters the scanner reacts to. */
  predicate Quiet(s: string) {
    forall c :: c in s ==> c !in "\\[()|"
  }

  lemma {:induction false} QuietScan(depth: int, s: string)
    requires Quiet(s)
    ensures ScanAll(Outside(depth), s) == Outside(depth)
    decreases |s|
  {
    if s != [] {
      assert s[0] in s;
      QuietScan(depth, s[1..]);
    }
  }

  lemma {:induction false} DigitsAreQuiet(n: nat)
    ensures Quiet(Digits(n))
  {
    var last := "0123456789"[n % 10];
    assert last in "0123456789";
    if n >= 10 {
      DigitsAreQuiet(n / 10);
    }
  }

  lemma QuietJoin(a: string, b: string)
    requires Quiet(a) && Quiet(b)
    ensures Quiet(a + b)
  {
  }

  lemma QuietPieces()
    ensures Quiet("") && Quiet("?") && Quiet("*") && Quiet("+") && Quiet("{") && Quiet("}") && Quiet(",")
  {
  }

  lemma QuantifierIsQuiet(q: Quantifier)
    ensures Quiet(PrintQuantifier(q))
  {
    hide Digits, Quiet;
    QuietPieces();
    if q.Counted? {
      var least, most := Digits(q.least), if q.most.Some? then Digits(q.most.value) else "";
      DigitsAreQuiet(q.least);
      if q.most.Some? {
        DigitsAreQuiet(q.most.value);
      }
      QuietJoin("{", least);
      QuietJoin("{" + least, ",");
      QuietJoin("{" + least + ",", most);
      QuietJoin("{" + least + "," + most, "}");
      QuietJoin("{" + least + "," + most + "}", if q.lazy then "?" else "");
    } else if !q.Once? {
      QuietJoin(if q.Maybe? then "?" else if q.Star? then "*" else "+", if q.lazy then "?" else "");
    }
  }

  /** Whatever a class lists, the scanner stays inside it. */
  lemma {:induction false} ItemsScan(depth: int, items: seq<ClassItem>)
    requires forall i :: i in items ==> PrintableItem(i)
    ensures ScanAll(Scanning(depth, false, true), PrintItems(items)) == Scanning(depth, false, true)
    decreases |items|
  {
    if items != [] {
      var inside := Scanning(depth, false, true);
      assert items[0] in items;
      ItemsScan(depth, items[1..]);
      match items[0]
      case Member(c) =>
        ScanAppend(inside, [c], PrintItems(items[1..]));
        assert ScanAll(inside, [c]) == ScanAll(ScanChar(inside, c), []);
      case EscapedMember(c) =>
        ScanAppend(inside, ['\\', c], PrintItems(items[1..]));
        assert ['\\', c] == ['\\'] + [c];
        ScanAppend(inside, ['\\'], [c]);
        ScanOne(inside, '\\');
        ScanOne(Scanning(depth, true, true), c);
    }
  }

  lemma ScanOne(st: Scan, c: char)
    ensures ScanAll(st, [c]) == ScanChar(st, c)
  {
  }

  lemma CaretScan(depth: int, negated: bool)
    ensures ScanAll(Scanning(depth, false, true), if negated then "^" else "") == Scanning(depth, false, true)
  {
  }

  /** Three pieces, scanned one after the other. */
  lemma ScanThree(st: Scan, a: string, b: string, c: string)
    ensures ScanAll(st, a + b + c) == ScanAll(ScanAll(ScanAll(st, a), b), c)
  {
    hide ScanAll;
    ScanAppend(st, a + b, c);
    ScanAppend(st, a, b);
  }

  lemma ScanPlainClass(depth: int, negated: bool, items: seq<ClassItem>)
    requires forall i :: i in items ==> PrintableItem(i)
    ensures ScanAll(Outside(depth), PrintAtom(Class(negated, false, items))) == Outside(depth)
  {
    hide ScanAll, PrintItems, ScanChar;
    var caret := if negated then "^" else "";
    OpenClass(depth, negated);
    ItemsScan(depth, items);
    ScanThree(Outside(depth), "[" + caret, PrintItems(items), "]");
    CloseClass(depth);
    assert "[" + caret + "" == "[" + caret;
  }

  lemma OpenClass(depth: int, negated: bool)
    ensures ScanAll(Outside(depth), "[" + if negated then "^" else "") == Scanning(depth, false, true)
  {
    ScanOne(Outside(depth), '[');
    ScanAppend(Outside(depth), "[", if negated then "^" else "");
    CaretScan(depth, negated);
  }

  lemma CloseClass(depth: int)
    ensures ScanAll(Scanning(depth, false, true), "]") == Outside(depth)
  {
  }

  /** The members behind a first `]` are scanned as if they stood outside; a `|` among them can end the scan. */
  lemma {:induction false} OpenItemsScan(depth: int, items: seq<ClassItem>)
    requires forall i :: i in items ==> PrintableItem(i)
    ensures ScanAll(Outside(depth), PrintItems(items) + "]") in {Rejected, Outside(depth + Shift(items))}
    ensures depth > |items| ==> ScanAll(Outside(depth), PrintItems(items) + "]") != Rejected
    decreases |items|
  {
    hide ScanAll;
    var st := Outside(depth);
    if items == [] {
      ScanOne(st, ']');
      assert PrintItems(items) + "]" == "]";
    } else {
      var first, rest := PrintItems([items[0]]), PrintItems(items[1..]);
      assert items[0] in items;
      FirstItem(items);
      ScanThree(st, first, rest, "]");
      ScanAppend(ScanAll(st, first), rest, "]");
      FirstItemScan(depth, items[0]);
      if items[0] == Member('[') {
        ItemsScan(depth, items[1..]);
        CloseClass(depth);
      } else if ScanAll(st, first).Rejected? {
        RejectedForGood(rest + "]");
      } else {
        OpenItemsScan(depth + ItemShift(items[0]), items[1..]);
      }
    }
  }

  function ItemShift(item: ClassItem): int {
    if item == Member('(') then 1 else if item == Member(')') then -1 else 0
  }

  lemma FirstItem(items: seq<ClassItem>)
    requires items != []
    ensures PrintItems(items) == PrintItems([items[0]]) + PrintItems(items[1..])
  {
  }

  lemma FirstItemScan(depth: int, item: ClassItem)
    requires PrintableItem(item)
    ensures ScanAll(Outside(depth), PrintItems([item])) ==
            if item == Member('[') then Scanning(depth, false, true)
            else if item == Member('|') && depth == 0 then Rejected
            else Outside(depth + ItemShift(item))
  {
    assert [item][1..] == [];
    match item
    case Member(c) => ScanOne(Outside(depth), c);
    case EscapedMember(c) =>
      assert ['\\', c] == ['\\'] + [c];
      ScanAppend(Outside(depth), ['\\'], [c]);
      ScanOne(Outside(depth), '\\');
      ScanOne(Scanning(depth, true, false), c);
  }

  lemma ScanBracketFirst(depth: int, negated: bool, items: seq<ClassItem>)
    requires forall i :: i in items ==> PrintableItem(i)
    ensures ScanAll(Outside(depth), PrintAtom(Class(negated, true, items))) in {Rejected, Outside(depth + Shift(items))}
    ensures depth > |items| ==> ScanAll(Outside(depth), PrintAtom(Class(negated, true, items))) != Rejected
  {
    hide ScanAll, PrintItems, ScanChar, Shift;
    var caret := if negated then "^" else "";
    OpenClass(depth, negated);
    CloseClass(depth);
    OpenItemsScan(depth, items);
    ScanThree(Outside(depth), "[" + caret, "]", PrintItems(items) + "]");
    assert "[" + caret + "]" + PrintItems(items) + "]" == "[" + caret + "]" + (PrintItems(items) + "]");
  }

  /** What a scan of a printable piece ends in: where it began, or rejected if a class can hide a `|`. */
  predicate Passes(st: Scan, depth: int, plain: bool) {
    st == Outside(depth) || (!plain && st == Rejected)
  }

  lemma PassesBoth(depth: int, plain: bool, a: string, b: string)
    requires Passes(ScanAll(Outside(depth), a), depth, plain) && Passes(ScanAll(Outside(depth), b), depth, plain)
    ensures Passes(ScanAll(Outside(depth), a + b), depth, plain)
  {
    hide ScanAll;
    ScanAppend(Outside(depth), a, b);
    RejectedForGood(b);
  }

  lemma QuietPasses(depth: int, plain: bool, s: string)
    requires Quiet(s)
    ensures Passes(ScanAll(Outside(depth), s), depth, plain)
  {
    QuietScan(depth, s);
  }

  lemma ScanGroup(depth: int, plain: bool, kind: GroupKind, body: string)
    requires Passes(ScanAll(Outside(depth + 1), body), depth + 1, plain)
    ensures Passes(ScanAll(Outside(depth), "(" + PrintKind(kind) + body + ")"), depth, plain)
  {
    hide ScanAll;
    KindIsQuiet(kind);
    ScanOne(Outside(depth), '(');
    ScanAppend(Outside(depth), "(", PrintKind(kind));
    QuietScan(depth + 1, PrintKind(kind));
    ScanThree(Outside(depth), "(" + PrintKind(kind), body, ")");
    ScanOne(Outside(depth + 1), ')');
    RejectedForGood(")");
  }

  lemma KindIsQuiet(kind: GroupKind)
    ensures Quiet(PrintKind(kind))
  {
  }

  lemma ScanEscape(depth: int, c: char)
    ensures ScanAll(Outside(depth), ['\\', c]) == Outside(depth)
  {
    assert ['\\', c] == ['\\'] + [c];
    ScanAppend(Outside(depth), ['\\'], [c]);
    ScanOne(Outside(depth), '\\');
    ScanOne(Scanning(depth, true, false), c);
  }

  /** An atom leaves the scanner where it was, at any nesting depth. */
  lemma {:induction false} ScanAtom(depth: nat, a: Atom, plain: bool)
    requires PrintableAtom(a, plain)
    ensures Passes(ScanAll(Outside(depth), PrintAtom(a)), depth, plain)
    decreases a, 0
  {
    hide ScanAll, Quiet;
    match a
    case Literal(c) => ScanOne(Outside(depth), c);
    case Special(sign) => ScanOne(Outside(depth), PrintAtom(a)[0]);
    case Escape(c) => ScanEscape(depth, c);
    case Class(negated, bracketFirst, items) =>
      if bracketFirst {
        ScanBracketFirst(depth, negated, items);
      } else {
        ScanPlainClass(depth, negated, items);
      }
    case Group(kind, body) =>
      ScanNested(depth + 1, body, plain);
      ScanGroup(depth, plain, kind, Print(body));
  }

  lemma {:induction false} ScanBranch(depth: nat, b: Branch, plain: bool)
    requires PrintableBranch(b, plain)
    ensures Passes(ScanAll(Outside(depth), PrintBranch(b)), depth, plain)
    decreases b, 1
  {
    hide ScanAll, PrintAtom, PrintQuantifier, Passes, Quiet;
    if b.Empty? {
      QuietNothing();
      QuietPasses(depth, plain, "");
    } else {
      ScanAtom(depth, b.atom, plain);
      QuantifierIsQuiet(b.quantifier);
      QuietPasses(depth, plain, PrintQuantifier(b.quantifier));
      ScanBranch(depth, b.rest, plain);
      PassesBoth(depth, plain, PrintAtom(b.atom), PrintQuantifier(b.quantifier));
      PassesBoth(depth, plain, PrintAtom(b.atom) + PrintQuantifier(b.quantifier), PrintBranch(b.rest));
    }
  }

  lemma QuietNothing()
    ensures Quiet("")
  {
  }

  lemma BarPasses(depth: nat, plain: bool)
    requires depth > 0
    ensures Passes(ScanAll(Outside(depth), "|"), depth, plain)
  {
  }

  /** Inside a group alternation is passed over. */
  lemma {:induction false} ScanNested(depth: nat, r: Regex, plain: bool)
    requires Printable(r, plain) && depth > 0
    ensures Passes(ScanAll(Outside(depth), Print(r)), depth, plain)
    decreases r, 2
  {
    hide ScanAll, PrintBranch, Passes;
    ScanBranch(depth, r.branch, plain);
    if r.Or? {
      ScanNested(depth, r.others, plain);
      BarPasses(depth, plain);
      PassesBoth(depth, plain, PrintBranch(r.branch), "|");
      PassesBoth(depth, plain, PrintBranch(r.branch) + "|", Print(r.others));
    }
  }

  /** Top-level alternation is always seen; without classes that begin with `]` nothing else is taken for it. */
  lemma TopLevelAlternation(r: Regex, plain: bool)
    requires Printable(r, plain)
    ensures r.Or? ==> ScanAll(Outside(0), Print(r)).Rejected?
    ensures plain && r.Last? ==> !ScanAll(Outside(0), Print(r)).Rejected?
  {
    hide ScanAll, PrintBranch;
    ScanBranch(0, r.branch, plain);
    if r.Or? {
      ScanOne(Outside(0), '|');
      RejectedForGood("|");
      RejectedForGood(Print(r.others));
      ScanThree(Outside(0), PrintBranch(r.branch), "|", Print(r.others));
    }
  }

  // ----- The prefix in the text and in the matches -----

  predicate AllOrdinary(s: string) {
    forall c :: c in s ==> IsOrdinary(c)
  }

  /** A branch that begins with these literals, each exactly once. */
  predicate BeginsWith(b: Branch, prefix: string)
    decreases |prefix|
  {
    prefix == [] ||
    (b.Then? && b.atom == Literal(prefix[0]) && b.quantifier.Once? && BeginsWith(b.rest, prefix[1..]))
  }

  lemma AtomOpening(a: Atom)
    ensures PrintAtom(a) != []
    ensures IsOrdinary(PrintAtom(a)[0]) ==> a.Literal?
  {
  }

  lemma QuantifierOpening(q: Quantifier)
    ensures !q.Once? ==> PrintQuantifier(q) != [] && PrintQuantifier(q)[0] in "?*+{"
    ensures !q.Once? ==> !IsOrdinary(PrintQuantifier(q)[0])
  {
  }

  /** A printed branch that starts with ordinary characters and no quantifier after them begins with those literals. */
  lemma {:induction false} TextBeginsWith(b: Branch, tail: string, prefix: string)
    requires AllOrdinary(prefix)
    requires tail == [] || tail[0] == '|'
    requires StartsWith(PrintBranch(b) + tail, prefix) && !QuantifierFollows(PrintBranch(b) + tail, |prefix|)
    ensures BeginsWith(b, prefix)
    decreases |prefix|
  {
    hide PrintAtom, PrintBranch, QuantifierFollows;
    if prefix != [] {
      StartsWithLiteral(b, tail, prefix);
      FirstPiece(b, tail, prefix);
      TextBeginsWith(b.rest, tail, prefix[1..]);
    }
  }

  lemma StartsWithLiteral(b: Branch, tail: string, prefix: string)
    requires AllOrdinary(prefix) && prefix != []
    requires tail == [] || tail[0] == '|'
    requires StartsWith(PrintBranch(b) + tail, prefix)
    ensures b.Then? && b.atom.Literal?
  {
    hide PrintAtom, PrintQuantifier;
    var text := PrintBranch(b) + tail;
    assert text[0] == prefix[0] && prefix[0] in prefix;
    if b.Then? {
      AtomOpening(b.atom);
      assert text[0] == PrintAtom(b.atom)[0];
    }
  }

  /** A quantified first literal ends the ordinary text and is seen by the quantifier test. */
  lemma QuantifiedLiteral(b: Branch, tail: string, prefix: string)
    requires AllOrdinary(prefix) && prefix != [] && b.Then? && b.atom.Literal? && !b.quantifier.Once?
    requires StartsWith(PrintBranch(b) + tail, prefix)
    ensures |prefix| == 1 && QuantifierFollows(PrintBranch(b) + tail, 1)
  {
    var text := PrintBranch(b) + tail;
    var q := PrintQuantifier(b.quantifier);
    QuantifierOpening(b.quantifier);
    assert PrintBranch(b) == [b.atom.c] + q + PrintBranch(b.rest);
    assert text[1] == q[0];
    assert !IsOrdinary(text[1]) && forall i :: 0 <= i < |prefix| ==> IsOrdinary(prefix[i]);
  }

  lemma FirstPiece(b: Branch, tail: string, prefix: string)
    requires AllOrdinary(prefix) && prefix != [] && b.Then? && b.atom.Literal?
    requires StartsWith(PrintBranch(b) + tail, prefix) && !QuantifierFollows(PrintBranch(b) + tail, |prefix|)
    ensures b.quantifier.Once? && b.atom.c == prefix[0]
    ensures StartsWith(PrintBranch(b.rest) + tail, prefix[1..])
    ensures !QuantifierFollows(PrintBranch(b.rest) + tail, |prefix| - 1)
  {
    var text := PrintBranch(b) + tail;
    var q := PrintQuantifier(b.quantifier);
    var rest := PrintBranch(b.rest) + tail;
    assert text == [b.atom.c] + q + rest;
    assert text[0] == prefix[0];
    if !b.quantifier.Once? {
      QuantifiedLiteral(b, tail, prefix);
    }
    assert text[1..] == rest;
    assert forall i :: 0 <= i < |rest| ==> rest[i] == text[i + 1];
  }

  lemma TimesOnce(m: Meaning, a: Atom, n: nat, s: string, i: nat, j: nat)
    requires n == 1 && MatchTimes(m, a, n, s, i, j)
    ensures MatchAtom(m, a, s, i, j)
  {
  }

  predicate OccursAt(s: string, part: string, i: nat) {
    i + |part| <= |s| && s[i..i + |part|] == part
  }

  /** A branch that begins with the literals matches only where they stand. */
  lemma {:induction false} MatchBeginsWith(m: Meaning, b: Branch, prefix: string, s: string, i: nat, j: nat)
    requires BeginsWith(b, prefix) && MatchBranch(m, b, s, i, j) && i <= j <= |s|
    ensures OccursAt(s, prefix, i)
    decreases |prefix|
  {
    if prefix != [] {
      var n: nat, k: nat :| Allows(b.quantifier, n) && MatchTimes(m, b.atom, n, s, i, k) && MatchBranch(m, b.rest, s, k, j);
      TimesOnce(m, b.atom, n, s, i, k);
      assert k == i + 1 && s[i] == prefix[0];
      MatchIsForward(m, b.rest, s, k, j);
      MatchBeginsWith(m, b.rest, prefix[1..], s, k, j);
      assert s[i..i + |prefix|] == [s[i]] + s[k..k + |prefix| - 1];
    }
  }

  lemma {:induction false} TimesIsForward(m: Meaning, a: Atom, n: nat, s: string, i: nat, j: nat)
    requires MatchTimes(m, a, n, s, i, j)
    ensures i <= j
    decreases n
  {
    if n > 0 {
      var k: nat :| k <= |s| && MatchAtom(m, a, s, i, k) && MatchTimes(m, a, n - 1, s, k, j);
      TimesIsForward(m, a, n - 1, s, k, j);
    }
  }

  lemma {:induction false} MatchIsForward(m: Meaning, b: Branch, s: string, i: nat, j: nat)
    requires MatchBranch(m, b, s, i, j)
    ensures i <= j
    decreases b
  {
    if b.Then? {
      var n: nat, k: nat :| Allows(b.quantifier, n) && MatchTimes(m, b.atom, n, s, i, k) && MatchBranch(m, b.rest, s, k, j);
      TimesIsForward(m, b.atom, n, s, i, k);
      MatchIsForward(m, b.rest, s, k, j);
    }
  }

  /**
   An accepted pattern is one branch that begins with the prefix, each literal exactly once; and
   when no class begins with `]`, every such pattern is accepted.
   */
  lemma AcceptsIffBegins(r: Regex, prefix: string, plain: bool)
    requires Printable(r, plain) && AllOrdinary(prefix)
    ensures Accepts(Print(r), prefix) ==> r.Last? && BeginsWith(r.branch, prefix)
    ensures plain && r.Last? && BeginsWith(r.branch, prefix) ==> Accepts(Print(r), prefix)
  {
    hide ScanAll, PrintBranch, BeginsWith, QuantifierFollows, StartsWith, AllOrdinary, PrintableBranch;
    TopLevelAlternation(r, plain);
    if Accepts(Print(r), prefix) {
      assert PrintBranch(r.branch) + "" == PrintBranch(r.branch);
      TextBeginsWith(r.branch, "", prefix);
    }
    if r.Last? && BeginsWith(r.branch, prefix) {
      BeginsWithText(r.branch, prefix);
      NoQuantifierFollows(r.branch, prefix, plain);
    }
  }

  /** No atom is written with a quantifier's character in front. */
  lemma AtomIsNoQuantifier(a: Atom, plain: bool)
    requires PrintableAtom(a, plain)
    ensures PrintAtom(a) != "" && PrintAtom(a)[0] !in "?*+{"
  {
  }

  lemma {:induction false} NoQuantifierFollows(b: Branch, prefix: string, plain: bool)
    requires PrintableBranch(b, plain) && BeginsWith(b, prefix)
    ensures !QuantifierFollows(PrintBranch(b), |prefix|)
    decreases |prefix|
  {
    hide PrintAtom, PrintQuantifier, PrintableAtom;
    if prefix != [] {
      NoQuantifierFollows(b.rest, prefix[1..], plain);
      LiteralText(prefix[0], b.rest);
    } else if b.Then? {
      AtomIsNoQuantifier(b.atom, plain);
      assert PrintBranch(b)[0] == PrintAtom(b.atom)[0];
    }
  }

  lemma {:induction false} BeginsWithText(b: Branch, prefix: string)
    requires BeginsWith(b, prefix)
    ensures StartsWith(PrintBranch(b), prefix)
    decreases |prefix|
  {
    if prefix != [] {
      BeginsWithText(b.rest, prefix[1..]);
      PrefixOfCons(prefix, PrintBranch(b.rest));
      LiteralText(prefix[0], b.rest);
    }
  }

  lemma PrefixOfCons(prefix: string, rest: string)
    requires prefix != [] && prefix[1..] <= rest
    ensures prefix <= [prefix[0]] + rest
  {
  }

  lemma LiteralText(c: char, rest: Branch)
    ensures PrintBranch(Then(Literal(c), Once, rest)) == [c] + PrintBranch(rest)
  {
  }

  /**
   Every match of an accepted pattern, anywhere in any subject, starts with the prefix. Only of a
   pattern with a top-level alternation is it asked that its classes be harmless.
   */
  lemma AcceptedPrefixIsRequired(m: Meaning, r: Regex, prefix: string, s: string, i: nat, j: nat)
    requires r.Or? ==> Printable(r, false)
    requires AllOrdinary(prefix) && Accepts(Print(r), prefix)
    requires Match(m, r, s, i, j) && i <= j <= |s|
    ensures OccursAt(s, prefix, i)
  {
    hide ScanAll, PrintBranch, BeginsWith, QuantifierFollows, StartsWith, AllOrdinary, OccursAt;
    if r.Or? {
      TopLevelAlternation(r, false);
    } else {
      assert PrintBranch(r.branch) + "" == PrintBranch(r.branch);
      TextBeginsWith(r.branch, "", prefix);
      MatchBeginsWith(m, r.branch, prefix, s, i, j);
    }
  }

  /** So a line without the prefix can be skipped before the pattern is tried. */
  lemma SkippedLinesHaveNoMatch(m: Meaning, r: Regex, prefix: string, s: string)
    requires r.Or? ==> Printable(r, false)
    requires AllOrdinary(prefix) && Accepts(Print(r), prefix)
    requires forall i: nat :: !OccursAt(s, prefix, i)
    ensures forall i: nat, j: nat :: i <= j <= |s| ==> !Match(m, r, s, i, j)
  {
    hide *;
    forall i: nat, j: nat | i <= j <= |s|
      ensures !Match(m, r, s, i, j)
    {
      if Match(m, r, s, i, j) {
        AcceptedPrefixIsRequired(m, r, prefix, s, i, j);
      }
    }
  }

  // ----- Classes that are not harmless -----

  function Literals(s: string, rest: Branch): Branch {
    if s == [] then rest else Then(Literal(s[0]), Once, Literals(s[1..], rest))
  }

  lemma {:induction false} PrintLiterals(s: string, rest: Branch)
    ensures PrintBranch(Literals(s, rest)) == s + PrintBranch(rest)
    decreases |s|
  {
    hide PrintBranch;
    if s == [] {
      assert s + PrintBranch(rest) == PrintBranch(rest);
    } else {
      PrintLiterals(s[1..], rest);
      LiteralText(s[0], Literals(s[1..], rest));
      ConsAssociates(s, PrintBranch(rest));
    }
  }

  lemma ConsAssociates(s: string, t: string)
    requires s != []
    ensures [s[0]] + (s[1..] + t) == s + t
  {
  }

  function Alone(a: Atom): Branch {
    Then(a, Once, Empty)
  }

  lemma PrintAlone(a: Atom)
    ensures PrintBranch(Alone(a)) == PrintAtom(a)
  {
  }

  /** The atom inside `n` groups. */
  function Nested(n: nat, a: Atom): Atom {
    if n == 0 then a else Group(NonCapturing, Last(Alone(Nested(n - 1, a))))
  }

  lemma {:induction false} NestedScan(depth: int, n: nat, a: Atom, shift: int)
    requires ScanAll(Outside(depth + n), PrintAtom(a)) == Outside(depth + n + shift)
    ensures ScanAll(Outside(depth), PrintAtom(Nested(n, a))) == Outside(depth + shift)
    decreases n
  {
    hide ScanAll, PrintAtom;
    if n > 0 {
      NestedScan(depth + 1, n - 1, a, shift);
      NestedStep(depth, Nested(n - 1, a), shift);
    }
  }

  lemma NestedStep(depth: int, inner: Atom, shift: int)
    requires ScanAll(Outside(depth + 1), PrintAtom(inner)) == Outside(depth + 1 + shift)
    ensures ScanAll(Outside(depth), PrintAtom(Group(NonCapturing, Last(Alone(inner))))) == Outside(depth + shift)
  {
    hide ScanAll, PrintAtom, ScanChar;
    var body := PrintAtom(inner);
    GroupText(inner);
    ScanOne(Outside(depth), '(');
    ScanAppend(Outside(depth), "(", "?:");
    QuietScan(depth + 1, "?:");
    ScanThree(Outside(depth), "(" + "?:", body, ")");
    ScanOne(Outside(depth + 1 + shift), ')');
    ParenthesisScan(depth, shift);
  }

  lemma ParenthesisScan(depth: int, shift: int)
    ensures ScanChar(Outside(depth), '(') == Outside(depth + 1)
    ensures ScanChar(Outside(depth + 1 + shift), ')') == Outside(depth + shift)
  {
  }

  lemma GroupText(inner: Atom)
    ensures PrintAtom(Group(NonCapturing, Last(Alone(inner)))) == "(" + "?:" + PrintAtom(inner) + ")"
  {
    PrintAlone(inner);
    assert Print(Last(Alone(inner))) == PrintBranch(Alone(inner));
  }

  /** A pattern with an alternation that the parentheses of a class hide from the scanner. */
  function HiddenAlternation(prefix: string, negated: bool, items: seq<ClassItem>, other: char): Regex {
    Or(Literals(prefix, Alone(Nested(|items| + 1, Class(negated, true, items)))), Last(Alone(Literal(other))))
  }

  /**
   Every class that is not harmless makes the verdict wrong in some pattern: the scanner's
   depth is off behind it, and it no longer sees the top-level alternation.
   */
  lemma UnbalancedClassIsUnsound(m: Meaning, prefix: string, negated: bool, items: seq<ClassItem>, other: char)
    requires forall i :: i in items ==> PrintableItem(i)
    requires !HarmlessClass(true, items)
    requires AllOrdinary(prefix) && prefix != [] && IsOrdinary(other) && other != prefix[0]
    ensures Accepts(Print(HiddenAlternation(prefix, negated, items, other)), prefix)
    ensures Match(m, HiddenAlternation(prefix, negated, items, other), [other], 0, 1) && !OccursAt([other], prefix, 0)
  {
    hide ScanAll, Print, Match, Shift, PrintAtom, PrintBranch, MatchBranch, Nested, Literals, Alone;
    var nested := Nested(|items| + 1, Class(negated, true, items));
    HiddenText(prefix, nested, other);
    HiddenScan(prefix, negated, items, other);
    NestedText(|items| + 1, Class(negated, true, items));
    AcceptedText(prefix, PrintAtom(nested) + "|" + [other]);
    LiteralMatches(m, other);
    MatchOther(m, Literals(prefix, Alone(nested)), Last(Alone(Literal(other))), [other]);
    if OccursAt([other], prefix, 0) {
      OccurrenceStarts([other], prefix, 0);
    }
  }

  lemma AcceptedText(prefix: string, text: string)
    requires text != [] && text[0] == '(' && !ScanAll(Outside(0), prefix + text).Rejected?
    ensures Accepts(prefix + text, prefix)
  {
  }

  lemma NestedText(n: nat, a: Atom)
    requires n > 0
    ensures PrintAtom(Nested(n, a)) != [] && PrintAtom(Nested(n, a))[0] == '('
  {
  }

  lemma HiddenText(prefix: string, nested: Atom, other: char)
    ensures Print(Or(Literals(prefix, Alone(nested)), Last(Alone(Literal(other))))) ==
            prefix + (PrintAtom(nested) + "|" + [other])
  {
    hide PrintBranch, Print, Literals, Alone;
    PrintLiterals(prefix, Alone(nested));
    PrintAlone(nested);
    PrintAlone(Literal(other));
    PrintTwo(Literals(prefix, Alone(nested)), Alone(Literal(other)));
    assert (prefix + PrintAtom(nested)) + "|" + [other] == prefix + (PrintAtom(nested) + "|" + [other]);
  }

  lemma PrintTwo(a: Branch, b: Branch)
    ensures Print(Or(a, Last(b))) == PrintBranch(a) + "|" + PrintBranch(b)
  {
  }

  lemma HiddenScan(prefix: string, negated: bool, items: seq<ClassItem>, other: char)
    requires forall i :: i in items ==> PrintableItem(i)
    requires Shift(items) != 0 && AllOrdinary(prefix) && IsOrdinary(other)
    ensures var nested := Nested(|items| + 1, Class(negated, true, items));
            ScanAll(Outside(0), prefix + (PrintAtom(nested) + "|" + [other])) == Outside(Shift(items))
  {
    hide ScanAll, ScanChar, PrintAtom, Shift, Nested, PrintableItem;
    var brackets, shift := Class(negated, true, items), Shift(items);
    var nested := PrintAtom(Nested(|items| + 1, brackets));
    ScanBracketFirst(|items| + 1, negated, items);
    NestedScan(0, |items| + 1, brackets, shift);
    OrdinaryIsQuiet(prefix);
    QuietScan(0, prefix);
    ScanAppend(Outside(0), prefix, nested + "|" + [other]);
    ScanThree(Outside(0), nested, "|", [other]);
    ScanOne(Outside(shift), '|');
    ScanOne(Outside(shift), other);
    OtherScan(shift, other);
  }

  lemma OtherScan(depth: int, other: char)
    requires depth != 0 && IsOrdinary(other)
    ensures ScanChar(Outside(depth), '|') == ScanChar(Outside(depth), other) == Outside(depth)
  {
  }

  lemma LiteralMatches(m: Meaning, c: char)
    ensures Match(m, Last(Alone(Literal(c))), [c], 0, 1)
  {
    assert MatchAtom(m, Literal(c), [c], 0, 1);
    assert MatchTimes(m, Literal(c), 0, [c], 1, 1);
    assert MatchTimes(m, Literal(c), 1, [c], 0, 1);
    assert Allows(Once, 1) && MatchBranch(m, Empty, [c], 1, 1);
    assert MatchBranch(m, Alone(Literal(c)), [c], 0, 1);
  }

  lemma MatchOther(m: Meaning, branch: Branch, others: Regex, s: string)
    requires Match(m, others, s, 0, |s|)
    ensures Match(m, Or(branch, others), s, 0, |s|)
  {
  }

  lemma OccurrenceStarts(s: string, part: string, i: nat)
    requires OccursAt(s, part, i) && part != []
    ensures s[i] == part[0]
  {
  }

  lemma OrdinaryIsQuiet(s: string)
    requires AllOrdinary(s)
    ensures Quiet(s)
  {
  }
}
