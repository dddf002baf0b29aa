/**
 `requires_literal_prefix`: a scan of a regular expression's text whose verdict is a claim
 about the expression's language. The expressions are Python ones: literals, escapes,
 character classes, groups and look-around assertions, quantifiers and alternation.
 */
module RegexPrefix {
  import opened Wrappers
  import opened Strings

  // ----- Regular expressions -----

  datatype ClassItem =
    | Member(c: char)
    | EscapedMember(c: char)

  datatype GroupKind = Capturing | NonCapturing | Ahead(holds: bool) | Behind(holds: bool)

  datatype Sign = AnyChar | LineStart | LineEnd

  datatype Atom =
    | Literal(c: char)
    | Special(sign: Sign)
    | Escape(c: char)
    | Class(negated: bool, bracketFirst: bool, items: seq<ClassItem>)
    | Group(kind: GroupKind, body: Regex)

  datatype Quantifier =
    | Once
    | Maybe(lazy: bool)
    | Star(lazy: bool)
    | Plus(lazy: bool)
    | Counted(least: nat, most: Option<nat>, lazy: bool)

  datatype Branch = Empty | Then(atom: Atom, quantifier: Quantifier, rest: Branch)

  datatype Regex = Last(branch: Branch) | Or(branch: Branch, others: Regex)

  // ----- Texts -----

  const METACHARACTERS: string := "\\.^$*+?{}[]|()"

  predicate IsOrdinary(c: char) {
    c !in METACHARACTERS
  }

  function Digits(n: nat): string {
    var last := ["0123456789"[n % 10]];
    if n < 10 then last else Digits(n / 10) + last
  }

  function PrintItems(items: seq<ClassItem>): string {
    if items == [] then ""
    else (match items[0] case Member(c) => [c] case EscapedMember(c) => ['\\', c]) + PrintItems(items[1..])
  }

  function PrintKind(kind: GroupKind): string {
    match kind
    case Capturing => ""
    case NonCapturing => "?:"
    case Ahead(holds) => if holds then "?=" else "?!"
    case Behind(holds) => if holds then "?<=" else "?<!"
  }

  function PrintQuantifier(q: Quantifier): string {
    var lazy := if !q.Once? && q.lazy then "?" else "";
    match q
    case Once => ""
    case Maybe(_) => "?" + lazy
    case Star(_) => "*" + lazy
    case Plus(_) => "+" + lazy
    case Counted(least, most, _) =>
      "{" + Digits(least) + "," + (if most.Some? then Digits(most.value) else "") + "}" + lazy
  }

  function PrintAtom(a: Atom): string {
    match a
    case Literal(c) => [c]
    case Special(sign) => if sign.AnyChar? then "." else if sign.LineStart? then "^" else "$"
    case Escape(c) => ['\\', c]
    case Class(negated, bracketFirst, items) =>
      "[" + (if negated then "^" else "") + (if bracketFirst then "]" else "") + PrintItems(items) + "]"
    case Group(kind, body) => "(" + PrintKind(kind) + Print(body) + ")"
  }

  function PrintBranch(b: Branch): string {
    match b
    case Empty => ""
    case Then(atom, quantifier, rest) => PrintAtom(atom) + PrintQuantifier(quantifier) + PrintBranch(rest)
  }

  function Print(r: Regex): string {
    match r
    case Last(b) => PrintBranch(b)
    case Or(b, others) => PrintBranch(b) + "|" + Print(others)
  }

  /** A class is written with its later members as they are, except that `]` and a backslash need an escape. */
  predicate PrintableItem(item: ClassItem) {
    item.Member? ==> item.c != ']' && item.c != '\\'
  }

  /** The parentheses that stand unescaped among these members, up to the first `[`: opening less closing. */
  function Shift(items: seq<ClassItem>): int {
    if items == [] || items[0] == Member('[') then 0
    else (if items[0] == Member('(') then 1 else if items[0] == Member(')') then -1 else 0) + Shift(items[1..])
  }

  /** Python reads a `]` right after the opening of a class as a member. Such a class is harmless when its parentheses balance. */
  predicate HarmlessClass(bracketFirst: bool, items: seq<ClassItem>) {
    bracketFirst ==> Shift(items) == 0
  }

  /** Literals are ordinary characters and every class is harmless; when `plain`, no class has a `]` for its first member. */
  predicate PrintableAtom(a: Atom, plain: bool) {
    match a
    case Literal(c) => IsOrdinary(c)
    case Class(_, bracketFirst, items) =>
      (bracketFirst ==> !plain) && HarmlessClass(bracketFirst, items) && forall i :: i in items ==> PrintableItem(i)
    case Group(_, body) => Printable(body, plain)
    case _ => true
  }

  predicate PrintableBranch(b: Branch, plain: bool) {
    b.Then? ==> PrintableAtom(b.atom, plain) && PrintableBranch(b.rest, plain)
  }

  predicate Printable(r: Regex, plain: bool) {
    PrintableBranch(r.branch, plain) && (r.Or? ==> Printable(r.others, plain))
  }

  // ----- Languages -----

  /** What the special signs, escapes and classes match, under whatever flags; any meaning will do. */
  datatype Meaning = Meaning(
    special: (Sign, string, nat, nat) -> bool,
    escape: (char, string, nat, nat) -> bool,
    member: (bool, seq<ClassItem>, char) -> bool)

  predicate Allows(q: Quantifier, n: nat) {
    match q
    case Once => n == 1
    case Maybe(_) => n <= 1
    case Star(_) => true
    case Plus(_) => n >= 1
    case Counted(least, most, _) => least <= n && (most.Some? ==> n <= most.value)
  }

  /** The atom matches the subject from `i` up to `j`. */
  ghost predicate MatchAtom(m: Meaning, a: Atom, s: string, i: nat, j: nat)
    decreases a, 0
  {
    i <= j <= |s| &&
    match a
    case Literal(c) => j == i + 1 && s[i] == c
    case Special(sign) => m.special(sign, s, i, j)
    case Escape(c) => m.escape(c, s, i, j)
    case Class(negated, bracketFirst, items) => j == i + 1 && negated != m.member(bracketFirst, items, s[i])
    case Group(kind, body) =>
      match kind
      case Capturing => Match(m, body, s, i, j)
      case NonCapturing => Match(m, body, s, i, j)
      case Ahead(holds) => i == j && (holds <==> exists k: nat :: k <= |s| && Match(m, body, s, i, k))
      case Behind(holds) => i == j && (holds <==> exists k: nat :: k <= i && Match(m, body, s, k, i))
  }

  ghost predicate MatchTimes(m: Meaning, a: Atom, n: nat, s: string, i: nat, j: nat)
    decreases a, 1, n
  {
    if n == 0 then i == j
    else exists k: nat :: k <= |s| && MatchAtom(m, a, s, i, k) && MatchTimes(m, a, n - 1, s, k, j)
  }

  ghost predicate MatchBranch(m: Meaning, b: Branch, s: string, i: nat, j: nat)
    decreases b, 2
  {
    match b
    case Empty => i == j
    case Then(atom, quantifier, rest) =>
      exists n: nat, k: nat ::
        Allows(quantifier, n) && MatchTimes(m, atom, n, s, i, k) && MatchBranch(m, rest, s, k, j)
  }

  ghost predicate Match(m: Meaning, r: Regex, s: string, i: nat, j: nat)
    decreases r, 3
  {
    MatchBranch(m, r.branch, s, i, j) || (r.Or? && Match(m, r.others, s, i, j))
  }

  // ----- The scanner -----

  datatype Scan = Rejected | Scanning(depth: int, escaped: bool, inClass: bool)

  function ScanChar(st: Scan, c: char): Scan {
    if st.Rejected? then st
    else if st.escaped then st.(escaped := false)
    else if c == '\\' then st.(escaped := true)
    else if st.inClass then st.(inClass := c != ']')
    else if c == '[' then st.(inClass := true)
    else if c == '(' then st.(depth := st.depth + 1)
    else if c == ')' then st.(depth := st.depth - 1)
    else if c == '|' && st.depth == 0 then Rejected
    else st
  }

  function ScanAll(st: Scan, s: string): Scan
    decreases |s|
  {
    if s == [] then st else ScanAll(ScanChar(st, s[0]), s[1..])
  }

  predicate QuantifierFollows(pattern: string, n: nat) {
    n < |pattern| && pattern[n] in "?*+{"
  }

  predicate Accepts(pattern: string, prefix: string) {
    && StartsWith(pattern, prefix)
    && !QuantifierFollows(pattern, |prefix|)
    && !ScanAll(Scanning(0, false, false), pattern).Rejected?
  }

  method RequiresLiteralPrefix(pattern: string, prefix: string) returns (required: bool)
    ensures required <==> Accepts(pattern, prefix)
  {
    if !StartsWith(pattern, prefix) {
      return false;
    }
    if |prefix| < |pattern| && pattern[|prefix|] in "?*+{" {
      return false;
    }
    var depth, escaped, inClass := 0, false, false;
    assert pattern[0..] == pattern;
    for i := 0 to |pattern|
      invariant ScanAll(Scanning(0, false, false), pattern) == ScanAll(Scanning(depth, escaped, inClass), pattern[i..])
    {
      var c := pattern[i];
      assert pattern[i..][1..] == pattern[i + 1..];
      if escaped {
        escaped := false;
      } else if c == '\\' {
        escaped := true;
      } else if inClass {
        inClass := c != ']';
      } else if c == '[' {
        inClass := true;
      } else if c == '(' {
        depth := depth + 1;
      } else if c == ')' {
        depth := depth - 1;
      } else if c == '|' && depth == 0 {
        RejectedForGood(pattern[i + 1..]);
        return false;
      }
    }
    return true;
  }

  lemma {:induction false} RejectedForGood(s: string)
    ensures ScanAll(Rejected, s) == Rejected
    decreases |s|
  {
    if s != [] {
      RejectedForGood(s[1..]);
    }
  }
}
