/**
 The lexer against a grammar of Rust's lexical elements: a text printed from code characters,
 comments, strings, raw strings and character literals lexes to exactly the code characters and
 the terminators of the raw strings.
 */
module RustTokens {
  import opened Wrappers
  import opened Strings
  import opened RustLexer
  import opened RustLexerTheorems

  // ----- The grammar -----

  /** The inside of a block comment, up to and with its closing mark. */
  datatype Comment = Close | Prose(c: char, rest: Comment) | Nested(inner: Comment, rest: Comment)

  datatype StringItem = Plainly(c: char) | Escaped(c: char)

  datatype Element =
    | CodeChar(c: char)
    | ToLineEnd(text: string)
    | Block(body: Comment)
    | Quoted(items: seq<StringItem>)
    | Raw(hashes: nat, text: string)
    | CharLit(c: char)
    | EscapedCharLit(c: char)

  function Hashes(n: nat): (r: string)
    ensures |r| == n && forall i :: 0 <= i < n ==> r[i] == '#'
  {
    if n == 0 then "" else "#" + Hashes(n - 1)
  }

  function PrintComment(b: Comment): (r: string)
    ensures r != ""
  {
    match b
    case Close => "*/"
    case Prose(c, rest) => [c] + PrintComment(rest)
    case Nested(inner, rest) => "/*" + PrintComment(inner) + PrintComment(rest)
  }

  function PrintItems(items: seq<StringItem>): string {
    if items == [] then ""
    else (match items[0] case Plainly(c) => [c] case Escaped(c) => ['\\', c]) + PrintItems(items[1..])
  }

  function PrintElement(e: Element): string {
    match e
    case CodeChar(c) => [c]
    case ToLineEnd(text) => "//" + text
    case Block(body) => "/*" + PrintComment(body)
    case Quoted(items) => "\"" + PrintItems(items) + "\""
    case Raw(hashes, text) => "r" + Hashes(hashes) + "\"" + text + "\"" + Hashes(hashes)
    case CharLit(c) => ['\'', c, '\'']
    case EscapedCharLit(c) => ['\'', '\\', c, '\'']
  }

  function Print(elements: seq<Element>): string {
    if elements == [] then "" else PrintElement(elements[0]) + Print(elements[1..])
  }

  /** What is compiled, and the terminators that the lexer copies. */
  function CodeOf(e: Element): string {
    match e
    case CodeChar(c) => [c]
    case Raw(hashes, _) => "\"" + Hashes(hashes)
    case _ => ""
  }

  function CodeOfAll(elements: seq<Element>): string {
    if elements == [] then "" else CodeOf(elements[0]) + CodeOfAll(elements[1..])
  }

  /** Inside a comment no two characters form a mark by accident. */
  predicate ProperComment(b: Comment) {
    match b
    case Close => true
    case Prose(c, rest) =>
      && !(c == '/' && PrintComment(rest)[0] == '*') && !(c == '*' && PrintComment(rest)[0] == '/')
      && ProperComment(rest)
    case Nested(inner, rest) => ProperComment(inner) && ProperComment(rest)
  }

  /** A code character does not open a comment, a string, a raw string or a character literal with what follows it. */
  predicate StandsAlone(c: char, rest: string) {
    && c != '"'
    && (c == '/' && rest != "" ==> rest[0] != '/' && rest[0] != '*')
    && (c == '\'' && |rest| >= 2 && rest[1] == '\'' ==> rest[0] == '\'' || rest[0] == '\\' || rest[0] == '\n')
    && (c == '\'' && |rest| >= 3 && rest[0] == '\\' && rest[2] == '\'' ==> rest[1] == '\n')
    && (c == 'r' ==> forall n: nat :: n < |rest| && rest[n] == '"' ==> exists i :: 0 <= i < n && rest[i] != '#')
  }

  /** The text of a raw string holds no double quote followed by that many hashes. */
  predicate Unterminated(hashes: nat, text: string) {
    forall p :: 0 <= p && p + hashes < |text| && text[p] == '"' ==> exists i :: p < i <= p + hashes && text[i] != '#'
  }

  /** The element is well formed, in front of this text. */
  predicate Fits(e: Element, rest: string) {
    match e
    case CodeChar(c) => StandsAlone(c, rest)
    case ToLineEnd(text) => '\n' !in text && (rest == "" || rest[0] == '\n')
    case Block(body) => ProperComment(body)
    case Quoted(items) => forall i :: i in items && i.Plainly? ==> i.c != '"' && i.c != '\\'
    case Raw(hashes, text) => Unterminated(hashes, text)
    case CharLit(c) => c != '\'' && c != '\\' && c != '\n'
    case EscapedCharLit(c) => c != '\n'
  }

  predicate Proper(elements: seq<Element>) {
    elements != [] ==> Fits(elements[0], Print(elements[1..])) && Proper(elements[1..])
  }

  // ----- One token of the lexer at a time -----

  lemma Reads(code: string, st: LexState, first: string, rest: string, t: Token)
    requires first != "" && !LineComment(st, first + rest)
    requires t == NextToken(st, first + rest) && t.length == |first|
    ensures TextFrom(code, st, first + rest) == TextFrom(code + t.emitted, t.state, rest)
  {
    hide NextToken, LineComment;
    assert Drop(first + rest, |first|) == rest;
    TextToken(code, st, first + rest);
  }

  lemma OpenOrCloseComment(code: string, st: LexState, rest: string)
    ensures st.depth > 0 || st.InCode() ==>
              TextFrom(code, st, "/*" + rest) == TextFrom(code, st.(depth := st.depth + 1), rest)
    ensures st.depth > 0 ==> TextFrom(code, st, "*/" + rest) == TextFrom(code, st.(depth := st.depth - 1), rest)
  {
    hide TextFrom;
    assert code + "" == code;
    if st.depth > 0 || st.InCode() {
      assert ("/*" + rest)[1] == '*';
      Reads(code, st, "/*", rest, Token(st.(depth := st.depth + 1), "", 2));
    }
    if st.depth > 0 {
      assert ("*/" + rest)[0] == '*';
      Reads(code, st, "*/", rest, Token(st.(depth := st.depth - 1), "", 2));
    }
  }

  lemma {:induction false} CommentIsRead(code: string, st: LexState, b: Comment, rest: string)
    requires ProperComment(b) && st.depth > 0
    ensures TextFrom(code, st, PrintComment(b) + rest) == TextFrom(code, st.(depth := st.depth - 1), rest)
    decreases b
  {
    hide TextFrom;
    match b
    case Close => OpenOrCloseComment(code, st, rest);
    case Prose(c, more) =>
      var tail := PrintComment(more) + rest;
      assert [c] + PrintComment(more) + rest == [c] + tail;
      ProseIsSkipped(code, st, c, tail);
      CommentIsRead(code, st, more, rest);
    case Nested(inner, more) =>
      var tail := PrintComment(more) + rest;
      assert "/*" + PrintComment(inner) + PrintComment(more) + rest == "/*" + (PrintComment(inner) + tail);
      OpenOrCloseComment(code, st, PrintComment(inner) + tail);
      CommentIsRead(code, st.(depth := st.depth + 1), inner, tail);
      CommentIsRead(code, st, more, rest);
  }

  lemma MarkIsTwoChars(s: string)
    ensures StartsWith(s, "/*") ==> s[0] == '/' && s[1] == '*'
    ensures StartsWith(s, "*/") ==> s[0] == '*' && s[1] == '/'
  {
  }

  lemma ProseIsSkipped(code: string, st: LexState, c: char, tail: string)
    requires st.depth > 0 && tail != "" && !(c == '/' && tail[0] == '*') && !(c == '*' && tail[0] == '/')
    ensures TextFrom(code, st, [c] + tail) == TextFrom(code, st, tail)
  {
    hide TextFrom;
    var s := [c] + tail;
    assert s[0] == c && s[1] == tail[0];
    MarkIsTwoChars(s);
    Reads(code, st, [c], tail, Token(st, "", 1));
    assert code + "" == code;
  }

  // ----- Strings and character literals -----

  const QUOTED := LexState(0, Some('"'), None)
  const LITERAL := LexState(0, Some('\''), None)

  lemma NoMark(c: char, rest: string)
    requires c != '/'
    ensures !StartsWith([c] + rest, "//") && !StartsWith([c] + rest, "/*")
  {
    assert ([c] + rest)[0] == c;
  }

  /** One character or escape inside a literal. */
  lemma InsideLiteral(code: string, st: LexState, rest: string)
    requires st == QUOTED || st == LITERAL
    ensures forall c: char :: c != '\\' && c != st.quote.value ==> TextFrom(code, st, [c] + rest) == TextFrom(code, st, rest)
    ensures forall c: char :: TextFrom(code, st, ['\\', c] + rest) == TextFrom(code, st, rest)
    ensures TextFrom(code, st, [st.quote.value] + rest) == TextFrom(code, INITIAL, rest)
  {
    hide TextFrom;
    assert code + "" == code;
    forall c: char | c != '\\' && c != st.quote.value
      ensures TextFrom(code, st, [c] + rest) == TextFrom(code, st, rest)
    {
      Reads(code, st, [c], rest, Token(st, "", 1));
    }
    forall c: char
      ensures TextFrom(code, st, ['\\', c] + rest) == TextFrom(code, st, rest)
    {
      Reads(code, st, ['\\', c], rest, Token(st, "", 2));
    }
    Reads(code, st, [st.quote.value], rest, Token(INITIAL, "", 1));
  }

  lemma {:induction false} ItemsAreSkipped(code: string, items: seq<StringItem>, rest: string)
    requires forall i :: i in items && i.Plainly? ==> i.c != '"' && i.c != '\\'
    ensures TextFrom(code, QUOTED, PrintItems(items) + rest) == TextFrom(code, QUOTED, rest)
    decreases |items|
  {
    hide TextFrom;
    if items == [] {
      assert PrintItems(items) + rest == rest;
    } else {
      var tail := PrintItems(items[1..]) + rest;
      assert items[0] in items;
      InsideLiteral(code, QUOTED, tail);
      ItemsAreSkipped(code, items[1..], rest);
      match items[0]
      case Plainly(c) => assert PrintItems(items) + rest == [c] + tail;
      case Escaped(c) => assert PrintItems(items) + rest == ['\\', c] + tail;
    }
  }

  lemma QuotedIsSkipped(code: string, items: seq<StringItem>, rest: string)
    requires forall i :: i in items && i.Plainly? ==> i.c != '"' && i.c != '\\'
    ensures TextFrom(code, INITIAL, PrintElement(Quoted(items)) + rest) == TextFrom(code, INITIAL, rest)
  {
    hide TextFrom, PrintItems;
    var tail := "\"" + rest;
    assert PrintElement(Quoted(items)) + rest == "\"" + (PrintItems(items) + tail);
    NoMark('"', PrintItems(items) + tail);
    Reads(code, INITIAL, "\"", PrintItems(items) + tail, Token(QUOTED, "", 1));
    assert code + "" == code;
    ItemsAreSkipped(code, items, tail);
    InsideLiteral(code, QUOTED, rest);
  }

  lemma LiteralOpens(code: string, s: string)
    requires CharLiteral(s)
    ensures TextFrom(code, INITIAL, s) == TextFrom(code, LITERAL, s[1..])
  {
    hide TextFrom;
    var rest := s[1..];
    assert s == ['\''] + rest;
    NoMark('\'', rest);
    Reads(code, INITIAL, ['\''], rest, Token(LITERAL, "", 1));
    assert code + "" == code;
  }

  lemma CharLitIsSkipped(code: string, c: char, rest: string)
    ensures c != '\'' && c != '\\' && c != '\n' ==>
              TextFrom(code, INITIAL, PrintElement(CharLit(c)) + rest) == TextFrom(code, INITIAL, rest)
    ensures c != '\n' ==>
              TextFrom(code, INITIAL, PrintElement(EscapedCharLit(c)) + rest) == TextFrom(code, INITIAL, rest)
  {
    hide TextFrom;
    var close := ['\''] + rest;
    InsideLiteral(code, LITERAL, close);
    InsideLiteral(code, LITERAL, rest);
    if c != '\'' && c != '\\' && c != '\n' {
      var s := PrintElement(CharLit(c)) + rest;
      assert s == ['\''] + ([c] + close);
      LiteralOpens(code, s);
      assert s[1..] == [c] + close;
    }
    if c != '\n' {
      var s := PrintElement(EscapedCharLit(c)) + rest;
      assert s == ['\''] + (['\\', c] + close);
      LiteralOpens(code, s);
      assert s[1..] == ['\\', c] + close;
    }
  }

  // ----- Raw strings -----

  lemma {:induction false} HashRunIs(n: nat, rest: string)
    requires rest != "" && rest[0] != '#'
    ensures HashRun(Hashes(n) + rest) == n
  {
    if n == 0 {
      assert Hashes(0) + rest == rest;
    } else {
      assert (Hashes(n) + rest)[1..] == Hashes(n - 1) + rest;
      HashRunIs(n - 1, rest);
    }
  }

  lemma RawOpens(code: string, n: nat, rest: string)
    ensures TextFrom(code, INITIAL, "r" + Hashes(n) + "\"" + rest) == TextFrom(code, LexState(0, None, Some(n)), rest)
  {
    hide TextFrom, HashRun, Hashes;
    var opening := "r" + Hashes(n) + "\"";
    var s := opening + rest;
    HashRunIs(n, "\"" + rest);
    assert s[1..] == Hashes(n) + ("\"" + rest) && s[n + 1] == '"';
    NoMark('r', s[1..]);
    assert s == ['r'] + s[1..];
    Reads(code, INITIAL, opening, rest, Token(LexState(0, None, Some(n)), "", n + 2));
    assert code + "" == code;
  }

  lemma TerminatorIs(n: nat)
    ensures Terminator(n) == "\"" + Hashes(n)
  {
    hide Hashes;
  }

  lemma DiffersAt(s: string, t: string, j: nat)
    requires j < |s| && j < |t| && s[j] != t[j]
    ensures !StartsWith(s, t)
  {
  }

  /** The terminator does not begin inside the text, nor run over into the real one. */
  lemma NotYetTerminated(n: nat, text: string, rest: string)
    requires text != "" && Unterminated(n, text)
    ensures !StartsWith(text + ("\"" + Hashes(n) + rest), "\"" + Hashes(n))
  {
    hide Hashes, StartsWith;
    var s, t := text + ("\"" + Hashes(n) + rest), "\"" + Hashes(n);
    var j: nat := 0;
    if text[0] == '"' {
      if n < |text| {
        j :| 0 < j <= n && text[j] != '#';
      } else {
        j := |text|;
      }
    }
    DiffersAt(s, t, j);
  }

  lemma {:induction false} RawTextIsSkipped(code: string, n: nat, text: string, rest: string)
    requires Unterminated(n, text)
    ensures TextFrom(code, LexState(0, None, Some(n)), text + ("\"" + Hashes(n) + rest)) ==
            TextFrom(code + ("\"" + Hashes(n)), INITIAL, rest)
    decreases |text|
  {
    hide TextFrom, Hashes, Terminator;
    var st, closing := LexState(0, None, Some(n)), "\"" + Hashes(n);
    TerminatorIs(n);
    if text == "" {
      assert text + (closing + rest) == closing + rest;
      Reads(code, st, closing, rest, Token(INITIAL, closing, n + 1));
    } else {
      var tail := text[1..] + (closing + rest);
      assert text + (closing + rest) == [text[0]] + tail;
      NotYetTerminated(n, text, rest);
      Reads(code, st, [text[0]], tail, Token(st, "", 1));
      assert code + "" == code;
      UnterminatedTail(n, text);
      RawTextIsSkipped(code, n, text[1..], rest);
    }
  }

  lemma UnterminatedTail(n: nat, text: string)
    requires text != "" && Unterminated(n, text)
    ensures Unterminated(n, text[1..])
  {
    var tail := text[1..];
    forall p | 0 <= p && p + n < |tail| && tail[p] == '"'
      ensures exists i :: p < i <= p + n && tail[i] != '#'
    {
      assert text[p + 1] == '"';
      var i :| p + 1 < i <= p + 1 + n && text[i] != '#';
      assert tail[i - 1] == text[i];
    }
  }

  lemma RawIsSkipped(code: string, n: nat, text: string, rest: string)
    requires Unterminated(n, text)
    ensures TextFrom(code, INITIAL, PrintElement(Raw(n, text)) + rest) == TextFrom(code + CodeOf(Raw(n, text)), INITIAL, rest)
  {
    hide TextFrom, Hashes;
    var closing := "\"" + Hashes(n);
    var opening := "r" + Hashes(n) + "\"";
    assert PrintElement(Raw(n, text)) + rest == opening + (text + (closing + rest));
    RawOpens(code, n, text + (closing + rest));
    RawTextIsSkipped(code, n, text, rest);
  }

  // ----- Code and line comments -----

  lemma CodeCharIsCopied(code: string, c: char, rest: string)
    requires StandsAlone(c, rest)
    ensures TextFrom(code, INITIAL, [c] + rest) == TextFrom(code + [c], INITIAL, rest)
  {
    hide TextFrom;
    var s := [c] + rest;
    assert s[0] == c && s[1..] == rest && s[..1] == [c];
    assert !StartsWith(s, "//") && !StartsWith(s, "/*") by {
      assert rest != "" ==> s[1] == rest[0];
    }
    assert !CharLiteral(s) by {
      assert |rest| >= 2 ==> s[1] == rest[0] && s[2] == rest[1];
      assert |rest| >= 3 ==> s[3] == rest[2];
    }
    assert !OpensRaw(s) by {
      var n := HashRun(rest);
      assert n < |rest| ==> s[n + 1] == rest[n];
      assert c == 'r' && n < |rest| ==> rest[n] != '"';
    }
    Reads(code, INITIAL, [c], rest, Token(INITIAL, [c], 1));
  }

  lemma LineCommentIsSkipped(code: string, text: string, rest: string)
    requires '\n' !in text && (rest == "" || rest[0] == '\n')
    ensures TextFrom(code, INITIAL, "//" + text + rest) == TextFrom(code, INITIAL, rest)
  {
    var line := "//" + text;
    assert LineComment(INITIAL, line + rest);
    assert TextFrom(code, INITIAL, line + rest) == TextFrom(code, INITIAL, SkipLine(line + rest));
    hide TextFrom;
    assert IsLine(line);
    if rest == "" {
      assert line + rest == line;
      SkipToEnd(line);
    } else {
      SkipToBreak(line, rest);
    }
  }

  // ----- Whole texts -----

  lemma ElementIsRead(code: string, e: Element, rest: string)
    requires Fits(e, rest)
    ensures TextFrom(code, INITIAL, PrintElement(e) + rest) == TextFrom(code + CodeOf(e), INITIAL, rest)
  {
    hide TextFrom, StandsAlone, Unterminated, ProperComment;
    assert code + "" == code;
    match e
    case CodeChar(c) => CodeCharIsCopied(code, c, rest);
    case ToLineEnd(text) => LineCommentIsSkipped(code, text, rest);
    case Block(body) =>
      assert PrintElement(e) + rest == "/*" + (PrintComment(body) + rest);
      OpenOrCloseComment(code, INITIAL, PrintComment(body) + rest);
      CommentIsRead(code, LexState(1, None, None), body, rest);
    case Quoted(items) => QuotedIsSkipped(code, items, rest);
    case Raw(hashes, text) => RawIsSkipped(code, hashes, text, rest);
    case CharLit(c) => CharLitIsSkipped(code, c, rest);
    case EscapedCharLit(c) => CharLitIsSkipped(code, c, rest);
  }

  lemma {:induction false} ElementsAreRead(code: string, elements: seq<Element>)
    requires Proper(elements)
    ensures TextFrom(code, INITIAL, Print(elements)) == Lexed(code + CodeOfAll(elements), INITIAL)
    decreases |elements|
  {
    hide Fits, PrintElement, CodeOf;
    if elements == [] {
      assert code + "" == code;
    } else {
      hide TextFrom;
      ElementIsRead(code, elements[0], Print(elements[1..]));
      ElementsAreRead(code + CodeOf(elements[0]), elements[1..]);
      assert code + CodeOf(elements[0]) + CodeOfAll(elements[1..]) == code + CodeOfAll(elements);
    }
  }

  /** However the printed text is cut into lines, lexing them one after the other gives exactly its code, and ends in code. */
  lemma PrintedLinesAreRead(elements: seq<Element>, lines: seq<string>)
    requires Proper(elements) && lines != [] && JoinLines(lines) == Print(elements)
    requires forall l :: l in lines ==> '\n' !in l
    ensures LinesFrom("", INITIAL, lines) == Lexed(CodeOfAll(elements), INITIAL)
  {
    hide TextFrom, LinesFrom, JoinLines, Print, CodeOfAll;
    ElementsAreRead("", elements);
    assert "" + CodeOfAll(elements) == CodeOfAll(elements);
    LinesAgreeWithText("", INITIAL, lines);
  }

  /** One printed line. */
  lemma PrintedLineIsRead(elements: seq<Element>)
    requires Proper(elements) && '\n' !in Print(elements)
    ensures Lex(INITIAL, Print(elements)) == Lexed(CodeOfAll(elements), INITIAL)
  {
    hide TextFrom, LexFrom, Print, CodeOfAll;
    ElementsAreRead("", elements);
    assert "" + CodeOfAll(elements) == CodeOfAll(elements);
    LastLineOfText("", INITIAL, Print(elements));
  }
}
