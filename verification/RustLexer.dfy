/**
 The line lexer of `rust_source_scope.py`: it strips comments, strings and character
 literals from Rust source, one line at a time, carrying its mode across lines.

 `Lex` is the reference: one token per call, no fast path, no bulk copying. `LexText`
 lexes a whole file at once, a `//` comment reaching to the next newline.
 */
module RustLexer {
  import opened Wrappers
  import opened Strings

  datatype LexState = LexState(depth: nat, quote: Option<char>, raw: Option<nat>)
  {
    predicate InCode() {
      depth == 0 && quote.None? && raw.None?
    }

    /** At most one mode is active. */
    predicate Exclusive() {
      && (depth > 0 ==> quote.None? && raw.None?)
      && (quote.Some? ==> raw.None?)
    }
  }

  const INITIAL := LexState(0, None, None)

  // ----- What the regular expressions and prefix tests look at -----

  function Drop(s: string, n: nat): (r: string)
    ensures |r| == if n <= |s| then |s| - n else 0
  {
    if n <= |s| then s[n..] else []
  }

  /** The number of `#` the string starts with. */
  function HashRun(s: string): (n: nat)
    ensures n <= |s|
    ensures forall i :: 0 <= i < n ==> s[i] == '#'
    ensures n < |s| ==> s[n] != '#'
  {
    if s == [] || s[0] != '#' then 0 else 1 + HashRun(s[1..])
  }

  /** `r(#+)?"` */
  predicate OpensRaw(s: string) {
    s != [] && s[0] == 'r' && HashRun(s[1..]) + 1 < |s| && s[HashRun(s[1..]) + 1] == '"'
  }

  /** `'\\.'`: an escaped character literal. */
  predicate EscapedCharLiteral(s: string) {
    |s| >= 4 && s[0] == '\'' && s[1] == '\\' && s[2] != '\n' && s[3] == '\''
  }

  /** `'[^'\\\n]'` */
  predicate PlainCharLiteral(s: string) {
    |s| >= 3 && s[0] == '\'' && s[1] != '\'' && s[1] != '\\' && s[1] != '\n' && s[2] == '\''
  }

  predicate CharLiteral(s: string) {
    EscapedCharLiteral(s) || PlainCharLiteral(s)
  }

  /** The first character belongs to the plain-code run. */
  predicate Plain(s: string) {
    s != [] && s[0] != '/' && s[0] != '\'' && s[0] != '"' && !OpensRaw(s)
  }

  /** The length of the longest plain-code run at the start. */
  function PlainRun(s: string): (n: nat)
    ensures n <= |s|
    ensures forall i :: 0 <= i < n ==> Plain(s[i..])
    ensures !Plain(s[n..])
  {
    if !Plain(s) then assert s[0..] == s; 0
    else
      var n := 1 + PlainRun(s[1..]);
      assert s[0..] == s;
      assert forall i :: 1 <= i < n ==> s[i..] == s[1..][i - 1..];
      assert s[n..] == s[1..][n - 1..];
      n
  }

  function Terminator(hashes: nat): (t: string)
    ensures |t| == hashes + 1 && t[0] == '"'
    ensures forall i :: 1 <= i < |t| ==> t[i] == '#'
  {
    ['"'] + seq(hashes, _ => '#')
  }

  // ----- The reference lexer -----

  datatype Token = Token(state: LexState, emitted: string, length: nat)

  predicate LineComment(st: LexState, s: string) {
    st.InCode() && StartsWith(s, "//")
  }

  function NextToken(st: LexState, s: string): (t: Token)
    requires s != []
    ensures t.length > 0
  {
    if st.depth > 0 then
      if StartsWith(s, "/*") then Token(st.(depth := st.depth + 1), "", 2)
      else if StartsWith(s, "*/") then Token(st.(depth := st.depth - 1), "", 2)
      else Token(st, "", 1)
    else if st.raw.Some? then
      if StartsWith(s, Terminator(st.raw.value)) then
        Token(st.(raw := None), Terminator(st.raw.value), st.raw.value + 1)
      else Token(st, "", 1)
    else if st.quote.Some? then
      if s[0] == '\\' then Token(st, "", 2)
      else if s[0] == st.quote.value then Token(st.(quote := None), "", 1)
      else Token(st, "", 1)
    else if StartsWith(s, "/*") then Token(st.(depth := 1), "", 2)
    else if s[0] == '"' || CharLiteral(s) then Token(st.(quote := Some(s[0])), "", 1)
    else if OpensRaw(s) then Token(st.(raw := Some(HashRun(s[1..]))), "", HashRun(s[1..]) + 2)
    else Token(st, s[..1], 1)
  }

  /** The code of a stretch of source and the state after it. */
  datatype Lexed = Lexed(code: string, end: LexState)

  function Append(a: string, b: string): (r: string)
    ensures r == a + b
  {
    if b == "" then assert a + b == a; a else a + b
  }

  /** Lexes on from `st`, given the code already copied. */
  function LexFrom(code: string, st: LexState, s: string): Lexed
    decreases |s|
  {
    if s == [] || LineComment(st, s) then Lexed(code, st)
    else
      var t := NextToken(st, s);
      LexFrom(Append(code, t.emitted), t.state, Drop(s, t.length))
  }

  function Lex(st: LexState, s: string): Lexed {
    LexFrom("", st, s)
  }

  // ----- The implementation -----

  class RustLexState {
    var blockCommentDepth: nat
    var quote: Option<char>
    var rawHashes: Option<nat>

    constructor ()
      ensures State() == INITIAL
    {
      blockCommentDepth, quote, rawHashes := 0, None, None;
    }

    function State(): LexState
      reads this
    {
      LexState(blockCommentDepth, quote, rawHashes)
    }

    /** Fast path, bulk copies and single characters together compute the reference. */
    method Code(line: string) returns (output: string)
      modifies this
      ensures Lexed(output, State()) == Lex(old(State()), line)
    {
      if blockCommentDepth == 0 && quote == None && rawHashes == None
         && '"' !in line && '\'' !in line && '/' !in line
      {
        AllCode(State(), line);
        return line;
      }
      output := [];
      var i := 0;
      ghost var target := Lex(State(), line);
      assert Drop(line, 0) == line;
      while i < |line|
        invariant i <= |line| + 1
        invariant target == LexFrom(output, State(), Drop(line, i))
        decreases |line| + 1 - i
      {
        hide LexFrom;
        if blockCommentDepth > 0 {
          i := InComment(line, i, output);
        } else if rawHashes.Some? {
          output, i := InRawString(line, i, output);
        } else if quote.Some? {
          i := InQuote(line, i, output);
        } else {
          var ended;
          output, i, ended := InCode(line, i, output);
          if ended {
            return;
          }
        }
      }
    }

    /** One iteration inside a block comment. */
    method InComment(line: string, i: nat, ghost output: string) returns (next: nat)
      requires i < |line| && blockCommentDepth > 0
      modifies this
      ensures i < next <= |line| + 1
      ensures LexFrom(output, old(State()), Drop(line, i)) == LexFrom(output, State(), Drop(line, next))
    {
      hide LexFrom;
      CommentStep(line, State(), i, output);
      if StartsWith(line[i..], "/*") {
        blockCommentDepth := blockCommentDepth + 1;
        return i + 2;
      }
      if StartsWith(line[i..], "*/") {
        blockCommentDepth := blockCommentDepth - 1;
        return i + 2;
      }
      return i + 1;
    }

    /** One iteration inside a raw string: its terminator is copied, its contents are not. */
    method InRawString(line: string, i: nat, output: string) returns (output': string, next: nat)
      requires i < |line| && blockCommentDepth == 0 && rawHashes.Some?
      modifies this
      ensures i < next <= |line| + 1
      ensures LexFrom(output, old(State()), Drop(line, i)) == LexFrom(output', State(), Drop(line, next))
    {
      hide LexFrom;
      var terminator := Terminator(rawHashes.value);
      RawStep(line, State(), i, output, terminator);
      if StartsWith(line[i..], terminator) {
        rawHashes := None;
        return output + terminator, i + |terminator|;
      }
      return output, i + 1;
    }

    /** One iteration inside a string or character literal. */
    method InQuote(line: string, i: nat, ghost output: string) returns (next: nat)
      requires i < |line| && blockCommentDepth == 0 && rawHashes.None? && quote.Some?
      modifies this
      ensures i < next <= |line| + 1
      ensures LexFrom(output, old(State()), Drop(line, i)) == LexFrom(output, State(), Drop(line, next))
    {
      hide LexFrom;
      QuoteStep(line, State(), i, output);
      if line[i] == '\\' {
        return i + 2;
      }
      if line[i] == quote.value {
        quote := None;
      }
      return i + 1;
    }

    /** One iteration in code; `ended` where the source leaves the loop at a line comment. */
    method InCode(line: string, i: nat, output: string) returns (output': string, next: nat, ended: bool)
      requires i < |line| && State().InCode()
      modifies this
      ensures i < next <= |line| + 1
      ensures LexFrom(output, old(State()), Drop(line, i)) ==
              if ended then Lexed(output', State()) else LexFrom(output', State(), Drop(line, next))
    {
      hide LexFrom, HashRun, StartsWith, CharLiteral, OpensRaw, Plain, PlainRun, Drop;
      var plain := PlainRun(line[i..]);
      if plain > 0 {
        PlainStep(line, State(), i, plain, output);
        return output + line[i..i + plain], i + plain, false;
      }
      OpeningStep(line, State(), i, output);
      if StartsWith(line[i..], "//") {
        return output, i + 1, true;
      }
      if StartsWith(line[i..], "/*") {
        blockCommentDepth := 1;
        return output, i + 2, false;
      }
      if line[i] == '\'' && !CharLiteral(line[i..]) {
        return output + [line[i]], i + 1, false;
      }
      if line[i] == '"' || line[i] == '\'' {
        quote := Some(line[i]);
        return output, i + 1, false;
      }
      if line[i] == 'r' && OpensRaw(line[i..]) {
        rawHashes := Some(HashRun(line[i + 1..]));
        return output, i + HashRun(line[i + 1..]) + 2, false;
      }
      return output + [line[i]], i + 1, false;
    }
  }

  lemma DropDrop(s: string, i: nat, n: nat)
    requires i <= |s|
    ensures Drop(s[i..], n) == Drop(s, i + n)
  {
  }

  /** One token of the reference, as seen from an index into the line. */
  lemma TokenAt(line: string, st: LexState, i: nat, output: string, t: Token)
    requires i < |line| && !LineComment(st, line[i..]) && t == NextToken(st, line[i..])
    ensures t.emitted == "" ==>
              LexFrom(output, st, Drop(line, i)) == LexFrom(output, t.state, Drop(line, i + t.length))
    ensures t.emitted != "" ==>
              LexFrom(output, st, Drop(line, i)) == LexFrom(output + t.emitted, t.state, Drop(line, i + t.length))
  {
    DropDrop(line, i, t.length);
  }

  /** The reference inside a block comment. */
  lemma CommentStep(line: string, st: LexState, i: nat, output: string)
    requires i < |line| && st.depth > 0
    ensures LexFrom(output, st, Drop(line, i)) ==
            if StartsWith(line[i..], "/*") then LexFrom(output, st.(depth := st.depth + 1), Drop(line, i + 2))
            else if StartsWith(line[i..], "*/") then LexFrom(output, st.(depth := st.depth - 1), Drop(line, i + 2))
            else LexFrom(output, st, Drop(line, i + 1))
  {
    hide LexFrom, StartsWith, Drop;
    TokenAt(line, st, i, output, NextToken(st, line[i..]));
  }

  lemma RawToken(st: LexState, s: string, terminator: string)
    requires s != [] && st.depth == 0 && st.raw.Some? && terminator == Terminator(st.raw.value)
    ensures !LineComment(st, s)
    ensures StartsWith(s, terminator) ==> NextToken(st, s) == Token(st.(raw := None), terminator, |terminator|)
    ensures !StartsWith(s, terminator) ==> NextToken(st, s) == Token(st, "", 1)
    ensures StartsWith(s, terminator) ==> |terminator| <= |s|
  {
  }

  /** The reference inside a raw string. */
  lemma RawStep(line: string, st: LexState, i: nat, output: string, terminator: string)
    requires i < |line| && st.depth == 0 && st.raw.Some? && terminator == Terminator(st.raw.value)
    ensures LexFrom(output, st, Drop(line, i)) ==
            if StartsWith(line[i..], terminator)
            then LexFrom(output + terminator, st.(raw := None), Drop(line, i + |terminator|))
            else LexFrom(output, st, Drop(line, i + 1))
    ensures StartsWith(line[i..], terminator) ==> i + |terminator| <= |line|
  {
    hide LexFrom, NextToken, Terminator, StartsWith, Drop;
    RawToken(st, line[i..], terminator);
    TokenAt(line, st, i, output, NextToken(st, line[i..]));
  }

  /** The reference inside a string or character literal. */
  lemma QuoteStep(line: string, st: LexState, i: nat, output: string)
    requires i < |line| && st.depth == 0 && st.raw.None? && st.quote.Some?
    ensures LexFrom(output, st, Drop(line, i)) ==
            if line[i] == '\\' then LexFrom(output, st, Drop(line, i + 2))
            else if line[i] == st.quote.value then LexFrom(output, st.(quote := None), Drop(line, i + 1))
            else LexFrom(output, st, Drop(line, i + 1))
  {
    hide LexFrom, StartsWith, Drop;
    TokenAt(line, st, i, output, NextToken(st, line[i..]));
  }

  /** The characters at which a plain run can end. */
  lemma RunEnd(line: string, i: nat)
    requires i < |line| && PlainRun(line[i..]) == 0
    ensures line[i] == '/' || line[i] == '"' || line[i] == '\'' || OpensRaw(line[i..])
    ensures OpensRaw(line[i..]) ==> line[i] == 'r'
    ensures OpensRaw(line[i..]) ==> i + HashRun(line[i + 1..]) + 2 <= |line|
    ensures CharLiteral(line[i..]) ==> line[i] == '\''
    ensures line[i..][1..] == line[i + 1..] && line[i..][..1] == [line[i]]
  {
  }

  lemma OpeningToken(st: LexState, s: string)
    requires s != [] && st.InCode() && !LineComment(st, s)
    ensures StartsWith(s, "/*") ==> NextToken(st, s) == Token(st.(depth := 1), "", 2)
    ensures !StartsWith(s, "/*") && (s[0] == '"' || CharLiteral(s)) ==>
              NextToken(st, s) == Token(st.(quote := Some(s[0])), "", 1)
    ensures !StartsWith(s, "/*") && s[0] != '"' && !CharLiteral(s) && OpensRaw(s) ==>
              NextToken(st, s) == Token(st.(raw := Some(HashRun(s[1..]))), "", HashRun(s[1..]) + 2)
    ensures !StartsWith(s, "/*") && s[0] != '"' && !CharLiteral(s) && !OpensRaw(s) ==>
              NextToken(st, s) == Token(st, s[..1], 1)
  {
  }

  /** The reference in code, at a character that ends the plain run. */
  lemma OpeningStep(line: string, st: LexState, i: nat, output: string)
    requires i < |line| && st.InCode() && PlainRun(line[i..]) == 0
    ensures CharLiteral(line[i..]) ==> line[i] == '\''
    ensures OpensRaw(line[i..]) ==> line[i] == 'r' && i + HashRun(line[i + 1..]) + 2 <= |line|
    ensures StartsWith(line[i..], "//") ==> LexFrom(output, st, Drop(line, i)) == Lexed(output, st)
    ensures !StartsWith(line[i..], "//") && StartsWith(line[i..], "/*") ==>
              LexFrom(output, st, Drop(line, i)) == LexFrom(output, st.(depth := 1), Drop(line, i + 2))
    ensures !StartsWith(line[i..], "//") && !StartsWith(line[i..], "/*") && (line[i] == '"' || CharLiteral(line[i..])) ==>
              LexFrom(output, st, Drop(line, i)) == LexFrom(output, st.(quote := Some(line[i])), Drop(line, i + 1))
    ensures !StartsWith(line[i..], "//") && !StartsWith(line[i..], "/*")
            && line[i] != '"' && !CharLiteral(line[i..]) && OpensRaw(line[i..]) ==>
              var hashes := HashRun(line[i + 1..]);
              LexFrom(output, st, Drop(line, i)) == LexFrom(output, st.(raw := Some(hashes)), Drop(line, i + hashes + 2))
    ensures !StartsWith(line[i..], "//") && !StartsWith(line[i..], "/*")
            && line[i] != '"' && !CharLiteral(line[i..]) && !OpensRaw(line[i..]) ==>
              LexFrom(output, st, Drop(line, i)) == LexFrom(output + [line[i]], st, Drop(line, i + 1))
  {
    hide LexFrom, NextToken, PlainRun, Plain, StartsWith, Drop, HashRun, OpensRaw, CharLiteral;
    RunEnd(line, i);
    if LineComment(st, line[i..]) {
      LexLineComment(output, st, line, i);
    } else {
      OpeningToken(st, line[i..]);
      TokenAt(line, st, i, output, NextToken(st, line[i..]));
    }
  }

  lemma LexLineComment(code: string, st: LexState, line: string, i: nat)
    requires i < |line| && LineComment(st, line[i..])
    ensures LexFrom(code, st, Drop(line, i)) == Lexed(code, st)
  {
  }

  /** A run of plain characters, as seen from an index into the line. */
  lemma PlainStep(line: string, st: LexState, i: nat, n: nat, output: string)
    requires st.InCode() && i + n <= |line| && n == PlainRun(line[i..])
    ensures LexFrom(output, st, Drop(line, i)) == LexFrom(output + line[i..i + n], st, Drop(line, i + n))
  {
    PlainRunIsCopied(output, st, line[i..], n);
    assert line[i..][n..] == Drop(line, i + n) && line[i..][..n] == line[i..i + n];
  }

  lemma PlainIsCopied(code: string, st: LexState, s: string)
    requires st.InCode() && Plain(s)
    ensures LexFrom(code, st, s) == LexFrom(code + s[..1], st, s[1..])
  {
  }

  lemma {:induction false} PlainRunIsCopied(code: string, st: LexState, s: string, n: nat)
    requires st.InCode() && n <= |s|
    requires forall i :: 0 <= i < n ==> Plain(s[i..])
    ensures LexFrom(code, st, s) == LexFrom(code + s[..n], st, s[n..])
    decreases n
  {
    if n == 0 {
      assert code + s[..0] == code && s[0..] == s;
    } else {
      assert Plain(s) by { assert s[0..] == s && Plain(s[0..]); }
      PlainIsCopied(code, st, s);
      hide LexFrom;
      PlainTail(s, n);
      PlainRunIsCopied(code + s[..1], st, s[1..], n - 1);
      TakeInTwo(code, s, n);
    }
  }

  lemma TakeInTwo(code: string, s: string, n: nat)
    requires 0 < n <= |s|
    ensures code + s[..1] + s[1..][..n - 1] == code + s[..n]
  {
  }

  lemma PlainTail(s: string, n: nat)
    requires 0 < n <= |s|
    requires forall i :: 0 <= i < n ==> Plain(s[i..])
    ensures forall i :: 0 <= i < n - 1 ==> Plain(s[1..][i..])
    ensures s[1..][n - 1..] == s[n..]
  {
  }

  lemma AllCode(st: LexState, line: string)
    requires st.InCode() && '"' !in line && '\'' !in line && '/' !in line
    ensures Lex(st, line) == Lexed(line, st)
  {
    PlainRunIsCopied("", st, line, |line|);
    assert "" + line[..|line|] == line;
    assert line[|line|..] == [];
  }
}
