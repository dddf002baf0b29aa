/**
 What the reference lexer guarantees over any line and any file: exclusive modes, closed
 character literals, outputs that are subsequences of their lines, and line-by-line
 lexing that agrees with lexing the whole file at once.
 */
module RustLexerTheorems {
  import opened Wrappers
  import opened Strings
  import opened RustLexer

  // ----- States between lines -----

  /** The states a line can start in: one mode at most, and never inside a character literal. */
  predicate Boundary(st: LexState) {
    st.Exclusive() && (st.quote.Some? ==> st.quote.value == '"')
  }

  /** The states between two tokens. */
  predicate Between(st: LexState) {
    st.Exclusive() && (st.quote.Some? ==> st.quote.value == '"' || st.quote.value == '\'')
  }

  lemma {:induction false} CharLiteralIsPassed(code: string, st: LexState, s: string)
    requires st.InCode() && CharLiteral(s)
    ensures PlainCharLiteral(s) ==> LexFrom(code, st, s) == LexFrom(code, st, s[3..])
    ensures EscapedCharLiteral(s) ==> LexFrom(code, st, s) == LexFrom(code, st, s[4..])
  {
    var open := st.(quote := Some('\''));
    assert NextToken(st, s) == Token(open, "", 1) by {
      assert !StartsWith(s, "/*");
    }
    assert !LineComment(st, s);
    assert LexFrom(code, st, s) == LexFrom(code, open, s[1..]);
    var second := NextToken(open, s[1..]);
    assert LexFrom(code, open, s[1..]) == LexFrom(code, open, Drop(s[1..], second.length));
    if PlainCharLiteral(s) {
      assert Drop(s[1..], second.length) == s[2..];
      assert NextToken(open, s[2..]) == Token(st, "", 1);
      assert Drop(s[2..], 1) == s[3..];
    } else {
      assert Drop(s[1..], second.length) == s[3..];
      assert NextToken(open, s[3..]) == Token(st, "", 1);
      assert Drop(s[3..], 1) == s[4..];
    }
  }

  /** Whatever state a line starts in, it ends in one that a line may start in. */
  lemma {:induction false} LineEndsAtBoundary(code: string, st: LexState, s: string)
    requires Boundary(st)
    ensures Boundary(LexFrom(code, st, s).end)
    decreases |s|
  {
    if s != [] && !LineComment(st, s) {
      if st.InCode() && CharLiteral(s) {
        CharLiteralIsPassed(code, st, s);
        LineEndsAtBoundary(code, st, if PlainCharLiteral(s) then s[3..] else s[4..]);
      } else {
        var t := NextToken(st, s);
        LineEndsAtBoundary(Append(code, t.emitted), t.state, Drop(s, t.length));
      }
    }
  }

  /** So does a whole file. */
  lemma {:induction false} FileEndsAtBoundary(code: string, st: LexState, lines: seq<string>)
    requires lines != [] && Boundary(st)
    ensures Boundary(LinesFrom(code, st, lines).end)
    decreases |lines|
  {
    var r := LexFrom(code, st, lines[0]);
    LineEndsAtBoundary(code, st, lines[0]);
    if |lines| > 1 {
      FileEndsAtBoundary(if r.end.InCode() then r.code + "\n" else r.code, r.end, lines[1..]);
    }
  }

  // ----- Outputs -----

  predicate IsSubsequence(a: string, b: string)
    decreases |b|
  {
    if a == [] then true
    else if b == [] then false
    else if a[0] == b[0] then IsSubsequence(a[1..], b[1..])
    else IsSubsequence(a, b[1..])
  }

  lemma NothingIsSubsequence(s: string)
    ensures IsSubsequence("", s)
  {
  }

  lemma {:induction false} SubsequenceTail(a: string, b: string)
    requires a != [] && IsSubsequence(a, b)
    ensures IsSubsequence(a[1..], b)
    decreases |b|
  {
    if |a| > 1 {
      if a[0] != b[0] {
        SubsequenceTail(a, b[1..]);
      }
      if a[1] == b[0] {
        SubsequenceTail(a[1..], b[1..]);
      }
    }
  }

  lemma {:induction false} SubsequenceAfter(a: string, skipped: string, b: string)
    requires IsSubsequence(a, b)
    ensures IsSubsequence(a, skipped + b)
    decreases |skipped|
  {
    if skipped == [] {
      assert skipped + b == b;
    } else {
      assert (skipped + b)[1..] == skipped[1..] + b;
      SubsequenceAfter(a, skipped[1..], b);
      if a != [] && a[0] == skipped[0] {
        SubsequenceTail(a, skipped[1..] + b);
      }
    }
  }

  lemma {:induction false} SubsequenceCopied(c: string, a: string, b: string)
    requires IsSubsequence(a, b)
    ensures IsSubsequence(c + a, c + b)
    decreases |c|
  {
    if c == [] {
      assert c + a == a && c + b == b;
    } else {
      assert (c + a)[1..] == c[1..] + a && (c + b)[1..] == c[1..] + b;
      SubsequenceCopied(c[1..], a, b);
    }
  }

  lemma LexToken(code: string, st: LexState, s: string)
    requires s != [] && !LineComment(st, s)
    ensures var t := NextToken(st, s);
            LexFrom(code, st, s) == LexFrom(Append(code, t.emitted), t.state, Drop(s, t.length))
  {
  }

  lemma LexStops(code: string, st: LexState, s: string)
    requires s == [] || LineComment(st, s)
    ensures LexFrom(code, st, s) == Lexed(code, st)
  {
  }

  lemma AppendAssociative(a: string, b: string, c: string)
    ensures Append(a, b) + c == a + (Append("", b) + c)
  {
    hide Append;
    assert "" + b == b;
  }

  /** The code already copied is only ever extended. */
  lemma {:induction false} LexFromExtends(code: string, st: LexState, s: string)
    ensures LexFrom(code, st, s) == Lexed(code + Lex(st, s).code, Lex(st, s).end)
    decreases |s|
  {
    hide LexFrom, NextToken, LineComment, Drop, Append;
    if s == [] || LineComment(st, s) {
      LexStops(code, st, s);
      LexStops("", st, s);
      assert code + "" == code;
    } else {
      var t := NextToken(st, s);
      LexFromExtends(Append(code, t.emitted), t.state, Drop(s, t.length));
      LexFromExtends(Append("", t.emitted), t.state, Drop(s, t.length));
      LexToken(code, st, s);
      LexToken("", st, s);
      AppendAssociative(code, t.emitted, Lex(t.state, Drop(s, t.length)).code);
    }
  }

  lemma LexOneToken(st: LexState, s: string)
    requires s != [] && !LineComment(st, s)
    ensures var t := NextToken(st, s);
            Lex(st, s) == Lexed(t.emitted + Lex(t.state, Drop(s, t.length)).code, Lex(t.state, Drop(s, t.length)).end)
  {
    hide LexFrom, NextToken, LineComment, Drop, Append;
    var t := NextToken(st, s);
    LexToken("", st, s);
    LexFromExtends(Append("", t.emitted), t.state, Drop(s, t.length));
    assert "" + t.emitted == t.emitted;
  }

  /** A token copies nothing or exactly the characters it covers. */
  lemma TokenCopiesItself(st: LexState, s: string)
    requires s != []
    ensures var t := NextToken(st, s); t.emitted == "" || (t.length <= |s| && t.emitted == s[..t.length])
  {
  }

  /** The code of a line is a subsequence of the line. */
  lemma {:induction false} CodeIsSubsequence(st: LexState, s: string)
    ensures IsSubsequence(Lex(st, s).code, s)
    decreases |s|
  {
    hide LexFrom, NextToken, LineComment, IsSubsequence, Append;
    if s == [] || LineComment(st, s) {
      LexStops("", st, s);
      NothingIsSubsequence(s);
    } else {
      var t := NextToken(st, s);
      var rest := Drop(s, t.length);
      var n := |s| - |rest|;
      var code := Lex(t.state, rest).code;
      LexOneToken(st, s);
      CodeIsSubsequence(t.state, rest);
      TokenCopiesItself(st, s);
      assert rest == s[n..] && s == s[..n] + s[n..];
      if t.emitted == "" {
        assert "" + code == code;
        SubsequenceAfter(code, s[..n], rest);
      } else {
        SubsequenceCopied(s[..n], code, rest);
      }
    }
  }

  // ----- A whole file at once -----

  function SkipLine(s: string): (r: string)
    ensures |r| <= |s|
    ensures s != [] && s[0] != '\n' ==> |r| < |s|
  {
    if s == [] || s[0] == '\n' then s else SkipLine(s[1..])
  }

  /** Lexes a text with line breaks in it; a line comment stops in front of the next newline. */
  function TextFrom(code: string, st: LexState, s: string): Lexed
    decreases |s|
  {
    if s == [] then Lexed(code, st)
    else if LineComment(st, s) then TextFrom(code, st, SkipLine(s))
    else
      var t := NextToken(st, s);
      TextFrom(Append(code, t.emitted), t.state, Drop(s, t.length))
  }

  predicate IsLine(s: string) {
    '\n' !in s
  }

  function JoinLines(lines: seq<string>): string
    requires lines != []
  {
    if |lines| == 1 then lines[0] else lines[0] + "\n" + JoinLines(lines[1..])
  }

  /** Lexes line after line, keeping each line break that lies in code. */
  function LinesFrom(code: string, st: LexState, lines: seq<string>): Lexed
    requires lines != []
    decreases |lines|
  {
    var r := LexFrom(code, st, lines[0]);
    if |lines| == 1 then r
    else LinesFrom(if r.end.InCode() then r.code + "\n" else r.code, r.end, lines[1..])
  }

  lemma PrefixInLine(s: string, more: string, prefix: string)
    requires IsLine(s) && IsLine(prefix) && more != [] && more[0] == '\n'
    ensures StartsWith(s + more, prefix) <==> StartsWith(s, prefix)
  {
    if StartsWith(s + more, prefix) && |prefix| > |s| {
      LongPrefixBreaks(s, more, prefix);
    }
  }

  lemma LongPrefixBreaks(s: string, more: string, prefix: string)
    requires more != [] && more[0] == '\n'
    requires StartsWith(s + more, prefix) && |prefix| > |s|
    ensures '\n' in prefix
  {
    assert prefix[|s|] == (s + more)[|s|];
  }

  lemma {:induction false} HashRunInLine(s: string, more: string)
    requires more != [] && more[0] == '\n'
    ensures HashRun(s + more) == HashRun(s)
  {
    if s != [] && s[0] == '#' {
      assert (s + more)[1..] == s[1..] + more;
      HashRunInLine(s[1..], more);
    } else if s == [] {
      assert s + more == more;
    }
  }

  lemma OpensRawInLine(s: string, more: string)
    requires s != [] && more != [] && more[0] == '\n'
    ensures OpensRaw(s + more) <==> OpensRaw(s)
    ensures HashRun((s + more)[1..]) == HashRun(s[1..])
  {
    assert (s + more)[1..] == s[1..] + more;
    HashRunInLine(s[1..], more);
  }

  lemma CharLiteralInLine(s: string, more: string)
    requires s != [] && more != [] && more[0] == '\n'
    ensures CharLiteral(s + more) <==> CharLiteral(s)
  {
  }

  lemma TerminatorIsLine(hashes: nat)
    ensures IsLine(Terminator(hashes))
  {
  }

  /** No token looks past the end of a line, except that an escape skips the line break. */
  lemma TokenInLine(st: LexState, s: string, more: string)
    requires s != [] && IsLine(s) && more != [] && more[0] == '\n'
    ensures LineComment(st, s + more) <==> LineComment(st, s)
    ensures NextToken(st, s + more) == NextToken(st, s)
  {
    hide HashRun, OpensRaw, StartsWith, CharLiteral, Terminator;
    PrefixInLine(s, more, "/*");
    PrefixInLine(s, more, "*/");
    PrefixInLine(s, more, "//");
    if st.raw.Some? {
      TerminatorIsLine(st.raw.value);
      PrefixInLine(s, more, Terminator(st.raw.value));
    }
    OpensRawInLine(s, more);
    CharLiteralInLine(s, more);
    assert (s + more)[..1] == s[..1];
  }

  /** A token reaches past the end of the line only by escaping the line break inside a literal. */
  lemma TokenLength(st: LexState, s: string)
    requires s != [] && !LineComment(st, s)
    ensures var t := NextToken(st, s);
            t.length <= |s| || (t.length == |s| + 1 && t.emitted == "" && t.state == st && !st.InCode())
  {
  }

  lemma BetweenTokens(st: LexState, s: string)
    requires s != [] && Between(st)
    ensures Between(NextToken(st, s).state)
  {
  }

  lemma LineBreak(code: string, st: LexState, rest: string)
    requires Between(st)
    ensures TextFrom(code, st, "\n" + rest) ==
            TextFrom(if st.InCode() then code + "\n" else code, st, rest)
  {
    var s := "\n" + rest;
    assert s[0] == '\n' && "//"[0] == '/' && "/*"[0] == '/' && "*/"[0] == '*';
    assert !StartsWith(s, "//") && !StartsWith(s, "/*") && !StartsWith(s, "*/");
    assert st.raw.Some? ==> !StartsWith(s, Terminator(st.raw.value));
    assert s[..1] == "\n";
    assert NextToken(st, s) == Token(st, if st.InCode() then "\n" else "", 1);
    assert Drop(s, 1) == rest;
  }

  lemma {:induction false} SkipToBreak(s: string, more: string)
    requires IsLine(s) && more != [] && more[0] == '\n'
    ensures SkipLine(s + more) == more
    decreases |s|
  {
    if s == [] {
      assert s + more == more;
    } else {
      assert (s + more)[1..] == s[1..] + more;
      SkipToBreak(s[1..], more);
    }
  }

  lemma DropInLine(s: string, more: string, n: nat)
    requires n <= |s|
    ensures Drop(s + more, n) == Drop(s, n) + more
  {
  }

  lemma {:induction false} LineOfText(code: string, st: LexState, s: string, rest: string)
    requires IsLine(s) && Between(st)
    ensures var r := LexFrom(code, st, s);
            Between(r.end) &&
            TextFrom(code, st, s + ("\n" + rest)) ==
            TextFrom(if r.end.InCode() then r.code + "\n" else r.code, r.end, rest)
    decreases |s|
  {
    var more := "\n" + rest;
    if s == [] {
      assert s + more == more;
      LineBreak(code, st, rest);
    } else if LineComment(st, s) {
      TokenInLine(st, s, more);
      SkipToBreak(s, more);
      LineBreak(code, st, rest);
    } else {
      var t := NextToken(st, s);
      TokenInLine(st, s, more);
      TokenLength(st, s);
      BetweenTokens(st, s);
      TextToken(code, st, s + more);
      LexToken(code, st, s);
      if t.length <= |s| {
        DropInLine(s, more, t.length);
        LineOfText(Append(code, t.emitted), t.state, Drop(s, t.length), rest);
      } else {
        assert Drop(s + more, t.length) == rest;
        assert LexFrom(code, st, []) == Lexed(code, st);
      }
    }
  }

  lemma TextToken(code: string, st: LexState, s: string)
    requires s != [] && !LineComment(st, s)
    ensures var t := NextToken(st, s);
            TextFrom(code, st, s) == TextFrom(Append(code, t.emitted), t.state, Drop(s, t.length))
  {
  }

  lemma {:induction false} LastLineOfText(code: string, st: LexState, s: string)
    requires IsLine(s)
    ensures TextFrom(code, st, s) == LexFrom(code, st, s)
    decreases |s|
  {
    if s != [] {
      if LineComment(st, s) {
        SkipToEnd(s);
      } else {
        var t := NextToken(st, s);
        LastLineOfText(Append(code, t.emitted), t.state, Drop(s, t.length));
      }
    }
  }

  lemma {:induction false} SkipToEnd(s: string)
    requires IsLine(s)
    ensures SkipLine(s) == []
    decreases |s|
  {
    if s != [] {
      SkipToEnd(s[1..]);
    }
  }

  /** Carrying the state from line to line loses nothing: the result is that of lexing the file whole. */
  lemma {:induction false} LinesAgreeWithText(code: string, st: LexState, lines: seq<string>)
    requires lines != [] && Between(st)
    requires forall l :: l in lines ==> IsLine(l)
    ensures LinesFrom(code, st, lines) == TextFrom(code, st, JoinLines(lines))
    decreases |lines|
  {
    hide LexFrom, TextFrom, Between, IsLine;
    if |lines| == 1 {
      LastLineOfText(code, st, lines[0]);
    } else {
      var r := LexFrom(code, st, lines[0]);
      var rest := JoinLines(lines[1..]);
      LineOfText(code, st, lines[0], rest);
      assert lines[0] + "\n" + rest == lines[0] + ("\n" + rest);
      LinesAgreeWithText(if r.end.InCode() then r.code + "\n" else r.code, r.end, lines[1..]);
    }
  }
}
