/**
 What the classifier reads in the characters of a line, and the region of a test module in the
 text of a file.
 */
module RustText {
  import opened Wrappers
  import opened Strings
  import opened RustLexer
  import opened RustScope
  import opened RustScopeTheorems
  import Cfg = CfgAttributes

  // ----- One line -----

  const WHITESPACE: string :=
    "\t\n\U{0B}\U{0C}\r\U{1C}\U{1D}\U{1E}\U{1F} \U{85}\U{A0}\U{1680}"
    + "\U{2000}\U{2001}\U{2002}\U{2003}\U{2004}\U{2005}\U{2006}\U{2007}\U{2008}\U{2009}\U{200A}"
    + "\U{2028}\U{2029}\U{202F}\U{205F}\U{3000}"

  const WORD_CHARACTERS: string :=
    "abcdefghijklmnopqrstuvwxyz" + "ABCDEFGHIJKLMNOPQRSTUVWXYZ" + "0123456789_"

  predicate Blank(s: string) {
    forall c :: c in s ==> c in WHITESPACE
  }

  predicate Trimmed(s: string) {
    s != "" ==> s[0] !in WHITESPACE && s[|s| - 1] !in WHITESPACE
  }

  lemma SpaceIsWhitespace(c: char)
    ensures IsSpace(c) <==> c in WHITESPACE
  {
  }

  lemma LowerCase(c: char)
    ensures 'a' <= c <= 'z' <==> c in "abcdefghijklmnopqrstuvwxyz"
  {
  }

  lemma UpperCase(c: char)
    ensures 'A' <= c <= 'Z' <==> c in "ABCDEFGHIJKLMNOPQRSTUVWXYZ"
  {
  }

  lemma DigitOrUnderscore(c: char)
    ensures '0' <= c <= '9' || c == '_' <==> c in "0123456789_"
  {
  }

  lemma InOneOfThree(c: char, s: string, t: string, u: string)
    ensures c in s + t + u <==> c in s || c in t || c in u
  {
  }

  lemma WordIsWordCharacter(c: char)
    ensures IsWordChar(c) <==> c in WORD_CHARACTERS
  {
    LowerCase(c);
    UpperCase(c);
    DigitOrUnderscore(c);
    InOneOfThree(c, "abcdefghijklmnopqrstuvwxyz", "ABCDEFGHIJKLMNOPQRSTUVWXYZ", "0123456789_");
  }

  lemma {:induction false} CountIsMultiset(s: string, c: char)
    ensures Count(s, c) == multiset(s)[c]
  {
    if s != "" {
      CountIsMultiset(s[1..], c);
      assert s == [s[0]] + s[1..];
    }
  }

  lemma {:induction false} StripLeftIs(before: string, s: string)
    requires Blank(before) && (s != "" ==> s[0] !in WHITESPACE)
    ensures StripLeft(before + s) == s
    decreases |before|
  {
    hide IsSpace;
    if before == "" {
      assert before + s == s;
      if s != "" {
        SpaceIsWhitespace(s[0]);
      }
    } else {
      SpaceIsWhitespace(before[0]);
      assert before[0] in before && forall c :: c in before[1..] ==> c in before;
      assert (before + s)[1..] == before[1..] + s;
      StripLeftIs(before[1..], s);
    }
  }

  lemma {:induction false} StripRightIs(s: string, after: string)
    requires Blank(after) && (s != "" ==> s[|s| - 1] !in WHITESPACE)
    ensures StripRight(s + after) == s
    decreases |after|
  {
    hide IsSpace;
    if after == "" {
      assert s + after == s;
      if s != "" {
        SpaceIsWhitespace(s[|s| - 1]);
      }
    } else {
      var n := |after| - 1;
      SpaceIsWhitespace(after[n]);
      assert after[n] in after && forall c :: c in after[..n] ==> c in after;
      assert (s + after)[..|s + after| - 1] == s + after[..n];
      StripRightIs(s, after[..n]);
    }
  }

  lemma StripIs(before: string, s: string, after: string)
    requires Blank(before) && Blank(after) && Trimmed(s)
    ensures Strip(before + s + after) == s
  {
    hide Blank, StripLeft, StripRight;
    if s == "" {
      assert before + s + after == before + after;
      BlankJoin(before, after);
      NothingIsBlank();
      assert before + after == (before + after) + "";
      StripLeftIs(before + after, "");
      StripRightIs("", "");
      assert "" + "" == "";
    } else {
      assert before + s + after == before + (s + after);
      StripLeftIs(before, s + after);
      StripRightIs(s, after);
    }
  }

  lemma BlankJoin(a: string, b: string)
    requires Blank(a) && Blank(b)
    ensures Blank(a + b)
  {
  }

  lemma NothingIsBlank()
    ensures Blank("")
  {
  }

  /** Every line is a trimmed text between whitespace. */
  lemma {:induction false} EveryLineIsPadded(code: string) returns (before: string, s: string, after: string)
    ensures code == before + s + after && Blank(before) && Blank(after) && Trimmed(s)
    decreases |code|
  {
    hide WHITESPACE;
    if code == "" {
      before, s, after := "", "", "";
    } else if code[0] in WHITESPACE {
      before, s, after := EveryLineIsPadded(code[1..]);
      before := [code[0]] + before;
    } else if code[|code| - 1] in WHITESPACE {
      before, s, after := EveryLineIsPadded(code[..|code| - 1]);
      after := after + [code[|code| - 1]];
    } else {
      before, s, after := "", code, "";
    }
  }

  /** `mod` stands at this place as a word of its own. */
  predicate WordModAt(s: string, i: int) {
    && 0 <= i && i + 3 <= |s| && s[i] == 'm' && s[i + 1] == 'o' && s[i + 2] == 'd'
    && (i == 0 || s[i - 1] !in WORD_CHARACTERS)
    && (i + 3 == |s| || s[i + 3] !in WORD_CHARACTERS)
  }

  lemma ModIsThreeChars(s: string)
    ensures StartsWith(s, "mod") <==> |s| >= 3 && s[0] == 'm' && s[1] == 'o' && s[2] == 'd'
  {
    assert "mod" == ['m', 'o', 'd'];
    if |s| >= 3 {
      assert s[..3] == [s[0], s[1], s[2]];
    }
  }

  lemma {:induction false} ModWordFrom(s: string, k: nat)
    requires k <= |s|
    ensures HasModWord(s[k..], k > 0 && s[k - 1] in WORD_CHARACTERS) <==> exists i :: k <= i && WordModAt(s, i)
    decreases |s| - k
  {
    hide WORD_CHARACTERS, IsWordChar, StartsWith;
    var rest := s[k..];
    ModIsThreeChars(rest);
    assert forall j :: 0 <= j < |rest| ==> rest[j] == s[k + j];
    if |rest| > 3 {
      WordIsWordCharacter(rest[3]);
    }
    assert WordModAt(s, k) <==>
        !(k > 0 && s[k - 1] in WORD_CHARACTERS) && StartsWith(rest, "mod") && (|rest| == 3 || !IsWordChar(rest[3]));
    if k < |s| {
      WordIsWordCharacter(rest[0]);
      assert rest[1..] == s[k + 1..];
      ModWordFrom(s, k + 1);
      if i :| k <= i && WordModAt(s, i) {
        assert i == k || k + 1 <= i;
      }
    }
  }

  /** What is read in a line, in terms of its characters. */
  lemma ReadExactly(before: string, s: string, after: string)
    requires Blank(before) && Blank(after) && Trimmed(s)
    ensures var code := before + s + after;
            var line := Read(code);
            && line.opens == multiset(code)['{'] && line.closes == multiset(code)['}']
            && (line.hasSemicolon <==> ';' in code)
            && (line.isBlank <==> s == "")
            && (line.isAttribute <==> |s| >= 3 && s[0] == '#' && s[1] == '[' && s[|s| - 1] == ']')
            && (line.opensModule <==> '{' in code && exists i :: WordModAt(s, i))
            && (line.isTestAttribute <==> IsTestAttribute(s))
  {
    hide Blank, WHITESPACE, Strip, Count, IsTestAttribute, HasModWord;
    var code := before + s + after;
    StripIs(before, s, after);
    CountIsMultiset(code, '{');
    CountIsMultiset(code, '}');
    ModWordFrom(s, 0);
    assert s[0..] == s;
    AttributeMarks(s);
    BraceIsNoSpace(before);
    BraceIsNoSpace(after);
    assert '{' in code <==> '{' in s;
  }

  lemma BraceIsNoSpace(s: string)
    requires Blank(s)
    ensures '{' !in s && '#' !in s
  {
  }

  lemma AttributeMarks(s: string)
    ensures StartsWith(s, "#[") && EndsWith(s, "]") <==> |s| >= 3 && s[0] == '#' && s[1] == '[' && s[|s| - 1] == ']'
  {
    assert "#[" == ['#', '['];
    if |s| >= 2 {
      assert s[..2] == [s[0], s[1]];
      assert s[|s| - 1..] == [s[|s| - 1]];
    }
  }

  /** A `cfg` attribute, however it is padded and spaced, is read as a test attribute exactly when it is taken for one. */
  lemma ReadsTestAttribute(before: string, p: Cfg.Cfg, text: string, after: string)
    requires Blank(before) && Blank(after) && Cfg.Proper(p) && Cfg.SpacedOut(Cfg.Print(p), text)
    ensures Read(before + ("#[cfg(" + text + ")]") + after).isTestAttribute <==> Cfg.TakenForTest(p)
  {
    hide Blank, Read, IsTestAttribute, Cfg.Proper, Cfg.SpacedOut, Cfg.Print, Cfg.TakenForTest;
    var s := "#[cfg(" + text + ")]";
    assert s[0] == '#' && s[|s| - 1] == ']';
    ReadExactly(before, s, after);
    Cfg.TestAttributeExactly(p, text);
  }

  lemma NoHashNoAttribute(code: string)
    requires '#' !in code
    ensures !Read(code).isTestAttribute && !Read(code).isAttribute
  {
    hide Read, Blank, Trimmed, WordModAt;
    var before, s, after := EveryLineIsPadded(code);
    ReadExactly(before, s, after);
    assert s != "" ==> s[0] in code by {
      assert s != "" ==> code[|before|] == s[0];
    }
    TestAttributeHead(s);
  }

  lemma TestAttributeHead(s: string)
    ensures IsTestAttribute(s) ==> s != "" && s[0] == '#'
  {
    assert "#[cfg("[0] == '#';
  }

  // ----- A module in the text of a file -----

  /** The code of each line, lexed one after the other. */
  function Codes(lex: LexState, lines: seq<string>): (codes: seq<string>)
    ensures |codes| == |lines|
    decreases |lines|
  {
    if lines == [] then []
    else
      var l := Lex(lex, lines[0]);
      [l.code] + Codes(l.end, lines[1..])
  }

  lemma {:induction false} LinesAreRead(lex: LexState, lines: seq<string>, i: nat)
    requires i < |lines|
    ensures ReadAll(lex, lines)[i] == Read(Codes(lex, lines)[i])
    decreases |lines|
  {
    hide Lex, Read;
    if i > 0 {
      LinesAreRead(Lex(lex, lines[0]).end, lines[1..], i - 1);
    }
  }

  /** The braces opened less those closed on lines `from` to `i`. */
  function Braces(codes: seq<string>, from: nat, i: nat): int
    requires from <= i < |codes|
    decreases i
  {
    (if i == from then 0 else Braces(codes, from, i - 1)) + multiset(codes[i])['{'] - multiset(codes[i])['}']
  }

  /** A padded `cfg` attribute that is taken for test-only. */
  ghost predicate TestAttributeText(code: string) {
    exists before, p: Cfg.Cfg, text, after ::
      && Blank(before) && Blank(after) && Cfg.Proper(p) && Cfg.TakenForTest(p) && Cfg.SpacedOut(Cfg.Print(p), text)
      && code == before + ("#[cfg(" + text + ")]") + after
  }

  /**
   The text of a test module: its attribute, blank lines, a header with the word `mod` and an
   opening brace, and the lines through the first whose braces balance those since the header,
   none of them with a `#`.
   */
  ghost predicate ModuleText(codes: seq<string>, header: nat, last: nat) {
    && 0 < header <= last < |codes|
    && TestAttributeText(codes[0])
    && (forall i :: 0 < i < header ==> Blank(codes[i]))
    && '{' in codes[header] && (exists i :: WordModAt(codes[header], i))
    && (forall i :: header <= i <= last ==> '#' !in codes[i])
    && (forall i :: header <= i < last ==> Braces(codes, header, i) > 0)
    && Braces(codes, header, last) <= 0
  }

  lemma {:induction false} DepthIsBraces(base: int, codes: seq<string>, lines: seq<Line>, from: nat, i: nat)
    requires from <= i < |codes| == |lines|
    requires forall k :: from <= k <= i ==> lines[k] == Read(codes[k])
    ensures DepthAfter(base, lines, from, i) == base + Braces(codes, from, i)
    decreases i
  {
    CountIsMultiset(codes[i], '{');
    CountIsMultiset(codes[i], '}');
    if i > from {
      DepthIsBraces(base, codes, lines, from, i - 1);
    }
  }

  lemma BlankIsRead(code: string)
    requires Blank(code)
    ensures Read(code).isBlank
  {
    hide Read, Blank;
    NothingIsBlank();
    assert code + "" + "" == code;
    ReadExactly(code, "", "");
  }

  lemma HeaderIsRead(code: string)
    requires '{' in code && (exists i :: WordModAt(code, i)) && '#' !in code
    ensures var line := Read(code); line.opensModule && !line.isBlank && !line.isAttribute && !line.isTestAttribute
  {
    hide Read, Blank, WHITESPACE;
    NoHashNoAttribute(code);
    var before, s, after := EveryLineIsPadded(code);
    ReadExactly(before, s, after);
    var i :| WordModAt(code, i);
    WordInside(before, s, after, i);
  }

  /** Padding is no part of a word, so the word stands in the trimmed text. */
  lemma WordInside(before: string, s: string, after: string, i: int)
    requires Blank(before) && Blank(after) && WordModAt(before + s + after, i)
    ensures s != "" && WordModAt(s, i - |before|)
  {
    hide WORD_CHARACTERS, WHITESPACE;
    var code := before + s + after;
    LettersAreNoSpaces();
    forall k | i <= k < i + 3
      ensures |before| <= k < |before| + |s| && s[k - |before|] == code[k]
    {
      CharOf(before, s, after, k);
    }
    assert i > |before| ==> s[i - 1 - |before|] == code[i - 1];
    assert i + 3 < |before| + |s| ==> s[i + 3 - |before|] == code[i + 3];
    assert |before| <= i && i + 2 < |before| + |s|;
  }

  lemma CharOf(before: string, s: string, after: string, k: nat)
    requires k < |before + s + after|
    ensures var c := (before + s + after)[k];
            c in before || c in after || (|before| <= k < |before| + |s| && s[k - |before|] == c)
  {
    if k < |before| {
      assert (before + s + after)[k] == before[k];
    } else if k >= |before| + |s| {
      assert (before + s + after)[k] == after[k - |before| - |s|];
    }
  }

  lemma LettersAreNoSpaces()
    ensures 'm' !in WHITESPACE && 'o' !in WHITESPACE && 'd' !in WHITESPACE
  {
    hide WHITESPACE;
    SpaceIsWhitespace('m');
    SpaceIsWhitespace('o');
    SpaceIsWhitespace('d');
  }

  lemma AttributeIsRead(code: string)
    requires TestAttributeText(code)
    ensures Read(code).isTestAttribute
  {
    hide Read, Blank;
    var before, p: Cfg.Cfg, text, after :|
      && Blank(before) && Blank(after) && Cfg.Proper(p) && Cfg.TakenForTest(p) && Cfg.SpacedOut(Cfg.Print(p), text)
      && code == before + ("#[cfg(" + text + ")]") + after;
    ReadsTestAttribute(before, p, text, after);
  }

  lemma TextIsRegion(base: int, codes: seq<string>, lines: seq<Line>, header: nat, last: nat)
    requires ModuleText(codes, header, last) && |lines| == |codes|
    requires forall k :: 0 <= k <= last ==> lines[k] == Read(codes[k])
    ensures ModuleRegion(base, lines, header, last)
  {
    hide Read, TestAttributeText, Blank, WordModAt;
    AttributeIsRead(codes[0]);
    HeaderIsRead(codes[header]);
    forall i | 0 < i < header
      ensures lines[i].isBlank
    {
      BlankIsRead(codes[i]);
    }
    forall i | header <= i <= last
      ensures !lines[i].isTestAttribute && DepthAfter(base, lines, header, i) == base + Braces(codes, header, i)
    {
      NoHashNoAttribute(codes[i]);
      DepthIsBraces(base, codes, lines, header, i);
    }
  }

  /**
   The text of a test module is marked from its attribute through exactly the line that closes it;
   outside every other region a next line without a `#` is not.
   */
  lemma ModuleTextIsMarked(st: Scope, lex: LexState, lines: seq<string>, header: nat, last: nat)
    requires ModuleText(Codes(lex, lines), header, last)
    ensures forall i :: 0 <= i <= last ==> Verdicts(st, ReadAll(lex, lines))[i]
    ensures !st.Active() && last + 1 < |lines| && '#' !in Codes(lex, lines)[last + 1] ==>
              !Verdicts(st, ReadAll(lex, lines))[last + 1]
  {
    hide Read, ModuleText, ModuleRegion, Codes, ReadAll, Verdicts;
    var codes, read := Codes(lex, lines), ReadAll(lex, lines);
    ModuleTextFits(codes, header, last);
    forall k | 0 <= k < |lines|
      ensures read[k] == Read(codes[k])
    {
      LinesAreRead(lex, lines, k);
    }
    TextIsRegion(st.depth, codes, read, header, last);
    ModuleRegionIsMarked(st, read, header, last);
    if last + 1 < |lines| && '#' !in codes[last + 1] {
      NoHashNoAttribute(codes[last + 1]);
    }
  }

  lemma ModuleTextFits(codes: seq<string>, header: nat, last: nat)
    requires ModuleText(codes, header, last)
    ensures last < |codes|
  {
  }
}
