/**
 The escapings by which the provisioning script passes values on: SQL identifiers and
 literals, fields of a libpq password file, and masks of workflow commands, each with the
 reader on the other side.
 */
module Escaping {
  import opened Wrappers

  /** `s.replace(c, with)` for a single character. */
  function Replace(s: string, c: char, with: string): string {
    if s == [] then [] else (if s[0] == c then with else [s[0]]) + Replace(s[1..], c, with)
  }

  lemma {:induction false} ReplaceAppend(a: string, b: string, c: char, with: string)
    ensures Replace(a + b, c, with) == Replace(a, c, with) + Replace(b, c, with)
    decreases |a|
  {
    if a == [] {
      assert a + b == b;
    } else {
      assert (a + b)[1..] == a[1..] + b;
      ReplaceAppend(a[1..], b, c, with);
    }
  }

  // ----- SQL identifiers and literals -----

  function Quote(s: string, mark: char): string {
    [mark] + Replace(s, mark, [mark, mark]) + [mark]
  }

  function QuoteIdent(s: string): string {
    Quote(s, '"')
  }

  function QuoteLiteral(s: string): string {
    Quote(s, '\'')
  }

  /** Reads up to the closing mark: a doubled mark stands for one. Returns the value and what follows. */
  function ReadQuoted(text: string, mark: char): Option<(string, string)> {
    if text == [] then None
    else if text[0] != mark then
      var rest := ReadQuoted(text[1..], mark);
      if rest.None? then None else Some(([text[0]] + rest.value.0, rest.value.1))
    else if |text| > 1 && text[1] == mark then
      var rest := ReadQuoted(text[2..], mark);
      if rest.None? then None else Some(([mark] + rest.value.0, rest.value.1))
    else Some(("", text[1..]))
  }

  lemma ReadQuotedStep(mark: char, c: char, text: string)
    ensures var encoded := (if c == mark then [mark, mark] else [c]) + text;
            var rest := ReadQuoted(text, mark);
            ReadQuoted(encoded, mark) ==
            if rest.None? then None else Some(([c] + rest.value.0, rest.value.1))
  {
  }

  lemma {:induction false} QuotedBodyIsRead(s: string, mark: char, after: string)
    requires after == [] || after[0] != mark
    ensures ReadQuoted(Replace(s, mark, [mark, mark]) + ([mark] + after), mark) == Some((s, after))
    decreases |s|
  {
    var tail := [mark] + after;
    if s == [] {
      assert Replace(s, mark, [mark, mark]) + tail == tail && tail[1..] == after;
    } else {
      var rest := Replace(s[1..], mark, [mark, mark]);
      var first := if s[0] == mark then [mark, mark] else [s[0]];
      QuotedBodyIsRead(s[1..], mark, after);
      ReadQuotedStep(mark, s[0], rest + tail);
      hide ReadQuoted;
      assert first + rest + tail == first + (rest + tail);
      assert s == [s[0]] + s[1..];
    }
  }

  /** Reads a quoted value at the start of a text. */
  function ReadQuote(text: string, mark: char): Option<(string, string)> {
    if text == [] || text[0] != mark then None else ReadQuoted(text[1..], mark)
  }

  lemma QuoteIsRead(s: string, mark: char, after: string)
    requires after == [] || after[0] != mark
    ensures ReadQuote(Quote(s, mark) + after, mark) == Some((s, after))
  {
    QuotedBodyIsRead(s, mark, after);
    assert (Quote(s, mark) + after)[1..] == Replace(s, mark, [mark, mark]) + ([mark] + after);
  }

  /** A quoted identifier or literal ends where it was meant to end, in any statement, and reads back unchanged. */
  lemma QuoteRoundTrip(s: string, after: string)
    ensures after == [] || after[0] != '"' ==> ReadQuote(QuoteIdent(s) + after, '"') == Some((s, after))
    ensures after == [] || after[0] != '\'' ==> ReadQuote(QuoteLiteral(s) + after, '\'') == Some((s, after))
  {
    hide ReadQuote, Quote;
    if after == [] || after[0] != '"' {
      QuoteIsRead(s, '"', after);
    }
    if after == [] || after[0] != '\'' {
      QuoteIsRead(s, '\'', after);
    }
  }

  // ----- Password-file fields -----

  predicate OneLine(s: string) {
    '\n' !in s && '\r' !in s
  }

  /** Backslashes first, then colons; None where the script stops on a newline. */
  function PgpassEscape(s: string): Option<string> {
    if OneLine(s) then Some(Replace(Replace(s, '\\', "\\\\"), ':', "\\:")) else None
  }

  function PgpassEscaped(s: string): string {
    if s == [] then [] else (if s[0] == '\\' || s[0] == ':' then ['\\', s[0]] else [s[0]]) + PgpassEscaped(s[1..])
  }

  /** The two replacements in sequence are one pass over the characters. */
  lemma {:induction false} PgpassIsOnePass(s: string)
    ensures Replace(Replace(s, '\\', "\\\\"), ':', "\\:") == PgpassEscaped(s)
    decreases |s|
  {
    if s != [] {
      var first := if s[0] == '\\' then "\\\\" else [s[0]];
      ReplaceAppend(first, Replace(s[1..], '\\', "\\\\"), ':', "\\:");
      PgpassIsOnePass(s[1..]);
      assert first[1..] == if s[0] == '\\' then "\\" else "";
      assert "\\"[1..] == "";
    }
  }

  /** The escaped fields joined by colons; None where a field cannot be escaped. */
  function PgpassLine(fields: seq<string>): Option<string>
    requires fields != []
  {
    var first := PgpassEscape(fields[0]);
    if |fields| == 1 || first.None? then first
    else
      var rest := PgpassLine(fields[1..]);
      if rest.None? then None else Some(first.value + ":" + rest.value)
  }

  /** Splits at unescaped colons and drops each escaping backslash; `field` is the field read so far. */
  function ReadFields(field: string, line: string): seq<string>
    decreases |line|
  {
    if line == [] then [field]
    else if line[0] == ':' then [field] + ReadFields("", line[1..])
    else if line[0] == '\\' && |line| > 1 then ReadFields(field + [line[1]], line[2..])
    else ReadFields(field + [line[0]], line[1..])
  }

  lemma ReadFieldsStep(field: string, c: char, rest: string)
    ensures var encoded := (if c == '\\' || c == ':' then ['\\', c] else [c]) + rest;
            ReadFields(field, encoded) == ReadFields(field + [c], rest)
  {
  }

  lemma {:induction false} FieldIsRead(field: string, s: string, after: string)
    ensures ReadFields(field, PgpassEscaped(s) + after) == ReadFields(field + s, after)
    decreases |s|
  {
    if s == [] {
      assert PgpassEscaped(s) + after == after && field + s == field;
    } else {
      var rest := PgpassEscaped(s[1..]);
      var first := if s[0] == '\\' || s[0] == ':' then ['\\', s[0]] else [s[0]];
      ReadFieldsStep(field, s[0], rest + after);
      FieldIsRead(field + [s[0]], s[1..], after);
      hide ReadFields;
      assert first + rest + after == first + (rest + after);
      assert field + [s[0]] + s[1..] == field + s;
    }
  }

  lemma {:induction false} EscapedIsOneLine(s: string)
    requires OneLine(s)
    ensures OneLine(PgpassEscaped(s))
    decreases |s|
  {
    if s != [] {
      EscapedIsOneLine(s[1..]);
    }
  }

  lemma EscapeField(s: string)
    ensures PgpassEscape(s) == if OneLine(s) then Some(PgpassEscaped(s)) else None
    ensures OneLine(s) ==> OneLine(PgpassEscaped(s))
  {
    PgpassIsOnePass(s);
    if OneLine(s) {
      EscapedIsOneLine(s);
    }
  }

  lemma OneLineJoin(a: string, b: string)
    requires OneLine(a) && OneLine(b)
    ensures OneLine(a + ":" + b)
  {
  }

  /** The first field ends at the first unescaped colon. */
  lemma FirstFieldIsRead(s: string, rest: string)
    ensures ReadFields("", PgpassEscaped(s)) == [s]
    ensures ReadFields("", PgpassEscaped(s) + ":" + rest) == [s] + ReadFields("", rest)
  {
    FieldIsRead("", s, "");
    FieldIsRead("", s, ":" + rest);
    assert PgpassEscaped(s) + "" == PgpassEscaped(s) && "" + s == s && (":" + rest)[1..] == rest;
    assert PgpassEscaped(s) + ":" + rest == PgpassEscaped(s) + (":" + rest);
  }

  /** A line is written exactly when no field has a line break; it is one line and reads back as the fields. */
  lemma {:induction false} PgpassRoundTrip(fields: seq<string>)
    requires fields != []
    ensures PgpassLine(fields).Some? <==> forall f :: f in fields ==> '\n' !in f && '\r' !in f
    ensures PgpassLine(fields).Some? ==>
              && '\n' !in PgpassLine(fields).value && '\r' !in PgpassLine(fields).value
              && ReadFields("", PgpassLine(fields).value) == fields
    decreases |fields|
  {
    hide PgpassEscape, PgpassEscaped, ReadFields;
    EscapeField(fields[0]);
    if |fields| == 1 {
      FirstFieldIsRead(fields[0], "");
    } else {
      assert fields == [fields[0]] + fields[1..];
      PgpassRoundTrip(fields[1..]);
      var rest := PgpassLine(fields[1..]);
      if PgpassEscape(fields[0]).Some? && rest.Some? {
        FirstFieldIsRead(fields[0], rest.value);
        OneLineJoin(PgpassEscaped(fields[0]), rest.value);
      }
    }
  }

  // ----- Masks -----

  function MaskEscape(s: string): string {
    Replace(Replace(Replace(s, '%', "%25"), '\r', "%0D"), '\n', "%0A")
  }

  function MaskChar(c: char): string {
    if c == '%' then "%25" else if c == '\r' then "%0D" else if c == '\n' then "%0A" else [c]
  }

  function MaskEscaped(s: string): string {
    if s == [] then [] else MaskChar(s[0]) + MaskEscaped(s[1..])
  }

  lemma {:induction false} NothingToReplace(s: string, c: char, with: string)
    requires c !in s
    ensures Replace(s, c, with) == s
    decreases |s|
  {
    if s != [] {
      NothingToReplace(s[1..], c, with);
    }
  }

  lemma ReplaceOne(c: char, with: string)
    ensures Replace([c], c, with) == with
  {
  }

  lemma MaskOneChar(c: char)
    ensures Replace(Replace(if c == '%' then "%25" else [c], '\r', "%0D"), '\n', "%0A") == MaskChar(c)
  {
    if c == '%' {
      NothingToReplace("%25", '\r', "%0D");
      NothingToReplace("%25", '\n', "%0A");
    } else if c == '\r' {
      ReplaceOne(c, "%0D");
      NothingToReplace("%0D", '\n', "%0A");
    } else {
      NothingToReplace([c], '\r', "%0D");
      if c == '\n' {
        ReplaceOne(c, "%0A");
      } else {
        NothingToReplace([c], '\n', "%0A");
      }
    }
  }

  /** The three replacements in sequence are one pass over the characters. */
  lemma {:induction false} MaskIsOnePass(s: string)
    ensures MaskEscape(s) == MaskEscaped(s)
    decreases |s|
  {
    if s != [] {
      var first := if s[0] == '%' then "%25" else [s[0]];
      var rest := Replace(s[1..], '%', "%25");
      ReplaceAppend(first, rest, '\r', "%0D");
      ReplaceAppend(Replace(first, '\r', "%0D"), Replace(rest, '\r', "%0D"), '\n', "%0A");
      MaskOneChar(s[0]);
      MaskIsOnePass(s[1..]);
    }
  }

  function ReadMask(text: string): string {
    if text == [] then []
    else if "%25" <= text then "%" + ReadMask(text[3..])
    else if "%0D" <= text then "\r" + ReadMask(text[3..])
    else if "%0A" <= text then "\n" + ReadMask(text[3..])
    else [text[0]] + ReadMask(text[1..])
  }

  lemma {:induction false} MaskedIsRead(s: string)
    ensures ReadMask(MaskEscaped(s)) == s
    decreases |s|
  {
    if s != [] {
      var rest := MaskEscaped(s[1..]);
      var text := MaskChar(s[0]) + rest;
      MaskedIsRead(s[1..]);
      if s[0] == '%' || s[0] == '\r' || s[0] == '\n' {
        assert text[..3] == MaskChar(s[0]) && text[3..] == rest;
        assert text[1] == MaskChar(s[0])[1] && text[2] == MaskChar(s[0])[2];
      } else {
        assert text[0] == s[0] && text[1..] == rest;
      }
      assert s == [s[0]] + s[1..];
    }
  }

  /** A mask reads back as the secret it stands for, and stays on one line. */
  lemma MaskRoundTrip(s: string)
    ensures ReadMask(MaskEscape(s)) == s && '\n' !in MaskEscape(s) && '\r' !in MaskEscape(s)
  {
    MaskIsOnePass(s);
    MaskedIsRead(s);
    MaskIsOneLine(s);
  }

  lemma {:induction false} MaskIsOneLine(s: string)
    ensures OneLine(MaskEscaped(s))
    decreases |s|
  {
    if s != [] {
      MaskIsOneLine(s[1..]);
    }
  }
}
