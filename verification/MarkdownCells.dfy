/** Markdown table cells: neutralizing formulas, escaping pipes, and reading the cells back. */
module MarkdownCells {
  import opened Texts

  // ----- Formula triggers -----

  predicate Trigger(c: char) { c in {'=', '+', '-', '@', '\t', '\r', '\n'} }

  predicate LeadingWhitespace(c: char) { c in {' ', '\t', '\r', '\n', '\U{0b}', '\U{0c}'} }

  function LStrip(s: string): (r: string)
    ensures r != "" ==> !LeadingWhitespace(r[0])
  {
    if s != "" && LeadingWhitespace(s[0]) then LStrip(s[1..]) else s
  }

  predicate HasFormulaTrigger(text: string) {
    if text == "" then false
    else if text[0] in {'\t', '\r', '\n'} then true
    else LStrip(text) != "" && Trigger(LStrip(text)[0])
  }

  /** A text starts a formula when it starts with a tab or line break, or when one of `=`, `+`, `-` and `@` comes after
      nothing but white space. */
  predicate StartsFormula(text: string) {
    text != ""
    && (text[0] in {'\t', '\r', '\n'}
        || exists i :: 0 <= i < |text| && text[i] in {'=', '+', '-', '@'}
             && forall j :: 0 <= j < i ==> text[j] in {' ', '\t', '\r', '\n', '\U{0b}', '\U{0c}'})
  }

  /** Stripping ends at the first character that is not white space. */
  lemma {:induction false} LStripAt(s: string) returns (n: nat)
    ensures n <= |s| && LStrip(s) == s[n..] && (n < |s| ==> !LeadingWhitespace(s[n]))
    ensures forall j :: 0 <= j < n ==> LeadingWhitespace(s[j])
  {
    if s != "" && LeadingWhitespace(s[0]) {
      var m := LStripAt(s[1..]);
      n := m + 1;
      forall j | 0 <= j < n ensures LeadingWhitespace(s[j]) { if j > 0 { assert s[1..][j - 1] == s[j]; } }
    } else {
      n := 0;
    }
  }

  lemma HasFormulaTriggerIff(text: string)
    ensures HasFormulaTrigger(text) <==> StartsFormula(text)
  {
    var n := LStripAt(text);
    if text != "" && n < |text| {
      assert LStrip(text)[0] == text[n];
      if i :| 0 <= i < |text| && text[i] in {'=', '+', '-', '@'}
              && forall j :: 0 <= j < i ==> text[j] in {' ', '\t', '\r', '\n', '\U{0b}', '\U{0c}'} {
        assert i == n;
      }
    }
  }

  /** The text a cell shows: quote-prefixed when it would start a formula. */
  function Neutralized(text: string): string {
    if HasFormulaTrigger(text) then "'" + text else text
  }

  // ----- Escaping -----

  function MdCell(text: string): string {
    Replace(Replace(Replace(Replace(Neutralized(text), '\\', "\\\\"), '|', "\\|"), '\n', " "), '\r', " ")
  }

  function EscapeChar(c: char): string {
    if c == '\\' then "\\\\"
    else if c == '|' then "\\|"
    else if c == '\n' || c == '\r' then " "
    else [c]
  }

  /** Escaping in one pass. */
  function Escape(s: string): string {
    if s == "" then "" else EscapeChar(s[0]) + Escape(s[1..])
  }

  lemma ReplaceOne(c: char, from: char, sub: string)
    ensures Replace([c], from, sub) == if c == from then sub else [c]
  {
  }

  lemma ReplaceTwo(c: char, d: char, from: char, sub: string)
    ensures Replace([c, d], from, sub) == (if c == from then sub else [c]) + (if d == from then sub else [d])
  {
    assert [c, d][1..] == [d];
    ReplaceOne(d, from, sub);
  }

  function Chained(s: string): string {
    Replace(Replace(Replace(Replace(s, '\\', "\\\\"), '|', "\\|"), '\n', " "), '\r', " ")
  }

  lemma ChainedAppend(a: string, b: string)
    ensures Chained(a + b) == Chained(a) + Chained(b)
  {
    ReplaceAppend(a, b, '\\', "\\\\");
    var (a1, b1) := (Replace(a, '\\', "\\\\"), Replace(b, '\\', "\\\\"));
    ReplaceAppend(a1, b1, '|', "\\|");
    var (a2, b2) := (Replace(a1, '|', "\\|"), Replace(b1, '|', "\\|"));
    ReplaceAppend(a2, b2, '\n', " ");
    ReplaceAppend(Replace(a2, '\n', " "), Replace(b2, '\n', " "), '\r', " ");
  }

  lemma ChainedChar(c: char)
    ensures Chained([c]) == EscapeChar(c)
  {
    hide Replace;
    ReplaceOne(c, '\\', "\\\\");
    if c == '\\' {
      assert "\\\\" == ['\\', '\\'] == ['\\'] + ['\\'];
      ReplaceTwo('\\', '\\', '|', "\\|");
      ReplaceTwo('\\', '\\', '\n', " ");
      ReplaceTwo('\\', '\\', '\r', " ");
    } else if c == '|' {
      ReplaceOne(c, '|', "\\|");
      assert "\\|" == ['\\', '|'] == ['\\'] + ['|'];
      ReplaceTwo('\\', '|', '\n', " ");
      ReplaceTwo('\\', '|', '\r', " ");
    } else {
      ReplaceOne(c, '|', "\\|");
      ReplaceOne(c, '\n', " ");
      ReplaceOne(c, '\r', " ");
      ReplaceOne(' ', '\r', " ");
    }
  }

  lemma {:induction false} ChainedIsEscape(s: string)
    ensures Chained(s) == Escape(s)
  {
    if s != "" {
      assert s == [s[0]] + s[1..];
      ChainedAppend([s[0]], s[1..]);
      ChainedChar(s[0]);
      ChainedIsEscape(s[1..]);
    }
  }

  /** The chained replacements never touch each other's output: they are the one-pass escape. */
  lemma ReplacementsAreOnePass(text: string)
    ensures MdCell(text) == Escape(Neutralized(text))
  {
    ChainedIsEscape(Neutralized(text));
  }

  // ----- Reading a cell back -----

  /** Left to right, a backslash gives way to the character after it. */
  function Unescape(s: string): string {
    if s == "" then ""
    else if s[0] == '\\' && |s| > 1 then [s[1]] + Unescape(s[2..])
    else [s[0]] + Unescape(s[1..])
  }

  /** Line breaks become spaces. */
  function OneLine(s: string): string {
    seq(|s|, i requires 0 <= i < |s| => if s[i] == '\n' || s[i] == '\r' then ' ' else s[i])
  }

  /** What a reader of the rendered cell sees of the text. */
  function Shown(text: string): string { OneLine(Neutralized(text)) }

  lemma {:induction false} UnescapeEscape(s: string)
    ensures Unescape(Escape(s)) == OneLine(s)
  {
    if s != "" {
      UnescapeEscape(s[1..]);
      var e := EscapeChar(s[0]);
      assert Escape(s)[|e|..] == Escape(s[1..]);
      assert OneLine(s) == OneLine([s[0]]) + OneLine(s[1..]);
    }
  }

  /** Reading a cell back gives its text, quote prefix included, with line breaks as spaces. */
  lemma CellRoundTrip(text: string)
    ensures Unescape(MdCell(text)) == Shown(text)
  {
    ReplacementsAreOnePass(text);
    UnescapeEscape(Neutralized(text));
  }

  lemma {:induction false} EscapeOfOneLine(s: string)
    ensures Escape(OneLine(s)) == Escape(s)
  {
    if s != "" {
      assert OneLine(s)[1..] == OneLine(s[1..]);
      EscapeOfOneLine(s[1..]);
    }
  }

  /** Two texts render alike exactly when they read alike. */
  lemma CellsDifferWhenTextsDo(a: string, b: string)
    ensures MdCell(a) == MdCell(b) <==> Shown(a) == Shown(b)
  {
    CellRoundTrip(a);
    CellRoundTrip(b);
    ReplacementsAreOnePass(a);
    ReplacementsAreOnePass(b);
    EscapeOfOneLine(Neutralized(a));
    EscapeOfOneLine(Neutralized(b));
  }

  /** A text renders like its quoted self exactly when it would start a formula. */
  lemma QuotePrefixIsAmbiguousIff(text: string)
    ensures MdCell(text) == MdCell("'" + text) <==> StartsFormula(text)
  {
    HasFormulaTriggerIff(text);
    var quoted := "'" + text;
    assert LStrip(quoted) == quoted;
    assert Neutralized(quoted) == quoted;
    CellsDifferWhenTextsDo(text, quoted);
    assert |Shown(quoted)| == |text| + 1;
  }

  // ----- A cell is safe -----

  lemma {:induction false} EscapeHasNoBreaks(s: string)
    ensures '\n' !in Escape(s) && '\r' !in Escape(s)
  {
    if s != "" { EscapeHasNoBreaks(s[1..]); }
  }

  /** Escaping keeps leading white space in front of the same first visible character, or an escape of it. */
  lemma {:induction false} EscapeThenStrip(s: string)
    ensures LStrip(Escape(s)) == Escape(LStrip(s))
  {
    if s != "" {
      var e := EscapeChar(s[0]);
      assert Escape(s)[0] == e[0];
      if LeadingWhitespace(s[0]) {
        assert |e| == 1 && Escape(s)[1..] == Escape(s[1..]);
        EscapeThenStrip(s[1..]);
      }
    }
  }

  lemma EscapeStart(s: string)
    requires s != ""
    ensures Escape(s) != "" && (Trigger(Escape(s)[0]) ==> Trigger(s[0]))
  {
  }

  /** No rendered cell starts a formula, and none breaks its line. */
  lemma CellIsSafe(text: string)
    ensures !StartsFormula(MdCell(text)) && '\n' !in MdCell(text) && '\r' !in MdCell(text)
  {
    HasFormulaTriggerIff(MdCell(text));
    var s := Neutralized(text);
    ReplacementsAreOnePass(text);
    EscapeHasNoBreaks(s);
    EscapeThenStrip(s);
    NeutralizedIsNoFormula(text);
    if s != "" { EscapeStart(s); }
    if LStrip(s) != "" { EscapeStart(LStrip(s)); }
  }

  lemma NeutralizedIsNoFormula(text: string)
    ensures !StartsFormula(Neutralized(text))
    ensures !HasFormulaTrigger(Neutralized(text))
  {
    HasFormulaTriggerIff(Neutralized(text));
  }

  // ----- Rows -----

  function JoinWith(separator: string, parts: seq<string>): string {
    if parts == [] then "" else if |parts| == 1 then parts[0] else parts[0] + separator + JoinWith(separator, parts[1..])
  }

  /** Put text in front of the first part. */
  function Prepend(front: string, parts: seq<string>): seq<string>
    requires parts != []
  {
    [front + parts[0]] + parts[1..]
  }

  /** Cut at the pipes that no backslash escapes. */
  function SplitPipes(s: string): (parts: seq<string>)
    ensures parts != []
  {
    if s == "" then [""]
    else if s[0] == '|' then [""] + SplitPipes(s[1..])
    else if s[0] == '\\' && |s| > 1 then Prepend(s[..2], SplitPipes(s[2..]))
    else Prepend(s[..1], SplitPipes(s[1..]))
  }

  lemma PrependTwice(a: string, b: string, parts: seq<string>)
    requires parts != []
    ensures Prepend(a, Prepend(b, parts)) == Prepend(a + b, parts)
  {
    assert a + (b + parts[0]) == a + b + parts[0];
  }

  lemma PrependNothing(parts: seq<string>)
    requires parts != []
    ensures Prepend("", parts) == parts
  {
    assert "" + parts[0] == parts[0];
  }

  /** An escaped text stays in the part it starts. */
  lemma {:induction false} SplitBehindEscaped(s: string, rest: string)
    ensures SplitPipes(Escape(s) + rest) == Prepend(Escape(s), SplitPipes(rest))
  {
    if s == "" {
      assert Escape(s) + rest == rest;
      PrependNothing(SplitPipes(rest));
    } else {
      var e := EscapeChar(s[0]);
      var line := Escape(s) + rest;
      assert line == e + (Escape(s[1..]) + rest);
      assert line[|e|..] == Escape(s[1..]) + rest && line[..|e|] == e;
      SplitBehindEscaped(s[1..], rest);
      PrependTwice(e, Escape(s[1..]), SplitPipes(rest));
    }
  }

  function CellsOf(texts: seq<string>): (r: seq<string>)
    ensures |r| == |texts|
  {
    if texts == [] then [] else [MdCell(texts[0])] + CellsOf(texts[1..])
  }

  /** Cells joined by bare pipes are cut apart again where they were joined. */
  lemma {:induction false} JoinThenSplit(texts: seq<string>)
    requires texts != []
    ensures SplitPipes(JoinWith("|", CellsOf(texts))) == CellsOf(texts)
  {
    var s := Neutralized(texts[0]);
    ReplacementsAreOnePass(texts[0]);
    if |texts| == 1 {
      SplitBehindEscaped(s, "");
      assert Escape(s) + "" == Escape(s);
    } else {
      var rest := "|" + JoinWith("|", CellsOf(texts[1..]));
      assert CellsOf(texts)[1..] == CellsOf(texts[1..]);
      assert JoinWith("|", CellsOf(texts)) == Escape(s) + rest;
      SplitBehindEscaped(s, rest);
      assert rest[1..] == JoinWith("|", CellsOf(texts[1..]));
      JoinThenSplit(texts[1..]);
      assert Prepend(Escape(s), [""] + CellsOf(texts[1..])) == CellsOf(texts);
    }
  }

  /** One line of an exported table. */
  function RenderRow(texts: seq<string>): string {
    "| " + JoinWith(" | ", CellsOf(texts)) + " |"
  }

  function Padded(cells: seq<string>): (r: seq<string>)
    ensures |r| == |cells|
  {
    if cells == [] then [] else [" " + cells[0] + " "] + Padded(cells[1..])
  }

  lemma SplitSpace(s: string)
    ensures SplitPipes(" " + s) == Prepend(" ", SplitPipes(s))
  {
  }

  lemma SplitBar(s: string)
    ensures SplitPipes("|" + s) == [""] + SplitPipes(s)
  {
  }

  /** A padded cell, and what follows it, cut at the bars. */
  lemma PaddedCell(text: string, later: string)
    ensures SplitPipes(" " + MdCell(text) + " |" + later) == [" " + MdCell(text) + " "] + SplitPipes(later)
  {
    hide SplitPipes, MdCell, Escape, Neutralized;
    var cell := MdCell(text);
    ReplacementsAreOnePass(text);
    var rest := " " + ("|" + later);
    SplitBar(later);
    SplitSpace("|" + later);
    assert " " + "" == " ";
    assert SplitPipes(rest) == [" "] + SplitPipes(later);
    SplitBehindEscaped(Neutralized(text), rest);
    assert SplitPipes(cell + rest) == [cell + " "] + SplitPipes(later);
    SplitSpace(cell + rest);
    assert " " + MdCell(text) + " |" + later == " " + (cell + rest);
    assert " " + (cell + " ") == " " + cell + " ";
  }

  /** The line after its first bar, cut at the bars. */
  lemma {:induction false} RowTail(texts: seq<string>)
    requires texts != []
    ensures SplitPipes(" " + JoinWith(" | ", CellsOf(texts)) + " |") == Padded(CellsOf(texts)) + [""]
  {
    hide MdCell, SplitPipes;
    var cell := MdCell(texts[0]);
    var cells := CellsOf(texts);
    var line := " " + JoinWith(" | ", cells) + " |";
    assert cells[1..] == CellsOf(texts[1..]);
    if |texts| == 1 {
      assert line == " " + cell + " |" + "";
      PaddedCell(texts[0], "");
      NothingToSplit();
      assert Padded(cells) == [" " + cell + " "];
    } else {
      var later := " " + JoinWith(" | ", cells[1..]) + " |";
      assert line == " " + cell + " |" + later;
      PaddedCell(texts[0], later);
      RowTail(texts[1..]);
    }
  }

  lemma NothingToSplit()
    ensures SplitPipes("") == [""]
  {
  }

  /** The parts between the bars of a rendered line are its cells, one space around each. */
  lemma RowParts(texts: seq<string>)
    requires texts != []
    ensures SplitPipes(RenderRow(texts)) == [""] + Padded(CellsOf(texts)) + [""]
  {
    hide SplitPipes, JoinWith;
    var tail := " " + JoinWith(" | ", CellsOf(texts)) + " |";
    assert RenderRow(texts) == "|" + tail;
    SplitBar(tail);
    RowTail(texts);
    assert [""] + (Padded(CellsOf(texts)) + [""]) == [""] + Padded(CellsOf(texts)) + [""];
  }

  // ----- Reading a row -----

  function RStrip(s: string): string
    decreases |s|
  {
    if s != "" && LeadingWhitespace(s[|s| - 1]) then RStrip(s[..|s| - 1]) else s
  }

  function Trim(s: string): string { RStrip(LStrip(s)) }

  /** White space around a cell does not count, and then the escapes are undone. */
  function ReadPart(part: string): string { Unescape(Trim(part)) }

  function ReadParts(parts: seq<string>): seq<string> {
    if parts == [] then [] else [ReadPart(parts[0])] + ReadParts(parts[1..])
  }

  /** The texts of a table line: what stands between its bars. */
  function ReadRow(line: string): seq<string> {
    var parts := SplitPipes(line);
    if |parts| < 2 then [] else ReadParts(parts[1..|parts| - 1])
  }

  /** What a table reader gets of a text: quote-prefixed if need be, without white space around it, on one line. */
  function ReadText(text: string): string { OneLine(Trim(Neutralized(text))) }

  function ReadTexts(texts: seq<string>): seq<string> {
    if texts == [] then [] else [ReadText(texts[0])] + ReadTexts(texts[1..])
  }

  lemma {:induction false} EscapeAppend(a: string, b: string)
    ensures Escape(a + b) == Escape(a) + Escape(b)
  {
    hide EscapeChar;
    if a == "" {
      assert a + b == b;
    } else {
      EscapeAppend(a[1..], b);
      assert (a + b)[0] == a[0] && (a + b)[1..] == a[1..] + b;
      var e := EscapeChar(a[0]);
      assert e + (Escape(a[1..]) + Escape(b)) == e + Escape(a[1..]) + Escape(b);
    }
  }

  lemma EscapeOne(c: char)
    ensures Escape([c]) == EscapeChar(c)
  {
    hide EscapeChar;
    assert [c][1..] == "" && EscapeChar(c) + "" == EscapeChar(c);
  }

  lemma EscapeOfLast(s: string)
    requires s != ""
    ensures Escape(s) == Escape(s[..|s| - 1]) + EscapeChar(s[|s| - 1])
  {
    hide EscapeChar, Escape;
    EscapeOne(s[|s| - 1]);
    var front, last := s[..|s| - 1], [s[|s| - 1]];
    assert s == front + last;
    EscapeAppend(front, last);
  }

  /** An escape ends in white space exactly when it escapes white space, and is then one character. */
  lemma {:induction false} EscapeThenRStrip(s: string)
    ensures RStrip(Escape(s)) == Escape(RStrip(s))
    decreases |s|
  {
    if s != "" {
      var front, c := s[..|s| - 1], s[|s| - 1];
      var e := EscapeChar(c);
      EscapeOfLast(s);
      assert Escape(s)[|Escape(s)| - 1] == e[|e| - 1];
      if LeadingWhitespace(c) {
        assert |e| == 1 && Escape(s)[..|Escape(s)| - 1] == Escape(front);
        EscapeThenRStrip(front);
      }
    }
  }

  lemma {:induction false} LStripBeforeSpace(s: string)
    ensures LStrip(s + " ") == if LStrip(s) == "" then "" else LStrip(s) + " "
  {
    if s == "" {
      assert (s + " ")[1..] == "";
    } else {
      assert (s + " ")[0] == s[0] && (s + " ")[1..] == s[1..] + " ";
      LStripBeforeSpace(s[1..]);
    }
  }

  lemma TrimPadded(s: string)
    ensures Trim(" " + s + " ") == Trim(s)
  {
    assert (" " + s + " ")[1..] == s + " ";
    LStripBeforeSpace(s);
    var t := LStrip(s);
    assert (t + " ")[..|t|] == t;
  }

  /** A padded cell reads back as its text. */
  lemma PartRoundTrip(text: string)
    ensures ReadPart(" " + MdCell(text) + " ") == ReadText(text)
  {
    hide RStrip, LStrip, Unescape, MdCell, Escape;
    TrimPadded(MdCell(text));
    ReplacementsAreOnePass(text);
    EscapeThenStrip(Neutralized(text));
    EscapeThenRStrip(LStrip(Neutralized(text)));
    UnescapeEscape(Trim(Neutralized(text)));
  }

  lemma {:induction false} ReadPadded(texts: seq<string>)
    ensures ReadParts(Padded(CellsOf(texts))) == ReadTexts(texts)
  {
    hide ReadPart, ReadText, MdCell;
    if texts != [] {
      PartRoundTrip(texts[0]);
      ReadPadded(texts[1..]);
    }
  }

  /** A rendered line reads back as as many texts as it was given, each neutralized, trimmed and on one line. */
  lemma RowRoundTrip(texts: seq<string>)
    requires texts != []
    ensures ReadRow(RenderRow(texts)) == ReadTexts(texts)
  {
    hide SplitPipes, RenderRow, ReadParts;
    RowParts(texts);
    var parts := SplitPipes(RenderRow(texts));
    assert parts[1..|parts| - 1] == Padded(CellsOf(texts));
    ReadPadded(texts);
  }

  // ----- Tables -----

  function SplitLines(s: string): (lines: seq<string>)
    ensures lines != []
  {
    if s == "" then [""]
    else if s[0] == '\n' then [""] + SplitLines(s[1..])
    else Prepend(s[..1], SplitLines(s[1..]))
  }

  lemma {:induction false} SplitBehindLine(line: string, rest: string)
    requires '\n' !in line
    ensures SplitLines(line + rest) == Prepend(line, SplitLines(rest))
  {
    if line == "" {
      assert line + rest == rest;
      PrependNothing(SplitLines(rest));
    } else {
      assert (line + rest)[1..] == line[1..] + rest && (line + rest)[..1] == line[..1];
      SplitBehindLine(line[1..], rest);
      PrependTwice(line[..1], line[1..], SplitLines(rest));
      assert line[..1] + line[1..] == line;
    }
  }

  function RenderRows(rows: seq<seq<string>>): (r: seq<string>)
    ensures |r| == |rows|
  {
    if rows == [] then [] else [RenderRow(rows[0])] + RenderRows(rows[1..])
  }

  function ReadRows(lines: seq<string>): seq<seq<string>> {
    if lines == [] then [] else [ReadRow(lines[0])] + ReadRows(lines[1..])
  }

  function ReadTables(rows: seq<seq<string>>): seq<seq<string>> {
    if rows == [] then [] else [ReadTexts(rows[0])] + ReadTables(rows[1..])
  }

  lemma {:induction false} CellsHaveNoBreaks(texts: seq<string>)
    ensures '\n' !in JoinWith(" | ", CellsOf(texts))
  {
    if texts != [] {
      CellIsSafe(texts[0]);
      CellsHaveNoBreaks(texts[1..]);
      assert CellsOf(texts)[1..] == CellsOf(texts[1..]);
    }
  }

  lemma {:induction false} LinesRoundTrip(rows: seq<seq<string>>)
    requires rows != []
    ensures SplitLines(JoinWith("\n", RenderRows(rows))) == RenderRows(rows)
  {
    var line := RenderRow(rows[0]);
    CellsHaveNoBreaks(rows[0]);
    if |rows| == 1 {
      SplitBehindLine(line, "");
      assert line + "" == line;
    } else {
      assert RenderRows(rows)[1..] == RenderRows(rows[1..]);
      var rest := "\n" + JoinWith("\n", RenderRows(rows[1..]));
      assert JoinWith("\n", RenderRows(rows)) == line + rest;
      SplitBehindLine(line, rest);
      assert rest[1..] == JoinWith("\n", RenderRows(rows[1..]));
      LinesRoundTrip(rows[1..]);
      assert Prepend(line, [""] + RenderRows(rows[1..])) == RenderRows(rows);
    }
  }

  lemma {:induction false} RowsRead(rows: seq<seq<string>>)
    requires forall i :: 0 <= i < |rows| ==> rows[i] != []
    ensures ReadRows(RenderRows(rows)) == ReadTables(rows)
  {
    if rows != [] {
      RowRoundTrip(rows[0]);
      RowsRead(rows[1..]);
    }
  }

  /** The body of an exported table reads back cell for cell, whatever the texts hold. */
  lemma TableRoundTrip(rows: seq<seq<string>>)
    requires rows != [] && forall i :: 0 <= i < |rows| ==> rows[i] != []
    ensures ReadRows(SplitLines(JoinWith("\n", RenderRows(rows)))) == ReadTables(rows)
  {
    LinesRoundTrip(rows);
    RowsRead(rows);
  }
}
