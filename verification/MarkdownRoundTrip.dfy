/** Printing and parsing: a blank line separates what is before it from what is after, and a printed table is read
    back as itself. */
module MarkdownRoundTrip {
  import opened Common
  import opened MarkdownLines
  import opened TableRows
  import opened Markdown
  import opened MarkdownTheorems

  // ---- A blank line separates ---------------------------------------------------------------------

  lemma {:induction false} RunEndInFront(front: seq<string>, after: seq<string>, lo: nat, p: string -> bool)
    requires lo <= |front| && (RunEnd(front, lo, p) < |front| || after == [] || !p(after[0]))
    ensures RunEnd(front + after, lo, p) == RunEnd(front, lo, p)
    decreases |front| - lo
  {
    if lo < |front| && p(front[lo]) {
      RunEndInFront(front, after, lo + 1, p);
    }
  }

  lemma {:induction false} RunEndBehind(front: seq<string>, lines: seq<string>, lo: nat, p: string -> bool)
    requires lo <= |lines|
    ensures RunEnd(front + lines, |front| + lo, p) == |front| + RunEnd(lines, lo, p)
    decreases |lines| - lo
  {
    if lo < |lines| && p(lines[lo]) {
      RunEndBehind(front, lines, lo + 1, p);
    }
  }

  lemma BlankHasOnlySpace(line: string)
    requires IsBlank(line)
    ensures forall i | 0 <= i < |line| :: IsSpace(line[i])
    ensures !IsFence(line) && !IsQuote(line) && !InList(line) && !IsRow(line) && '-' !in line
  {
    var before, after := TrimSplits(line, IsSpace);
    assert line == before + after;
    assert TrimLeft(line, IsSpace) == "" by {
      TrimLeftPadding(line, "", IsSpace);
      assert line + "" == line;
    }
    assert Span(line, IsSpace) == |line| by {
      SpanOf(line, "", IsSpace);
      assert line + "" == line;
    }
  }

  /** The code block that starts at `lo` is closed by a second fence. */
  predicate ClosedAt(lines: seq<string>, lo: nat)
    requires lo < |lines|
  {
    IsFence(lines[lo]) ==> RunEnd(lines, lo + 1, NotFence) < |lines|
  }

  /** No code block is left open at the end. */
  predicate ClosesFences(lines: seq<string>, lo: nat)
    requires lo <= |lines|
    decreases |lines| - lo
  {
    lo < |lines| ==> ClosedAt(lines, lo) && ClosesFences(lines, RunAt(lines, lo).hi)
  }

  lemma SameSlice(front: seq<string>, after: seq<string>, lo: nat, hi: nat)
    requires lo <= hi <= |front|
    ensures (front + after)[lo..hi] == front[lo..hi]
  {
  }

  lemma TableInFront(front: seq<string>, after: seq<string>, lo: nat)
    requires lo < |front| && after != [] && IsBlank(after[0])
    ensures StartsTable(front + after, lo) == StartsTable(front, lo)
    ensures StartsTable(front, lo) ==> TableAt(front + after, lo) == TableAt(front, lo)
  {
    hide CellsOf, IsBlank;
    BlankHasOnlySpace(after[0]);
    if StartsTable(front, lo) {
      RunEndInFront(front, after, lo + 2, IsRow);
      SameSlice(front, after, lo, RunEnd(front, lo + 2, IsRow));
    }
  }

  lemma RunInFront(front: seq<string>, after: seq<string>, lo: nat)
    requires lo < |front| && after != [] && IsBlank(after[0]) && ClosedAt(front, lo)
    ensures RunAt(front + after, lo) == RunAt(front, lo)
  {
    hide IsFence, IsBlank, IsRule, HeadingText, IsQuote, IsItem, StartsTable, TableAt, QuoteBlock, IsOrdered;
    BlankHasOnlySpace(after[0]);
    TableInFront(front, after, lo);
    if IsFence(front[lo]) {
      RunEndInFront(front, after, lo + 1, NotFence);
      SameSlice(front, after, lo + 1, RunEnd(front, lo + 1, NotFence));
    } else if IsQuote(front[lo]) {
      RunEndInFront(front, after, lo, IsQuote);
      SameSlice(front, after, lo, RunEnd(front, lo, IsQuote));
    } else if IsItem(front[lo]) {
      RunEndInFront(front, after, lo, InList);
      SameSlice(front, after, lo, RunEnd(front, lo, InList));
    }
  }

  lemma SliceBehind(front: seq<string>, lines: seq<string>, lo: nat, hi: nat)
    requires lo <= hi <= |lines|
    ensures (front + lines)[|front| + lo..|front| + hi] == lines[lo..hi]
  {
  }

  lemma TableBehind(front: seq<string>, lines: seq<string>, lo: nat)
    requires lo < |lines|
    ensures StartsTable(front + lines, |front| + lo) == StartsTable(lines, lo)
    ensures StartsTable(lines, lo) && StartsTable(front + lines, |front| + lo) ==>
              var run, moved := TableAt(lines, lo), TableAt(front + lines, |front| + lo);
              moved.piece == run.piece && moved.hi == |front| + run.hi
  {
    hide CellsOf, DelimiterOf;
    assert LineAt(front + lines, |front| + lo + 1) == LineAt(lines, lo + 1);
    if StartsTable(lines, lo) {
      RunEndBehind(front, lines, lo + 2, IsRow);
      SliceBehind(front, lines, lo, RunEnd(lines, lo + 2, IsRow));
    }
  }

  lemma RunBehind(front: seq<string>, lines: seq<string>, lo: nat)
    requires lo < |lines|
    ensures var run, moved := RunAt(lines, lo), RunAt(front + lines, |front| + lo);
            moved.piece == run.piece && moved.hi == |front| + run.hi
  {
    hide IsFence, IsBlank, IsRule, HeadingText, IsQuote, IsItem, StartsTable, TableAt, QuoteBlock, IsOrdered, Join, ItemsOf,
      QuoteTexts, Trim;
    TableBehind(front, lines, lo);
    var line, all, at := lines[lo], front + lines, |front| + lo;
    assert all[at] == line;
    if IsFence(line) {
      RunEndBehind(front, lines, lo + 1, NotFence);
      SliceBehind(front, lines, lo + 1, RunEnd(lines, lo + 1, NotFence));
    } else if IsBlank(line) || IsRule(line) || HeadingText(line).Some? {
    } else if IsQuote(line) {
      RunEndBehind(front, lines, lo, IsQuote);
      SliceBehind(front, lines, lo, RunEnd(lines, lo, IsQuote));
    } else if IsItem(line) {
      RunEndBehind(front, lines, lo, InList);
      SliceBehind(front, lines, lo, RunEnd(lines, lo, InList));
    }
  }

  lemma AssembleAt(lines: seq<string>, lo: nat, paragraph: seq<string>)
    requires lo < |lines|
    ensures var run := RunAt(lines, lo);
            var (blocks, open) := Turn([], paragraph, run.piece);
            Assemble(Runs(lines, lo), paragraph) == blocks + Assemble(Runs(lines, run.hi), open)
  {
    hide RunAt, Assemble, Turn;
    TurnAssembles([], paragraph, lines, lo);
  }

  lemma {:induction false} AssembleBehind(front: seq<string>, lines: seq<string>, lo: nat, paragraph: seq<string>)
    requires lo <= |lines|
    ensures Assemble(Runs(front + lines, |front| + lo), paragraph) == Assemble(Runs(lines, lo), paragraph)
    decreases |lines| - lo
  {
    hide RunAt, Turn, Assemble;
    if lo < |lines| {
      hide Runs;
      RunBehind(front, lines, lo);
      var run := RunAt(lines, lo);
      AssembleAt(lines, lo, paragraph);
      AssembleAt(front + lines, |front| + lo, paragraph);
      AssembleBehind(front, lines, run.hi, Turn([], paragraph, run.piece).1);
    }
  }

  lemma BlankNext(front: seq<string>, blank: string, lines: seq<string>, paragraph: seq<string>)
    requires IsBlank(blank)
    ensures Assemble(Runs(front + [blank] + lines, |front|), paragraph) == Flush(paragraph) + Blocks(lines)
  {
    hide IsBlank, IsFence, IsQuote, InList, IsRow, Assemble, RunAt, Runs;
    var all := front + [blank] + lines;
    BlankHasOnlySpace(blank);
    assert all[|front|] == blank;
    BlankRunIsBlank(all, |front|);
    AssembleAt(all, |front|, paragraph);
    AssembleBehind(front + [blank], lines, 0, []);
  }

  lemma {:induction false} AssembleInFront(front: seq<string>, blank: string, lines: seq<string>, lo: nat,
                                           paragraph: seq<string>)
    requires lo <= |front| && IsBlank(blank) && ClosesFences(front, lo)
    ensures Assemble(Runs(front + [blank] + lines, lo), paragraph) == Assemble(Runs(front, lo), paragraph) + Blocks(lines)
    decreases |front| - lo
  {
    hide RunAt, ClosedAt, IsBlank, Blocks, Flush;
    var all := front + [blank] + lines;
    if lo == |front| {
      BlankNext(front, blank, lines, paragraph);
    } else {
      hide Runs, Assemble, Turn;
      assert all == front + ([blank] + lines);
      RunInFront(front, [blank] + lines, lo);
      var run := RunAt(front, lo);
      AssembleAt(front, lo, paragraph);
      AssembleAt(all, lo, paragraph);
      var (blocks, open) := Turn([], paragraph, run.piece);
      AssembleInFront(front, blank, lines, run.hi, open);
      var rest, after := Assemble(Runs(front, run.hi), open), Blocks(lines);
      assert blocks + (rest + after) == blocks + rest + after;
    }
  }

  /** What is before a blank line and what is after it are parsed as if each stood alone, unless the first part leaves
      a code block open. */
  lemma BlankLineSeparates(front: seq<string>, blank: string, lines: seq<string>)
    requires IsBlank(blank) && ClosesFences(front, 0)
    ensures Blocks(front + [blank] + lines) == Blocks(front) + Blocks(lines)
  {
    AssembleInFront(front, blank, lines, 0, []);
  }

  // ---- Tables -------------------------------------------------------------------------------------

  function PrintRows(rows: seq<seq<string>>): (lines: seq<string>)
    requires forall i | 0 <= i < |rows| :: rows[i] != []
    ensures |lines| == |rows| && forall i | 0 <= i < |rows| :: lines[i] == PrintRow(rows[i])
  {
    seq(|rows|, i requires 0 <= i < |rows| => PrintRow(rows[i]))
  }

  /** As many alignments, and as many cells in every row, as the header has. */
  ghost predicate Rectangular(header: seq<string>, align: seq<Align>, rows: seq<seq<string>>) {
    header != [] && |align| == |header| && forall i | 0 <= i < |rows| :: |rows[i]| == |header|
  }

  function PrintTable(header: seq<string>, align: seq<Align>, rows: seq<seq<string>>): (lines: seq<string>)
    requires Rectangular(header, align, rows)
    ensures |lines| == |rows| + 2 && lines[0] == PrintRow(header) && lines[1] == PrintRow(PrintAligns(align))
    ensures lines[2..] == PrintRows(rows)
  {
    [PrintRow(header), PrintRow(PrintAligns(align))] + PrintRows(rows)
  }

  /** Cells a printed row keeps: trimmed, and none but the last leaves inline code open. */
  ghost predicate Printable(cells: seq<string>) {
    AllTrimmed(cells) && ClosesCode(cells)
  }

  /** A line that starts with a pipe is none of the things the parser looks for before a table. */
  lemma PipeFirst(line: string)
    requires line != "" && line[0] == '|'
    ensures !IsFence(line) && !IsBlank(line) && !IsRule(line) && HeadingText(line).None? && !IsQuote(line) && !IsItem(line)
    ensures IsRow(line)
  {
    assert Span(line, IsSpace) == 0 && TrimLeft(line, IsSpace) == line;
    assert Trim(line, IsSpace) != "" && Trim(line, IsSpace)[0] == '|' by {
      TrimRightPrefix(line, IsSpace);
    }
    assert line[0..] == line;
  }

  lemma {:induction false} RunToTheEnd(lines: seq<string>, lo: nat, p: string -> bool)
    requires lo <= |lines| && forall i | lo <= i < |lines| :: p(lines[i])
    ensures RunEnd(lines, lo, p) == |lines|
    decreases |lines| - lo
  {
    if lo < |lines| {
      RunToTheEnd(lines, lo + 1, p);
    }
  }

  lemma PrintedStartsTable(header: seq<string>, align: seq<Align>, rows: seq<seq<string>>)
    requires Rectangular(header, align, rows)
    ensures var lines := PrintTable(header, align, rows); var found := CellsOf(lines[0]);
            StartsTable(lines, 0) <==> DelimiterOf(lines[1], |found|).Some?
    ensures var lines := PrintTable(header, align, rows);
            CellsOf(lines[0]) == header ==> StartsTable(lines, 0) && DelimiterOf(lines[1], |header|) == Some(align)
  {
    hide CellsOf, DelimiterOf, PrintAligns;
    assert PrintRow(header)[0] == '|';
    DelimiterReadsBack(align);
  }

  lemma PrintedIsOneRun(header: seq<string>, align: seq<Align>, rows: seq<seq<string>>)
    requires Rectangular(header, align, rows)
    ensures var lines := PrintTable(header, align, rows);
            !IsFence(lines[0]) &&
            RunAt(lines, 0) == if StartsTable(lines, 0) then Run(0, |lines|, Whole(TableBlock(lines)))
                               else Run(0, 1, Text(Trim(lines[0], IsSpace)))
  {
    hide IsFence, IsBlank, IsRule, HeadingText, IsQuote, IsItem, StartsTable, IsRow, PrintRow, PrintAligns, TableBlock, Trim;
    var lines := PrintTable(header, align, rows);
    PrintedLinesStartWithPipes(header, align, rows);
    forall i | 0 <= i < |lines| ensures IsRow(lines[i]) {
      PipeFirst(lines[i]);
    }
    PipeFirst(lines[0]);
    RunToTheEnd(lines, 2, IsRow);
    assert lines[0..|lines|] == lines;
  }

  lemma PrintedIsOneBlock(header: seq<string>, align: seq<Align>, rows: seq<seq<string>>)
    requires Rectangular(header, align, rows)
    ensures var lines := PrintTable(header, align, rows);
            if StartsTable(lines, 0) then Blocks(lines) == [TableBlock(lines)]
            else Blocks(lines) != [] && Blocks(lines)[0].Paragraph?
  {
    hide RunAt, StartsTable, TableBlock, Trim;
    var lines := PrintTable(header, align, rows);
    PrintedIsOneRun(header, align, rows);
    AssembleAt(lines, 0, []);
    if !StartsTable(lines, 0) {
      var first := [Trim(lines[0], IsSpace)];
      ParagraphFirst(Runs(lines, 1), first);
      assert [] + first == first;
    }
  }

  lemma PrintedLinesStartWithPipes(header: seq<string>, align: seq<Align>, rows: seq<seq<string>>)
    requires Rectangular(header, align, rows)
    ensures forall i | 0 <= i < |PrintTable(header, align, rows)| ::
              PrintTable(header, align, rows)[i] != "" && PrintTable(header, align, rows)[i][0] == '|'
  {
    hide Padded, PrintAligns;
    var lines := PrintTable(header, align, rows);
    forall i | 0 <= i < |lines| ensures lines[i] != "" && lines[i][0] == '|' {
      if i >= 2 {
        assert lines[i] == lines[2..][i - 2] == PrintRow(rows[i - 2]);
      }
    }
  }

  lemma {:induction false} ParagraphFirst(runs: seq<Run>, paragraph: seq<string>)
    requires paragraph != []
    ensures Assemble(runs, paragraph) != [] && Assemble(runs, paragraph)[0].Paragraph?
  {
    hide JoinLines;
    if runs != [] && runs[0].piece.Text? {
      ParagraphFirst(runs[1..], paragraph + [runs[0].piece.line]);
    }
  }

  /** A row read into its columns is the row that was printed exactly when the row is printable. */
  lemma FittedRowReadsBack(row: seq<string>)
    requires row != []
    ensures Fit(CellsOf(PrintRow(row)), |row|) == row <==> Printable(row)
  {
    hide CellsFrom, Padded, Trimmed, OpensCode;
    RowReadsBack(row);
    InsidePrinted(row);
    var read := CellsOf(PrintRow(row));
    CellsAreTrimmed(Padded(row), "", false);
    EmptyIsTrimmed();
    if Fit(read, |row|) == row {
      forall i | 0 <= i < |row| ensures Trimmed(row[i], IsSpace) {
        assert row[i] == Fit(read, |row|)[i];
      }
      forall i | 0 <= i < |read| && i < |row| ensures read[i] == row[i] {
        assert row[i] == Fit(read, |row|)[i];
      }
      OpenCodeIsNotReadBack(row);
    }
  }

  /** A printed table is parsed as exactly that one table - header, alignments and rows - if and only if its cells are
      trimmed and none but the last of a row leaves inline code open. */
  lemma TableReadsBack(header: seq<string>, align: seq<Align>, rows: seq<seq<string>>)
    requires Rectangular(header, align, rows)
    ensures Blocks(PrintTable(header, align, rows)) == [Table(header, align, rows)] <==>
            Printable(header) && forall i | 0 <= i < |rows| :: Printable(rows[i])
  {
    hide CellsOf, Printable, DelimiterOf, PrintAligns, PrintRow, Fit, StartsTable, Blocks;
    var lines := PrintTable(header, align, rows);
    PrintedIsOneBlock(header, align, rows);
    PrintedStartsTable(header, align, rows);
    HeaderReadsBack(header);
    forall i | 0 <= i < |rows| ensures RowsOf(lines[2..], |header|)[i] == rows[i] <==> Printable(rows[i]) {
      FittedRowReadsBack(rows[i]);
    }
    if StartsTable(lines, 0) {
      assert TableBlock(lines).header == CellsOf(lines[0]);
      if CellsOf(lines[0]) == header {
        assert TableBlock(lines) == Table(header, align, RowsOf(lines[2..], |header|));
        SameRows(RowsOf(lines[2..], |header|), rows);
      }
    } else {
      assert CellsOf(lines[0]) != header;
    }
  }

  lemma SameRows(read: seq<seq<string>>, rows: seq<seq<string>>)
    requires |read| == |rows| && forall i | 0 <= i < |rows| :: read[i] == rows[i] <==> Printable(rows[i])
    ensures read == rows <==> forall i | 0 <= i < |rows| :: Printable(rows[i])
  {
    hide Printable;
    if forall i | 0 <= i < |rows| :: Printable(rows[i]) {
      forall i | 0 <= i < |rows| ensures read[i] == rows[i] {
        assert Printable(rows[i]);
      }
    }
  }

  lemma HeaderReadsBack(header: seq<string>)
    requires header != []
    ensures CellsOf(PrintRow(header)) == header <==> Printable(header)
  {
    RowReadsBack(header);
  }

  // ---- The same for the text ----------------------------------------------------------------------

  predicate NoBreaks(s: string) {
    '\n' !in s && '\r' !in s
  }

  ghost predicate AllNoBreaks(lines: seq<string>) {
    forall i | 0 <= i < |lines| :: NoBreaks(lines[i])
  }

  lemma {:induction false} NormalizeKeeps(s: string)
    requires '\r' !in s
    ensures Normalize(s) == s
    decreases |s|
  {
    if s != "" {
      NormalizeKeeps(s[1..]);
      assert s == [s[0]] + s[1..];
      assert !("\r\n" <= s);
    }
  }

  lemma {:induction false} SplitLineThen(line: string, rest: string)
    requires '\n' !in line
    ensures SplitLines(line + rest) == [line + SplitLines(rest)[0]] + SplitLines(rest)[1..]
  {
    if line == "" {
      assert line + rest == rest && line + SplitLines(rest)[0] == SplitLines(rest)[0];
    } else {
      assert (line + rest)[1..] == line[1..] + rest;
      SplitLineThen(line[1..], rest);
      var first := SplitLines(rest)[0];
      assert (line + rest)[0] == line[0] != '\n';
      assert [line[0]] + (line[1..] + first) == line + first;
    }
  }

  /** Lines joined by line feeds are split into the same lines. */
  lemma {:induction false} SplitJoined(lines: seq<string>)
    requires lines != [] && forall i | 0 <= i < |lines| :: '\n' !in lines[i]
    ensures SplitLines(Join(lines)) == lines
  {
    if |lines| == 1 {
      SplitLineThen(lines[0], "");
      assert lines[0] + "" == lines[0];
    } else {
      SplitJoined(lines[1..]);
      var rest := "\n" + Join(lines[1..]);
      assert Join(lines) == lines[0] + rest;
      assert rest[1..] == Join(lines[1..]);
      assert SplitLines(rest) == [""] + lines[1..];
      SplitLineThen(lines[0], rest);
      assert lines[0] + "" == lines[0];
    }
  }

  lemma {:induction false} JoinedHasNoReturn(lines: seq<string>)
    requires forall i | 0 <= i < |lines| :: '\r' !in lines[i]
    ensures '\r' !in Join(lines)
  {
    if |lines| > 1 {
      JoinedHasNoReturn(lines[1..]);
    }
  }

  lemma LinesOfJoined(lines: seq<string>)
    requires lines != [] && AllNoBreaks(lines)
    ensures LinesOf(Join(lines)) == lines
  {
    JoinedHasNoReturn(lines);
    NormalizeKeeps(Join(lines));
    SplitJoined(lines);
  }

  function JoinBy(lines: seq<string>, ending: string): string {
    if lines == [] then "" else if |lines| == 1 then lines[0] else lines[0] + (ending + JoinBy(lines[1..], ending))
  }

  lemma {:induction false} NormalizeAfter(line: string, rest: string)
    requires '\r' !in line
    ensures Normalize(line + rest) == line + Normalize(rest)
    decreases |line|
  {
    if line == "" {
      assert line + rest == rest;
    } else {
      assert (line + rest)[1..] == line[1..] + rest && (line + rest)[0] == line[0] != '\r';
      NormalizeAfter(line[1..], rest);
      assert [line[0]] + (line[1..] + Normalize(rest)) == line + Normalize(rest);
    }
  }

  lemma NoBreakAhead(lines: seq<string>, ending: string)
    requires AllNoBreaks(lines) && (ending == "\r\n" || ending == "\r")
    ensures var text := JoinBy(lines, ending); text != "" ==> text[0] != '\n'
  {
    assert lines != [] && lines[0] != "" ==> lines[0][0] in lines[0];
  }

  lemma {:induction false} EndingsNormalize(lines: seq<string>, ending: string)
    requires ending == "\n" || ending == "\r\n" || ending == "\r"
    requires AllNoBreaks(lines)
    ensures Normalize(JoinBy(lines, ending)) == Join(lines)
  {
    hide Normalize;
    if |lines| == 1 {
      NormalizeKeeps(lines[0]);
    } else if |lines| > 1 {
      var rest := JoinBy(lines[1..], ending);
      EndingsNormalize(lines[1..], ending);
      if ending != "\n" {
        NoBreakAhead(lines[1..], ending);
      }
      NormalizeAfter(lines[0], ending + rest);
      EndingNormalizes(ending, rest);
      assert lines[0] + ("\n" + Join(lines[1..])) == lines[0] + "\n" + Join(lines[1..]);
    } else {
      NormalizeKeeps("");
    }
  }

  lemma EndingNormalizes(ending: string, rest: string)
    requires ending == "\n" || ending == "\r\n" || (ending == "\r" && (rest != "" ==> rest[0] != '\n'))
    ensures Normalize(ending + rest) == "\n" + Normalize(rest)
  {
    var text := ending + rest;
    if ending == "\r\n" {
      assert text[..2] == "\r\n" && text[2..] == rest;
    } else {
      assert text[1..] == rest && text[0] == ending[0] && (rest != "" ==> text[1] == rest[0]);
      NoPairAhead(text);
    }
  }

  lemma NoPairAhead(text: string)
    requires text == "" || text[0] != '\r' || |text| < 2 || text[1] != '\n'
    ensures !("\r\n" <= text)
  {
  }

  /** It makes no difference which of the three line endings a source uses. */
  lemma EndingsMakeNoDifference(lines: seq<string>, ending: string)
    requires lines != [] && AllNoBreaks(lines) && (ending == "\n" || ending == "\r\n" || ending == "\r")
    ensures LinesOf(JoinBy(lines, ending)) == lines && Parse(JoinBy(lines, ending)) == Parse(Join(lines))
  {
    hide Normalize, Join, JoinBy, Blocks;
    EndingsNormalize(lines, ending);
    JoinedHasNoReturn(lines);
    NormalizeKeeps(Join(lines));
    SplitJoined(lines);
  }

  lemma {:induction false} LinesHaveNoReturn(s: string)
    requires '\r' !in s
    ensures AllNoBreaks(SplitLines(s))
  {
    if s != "" {
      LinesHaveNoReturn(s[1..]);
    }
  }

  lemma TrimHasNoBreaks(s: string)
    requires NoBreaks(s)
    ensures NoBreaks(Trim(s, IsSpace))
  {
    var before, after := TrimSplits(s, IsSpace);
  }

  lemma {:induction false} CellsHaveNoBreaks(text: string, cell: string, code: bool)
    requires NoBreaks(text) && NoBreaks(cell)
    ensures AllNoBreaks(CellsFrom(text, cell, code))
    decreases |text|
  {
    hide Trim, IsSpace;
    TrimHasNoBreaks(cell);
    if text == "" {
    } else if "\\|" <= text {
      CellsHaveNoBreaks(text[2..], cell + "|", code);
    } else if text[0] == '|' && !code {
      CellsHaveNoBreaks(text[1..], "", false);
    } else {
      CellsHaveNoBreaks(text[1..], cell + [text[0]], code != (text[0] == '`'));
    }
  }

  lemma LineCellsHaveNoBreaks(line: string)
    requires NoBreaks(line)
    ensures AllNoBreaks(CellsOf(line))
  {
    hide Trim, IsSpace, CellsFrom;
    TrimHasNoBreaks(line);
    CellsHaveNoBreaks(Inside(line), "", false);
  }

  lemma {:induction false} EscapeHasNoBreaks(cell: string)
    requires NoBreaks(cell)
    ensures NoBreaks(Escape(cell))
  {
    if cell != "" {
      EscapeHasNoBreaks(cell[1..]);
    }
  }

  lemma {:induction false} PaddedHasNoBreaks(cells: seq<string>)
    requires cells != [] && AllNoBreaks(cells)
    ensures NoBreaks(Padded(cells))
  {
    EscapeHasNoBreaks(cells[0]);
    if |cells| > 1 {
      PaddedHasNoBreaks(cells[1..]);
    }
  }

  ghost predicate Unbroken(block: Block) {
    block.Table? ==> AllNoBreaks(block.header) && forall i | 0 <= i < |block.rows| :: AllNoBreaks(block.rows[i])
  }

  lemma TableIsUnbroken(lines: seq<string>)
    requires lines != [] && StartsTable(lines, 0) && AllNoBreaks(lines)
    ensures Unbroken(TableBlock(lines))
  {
    hide CellsOf, DelimiterOf, NoBreaks;
    LineCellsHaveNoBreaks(lines[0]);
    var rows := RowsOf(lines[2..], |CellsOf(lines[0])|);
    forall i | 0 <= i < |rows| ensures AllNoBreaks(rows[i]) {
      assert lines[2..][i] == lines[i + 2];
      LineCellsHaveNoBreaks(lines[i + 2]);
      EmptyHasNoBreaks();
    }
  }

  lemma EmptyHasNoBreaks()
    ensures NoBreaks("")
  {
  }

  lemma RunIsUnbroken(lines: seq<string>, lo: nat)
    requires lo < |lines| && AllNoBreaks(lines)
    ensures RunAt(lines, lo).piece.Whole? ==> Unbroken(RunAt(lines, lo).piece.block)
  {
    hide IsFence, IsBlank, IsRule, HeadingText, IsQuote, IsItem, CellsOf, DelimiterOf, TableBlock, AllNoBreaks;
    if StartsTable(lines, lo) {
      var hi := RunEnd(lines, lo + 2, IsRow);
      assert AllNoBreaks(lines[lo..hi]) by {
        SliceHasNoBreaks(lines, lo, hi);
      }
      TableIsUnbroken(lines[lo..hi]);
    }
  }

  lemma SliceHasNoBreaks(lines: seq<string>, lo: nat, hi: nat)
    requires lo <= hi <= |lines| && AllNoBreaks(lines)
    ensures AllNoBreaks(lines[lo..hi])
  {
    hide NoBreaks;
  }

  lemma {:induction false} BlocksAreUnbroken(lines: seq<string>, lo: nat, paragraph: seq<string>)
    requires lo <= |lines| && AllNoBreaks(lines)
    ensures forall i | 0 <= i < |Assemble(Runs(lines, lo), paragraph)| :: Unbroken(Assemble(Runs(lines, lo), paragraph)[i])
    decreases |lines| - lo
  {
    hide RunAt, AllNoBreaks;
    if lo < |lines| {
      RunIsUnbroken(lines, lo);
      hide Runs, Assemble;
      AssembleAt(lines, lo, paragraph);
      BlocksAreUnbroken(lines, RunAt(lines, lo).hi, Turn([], paragraph, RunAt(lines, lo).piece).1);
    }
  }

  lemma PrintedHasNoBreaks(header: seq<string>, align: seq<Align>, rows: seq<seq<string>>)
    requires Rectangular(header, align, rows)
    requires AllNoBreaks(header) && forall i | 0 <= i < |rows| :: AllNoBreaks(rows[i])
    ensures AllNoBreaks(PrintTable(header, align, rows))
  {
    var lines := PrintTable(header, align, rows);
    hide AllNoBreaks, Padded;
    forall i | 0 <= i < |lines| ensures NoBreaks(lines[i]) {
      if i == 0 {
        PaddedHasNoBreaks(header);
      } else if i == 1 {
        AlignsHaveNoBreaks(align);
        PaddedHasNoBreaks(PrintAligns(align));
      } else {
        assert lines[i] == lines[2..][i - 2] == PrintRow(rows[i - 2]);
        PaddedHasNoBreaks(rows[i - 2]);
      }
    }
    assert AllNoBreaks(lines) by {
      Collect(lines);
    }
  }

  lemma Collect(lines: seq<string>)
    requires forall i | 0 <= i < |lines| :: NoBreaks(lines[i])
    ensures AllNoBreaks(lines)
  {
  }

  lemma AlignsHaveNoBreaks(align: seq<Align>)
    ensures AllNoBreaks(PrintAligns(align))
  {
  }

  /** For every rectangular table: the printed text is parsed as exactly that table, and nothing else, if and only if
      every cell is trimmed and on one line and none but the last of a row leaves inline code open. */
  lemma PrintedTableParses(header: seq<string>, align: seq<Align>, rows: seq<seq<string>>)
    requires Rectangular(header, align, rows)
    ensures Parse(Join(PrintTable(header, align, rows))) == [Table(header, align, rows)] <==>
            Printable(header) && AllNoBreaks(header) &&
            forall i | 0 <= i < |rows| :: Printable(rows[i]) && AllNoBreaks(rows[i])
  {
    hide Blocks, Join, PrintTable, Printable, AllNoBreaks, LinesOf;
    var lines := PrintTable(header, align, rows);
    if Parse(Join(lines)) == [Table(header, align, rows)] {
      ParsedIsUnbroken(Join(lines));
      assert Unbroken(Parse(Join(lines))[0]);
    }
    if AllNoBreaks(header) && forall i | 0 <= i < |rows| :: AllNoBreaks(rows[i]) {
      PrintedHasNoBreaks(header, align, rows);
      LinesOfJoined(lines);
      TableReadsBack(header, align, rows);
    }
  }

  lemma ParsedIsUnbroken(source: string)
    ensures forall i | 0 <= i < |Parse(source)| :: Unbroken(Parse(source)[i])
  {
    LinesHaveNoReturn(Normalize(source));
    BlocksAreUnbroken(LinesOf(source), 0, []);
  }
}
