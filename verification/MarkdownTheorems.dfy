/** What holds of every parse: the runs cover the lines once, nothing is lost, every block is well formed. */
module MarkdownTheorems {
  import opened Common
  import opened MarkdownLines
  import opened TableRows
  import opened Markdown

  // ---- Runs ---------------------------------------------------------------------------------------

  /** Consecutive non-empty runs from `lo` to the last line, each decided by the line it starts at. */
  ghost predicate Covers(runs: seq<Run>, lines: seq<string>, lo: nat) {
    if runs == [] then lo == |lines|
    else lo < |lines| && runs[0] == RunAt(lines, lo) && Covers(runs[1..], lines, runs[0].hi)
  }

  lemma {:induction false} RunsCover(lines: seq<string>, lo: nat)
    requires lo <= |lines|
    ensures Covers(Runs(lines, lo), lines, lo)
    decreases |lines| - lo
  {
    hide RunAt;
    if lo < |lines| {
      RunsCover(lines, RunAt(lines, lo).hi);
      assert Runs(lines, lo)[1..] == Runs(lines, RunAt(lines, lo).hi);
    }
  }

  /** A line by itself decides what starts there, whatever order the patterns are tried in; a table starts only at a line that
      is nothing else, and every other line is text. */
  lemma LineDecides(lines: seq<string>, lo: nat)
    requires lo < |lines|
    ensures var line, piece := lines[lo], RunAt(lines, lo).piece;
            (piece.Whole? && piece.block.Code? <==> IsFence(line)) && (piece.Blank? <==> IsBlank(line)) &&
            (piece == Whole(Rule) <==> IsRule(line)) &&
            (piece.Whole? && piece.block.Heading? <==> HeadingText(line).Some?) &&
            (HeadingText(line).Some? ==> piece == Whole(Heading(HeadingText(line).value))) &&
            (piece.Whole? && piece.block.Quote? <==> IsQuote(line)) && (piece.Whole? && piece.block.List? <==> IsItem(line)) &&
            (piece.Whole? && piece.block.Table? <==> StartsTable(lines, lo) && Unmarked(line)) &&
            (piece.Text? <==> !StartsTable(lines, lo) && Unmarked(line))
  {
    hide IsFence, IsBlank, IsRule, HeadingText, QuoteText, ItemOf, StartsTable, Trim, Join, QuoteBlock, QuoteTexts, ItemsOf,
      RunEnd, TableBlock;
    KindsExclude(lines[lo]);
    QuotesAreQuotes(lines, lo);
    TablesAreTables(lines, lo);
  }

  ghost predicate Unmarked(line: string) {
    !IsFence(line) && !IsBlank(line) && !IsRule(line) && HeadingText(line).None? && !IsQuote(line) && !IsItem(line)
  }

  lemma QuotesAreQuotes(lines: seq<string>, lo: nat)
    requires lo < |lines|
    ensures IsQuote(lines[lo]) ==> QuoteAt(lines, lo).piece.Whole? && QuoteAt(lines, lo).piece.block.Quote?
  {
    hide QuoteText, AlertOf, JoinLines, NonBlank;
  }

  lemma TablesAreTables(lines: seq<string>, lo: nat)
    requires lo < |lines|
    ensures StartsTable(lines, lo) ==> TableAt(lines, lo).piece.Whole? && TableAt(lines, lo).piece.block.Table?
  {
    hide DelimiterOf, CellsOf;
  }

  /** How far each block of several lines goes: code up to a fence, a quote while lines are quoted, a list while they are items
      or indented, a table while they have a pipe. */
  lemma RunsEndWhere(lines: seq<string>, lo: nat)
    requires lo < |lines| && RunAt(lines, lo).piece.Whole?
    ensures var hi, block := RunAt(lines, lo).hi, RunAt(lines, lo).piece.block;
            (block.Code? ==>
               (forall i | lo < i < hi - 1 :: !IsFence(lines[i])) &&
               if hi > lo + 1 && IsFence(lines[hi - 1]) then true else hi == |lines|) &&
            (block.Quote? ==> (forall i | lo <= i < hi :: IsQuote(lines[i])) && (hi < |lines| ==> !IsQuote(lines[hi]))) &&
            (block.List? ==>
               (forall i | lo < i < hi :: IsItem(lines[i]) || (lines[i] != "" && IsSpace(lines[i][0]) && !IsBlank(lines[i]))) &&
               (hi < |lines| ==>
                  !IsItem(lines[hi]) && (lines[hi] == "" || !IsSpace(lines[hi][0]) || IsBlank(lines[hi])))) &&
            (block.Table? ==>
               (forall i | lo + 2 <= i < hi :: !IsBlank(lines[i]) && '|' in lines[i]) &&
               (hi < |lines| ==> IsBlank(lines[hi]) || '|' !in lines[hi]))
  {
    hide IsFence, IsBlank, IsRule, HeadingText, QuoteText, ItemOf, StartsTable, Trim, Join, QuoteBlock, QuoteTexts, ItemsOf,
      TableBlock, IsSpace;
    QuotesAreQuotes(lines, lo);
    TablesAreTables(lines, lo);
  }

  ghost predicate Within(run: Run, line: nat) {
    run.lo <= line < run.hi
  }

  /** Only blank lines are passed over, one at a time. */
  lemma BlankRunIsBlank(lines: seq<string>, lo: nat)
    requires lo < |lines|
    ensures RunAt(lines, lo).piece.Blank? <==> !IsFence(lines[lo]) && IsBlank(lines[lo])
    ensures RunAt(lines, lo).piece.Blank? ==> RunAt(lines, lo).hi == lo + 1
    ensures RunAt(lines, lo).piece.Text? ==>
              RunAt(lines, lo).hi == lo + 1 && RunAt(lines, lo).piece.line == Trim(lines[lo], IsSpace) != ""
  {
    hide IsFence, IsBlank, IsRule, HeadingText, IsQuote, IsItem, StartsTable;
    assert IsBlank(lines[lo]) <==> Trim(lines[lo], IsSpace) == "" by {
      BlankIsEmpty(lines[lo]);
    }
  }

  lemma BlankIsEmpty(line: string)
    ensures IsBlank(line) <==> Trim(line, IsSpace) == ""
  {
  }

  /** Every line is read in exactly one run, and a line that is not blank in one that is not passed over. */
  lemma {:induction false} EveryLineIsReadOnce(lines: seq<string>, lo: nat, line: nat) returns (k: nat)
    requires lo <= line < |lines|
    ensures var runs := Runs(lines, lo);
            k < |runs| && Within(runs[k], line) &&
            (forall j | 0 <= j < |runs| && j != k :: !Within(runs[j], line)) &&
            (!IsBlank(lines[line]) ==> !runs[k].piece.Blank?)
    decreases |lines| - lo
  {
    hide RunAt, IsBlank, IsFence;
    var run := RunAt(lines, lo);
    var runs, rest := Runs(lines, lo), Runs(lines, run.hi);
    assert runs == [run] + rest;
    BlankRunIsBlank(lines, lo);
    if line < run.hi {
      k := 0;
      RunsAreLater(lines, run.hi);
    } else {
      k := EveryLineIsReadOnce(lines, run.hi, line);
      k := k + 1;
    }
  }

  lemma {:induction false} RunsAreLater(lines: seq<string>, lo: nat)
    requires lo <= |lines|
    ensures forall j | 0 <= j < |Runs(lines, lo)| :: lo <= Runs(lines, lo)[j].lo
    decreases |lines| - lo
  {
    hide RunAt;
    if lo < |lines| {
      RunsAreLater(lines, RunAt(lines, lo).hi);
    }
  }

  // ---- Nothing is lost ----------------------------------------------------------------------------

  function Wholes(runs: seq<Run>): seq<Block> {
    if runs == [] then []
    else (if runs[0].piece.Whole? then [runs[0].piece.block] else []) + Wholes(runs[1..])
  }

  function LooseLines(runs: seq<Run>): seq<string> {
    if runs == [] then []
    else (if runs[0].piece.Text? then [runs[0].piece.line] else []) + LooseLines(runs[1..])
  }

  function Others(blocks: seq<Block>): seq<Block> {
    if blocks == [] then [] else (if blocks[0].Paragraph? then [] else [blocks[0]]) + Others(blocks[1..])
  }

  function ParagraphTexts(blocks: seq<Block>): seq<string> {
    if blocks == [] then [] else (if blocks[0].Paragraph? then [blocks[0].text] else []) + ParagraphTexts(blocks[1..])
  }

  ghost predicate NoParagraph(runs: seq<Run>) {
    forall i | 0 <= i < |runs| && runs[i].piece.Whole? :: !runs[i].piece.block.Paragraph?
  }

  lemma RunAtIsNoParagraph(lines: seq<string>, lo: nat)
    requires lo < |lines|
    ensures RunAt(lines, lo).piece.Whole? ==> !RunAt(lines, lo).piece.block.Paragraph?
  {
    hide IsFence, IsBlank, IsRule, HeadingText, IsQuote, IsItem, StartsTable;
  }

  lemma {:induction false} RunsAreNoParagraph(lines: seq<string>, lo: nat)
    requires lo <= |lines|
    ensures NoParagraph(Runs(lines, lo))
    decreases |lines| - lo
  {
    hide RunAt;
    if lo < |lines| {
      RunAtIsNoParagraph(lines, lo);
      RunsAreNoParagraph(lines, RunAt(lines, lo).hi);
    }
  }

  lemma {:induction false} ConcatAppends(a: seq<string>, b: seq<string>)
    ensures Concat(a + b) == Concat(a) + Concat(b)
  {
    if b == [] {
      assert a + b == a;
    } else {
      assert (a + b)[..|a + b| - 1] == a + b[..|b| - 1];
      ConcatAppends(a, b[..|b| - 1]);
    }
  }

  lemma {:induction false} OthersAppend(a: seq<Block>, b: seq<Block>)
    ensures Others(a + b) == Others(a) + Others(b)
  {
    if a == [] {
      assert a + b == b;
    } else {
      assert (a + b)[1..] == a[1..] + b && (a + b)[0] == a[0];
      OthersAppend(a[1..], b);
      var first := if a[0].Paragraph? then [] else [a[0]];
      assert Others(a) == first + Others(a[1..]);
      assert first + (Others(a[1..]) + Others(b)) == first + Others(a[1..]) + Others(b);
    }
  }

  lemma {:induction false} ParagraphTextsAppend(a: seq<Block>, b: seq<Block>)
    ensures ParagraphTexts(a + b) == ParagraphTexts(a) + ParagraphTexts(b)
  {
    if a == [] {
      assert a + b == b;
    } else {
      assert (a + b)[1..] == a[1..] + b && (a + b)[0] == a[0];
      ParagraphTextsAppend(a[1..], b);
      var first := if a[0].Paragraph? then [a[0].text] else [];
      assert ParagraphTexts(a) == first + ParagraphTexts(a[1..]);
      assert first + (ParagraphTexts(a[1..]) + ParagraphTexts(b)) == first + ParagraphTexts(a[1..]) + ParagraphTexts(b);
    }
  }

  /** The blocks other than paragraphs are those of the runs, in order. */
  lemma {:induction false} AssembleKeepsBlocks(runs: seq<Run>, paragraph: seq<string>)
    requires NoParagraph(runs)
    ensures Others(Assemble(runs, paragraph)) == Wholes(runs)
  {
    if runs != [] {
      var rest := runs[1..];
      match runs[0].piece
      case Blank =>
        AssembleKeepsBlocks(rest, []);
        OthersAppend(Flush(paragraph), Assemble(rest, []));
      case Text(line) =>
        AssembleKeepsBlocks(rest, paragraph + [line]);
      case Whole(block) =>
        AssembleKeepsBlocks(rest, []);
        OthersAppend(Flush(paragraph) + [block], Assemble(rest, []));
        OthersAppend(Flush(paragraph), [block]);
    }
  }

  lemma FlushKeepsText(paragraph: seq<string>)
    ensures Squeeze(Concat(ParagraphTexts(Flush(paragraph)))) == Squeeze(Concat(paragraph))
  {
    hide Squeeze;
    if paragraph != [] {
      JoiningKeepsText(paragraph);
      var text := JoinLines(paragraph);
      assert ParagraphTexts(Flush(paragraph)) == [text];
      assert Concat([text]) == text;
    } else {
      assert ParagraphTexts(Flush(paragraph)) == [] == paragraph;
    }
  }

  lemma TextsAppend(a: seq<string>, b: seq<string>)
    ensures Squeeze(Concat(a + b)) == Squeeze(Concat(a)) + Squeeze(Concat(b))
  {
    ConcatAppends(a, b);
    SqueezeJoins(Concat(a), Concat(b));
  }

  lemma FlushedFirst(paragraph: seq<string>, after: seq<Block>)
    ensures Squeeze(Concat(ParagraphTexts(Flush(paragraph) + after))) ==
            Squeeze(Concat(paragraph)) + Squeeze(Concat(ParagraphTexts(after)))
  {
    hide Squeeze, Concat, Flush;
    ParagraphTextsAppend(Flush(paragraph), after);
    TextsAppend(ParagraphTexts(Flush(paragraph)), ParagraphTexts(after));
    FlushKeepsText(paragraph);
  }

  /** The paragraphs hold, spaces aside, exactly the text of the lines that are in no other block, in order. */
  lemma {:induction false} AssembleKeepsText(runs: seq<Run>, paragraph: seq<string>)
    requires NoParagraph(runs)
    ensures Squeeze(Concat(ParagraphTexts(Assemble(runs, paragraph)))) ==
            Squeeze(Concat(paragraph)) + Squeeze(Concat(LooseLines(runs)))
  {
    hide Squeeze, Concat, Flush;
    if runs == [] {
      FlushedFirst(paragraph, []);
      assert Flush(paragraph) + [] == Flush(paragraph);
    } else {
      var rest := runs[1..];
      match runs[0].piece
      case Blank =>
        AssembleKeepsText(rest, []);
        FlushedFirst(paragraph, Assemble(rest, []));
        TextsAppend([], LooseLines(rest));
      case Text(line) =>
        AssembleKeepsText(rest, paragraph + [line]);
        TextsAppend(paragraph, [line]);
        TextsAppend([line], LooseLines(rest));
      case Whole(block) =>
        AssembleKeepsText(rest, []);
        var after := Assemble(rest, []);
        assert ([block] + after)[1..] == after;
        assert ParagraphTexts([block] + after) == ParagraphTexts(after);
        FlushedFirst(paragraph, [block] + after);
        assert Flush(paragraph) + [block] + Assemble(rest, []) == Flush(paragraph) + ([block] + Assemble(rest, []));
        TextsAppend([], LooseLines(rest));
    }
  }

  /** For every source: the blocks that are not paragraphs are the runs' own, and no text outside them is lost. */
  lemma NothingIsLost(source: string)
    ensures var runs := Runs(LinesOf(source), 0);
            Others(Parse(source)) == Wholes(runs) &&
            Squeeze(Concat(ParagraphTexts(Parse(source)))) == Squeeze(Concat(LooseLines(runs)))
  {
    var runs := Runs(LinesOf(source), 0);
    RunsAreNoParagraph(LinesOf(source), 0);
    AssembleKeepsBlocks(runs, []);
    AssembleKeepsText(runs, []);
  }

  // ---- Every block is well formed -----------------------------------------------------------------

  ghost predicate WellFormed(block: Block) {
    match block
    case Heading(text) => OneLine(text) && Trimmed(text, IsSpace)
    case Paragraph(text) => text != ""
    case List(_, items) => items != [] && forall i | 0 <= i < |items| :: items[i].depth <= 1
    case Table(header, align, rows) =>
      header != [] && |align| == |header| && AllTrimmed(header) &&
      forall i | 0 <= i < |rows| :: |rows[i]| == |header| && AllTrimmed(rows[i])
    case _ => true
  }

  ghost predicate AllWellFormed(blocks: seq<Block>) {
    forall i | 0 <= i < |blocks| :: WellFormed(blocks[i])
  }

  lemma HeadingIsTrimmed(line: string)
    requires HeadingText(line).Some?
    ensures OneLine(HeadingText(line).value) && Trimmed(HeadingText(line).value, IsSpace)
  {
    hide IsSpace, TrimRight, TrimLeft, OneLine, IsHash;
    var lead := Span(line, IsSpace);
    var after := line[lead + Span(line[lead..], IsHash)..];
    var body := TrimLeft(after, IsSpace);
    TrimLeftSuffix(after, IsSpace);
    StripLeavesClosing(body);
    TrimRightPrefix(TrimRight(TrimRight(body, IsSpace), IsHash), IsSpace);
  }

  lemma {:induction false} DepthsAreSmall(lines: seq<string>)
    requires lines != [] && IsItem(lines[0])
    ensures forall i | 0 <= i < |ItemsOf(lines)| :: ItemsOf(lines)[i].depth <= 1
  {
    hide ItemOf, JoinLines;
    if |lines| > 1 {
      DepthsAreSmall(lines[..|lines| - 1]);
    }
  }

  lemma TableIsWellFormed(lines: seq<string>)
    requires lines != [] && StartsTable(lines, 0)
    ensures WellFormed(TableBlock(lines))
  {
    hide CellsFrom, Trim, IsSpace, Trimmed;
    var header := CellsOf(lines[0]);
    CellsAreTrimmed(Inside(lines[0]), "", false);
    var rows := RowsOf(lines[2..], |header|);
    forall i | 0 <= i < |rows| ensures AllTrimmed(rows[i]) {
      CellsAreTrimmed(Inside(lines[2..][i]), "", false);
      EmptyIsTrimmed();
    }
  }

  lemma EmptyIsTrimmed()
    ensures Trimmed("", IsSpace)
  {
  }

  lemma WholeIsWellFormed(lines: seq<string>, lo: nat)
    requires lo < |lines| && RunAt(lines, lo).piece.Whole?
    ensures WellFormed(RunAt(lines, lo).piece.block)
  {
    hide IsFence, IsBlank, IsRule, HeadingText, IsQuote, IsItem, ItemsOf, TableBlock, Trimmed, OneLine, AllTrimmed, CellsOf,
      DelimiterOf, JoinLines, AlertOf;
    var line := lines[lo];
    if IsFence(line) || IsBlank(line) || IsRule(line) {
    } else if HeadingText(line).Some? {
      HeadingIsTrimmed(line);
    } else if IsQuote(line) {
    } else if IsItem(line) {
      DepthsAreSmall(lines[lo..RunEnd(lines, lo, InList)]);
    } else {
      TableIsWellFormed(lines[lo..RunEnd(lines, lo + 2, IsRow)]);
    }
  }

  ghost predicate GoodRuns(runs: seq<Run>) {
    forall i | 0 <= i < |runs| :: match runs[i].piece
      case Blank => true
      case Text(line) => line != ""
      case Whole(block) => WellFormed(block)
  }

  lemma {:induction false} RunsAreGood(lines: seq<string>, lo: nat)
    requires lo <= |lines|
    ensures GoodRuns(Runs(lines, lo))
    decreases |lines| - lo
  {
    hide RunAt, WellFormed;
    if lo < |lines| {
      RunsAreGood(lines, RunAt(lines, lo).hi);
      BlankRunIsBlank(lines, lo);
      if RunAt(lines, lo).piece.Whole? {
        WholeIsWellFormed(lines, lo);
      }
    }
  }

  lemma {:induction false} JoinedIsNotEmpty(lines: seq<string>)
    requires lines != [] && forall i | 0 <= i < |lines| :: lines[i] != ""
    ensures JoinLines(lines) != ""
  {
  }

  lemma {:induction false} AssembledIsWellFormed(runs: seq<Run>, paragraph: seq<string>)
    requires GoodRuns(runs) && forall i | 0 <= i < |paragraph| :: paragraph[i] != ""
    ensures AllWellFormed(Assemble(runs, paragraph))
  {
    hide JoinLines;
    if paragraph != [] {
      JoinedIsNotEmpty(paragraph);
    }
    if runs != [] {
      var rest := runs[1..];
      match runs[0].piece
      case Blank => AssembledIsWellFormed(rest, []);
      case Text(line) => AssembledIsWellFormed(rest, paragraph + [line]);
      case Whole(_) => AssembledIsWellFormed(rest, []);
    }
  }

  /** For every source: tables are rectangular with one alignment per column and trimmed cells, lists have items at
      depth 0 or 1, no paragraph is empty, and a heading is one trimmed line. */
  lemma EveryBlockIsWellFormed(source: string)
    ensures AllWellFormed(Parse(source))
  {
    RunsAreGood(LinesOf(source), 0);
    AssembledIsWellFormed(Runs(LinesOf(source), 0), []);
  }
}
