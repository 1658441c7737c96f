/** The block parser: what each run of lines becomes, the loop that walks the lines, and what every result is like. */
module Markdown {
  import opened Common
  import opened MarkdownLines
  import opened TableRows

  datatype Block =
    | Heading(text: string)
    | Paragraph(text: string)
    | List(ordered: bool, items: seq<Item>)
    | Quote(alert: Option<Alert>, text: string)
    | Code(text: string)
    | Table(header: seq<string>, align: seq<Align>, rows: seq<seq<string>>)
    | Rule

  // ---- Lines --------------------------------------------------------------------------------------

  /** CRLF and a lone CR become LF. */
  function Normalize(s: string): (r: string)
    ensures '\r' !in r
    decreases |s|
  {
    if s == "" then ""
    else if "\r\n" <= s then "\n" + Normalize(s[2..])
    else [if s[0] == '\r' then '\n' else s[0]] + Normalize(s[1..])
  }

  function SplitLines(s: string): (lines: seq<string>)
    ensures lines != [] && forall i | 0 <= i < |lines| :: '\n' !in lines[i]
  {
    if s == "" then [""]
    else
      var rest := SplitLines(s[1..]);
      if s[0] == '\n' then [""] + rest else [[s[0]] + rest[0]] + rest[1..]
  }

  function Join(lines: seq<string>): string {
    if lines == [] then "" else if |lines| == 1 then lines[0] else lines[0] + "\n" + Join(lines[1..])
  }

  function LinesOf(source: string): seq<string> {
    SplitLines(Normalize(source))
  }

  // ---- Runs of lines ------------------------------------------------------------------------------

  /** The first line at or after `lo` that `p` rejects. */
  function RunEnd(lines: seq<string>, lo: nat, p: string -> bool): (hi: nat)
    requires lo <= |lines|
    ensures lo <= hi <= |lines| && forall i | lo <= i < hi :: p(lines[i])
    ensures hi < |lines| ==> !p(lines[hi])
    decreases |lines| - lo
  {
    if lo < |lines| && p(lines[lo]) then RunEnd(lines, lo + 1, p) else lo
  }

  predicate NotFence(line: string) { !IsFence(line) }

  predicate IsQuote(line: string) { QuoteText(line).Some? }

  predicate IsItem(line: string) { ItemOf(line).Some? }

  /** A list goes on with another item or with an indented line that continues the one above it. */
  predicate InList(line: string) { IsItem(line) || IsIndented(line) }

  predicate IsRow(line: string) { !IsBlank(line) && '|' in line }

  function QuoteTexts(lines: seq<string>): (texts: seq<string>)
    requires forall i | 0 <= i < |lines| :: IsQuote(lines[i])
    ensures |texts| == |lines|
  {
    if lines == [] then []
    else
      assert IsQuote(lines[|lines| - 1]);
      QuoteTexts(lines[..|lines| - 1]) + [QuoteText(lines[|lines| - 1]).value]
  }

  function NonBlank(lines: seq<string>): seq<string> {
    if lines == [] then []
    else NonBlank(lines[..|lines| - 1]) + if IsBlank(lines[|lines| - 1]) then [] else [lines[|lines| - 1]]
  }

  function QuoteBlock(texts: seq<string>): Block
    requires texts != []
  {
    var alert := AlertOf(texts[0]);
    Quote(alert, JoinLines(NonBlank(if alert.None? then texts else texts[1..])))
  }

  function AddLine(items: seq<Item>, line: string): (more: seq<Item>)
    requires items != [] || IsItem(line)
    ensures more != []
  {
    if IsItem(line) then items + [ItemOf(line).value]
    else
      var last := items[|items| - 1];
      items[..|items| - 1] + [last.(text := JoinLines([last.text, Trim(line, IsSpace)]))]
  }

  function ItemsOf(lines: seq<string>): (items: seq<Item>)
    requires lines != [] && IsItem(lines[0])
    ensures items != []
  {
    AddLine(if |lines| == 1 then [] else ItemsOf(lines[..|lines| - 1]), lines[|lines| - 1])
  }

  /** As many cells as the header has: cut off or filled up with empty ones. */
  function Fit(cells: seq<string>, columns: nat): (row: seq<string>)
    ensures |row| == columns
    ensures forall i | 0 <= i < columns :: row[i] == if i < |cells| then cells[i] else ""
  {
    seq(columns, i requires 0 <= i < columns => if i < |cells| then cells[i] else "")
  }

  function RowsOf(lines: seq<string>, columns: nat): (rows: seq<seq<string>>)
    ensures |rows| == |lines|
    ensures forall i | 0 <= i < |rows| :: rows[i] == Fit(CellsOf(lines[i]), columns)
  {
    seq(|lines|, i requires 0 <= i < |lines| => Fit(CellsOf(lines[i]), columns))
  }

  function LineAt(lines: seq<string>, index: nat): string {
    if index < |lines| then lines[index] else ""
  }

  /** A row of pipes over a delimiter row with as many cells. */
  predicate StartsTable(lines: seq<string>, lo: nat)
    requires lo < |lines|
    ensures StartsTable(lines, lo) ==> lo + 1 < |lines|
  {
    '|' in lines[lo] && DelimiterOf(LineAt(lines, lo + 1), |CellsOf(lines[lo])|).Some?
  }

  function TableBlock(lines: seq<string>): Block
    requires lines != [] && StartsTable(lines, 0)
  {
    var header := CellsOf(lines[0]);
    Table(header, DelimiterOf(lines[1], |header|).value, RowsOf(lines[2..], |header|))
  }

  // ---- What each run becomes ----------------------------------------------------------------------

  datatype Piece = Blank | Text(line: string) | Whole(block: Block)

  /** The lines from `lo` up to `hi` and what one turn of the loop makes of them. */
  datatype Run = Run(lo: nat, hi: nat, piece: Piece)

  function CodeAt(lines: seq<string>, lo: nat): (run: Run)
    requires lo < |lines|
    ensures run.lo == lo && lo < run.hi <= |lines|
  {
    var end := RunEnd(lines, lo + 1, NotFence);
    Run(lo, if end < |lines| then end + 1 else end, Whole(Code(Join(lines[lo + 1..end]))))
  }

  function QuoteAt(lines: seq<string>, lo: nat): (run: Run)
    requires lo < |lines| && IsQuote(lines[lo])
    ensures run.lo == lo && lo < run.hi <= |lines|
  {
    var end := RunEnd(lines, lo, IsQuote);
    Run(lo, end, Whole(QuoteBlock(QuoteTexts(lines[lo..end]))))
  }

  function ListAt(lines: seq<string>, lo: nat): (run: Run)
    requires lo < |lines| && IsItem(lines[lo])
    ensures run.lo == lo && lo < run.hi <= |lines|
  {
    var end := RunEnd(lines, lo, InList);
    Run(lo, end, Whole(List(IsOrdered(lines[lo]), ItemsOf(lines[lo..end]))))
  }

  function TableAt(lines: seq<string>, lo: nat): (run: Run)
    requires lo < |lines| && StartsTable(lines, lo)
    ensures run.lo == lo && lo < run.hi <= |lines|
  {
    var end := RunEnd(lines, lo + 2, IsRow);
    Run(lo, end, Whole(TableBlock(lines[lo..end])))
  }

  function RunAt(lines: seq<string>, lo: nat): (run: Run)
    requires lo < |lines|
    ensures run.lo == lo && lo < run.hi <= |lines|
  {
    var line := lines[lo];
    if IsFence(line) then CodeAt(lines, lo)
    else if IsBlank(line) then Run(lo, lo + 1, Blank)
    else if IsRule(line) then Run(lo, lo + 1, Whole(Rule))
    else if HeadingText(line).Some? then Run(lo, lo + 1, Whole(Heading(HeadingText(line).value)))
    else if IsQuote(line) then QuoteAt(lines, lo)
    else if IsItem(line) then ListAt(lines, lo)
    else if StartsTable(lines, lo) then TableAt(lines, lo)
    else Run(lo, lo + 1, Text(Trim(line, IsSpace)))
  }

  function Runs(lines: seq<string>, lo: nat): seq<Run>
    requires lo <= |lines|
    decreases |lines| - lo
  {
    if lo == |lines| then [] else [RunAt(lines, lo)] + Runs(lines, RunAt(lines, lo).hi)
  }

  function Flush(paragraph: seq<string>): seq<Block> {
    if paragraph == [] then [] else [Paragraph(JoinLines(paragraph))]
  }

  /** Text runs gather into a paragraph until something else comes. */
  function Assemble(runs: seq<Run>, paragraph: seq<string>): seq<Block> {
    if runs == [] then Flush(paragraph)
    else match runs[0].piece
      case Blank => Flush(paragraph) + Assemble(runs[1..], [])
      case Text(line) => Assemble(runs[1..], paragraph + [line])
      case Whole(block) => Flush(paragraph) + [block] + Assemble(runs[1..], [])
  }

  function Blocks(lines: seq<string>): seq<Block> {
    Assemble(Runs(lines, 0), [])
  }

  function Parse(source: string): seq<Block> {
    Blocks(LinesOf(source))
  }

  // ---- The loop -----------------------------------------------------------------------------------

  method ReadCode(lines: seq<string>, start: nat) returns (block: Block, index: nat)
    requires start < |lines| && IsFence(lines[start])
    ensures Whole(block) == RunAt(lines, start).piece
    ensures index <= |lines| && RunAt(lines, start).hi == if index < |lines| then index + 1 else index
  {
    hide Join, IsFence;
    var body: seq<string> := [];
    index := start + 1;
    while index < |lines| && !IsFence(lines[index])
      invariant start < index <= |lines| && body == lines[start + 1..index]
      invariant RunEnd(lines, start + 1, NotFence) == RunEnd(lines, index, NotFence)
    {
      body := body + [lines[index]];
      index := index + 1;
    }
    block := Code(Join(body));
  }

  method ReadQuote(lines: seq<string>, start: nat) returns (block: Block, index: nat)
    requires start < |lines| && IsQuote(lines[start])
    ensures QuoteAt(lines, start) == Run(start, index, Whole(block))
  {
    hide QuoteText, AlertOf, JoinLines;
    var quoted: seq<string> := [];
    index := start;
    while index < |lines|
      invariant start <= index <= |lines| && forall i | start <= i < index :: IsQuote(lines[i])
      invariant quoted == QuoteTexts(lines[start..index])
      invariant RunEnd(lines, start, IsQuote) == RunEnd(lines, index, IsQuote)
    {
      var inner := QuoteText(lines[index]);
      if inner.None? {
        break;
      }
      assert lines[start..index + 1][..index - start] == lines[start..index];
      quoted := quoted + [inner.value];
      index := index + 1;
    }
    assert quoted != [];
    var alert := AlertOf(quoted[0]);
    var body := if alert.None? then quoted else quoted[1..];
    block := Quote(alert, JoinLines(NonBlank(body)));
  }

  lemma OneMoreLine(lines: seq<string>, start: nat, index: nat)
    requires start < index < |lines| && IsItem(lines[start])
    ensures ItemsOf(lines[start..index + 1]) == AddLine(ItemsOf(lines[start..index]), lines[index])
  {
    hide AddLine, IsItem;
    assert lines[start..index + 1][..index - start] == lines[start..index];
  }

  method ReadList(lines: seq<string>, start: nat) returns (block: Block, index: nat)
    requires start < |lines| && IsItem(lines[start])
    ensures ListAt(lines, start) == Run(start, index, Whole(block))
  {
    hide ItemOf, IsIndented, JoinLines, IsOrdered, Trim, ItemsOf;
    var items: seq<Item> := [];
    index := start;
    while index < |lines|
      invariant start <= index <= |lines| && (items == [] <==> index == start)
      invariant index > start ==> items == ItemsOf(lines[start..index])
      invariant RunEnd(lines, start, InList) == RunEnd(lines, index, InList)
    {
      var line := lines[index];
      if index > start {
        OneMoreLine(lines, start, index);
      } else {
        FirstLine(lines, start);
      }
      var next := ItemOf(line);
      if next.Some? {
        items := items + [next.value];
        index := index + 1;
        continue;
      }
      if items == [] || !IsIndented(line) {
        break;
      }
      var last := items[|items| - 1];
      items := items[..|items| - 1] + [last.(text := JoinLines([last.text, Trim(line, IsSpace)]))];
      index := index + 1;
    }
    block := List(IsOrdered(lines[start]), items);
  }

  lemma FirstLine(lines: seq<string>, start: nat)
    requires start < |lines| && IsItem(lines[start])
    ensures ItemsOf(lines[start..start + 1]) == AddLine([], lines[start])
  {
    hide AddLine, IsItem;
  }

  method ReadRows(lines: seq<string>, start: nat, columns: nat) returns (rows: seq<seq<string>>, index: nat)
    requires start <= |lines|
    ensures index == RunEnd(lines, start, IsRow) && rows == RowsOf(lines[start..index], columns)
  {
    hide CellsOf, IsBlank;
    rows := [];
    index := start;
    while index < |lines| && !IsBlank(lines[index]) && '|' in lines[index]
      invariant start <= index <= |lines| && rows == RowsOf(lines[start..index], columns)
      invariant RunEnd(lines, start, IsRow) == RunEnd(lines, index, IsRow)
    {
      var cells := SplitCells(lines[index]);
      rows := rows + [Fit(cells, columns)];
      index := index + 1;
    }
  }

  /** What one turn of the loop adds, and the paragraph it leaves open. */
  function Turn(blocks: seq<Block>, paragraph: seq<string>, piece: Piece): (seq<Block>, seq<string>) {
    match piece
    case Blank => (blocks + Flush(paragraph), [])
    case Text(line) => (blocks, paragraph + [line])
    case Whole(block) => (blocks + Flush(paragraph) + [block], [])
  }

  lemma TurnAssembles(blocks: seq<Block>, paragraph: seq<string>, lines: seq<string>, lo: nat)
    requires lo < |lines|
    ensures var run := RunAt(lines, lo);
            var (more, open) := Turn(blocks, paragraph, run.piece);
            more + Assemble(Runs(lines, run.hi), open) == blocks + Assemble(Runs(lines, lo), paragraph)
  {
    hide RunAt, Flush;
    var runs := Runs(lines, lo);
    assert runs[1..] == Runs(lines, RunAt(lines, lo).hi);
  }

  method FlushParagraph(blocks: seq<Block>, paragraph: seq<string>) returns (more: seq<Block>)
    ensures more == blocks + Flush(paragraph)
  {
    more := blocks;
    if |paragraph| > 0 {
      more := more + [Paragraph(JoinLines(paragraph))];
    }
  }

  /** A table at `start`, None when the line only happens to contain a pipe. */
  method ReadTable(lines: seq<string>, start: nat) returns (table: Option<Block>, index: nat)
    requires start < |lines|
    ensures table.Some? == StartsTable(lines, start)
    ensures table.Some? ==> TableAt(lines, start) == Run(start, index, Whole(table.value))
  {
    hide CellsOf, DelimiterOf;
    table, index := None, start;
    if '|' in lines[start] {
      var header := SplitCells(lines[start]);
      var align := DelimiterOf(LineAt(lines, start + 1), |header|);
      if align.Some? {
        assert StartsTable(lines, start);
        var rows;
        rows, index := ReadRows(lines, start + 2, |header|);
        assert lines[start..index][2..] == lines[start + 2..index];
        table := Some(Table(header, align.value, rows));
      }
    }
  }

  method ParseBlocks(source: string) returns (blocks: seq<Block>)
    ensures blocks == Parse(source)
  {
    hide IsFence, IsBlank, IsRule, HeadingText, IsQuote, IsItem, StartsTable, CodeAt, QuoteAt, ListAt, TableAt, Flush, Runs,
      Assemble;
    var lines := LinesOf(source);
    blocks := [];
    var paragraph: seq<string> := [];
    var index := 0;
    while index < |lines|
      invariant 0 <= index <= |lines| + 1
      invariant blocks + Assemble(Runs(lines, if index < |lines| then index else |lines|), paragraph) == Blocks(lines)
      decreases |lines| + 1 - index
    {
      var line := lines[index];
      ghost var turn, run := Turn(blocks, paragraph, RunAt(lines, index).piece), RunAt(lines, index);
      TurnAssembles(blocks, paragraph, lines, index);
      if IsFence(line) {
        blocks := FlushParagraph(blocks, paragraph);
        paragraph := [];
        var block;
        block, index := ReadCode(lines, index);
        blocks := blocks + [block];
      } else if IsBlank(line) {
        blocks := FlushParagraph(blocks, paragraph);
        paragraph := [];
      } else if IsRule(line) {
        blocks := FlushParagraph(blocks, paragraph);
        paragraph := [];
        blocks := blocks + [Rule];
      } else if HeadingText(line).Some? {
        blocks := FlushParagraph(blocks, paragraph);
        paragraph := [];
        blocks := blocks + [Heading(HeadingText(line).value)];
      } else if IsQuote(line) {
        blocks := FlushParagraph(blocks, paragraph);
        paragraph := [];
        var block;
        block, index := ReadQuote(lines, index);
        index := index - 1;
        blocks := blocks + [block];
      } else if IsItem(line) {
        blocks := FlushParagraph(blocks, paragraph);
        paragraph := [];
        var block;
        block, index := ReadList(lines, index);
        index := index - 1;
        blocks := blocks + [block];
      } else {
        var table, end := ReadTable(lines, index);
        if table.Some? {
          blocks := FlushParagraph(blocks, paragraph);
          paragraph := [];
          index := end - 1;
          blocks := blocks + [table.value];
        } else {
          paragraph := paragraph + [Trim(line, IsSpace)];
        }
      }
      assert (blocks, paragraph) == turn;
      index := index + 1;
      assert run.hi == if index < |lines| then index else |lines|;
    }
    blocks := FinishParagraph(lines, blocks, paragraph);
  }

  /** The last flush, after the loop. */
  method FinishParagraph(lines: seq<string>, blocks: seq<Block>, paragraph: seq<string>) returns (all: seq<Block>)
    ensures all == blocks + Assemble(Runs(lines, |lines|), paragraph)
  {
    all := FlushParagraph(blocks, paragraph);
  }
}
