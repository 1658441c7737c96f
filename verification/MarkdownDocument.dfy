/** A printer for whole documents, and the proof that the parser undoes it. */
module MarkdownDocument {
  import opened Common
  import opened MarkdownLines
  import opened TableRows
  import opened Markdown
  import opened MarkdownTheorems
  import opened MarkdownRoundTrip

  // ---- Printing -----------------------------------------------------------------------------------

  function PrintItem(ordered: bool, item: Item): string {
    (if item.depth == 0 then "" else "  ") + ((if ordered then "1." else "-") + (" " + item.text))
  }

  function PrintItems(ordered: bool, items: seq<Item>): (lines: seq<string>)
    ensures |lines| == |items| && forall i | 0 <= i < |items| :: lines[i] == PrintItem(ordered, items[i])
  {
    seq(|items|, i requires 0 <= i < |items| => PrintItem(ordered, items[i]))
  }

  function AlertWord(alert: Alert): string {
    match alert
    case Note => "NOTE"
    case Tip => "TIP"
    case Important => "IMPORTANT"
    case Warning => "WARNING"
    case Caution => "CAUTION"
  }

  function AlertMarker(alert: Alert): string {
    "[!" + AlertWord(alert) + "]"
  }

  function QuoteLines(alert: Option<Alert>, text: string): (texts: seq<string>)
    ensures texts != []
  {
    (if alert.Some? then [AlertMarker(alert.value)] else []) + [text]
  }

  function PrintQuote(texts: seq<string>): (lines: seq<string>)
    ensures |lines| == |texts| && forall i | 0 <= i < |texts| :: lines[i] == "> " + texts[i]
  {
    seq(|texts|, i requires 0 <= i < |texts| => "> " + texts[i])
  }

  function PrintBlock(block: Block): (lines: seq<string>)
    requires Faithful(block)
    ensures lines != []
  {
    match block
    case Heading(text) => ["# " + text]
    case Paragraph(text) => [text]
    case List(ordered, items) => PrintItems(ordered, items)
    case Quote(alert, text) => PrintQuote(QuoteLines(alert, text))
    case Code(text) => ["```"] + SplitLines(text) + ["```"]
    case Table(header, align, rows) => PrintTable(header, align, rows)
    case Rule => ["---"]
  }

  /** Blocks with a blank line between each two. */
  function PrintDocument(blocks: seq<Block>): (lines: seq<string>)
    requires blocks != [] && AllFaithful(blocks)
    ensures lines != []
  {
    if |blocks| == 1 then PrintBlock(blocks[0])
    else PrintBlock(blocks[0]) + [""] + PrintDocument(blocks[1..])
  }

  // ---- Blocks that have a printed form ------------------------------------------------------------

  ghost predicate ItemIsFaithful(item: Item) {
    OneLine(item.text) && (item.text == "" || !IsSpace(item.text[0])) && item.depth <= 1
  }

  /** What each kind of block can say in Markdown: the code keeps any lines but fences, a paragraph must not look like
      anything else, a heading must not end in number signs, and so on. */
  ghost predicate Faithful(block: Block) {
    match block
    case Heading(text) => HeadingSurvives(text)
    case Paragraph(text) =>
      Trim(text, IsSpace) == text && NoBreaks(text) && Unmarked(text)
    case List(_, items) => items != [] && forall i | 0 <= i < |items| :: ItemIsFaithful(items[i])
    case Quote(alert, text) => OneLine(text) && (IsBlank(text) ==> text == "") && (alert.None? ==> AlertOf(text).None?)
    case Code(text) => '\r' !in text && forall i | 0 <= i < |SplitLines(text)| :: !IsFence(SplitLines(text)[i])
    case Table(header, align, rows) =>
      Rectangular(header, align, rows) && Printable(header) && AllNoBreaks(header) &&
      forall i | 0 <= i < |rows| :: Printable(rows[i]) && AllNoBreaks(rows[i])
    case Rule => true
  }

  ghost predicate AllFaithful(blocks: seq<Block>) {
    forall i | 0 <= i < |blocks| :: Faithful(blocks[i])
  }

  // ---- Each block is one run ----------------------------------------------------------------------

  function PieceOf(block: Block): Piece {
    if block.Paragraph? then Text(block.text) else Whole(block)
  }

  ghost predicate IsOneRun(lines: seq<string>, block: Block)
    requires lines != []
  {
    RunAt(lines, 0) == Run(0, |lines|, PieceOf(block)) && ClosedAt(lines, 0) && AllNoBreaks(lines)
  }

  lemma OneLineHasNoBreaks(s: string)
    requires OneLine(s)
    ensures NoBreaks(s)
  {
  }

  lemma FirstCharacter(line: string)
    requires line != "" && !IsSpace(line[0])
    ensures Span(line, IsSpace) == 0 && TrimLeft(line, IsSpace) == line && !IsBlank(line)
    ensures Trim(line, IsSpace) != "" && Trim(line, IsSpace)[0] == line[0]
  {
    TrimRightPrefix(line, IsSpace);
  }

  lemma HashFirst(line: string)
    requires line != "" && line[0] == '#'
    ensures !IsFence(line) && !IsBlank(line) && !IsRule(line) && Span(line, IsSpace) == 0
  {
    FirstCharacter(line);
    hide IsSpace, Trim, TrimLeft, Span;
  }

  lemma {:induction false} TrimRightStays(s: string, p: char -> bool)
    ensures TrimRight(s, p) == s <==> s == "" || !p(s[|s| - 1])
  {
    TrimRightPrefix(s, p);
  }

  /** Nothing is taken off a text exactly when it is trimmed and does not end in a number sign. */
  lemma StripTakesNothing(text: string)
    ensures StripClosing(TrimLeft(text, IsSpace)) == text <==>
            Trimmed(text, IsSpace) && (text == "" || text[|text| - 1] != '#')
  {
    var core := TrimLeft(text, IsSpace);
    TrimLeftSuffix(text, IsSpace);
    var a := TrimRight(core, IsSpace);
    var b := TrimRight(a, IsHash);
    TrimRightPrefix(core, IsSpace);
    TrimRightPrefix(a, IsHash);
    TrimRightPrefix(b, IsSpace);
    hide TrimLeft, TrimRight;
    if StripClosing(core) == text {
      assert |text| <= |b| <= |a| <= |core| <= |text|;
      assert b == a == core == text;
    } else if Trimmed(text, IsSpace) && (text == "" || text[|text| - 1] != '#') {
      NotTrimmedAway(text);
      assert false;
    }
  }

  lemma NotTrimmedAway(text: string)
    requires Trimmed(text, IsSpace) && (text == "" || text[|text| - 1] != '#')
    ensures StripClosing(TrimLeft(text, IsSpace)) == text
  {
    TrimRightStays(text, IsSpace);
    TrimRightStays(text, IsHash);
  }

  /** A text a heading can carry. */
  predicate HeadingSurvives(text: string) {
    OneLine(text) && (text == "" || (!IsSpace(text[0]) && !IsSpace(text[|text| - 1]) && text[|text| - 1] != '#'))
  }

  lemma HeadingReads(text: string)
    ensures var line, read := "# " + text, StripClosing(TrimLeft(text, IsSpace));
            HeadingText(line) == (if OneLine(read) then Some(read) else None) &&
            !IsFence(line) && !IsBlank(line) && !IsRule(line)
  {
    hide StripClosing, TrimLeft, Span, IsFence, IsBlank, IsRule, OneLine, AllIn, IsSpace;
    var line, after := "# " + text, " " + text;
    HashFirst(line);
    HashThenSpace(after);
    assert line == "#" + after;
    SpanOf("#", after, IsHash);
    assert line[0..] == line && line[1..] == after;
    TrimLeftPadding(" ", text, IsSpace);
  }

  lemma HashThenSpace(after: string)
    requires after != "" && after[0] == ' '
    ensures AllIn("#", IsHash) && AllIn(" ", IsSpace) && IsSpace(after[0])
  {
  }

  /** A heading reads back as its text if and only if that is one trimmed line that does not end in a number sign. */
  lemma HeadingLine(text: string)
    ensures HeadingText("# " + text) == Some(text) <==> HeadingSurvives(text)
  {
    hide HeadingText, StripClosing, TrimLeft;
    HeadingReads(text);
    StripTakesNothing(text);
  }

  /** Number signs at the end are lost, whether or not a space comes before them: `# C#` reads as `C`. */
  lemma ClosingSignsAreLost(text: string, signs: string)
    requires HeadingSurvives(text) && AllIn(signs, IsHash)
    ensures HeadingText("# " + (text + signs)) == Some(text)
  {
    var line := text + signs;
    HeadingReads(line);
    assert line != "" ==> !IsSpace(line[0]) && !IsSpace(line[|line| - 1]);
    TrimRightStays(line, IsSpace);
    TrimRightPadding(text, signs, IsHash);
    TrimRightStays(text, IsHash);
    TrimRightStays(text, IsSpace);
    hide HeadingText;
  }

  lemma CSharpReadsAsC()
    ensures HeadingText("# C#") == Some("C")
  {
    ClosingSignsAreLost("C", "#");
    assert "# " + ("C" + "#") == "# C#";
  }

  lemma HeadingIsOneRun(text: string)
    requires Faithful(Heading(text))
    ensures IsOneRun(["# " + text], Heading(text))
  {
    hide IsFence, IsBlank, IsRule, OneLine, StripClosing, TrimLeft, IsQuote, IsItem, HeadingText, StartsTable, NoBreaks;
    HeadingReads(text);
    HeadingLine(text);
    OneLineHasNoBreaks(text);
    Prefixed("# ", text);
  }

  lemma Prefixed(mark: string, text: string)
    requires NoBreaks(mark) && NoBreaks(text)
    ensures NoBreaks(mark + text)
  {
  }

  lemma RuleIsOneRun()
    ensures IsOneRun(["---"], Rule)
  {
    FirstCharacter("---");
    assert Trim("---", IsSpace) == "---";
    assert IsRule("---") && !IsFence("---");
  }

  lemma ParagraphIsOneRun(text: string)
    requires Faithful(Paragraph(text))
    ensures IsOneRun([text], Paragraph(text))
  {
    hide IsFence, IsBlank, IsRule, HeadingText, IsQuote, IsItem, NoBreaks, Trim, CellsOf;
  }

  lemma TableIsOneRun(header: seq<string>, align: seq<Align>, rows: seq<seq<string>>)
    requires Faithful(Table(header, align, rows))
    ensures IsOneRun(PrintTable(header, align, rows), Table(header, align, rows))
  {
    hide Printable, AllNoBreaks, TableBlock, PrintTable, RunAt, Blocks, Trim, IsFence, StartsTable;
    var lines := PrintTable(header, align, rows);
    PrintedHasNoBreaks(header, align, rows);
    PrintedIsOneRun(header, align, rows);
    PrintedIsOneBlock(header, align, rows);
    PrintedStartsTable(header, align, rows);
    HeaderReadsBack(header);
    TableReadsBack(header, align, rows);
  }

  lemma {:induction false} RunToFence(body: seq<string>, fence: string, lo: nat)
    requires lo <= |body| && IsFence(fence) && forall i | lo <= i < |body| :: !IsFence(body[i])
    ensures RunEnd(["```"] + body + [fence], lo + 1, NotFence) == |body| + 1
    decreases |body| - lo
  {
    hide IsFence;
    if lo < |body| {
      RunToFence(body, fence, lo + 1);
    }
  }

  lemma JoinPrefixed(c: char, lines: seq<string>)
    requires lines != []
    ensures Join([[c] + lines[0]] + lines[1..]) == [c] + Join(lines)
  {
    var more := [[c] + lines[0]] + lines[1..];
    assert more[1..] == lines[1..];
    if |lines| > 1 {
      assert [c] + lines[0] + "\n" + Join(lines[1..]) == [c] + (lines[0] + "\n" + Join(lines[1..]));
    }
  }

  lemma {:induction false} JoinSplit(s: string)
    ensures Join(SplitLines(s)) == s
  {
    if s != "" {
      var rest := SplitLines(s[1..]);
      JoinSplit(s[1..]);
      assert s == [s[0]] + s[1..];
      hide Join;
      if s[0] == '\n' {
        JoinAfterBreak(rest);
      } else {
        JoinPrefixed(s[0], rest);
      }
    }
  }

  lemma JoinAfterBreak(lines: seq<string>)
    requires lines != []
    ensures Join([""] + lines) == "\n" + Join(lines)
  {
    assert ([""] + lines)[1..] == lines;
  }

  lemma FenceIsFence()
    ensures IsFence("```") && NoBreaks("```")
  {
  }

  lemma FencedIsOneRun(body: seq<string>)
    requires forall i | 0 <= i < |body| :: !IsFence(body[i])
    ensures var lines := ["```"] + body + ["```"];
            RunAt(lines, 0) == Run(0, |lines|, Whole(Code(Join(body)))) && ClosedAt(lines, 0)
  {
    hide IsFence, Join, RunEnd, IsBlank, IsRule, HeadingText, IsQuote, IsItem, StartsTable, QuoteAt, ListAt, TableAt;
    FenceIsFence();
    var lines := ["```"] + body + ["```"];
    RunToFence(body, "```", 0);
    assert lines[1..|body| + 1] == body;
  }

  /** Whatever follows the marks on the opening fence, and whether or not a fence closes it: code is the lines between. */
  lemma FencedCodeParses(opening: string, body: seq<string>, closing: seq<string>)
    requires IsFence(opening) && (forall i | 0 <= i < |body| :: !IsFence(body[i]))
    requires |closing| <= 1 && (closing != [] ==> IsFence(closing[0])) && AllNoBreaks([opening] + body + closing)
    ensures Parse(Join([opening] + body + closing)) == [Code(Join(body))]
  {
    hide IsFence, Join, RunAt, ClosedAt, LinesOf, Blocks, AllNoBreaks;
    var lines := [opening] + body + closing;
    LinesOfJoined(lines);
    FencedRun(opening, body, closing);
    BlocksOfOneRun(lines, Code(Join(body)));
  }

  lemma FencedRun(opening: string, body: seq<string>, closing: seq<string>)
    requires IsFence(opening) && (forall i | 0 <= i < |body| :: !IsFence(body[i]))
    requires |closing| <= 1 && (closing != [] ==> IsFence(closing[0]))
    ensures var lines := [opening] + body + closing; RunAt(lines, 0) == Run(0, |lines|, Whole(Code(Join(body))))
  {
    hide IsFence, Join, RunEnd, IsBlank, IsRule, HeadingText, IsQuote, IsItem, StartsTable, QuoteAt, ListAt, TableAt;
    var lines := [opening] + body + closing;
    CodeEnds(lines, 0, |body|);
    assert lines[1..|body| + 1] == body;
  }

  lemma {:induction false} CodeEnds(lines: seq<string>, lo: nat, n: nat)
    requires lo <= n < |lines| && (forall i | lo < i <= n :: !IsFence(lines[i])) && (n + 1 < |lines| ==> IsFence(lines[n + 1]))
    ensures RunEnd(lines, lo + 1, NotFence) == n + 1
    decreases n - lo
  {
    hide IsFence;
    if lo < n {
      CodeEnds(lines, lo + 1, n);
    }
  }

  lemma BlocksOfOneRun(lines: seq<string>, block: Block)
    requires lines != [] && RunAt(lines, 0) == Run(0, |lines|, Whole(block))
    ensures Blocks(lines) == [block]
  {
    hide RunAt;
    AssembleAt(lines, 0, []);
  }

  lemma CodeIsOneRun(text: string)
    requires Faithful(Code(text))
    ensures IsOneRun(["```"] + SplitLines(text) + ["```"], Code(text))
  {
    LinesHaveNoReturn(text);
    JoinSplit(text);
    hide IsFence, Join, SplitLines, NoBreaks, RunAt, ClosedAt;
    FenceIsFence();
    FencedIsOneRun(SplitLines(text));
  }

  lemma QuoteLine(text: string)
    requires OneLine(text)
    ensures QuoteText("> " + text) == Some(text) && NoBreaks("> " + text)
    ensures var line := "> " + text; !IsFence(line) && !IsBlank(line) && !IsRule(line) && HeadingText(line).None?
  {
    var line := "> " + text;
    FirstCharacter(line);
    OneLineHasNoBreaks(text);
    assert line[1..] == " " + text && (" " + text)[1..] == text;
    assert line[0..] == line;
  }

  lemma MarkerReads(word: string)
    requires OneLine(word)
    ensures var marker := "[!" + word + "]";
            OneLine(marker) && !IsBlank(marker) && TrimRight(marker, IsSpace) == marker && "[!" <= marker &&
            marker[|marker| - 1] == ']' && marker[2..|marker| - 1] == word
  {
    FirstCharacter("[!" + word + "]");
  }

  lemma AlertWordReads(alert: Alert)
    ensures AlertNamed(LowerCase(AlertWord(alert))) == Some(alert) && OneLine(AlertWord(alert))
  {
    match alert
    case Note => assert LowerCase("NOTE") == "note";
    case Tip => assert LowerCase("TIP") == "tip";
    case Important => assert LowerCase("IMPORTANT") == "important";
    case Warning => assert LowerCase("WARNING") == "warning";
    case Caution => assert LowerCase("CAUTION") == "caution";
  }

  lemma AlertMarkerReads(alert: Alert)
    ensures var marker := AlertMarker(alert); AlertOf(marker) == Some(alert) && OneLine(marker) && !IsBlank(marker)
  {
    AlertWordReads(alert);
    hide OneLine, IsBlank, TrimRight, AlertNamed, LowerCase, AlertWord;
    MarkerReads(AlertWord(alert));
  }

  lemma {:induction false} QuoteReadsBack(texts: seq<string>)
    requires forall i | 0 <= i < |texts| :: OneLine(texts[i])
    ensures var lines := PrintQuote(texts);
            (forall i | 0 <= i < |lines| :: IsQuote(lines[i]) && NoBreaks(lines[i])) && QuoteTexts(lines) == texts
  {
    hide QuoteText, OneLine, NoBreaks;
    var lines, n := PrintQuote(texts), |texts| - 1;
    forall i | 0 <= i < |lines| ensures IsQuote(lines[i]) && NoBreaks(lines[i]) {
      QuoteLine(texts[i]);
    }
    if texts != [] {
      QuoteReadsBack(texts[..n]);
      assert lines[..n] == PrintQuote(texts[..n]);
      QuoteLine(texts[n]);
      assert texts == texts[..n] + [texts[n]];
    }
  }

  lemma QuotedIsOneRun(texts: seq<string>)
    requires texts != [] && forall i | 0 <= i < |texts| :: OneLine(texts[i])
    ensures var lines := PrintQuote(texts);
            RunAt(lines, 0) == Run(0, |lines|, Whole(QuoteBlock(texts))) && !IsFence(lines[0]) && AllNoBreaks(lines)
  {
    hide IsFence, IsBlank, IsRule, HeadingText, QuoteText, OneLine, NoBreaks, QuoteBlock, PrintQuote, RunEnd, QuoteTexts,
      CodeAt, ListAt, TableAt, StartsTable, IsItem, Trim;
    var lines := PrintQuote(texts);
    QuoteReadsBack(texts);
    QuoteLine(texts[0]);
    RunToTheEnd(lines, 0, IsQuote);
    assert lines[0..|lines|] == lines;
  }

  lemma QuoteIsOneRun(alert: Option<Alert>, text: string)
    requires Faithful(Quote(alert, text))
    ensures IsOneRun(PrintQuote(QuoteLines(alert, text)), Quote(alert, text))
  {
    hide QuoteBlock, QuoteLines, PrintQuote, RunAt, OneLine, AllNoBreaks, IsBlank, AlertOf, IsFence;
    QuoteTextsAreOneLine(alert, text);
    QuoteBlockReadsBack(alert, text);
    QuotedIsOneRun(QuoteLines(alert, text));
  }

  lemma QuoteTextsAreOneLine(alert: Option<Alert>, text: string)
    requires OneLine(text)
    ensures forall i | 0 <= i < |QuoteLines(alert, text)| :: OneLine(QuoteLines(alert, text)[i])
  {
    hide OneLine, AlertMarker;
    if alert.Some? {
      AlertMarkerReads(alert.value);
    }
  }

  lemma JoinOne(text: string)
    requires IsBlank(text) ==> text == ""
    ensures JoinLines(NonBlank([text])) == text
  {
    hide IsBlank, Glue;
    var lines := [text];
    assert lines[..0] == [];
    assert NonBlank(lines) == if IsBlank(text) then [] else lines;
  }

  lemma QuoteBlockReadsBack(alert: Option<Alert>, text: string)
    requires Faithful(Quote(alert, text))
    ensures QuoteBlock(QuoteLines(alert, text)) == Quote(alert, text)
  {
    hide IsBlank, AlertOf, OneLine, AlertMarker, JoinLines, NonBlank;
    JoinOne(text);
    if alert.Some? {
      AlertMarkerReads(alert.value);
      assert QuoteLines(alert, text)[1..] == [text];
    } else {
      assert QuoteLines(alert, text) == [text];
    }
  }

  /** A line that starts, after any indentation, with a marker is nothing else. */
  lemma MarkerFirst(lead: string, body: string)
    requires AllIn(lead, IsSpace) && |body| >= 2 && (body[..2] == "- " || body[..2] == "1.")
    ensures var line := lead + body;
            !IsFence(line) && !IsBlank(line) && !IsRule(line) && HeadingText(line).None? && !IsQuote(line) &&
            (IsOrdered(line) <==> body[0] == '1')
  {
    var line := lead + body;
    assert body[0] == body[..2][0] && body[1] == body[..2][1];
    SpanOf(lead, body, IsSpace);
    TrimLeftPadding(lead, body, IsSpace);
    FirstCharacter(body);
    TrimRightPrefix(body, IsSpace);
    assert line[|lead|..] == body;
    var core := Trim(line, IsSpace);
    assert core == TrimRight(body, IsSpace) && core[0] == body[0];
    if |core| >= 2 {
      assert core[1] == body[1];
    }
    hide TrimRight, TrimLeft, IsSpace;
  }

  lemma ItemHasShape(ordered: bool, item: Item)
    requires ItemIsFaithful(item)
    ensures var lead, marker := if item.depth == 0 then "" else "  ", if ordered then "1." else "-";
            ItemShape(PrintItem(ordered, item), lead, marker, " ", item.text) && NoBreaks(PrintItem(ordered, item))
  {
    assert Span("1.", IsDigit) == 1;
    OneLineHasNoBreaks(item.text);
    hide OneLine, Span;
  }

  lemma ItemLine(ordered: bool, item: Item)
    requires ItemIsFaithful(item)
    ensures var line := PrintItem(ordered, item);
            ItemOf(line) == Some(item) && IsOrdered(line) == ordered && NoBreaks(line) &&
            !IsFence(line) && !IsBlank(line) && !IsRule(line) && HeadingText(line).None? && !IsQuote(line)
  {
    hide IsMarker, IsSpace, OneLine, IsFence, IsBlank, IsRule, HeadingText, IsQuote, IsOrdered, AllIn, ItemOf, NoBreaks;
    var lead := if item.depth == 0 then "" else "  ";
    var marker := if ordered then "1." else "-";
    var body := marker + (" " + item.text);
    ItemHasShape(ordered, item);
    assert body[..2] == if ordered then "1." else "- ";
    MarkerFirst(lead, body);
    ItemReads(lead + body, lead, marker, " ", item.text);
  }

  lemma PrintItemsPrefix(ordered: bool, items: seq<Item>, n: nat)
    requires n <= |items|
    ensures PrintItems(ordered, items)[..n] == PrintItems(ordered, items[..n])
  {
    hide PrintItem;
  }

  lemma {:induction false} ItemsReadBack(ordered: bool, items: seq<Item>)
    requires items != [] && forall i | 0 <= i < |items| :: ItemIsFaithful(items[i])
    ensures IsItem(PrintItems(ordered, items)[0]) && ItemsOf(PrintItems(ordered, items)) == items
  {
    hide ItemOf, IsOrdered, ItemIsFaithful, PrintItem, IsFence, IsBlank, IsRule, HeadingText, IsQuote, NoBreaks, Trim, JoinLines;
    var lines, n := PrintItems(ordered, items), |items| - 1;
    ItemLine(ordered, items[0]);
    ItemLine(ordered, items[n]);
    if n > 0 {
      ItemsReadBack(ordered, items[..n]);
      PrintItemsPrefix(ordered, items, n);
    }
    assert items == items[..n] + [items[n]];
  }

  lemma ListIsOneRun(ordered: bool, items: seq<Item>)
    requires Faithful(List(ordered, items))
    ensures IsOneRun(PrintItems(ordered, items), List(ordered, items))
  {
    hide ItemOf, IsOrdered, ItemIsFaithful, PrintItem, IsFence, IsBlank, IsRule, HeadingText, IsQuote, NoBreaks, ItemsOf;
    var lines := PrintItems(ordered, items);
    forall i | 0 <= i < |lines| ensures IsItem(lines[i]) && NoBreaks(lines[i]) {
      ItemLine(ordered, items[i]);
    }
    ItemLine(ordered, items[0]);
    ItemsReadBack(ordered, items);
    RunToTheEnd(lines, 0, InList);
    assert lines[0..|lines|] == lines;
  }

  lemma BlockIsOneRun(block: Block)
    requires Faithful(block)
    ensures IsOneRun(PrintBlock(block), block)
  {
    hide IsOneRun;
    match block
    case Heading(text) => HeadingIsOneRun(text);
    case Paragraph(text) => ParagraphIsOneRun(text);
    case List(ordered, items) => ListIsOneRun(ordered, items);
    case Quote(alert, text) => QuoteIsOneRun(alert, text);
    case Code(text) => CodeIsOneRun(text);
    case Table(header, align, rows) => TableIsOneRun(header, align, rows);
    case Rule => RuleIsOneRun();
  }

  // ---- The document -------------------------------------------------------------------------------

  lemma OneRunIsOneBlock(lines: seq<string>, block: Block)
    requires lines != [] && IsOneRun(lines, block)
    ensures Blocks(lines) == [block] && ClosesFences(lines, 0)
  {
    hide RunAt, ClosedAt, AllNoBreaks;
    AssembleAt(lines, 0, []);
    if block.Paragraph? {
      assert JoinLines([block.text]) == block.text;
      assert [] + [block.text] == [block.text];
    }
  }

  lemma {:induction false} DocumentReadsBack(blocks: seq<Block>)
    requires blocks != [] && AllFaithful(blocks)
    ensures Blocks(PrintDocument(blocks)) == blocks && AllNoBreaks(PrintDocument(blocks))
  {
    hide Faithful, PrintBlock, Blocks;
    var first := PrintBlock(blocks[0]);
    BlockIsOneRun(blocks[0]);
    OneRunIsOneBlock(first, blocks[0]);
    hide RunAt, ClosedAt, ClosesFences;
    if |blocks| > 1 {
      var rest := blocks[1..];
      DocumentReadsBack(rest);
      BlankLineSeparates(first, "", PrintDocument(rest));
      assert blocks == [blocks[0]] + rest;
    } else {
      assert blocks == [blocks[0]];
    }
  }

  /** Parsing undoes printing: whatever faithful blocks a document is made of, in whatever order, its text is parsed as
      exactly those blocks. */
  lemma PrintedDocumentParses(blocks: seq<Block>)
    requires blocks != [] && AllFaithful(blocks)
    ensures Parse(Join(PrintDocument(blocks))) == blocks
  {
    hide AllFaithful, PrintDocument, Blocks, AllNoBreaks, LinesOf;
    DocumentReadsBack(blocks);
    LinesOfJoined(PrintDocument(blocks));
  }
}
