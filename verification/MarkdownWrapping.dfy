/** Paragraphs, quotes and list items wrapped over several lines, and the one text each is read as. */
module MarkdownWrapping {
  import opened Common
  import opened MarkdownLines
  import opened TableRows
  import opened Markdown
  import opened MarkdownTheorems
  import opened MarkdownRoundTrip
  import opened MarkdownDocument

  // ---- A paragraph ------------------------------------------------------------------------------------

  /** Lines that are text, none of them the head of a table. */
  ghost predicate PlainText(lines: seq<string>) {
    forall i | 0 <= i < |lines| :: Unmarked(lines[i]) && NoBreaks(lines[i]) && !StartsTable(lines, i)
  }

  function Trims(lines: seq<string>): (trims: seq<string>)
    ensures |trims| == |lines| && forall i | 0 <= i < |lines| :: trims[i] == Trim(lines[i], IsSpace)
  {
    seq(|lines|, i requires 0 <= i < |lines| => Trim(lines[i], IsSpace))
  }

  lemma TextRun(lines: seq<string>, lo: nat)
    requires lo < |lines| && Unmarked(lines[lo]) && !StartsTable(lines, lo)
    ensures RunAt(lines, lo) == Run(lo, lo + 1, Text(Trim(lines[lo], IsSpace))) && Trim(lines[lo], IsSpace) != ""
  {
    hide IsFence, IsRule, HeadingText, IsQuote, IsItem, StartsTable, Trim;
  }

  lemma {:induction false} TextGathers(lines: seq<string>, lo: nat, paragraph: seq<string>)
    requires lo <= |lines| && PlainText(lines) && (lo == |lines| ==> paragraph != [])
    ensures Assemble(Runs(lines, lo), paragraph) == [Paragraph(JoinLines(paragraph + Trims(lines)[lo..]))]
    decreases |lines| - lo
  {
    hide Unmarked, StartsTable, RunAt, JoinLines, Trim;
    if lo < |lines| {
      TextRun(lines, lo);
      TextGathers(lines, lo + 1, paragraph + [Trim(lines[lo], IsSpace)]);
      assert Trims(lines)[lo..] == [Trim(lines[lo], IsSpace)] + Trims(lines)[lo + 1..];
      assert paragraph + [Trim(lines[lo], IsSpace)] + Trims(lines)[lo + 1..] == paragraph + Trims(lines)[lo..];
    } else {
      assert paragraph + Trims(lines)[lo..] == paragraph;
    }
  }

  /** Lines of text are one paragraph: the trimmed lines, each two joined by the seam that belongs between them. */
  lemma WrappedParagraphParses(lines: seq<string>)
    requires lines != [] && PlainText(lines)
    ensures Parse(Join(lines)) == [Paragraph(Woven(Trims(lines)))]
  {
    hide PlainText, Woven, JoinLines, Join, LinesOf, Trim, Runs, Assemble, Trims, AllNoBreaks;
    TextLines(lines);
    LinesAreWoven(Trims(lines));
    TextGathers(lines, 0, []);
    assert [] + Trims(lines)[0..] == Trims(lines);
    LinesOfJoined(lines);
  }

  lemma TextLines(lines: seq<string>)
    requires PlainText(lines)
    ensures AllNoBreaks(lines) && forall i | 0 <= i < |lines| :: Trims(lines)[i] != ""
  {
    hide Unmarked, StartsTable, Trim, NoBreaks;
    forall i | 0 <= i < |lines| ensures Trims(lines)[i] != "" {
      TextRun(lines, i);
    }
  }

  predicate IsLetter(c: char) {
    'a' <= c <= 'z' || 'A' <= c <= 'Z' || IsIdeograph(c)
  }

  /** A line that starts with a letter is text. */
  lemma LettersArePlain(line: string)
    requires line != "" && IsLetter(line[0]) && !IsSpace(line[0])
    ensures Unmarked(line)
  {
    FirstCharacter(line);
    assert line[0..] == line;
    var text := Trim(line, IsSpace);
    assert text[0] == line[0];
    assert Span(line, IsHash) == 0 && Span(line, IsDigit) == 0;
  }

  lemma NoTable(lines: seq<string>, lo: nat)
    requires lo < |lines| && '|' !in lines[lo]
    ensures !StartsTable(lines, lo)
  {
  }

  /** Two wrapped lines of Latin text are joined by a space, and two of Chinese by nothing. */
  lemma WrappedTextReads()
    ensures Parse(Join(["Hello", "world"])) == [Paragraph("Hello world")]
    ensures Parse(Join(["\U{4F60}", "\U{597D}"])) == [Paragraph("\U{4F60}\U{597D}")]
  {
    hide Parse, Join, Seam;
    TwoLinesRead("Hello", "world");
    LatinSeam("Hello", "world");
    assert "Hello" + " " + "world" == "Hello world";
    TwoLinesRead("\U{4F60}", "\U{597D}");
    ChineseSeam("\U{4F60}", "\U{597D}");
    assert "\U{4F60}" + "" + "\U{597D}" == "\U{4F60}\U{597D}";
  }

  lemma LatinSeam(above: string, below: string)
    requires above != "" && 'a' <= above[|above| - 1] <= 'z'
    ensures Seam(above, below) == " "
  {
    assert !IsIdeograph(above[|above| - 1]) && !IsEmphasis(above[|above| - 1]);
    TailIsIdeograph(above);
  }

  lemma ChineseSeam(above: string, below: string)
    requires above != "" && below != "" && IsIdeograph(above[|above| - 1]) && IsIdeograph(below[0])
    ensures Seam(above, below) == ""
  {
    assert EndsInIdeograph(above) && StartsWithIdeograph(below);
  }

  lemma NothingAround(line: string)
    requires line != "" && !IsSpace(line[0]) && !IsSpace(line[|line| - 1])
    ensures Trim(line, IsSpace) == line
  {
    hide IsSpace;
  }

  lemma TwoLinesRead(above: string, below: string)
    requires above != "" && below != "" && IsLetter(above[0]) && IsLetter(below[0])
    requires !IsSpace(above[0]) && !IsSpace(below[0]) && !IsSpace(above[|above| - 1]) && !IsSpace(below[|below| - 1])
    requires NoBreaks(above) && NoBreaks(below) && '|' !in above && '|' !in below
    ensures Parse(Join([above, below])) == [Paragraph(above + Seam(above, below) + below)]
  {
    hide Unmarked, StartsTable, Seam, NoBreaks, IsLetter, IsSpace, Trim, Parse, Join;
    var lines := [above, below];
    NothingAround(above);
    NothingAround(below);
    LettersArePlain(above);
    LettersArePlain(below);
    forall i | 0 <= i < |lines| ensures Unmarked(lines[i]) && NoBreaks(lines[i]) && !StartsTable(lines, i) {
      NoTable(lines, i);
    }
    WrappedParagraphParses(lines);
    assert Trims(lines) == lines && lines[..1] == [above];
    assert Woven([above]) == above;
  }

  // ---- A quote ----------------------------------------------------------------------------------------

  lemma {:induction false} NothingBlank(lines: seq<string>)
    requires forall i | 0 <= i < |lines| :: !IsBlank(lines[i])
    ensures NonBlank(lines) == lines
  {
    hide IsBlank;
    if lines != [] {
      NothingBlank(lines[..|lines| - 1]);
      assert lines == lines[..|lines| - 1] + [lines[|lines| - 1]];
    }
  }

  /** The lines of a quote, under the marker of an alert if it is one. */
  function Quoted(alert: Option<Alert>, texts: seq<string>): seq<string> {
    PrintQuote((if alert.Some? then [AlertMarker(alert.value)] else []) + texts)
  }

  /** A quote's lines are one text, joined as a paragraph's are. */
  lemma WrappedQuoteParses(alert: Option<Alert>, texts: seq<string>)
    requires texts != [] && forall i | 0 <= i < |texts| :: OneLine(texts[i]) && !IsBlank(texts[i])
    requires alert.None? ==> AlertOf(texts[0]).None?
    ensures Parse(Join(Quoted(alert, texts))) == [Quote(alert, Woven(texts))]
  {
    hide OneLine, IsBlank, AlertOf, AlertMarker, Woven, PrintQuote, QuoteBlock, Join, Parse;
    if alert.Some? {
      AlertMarkerReads(alert.value);
    }
    QuoteIsWoven(alert, texts);
    QuotedParses((if alert.Some? then [AlertMarker(alert.value)] else []) + texts);
  }

  lemma QuotedParses(texts: seq<string>)
    requires texts != [] && forall i | 0 <= i < |texts| :: OneLine(texts[i])
    ensures Parse(Join(PrintQuote(texts))) == [QuoteBlock(texts)]
  {
    hide OneLine, PrintQuote, QuoteBlock, Join, LinesOf, Blocks, AllNoBreaks;
    QuotedIsOneBlock(texts);
    LinesOfJoined(PrintQuote(texts));
  }

  lemma QuotedIsOneBlock(texts: seq<string>)
    requires texts != [] && forall i | 0 <= i < |texts| :: OneLine(texts[i])
    ensures Blocks(PrintQuote(texts)) == [QuoteBlock(texts)] && AllNoBreaks(PrintQuote(texts))
  {
    hide OneLine, PrintQuote, QuoteBlock, RunAt, Blocks, AllNoBreaks, IsFence;
    QuotedIsOneRun(texts);
    QuoteIsWhole(texts);
    OneRunIsOneBlock(PrintQuote(texts), QuoteBlock(texts));
  }

  lemma QuoteIsWhole(texts: seq<string>)
    requires texts != []
    ensures PieceOf(QuoteBlock(texts)) == Whole(QuoteBlock(texts))
  {
    hide AlertOf, JoinLines, NonBlank;
  }

  lemma QuoteIsWoven(alert: Option<Alert>, texts: seq<string>)
    requires texts != [] && forall i | 0 <= i < |texts| :: !IsBlank(texts[i])
    requires alert.None? ==> AlertOf(texts[0]).None?
    ensures QuoteBlock((if alert.Some? then [AlertMarker(alert.value)] else []) + texts) == Quote(alert, Woven(texts))
  {
    var all := (if alert.Some? then [AlertMarker(alert.value)] else []) + texts;
    forall i | 0 <= i < |texts| ensures texts[i] != "" {
      assert !IsBlank(texts[i]);
    }
    hide IsBlank, AlertOf, AlertMarker, Woven, JoinLines, NonBlank;
    NothingBlank(texts);
    LinesAreWoven(texts);
    if alert.Some? {
      AlertMarkerReads(alert.value);
      assert all[0] == AlertMarker(alert.value) && all[1..] == texts;
    } else {
      assert all == texts;
    }
  }

  lemma {:induction false} BlankIsDropped(above: seq<string>, blank: string, below: seq<string>)
    requires IsBlank(blank)
    ensures NonBlank(above + [blank] + below) == NonBlank(above + below)
  {
    hide IsBlank;
    var all := above + [blank] + below;
    if below == [] {
      assert all[..|all| - 1] == above && above + below == above;
    } else {
      var init := below[..|below| - 1];
      assert all[..|all| - 1] == above + [blank] + init;
      assert (above + below)[..|above + below| - 1] == above + init;
      BlankIsDropped(above, blank, init);
    }
  }

  /** A blank line inside a quote is as good as none. */
  lemma BlankQuoteLineParses(alert: Option<Alert>, above: seq<string>, blank: string, below: seq<string>)
    requires above != [] && IsBlank(blank) && OneLine(blank)
    requires (forall i | 0 <= i < |above| :: OneLine(above[i])) && forall i | 0 <= i < |below| :: OneLine(below[i])
    ensures Parse(Join(Quoted(alert, above + [blank] + below))) == Parse(Join(Quoted(alert, above + below)))
  {
    hide OneLine, IsBlank, AlertOf, AlertMarker, PrintQuote, QuoteBlock, Join, Parse;
    var marker := if alert.Some? then [AlertMarker(alert.value)] else [];
    if alert.Some? {
      AlertMarkerReads(alert.value);
    }
    assert marker + (above + [blank] + below) == marker + above + [blank] + below;
    assert marker + (above + below) == marker + above + below;
    SameQuote(marker + above, blank, below);
    QuotedParses(marker + above + [blank] + below);
    QuotedParses(marker + above + below);
  }

  lemma SameQuote(above: seq<string>, blank: string, below: seq<string>)
    requires above != [] && IsBlank(blank)
    ensures QuoteBlock(above + [blank] + below) == QuoteBlock(above + below)
  {
    hide IsBlank, AlertOf, NonBlank, JoinLines;
    BlankIsDropped(above, blank, below);
    BlankIsDropped(above[1..], blank, below);
    assert (above + [blank] + below)[1..] == above[1..] + [blank] + below;
    assert (above + below)[1..] == above[1..] + below;
  }

  // ---- A list item --------------------------------------------------------------------------------------

  /** A line that goes on with the item above it. */
  ghost predicate Continues(line: string) {
    IsIndented(line) && !IsItem(line) && NoBreaks(line)
  }

  function ItemLines(ordered: bool, item: Item, more: seq<string>): seq<string> {
    [PrintItem(ordered, item)] + more
  }

  lemma ContinuedIsNotEmpty(line: string)
    requires Continues(line)
    ensures Trim(line, IsSpace) != ""
  {
  }

  lemma {:induction false} ItemGathers(ordered: bool, item: Item, more: seq<string>)
    requires ItemIsFaithful(item) && item.text != "" && forall i | 0 <= i < |more| :: Continues(more[i])
    ensures IsItem(ItemLines(ordered, item, more)[0])
    ensures ItemsOf(ItemLines(ordered, item, more)) == [item.(text := JoinLines([item.text] + Trims(more)))]
  {
    hide ItemOf, ItemsOf, IsOrdered, ItemIsFaithful, PrintItem, IsIndented, IsFence, IsBlank, IsRule, HeadingText, IsQuote,
      NoBreaks, Trim, JoinLines;
    var n := |more| - 1;
    ItemLine(ordered, item);
    if more == [] {
      OneItem(PrintItem(ordered, item), item);
      assert ItemLines(ordered, item, more) == [PrintItem(ordered, item)] && [item.text] + Trims(more) == [item.text];
      JoinsOne(item.text);
    } else {
      ItemGathers(ordered, item, more[..n]);
      assert Continues(more[n]);
      assert ItemLines(ordered, item, more)[..n + 1] == ItemLines(ordered, item, more[..n]);
      LineIsAdded(ItemLines(ordered, item, more), item.(text := JoinLines([item.text] + Trims(more[..n]))));
      assert [item.text] + Trims(more) == [item.text] + Trims(more[..n]) + [Trim(more[n], IsSpace)];
      JoinsAgain([item.text] + Trims(more[..n]), Trim(more[n], IsSpace));
    }
  }

  lemma OneItem(line: string, item: Item)
    requires ItemOf(line) == Some(item)
    ensures ItemsOf([line]) == [item]
  {
    hide ItemOf;
  }

  lemma JoinsAgain(lines: seq<string>, line: string)
    ensures JoinLines([JoinLines(lines), line]) == JoinLines(lines + [line])
  {
    JoinsOneMore(lines, line);
    JoinsOneMore([JoinLines(lines)], line);
    JoinsOne(JoinLines(lines));
    hide JoinLines, JoinTwo;
    assert [JoinLines(lines)] + [line] == [JoinLines(lines), line];
  }

  lemma LineIsAdded(lines: seq<string>, item: Item)
    requires |lines| > 1 && IsItem(lines[0]) && !IsItem(lines[|lines| - 1])
    requires ItemsOf(lines[..|lines| - 1]) == [item]
    ensures ItemsOf(lines) == [item.(text := JoinLines([item.text, Trim(lines[|lines| - 1], IsSpace)]))]
  {
    hide ItemOf, JoinLines, Trim;
  }

  lemma JoinsOne(text: string)
    ensures JoinLines([text]) == text
  {
    assert [text][..0] == [];
  }

  lemma JoinsOneMore(lines: seq<string>, line: string)
    ensures JoinLines(lines + [line]) == JoinTwo(JoinLines(lines), line)
  {
    assert (lines + [line])[..|lines|] == lines;
  }

  /** An item and the indented lines under it are one item, its text joined as a paragraph's is. */
  lemma WrappedItemParses(ordered: bool, item: Item, more: seq<string>)
    requires ItemIsFaithful(item) && item.text != "" && forall i | 0 <= i < |more| :: Continues(more[i])
    ensures Parse(Join(ItemLines(ordered, item, more))) ==
            [List(ordered, [item.(text := Woven([item.text] + Trims(more)))])]
  {
    hide ItemOf, IsOrdered, ItemIsFaithful, PrintItem, IsIndented, IsFence, IsBlank, IsRule, HeadingText, IsQuote, NoBreaks,
      Trim, ItemsOf, Woven, JoinLines, Join, LinesOf, Blocks;
    var lines, texts := ItemLines(ordered, item, more), [item.text] + Trims(more);
    ItemLine(ordered, item);
    ItemGathers(ordered, item, more);
    forall i | 0 <= i < |texts| ensures texts[i] != "" {
      if i > 0 {
        assert Continues(more[i - 1]);
        ContinuedIsNotEmpty(more[i - 1]);
      }
    }
    LinesAreWoven(texts);
    forall i | 0 <= i < |lines| ensures InList(lines[i]) && NoBreaks(lines[i]) {
      assert i > 0 ==> Continues(lines[i]);
    }
    RunToTheEnd(lines, 0, InList);
    assert lines[0..|lines|] == lines;
    OneRunIsOneBlock(lines, List(ordered, [item.(text := Woven(texts))]));
    LinesOfJoined(lines);
  }
}
