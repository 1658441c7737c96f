/** The rows of a pipe table: the lexer that splits one into cells, the delimiter row, and the printer that undoes it. */
module TableRows {
  import opened Common
  import opened MarkdownLines

  // ---- Splitting ----------------------------------------------------------------------------------

  /** The row without its surrounding space and without the pipes at its two ends. */
  function Inside(line: string): string {
    var trimmed := Trim(line, IsSpace);
    var text := if "|" <= trimmed then trimmed[1..] else trimmed;
    if EndsWith(text, "|") && !EndsWith(text, "\\|") then text[..|text| - 1] else text
  }

  predicate EndsWith(s: string, end: string) {
    |end| <= |s| && s[|s| - |end|..] == end
  }

  /** The cells of `text` when `cell` has been read of the first one so far, inside inline code or not. */
  function CellsFrom(text: string, cell: string, code: bool): (cells: seq<string>)
    ensures cells != []
    decreases |text|
  {
    if text == "" then [Trim(cell, IsSpace)]
    else if "\\|" <= text then CellsFrom(text[2..], cell + "|", code)
    else if text[0] == '|' && !code then [Trim(cell, IsSpace)] + CellsFrom(text[1..], "", false)
    else CellsFrom(text[1..], cell + [text[0]], code != (text[0] == '`'))
  }

  function CellsOf(line: string): (cells: seq<string>) {
    CellsFrom(Inside(line), "", false)
  }

  /** One character of the loop, or two for an escaped pipe. */
  lemma CellsFromIndex(text: string, index: nat, cell: string, code: bool)
    requires index <= |text|
    ensures CellsFrom(text[index..], cell, code) ==
            if index == |text| then [Trim(cell, IsSpace)]
            else if text[index] == '\\' && index + 1 < |text| && text[index + 1] == '|' then
              CellsFrom(text[index + 2..], cell + "|", code)
            else if text[index] == '|' && !code then
              [Trim(cell, IsSpace)] + CellsFrom(text[index + 1..], "", false)
            else CellsFrom(text[index + 1..], cell + [text[index]], code != (text[index] == '`'))
  {
    hide Trim, IsSpace;
    var rest := text[index..];
    if index < |text| {
      assert rest[1..] == text[index + 1..];
      if index + 1 < |text| {
        assert rest[..2] == [text[index], text[index + 1]];
        assert rest[2..] == text[index + 2..];
      }
    }
  }

  method SplitCells(line: string) returns (cells: seq<string>)
    ensures cells == CellsOf(line)
  {
    hide CellsFrom, Trim, IsSpace;
    var text := Trim(line, IsSpace);
    if "|" <= text {
      text := text[1..];
    }
    if EndsWith(text, "|") && !EndsWith(text, "\\|") {
      text := text[..|text| - 1];
    }
    assert text == Inside(line);
    cells := [];
    var cell, code, index := "", false, 0;
    assert text[0..] == text;
    while index < |text|
      invariant 0 <= index <= |text|
      invariant cells + CellsFrom(text[index..], cell, code) == CellsFrom(text, "", false)
    {
      CellsFromIndex(text, index, cell, code);
      if text[index] == '\\' && index + 1 < |text| && text[index + 1] == '|' {
        cell := cell + "|";
        index := index + 2;
        continue;
      }
      if text[index] == '`' {
        code := !code;
      }
      if text[index] == '|' && !code {
        cells := cells + [Trim(cell, IsSpace)];
        cell := "";
        index := index + 1;
        continue;
      }
      cell := cell + [text[index]];
      index := index + 1;
    }
    CellsFromIndex(text, index, cell, code);
    cells := cells + [Trim(cell, IsSpace)];
  }

  // ---- The delimiter row --------------------------------------------------------------------------

  datatype Align = Left | Center | Right | Plain

  predicate IsDelimiterCell(cell: string) {
    var head := if cell != "" && cell[0] == ':' then cell[1..] else cell;
    var dashes := if EndsWith(head, ":") then head[..|head| - 1] else head;
    dashes != "" && forall i | 0 <= i < |dashes| :: dashes[i] == '-'
  }

  function AlignOf(cell: string): Align {
    if ":" <= cell && EndsWith(cell, ":") then Center
    else if EndsWith(cell, ":") then Right
    else if ":" <= cell then Left
    else Plain
  }

  function Aligns(cells: seq<string>): (align: seq<Align>)
    ensures |align| == |cells| && forall i | 0 <= i < |cells| :: align[i] == AlignOf(cells[i])
  {
    seq(|cells|, i requires 0 <= i < |cells| => AlignOf(cells[i]))
  }

  /** The alignments a delimiter row sets, None when the line is not one for that many columns. */
  function DelimiterOf(line: string, columns: nat): (align: Option<seq<Align>>)
    ensures align.Some? ==> |align.value| == columns
  {
    var cells := CellsOf(line);
    if '-' !in line || |cells| != columns || exists i | 0 <= i < |cells| :: !IsDelimiterCell(cells[i])
    then None
    else Some(Aligns(cells))
  }

  // ---- Printing -----------------------------------------------------------------------------------

  function Escape(cell: string): string {
    if cell == "" then "" else (if cell[0] == '|' then "\\|" else [cell[0]]) + Escape(cell[1..])
  }

  function Padded(cells: seq<string>): string
    requires cells != []
  {
    " " + (Escape(cells[0]) + (" " + if |cells| == 1 then "" else "|" + Padded(cells[1..])))
  }

  function PrintRow(cells: seq<string>): string
    requires cells != []
  {
    "|" + Padded(cells) + "|"
  }

  function PrintAlign(align: Align): string {
    match align
    case Left => ":--"
    case Center => ":-:"
    case Right => "--:"
    case Plain => "---"
  }

  function PrintAligns(align: seq<Align>): (cells: seq<string>)
    ensures |cells| == |align| && forall i | 0 <= i < |align| :: cells[i] == PrintAlign(align[i])
  {
    seq(|align|, i requires 0 <= i < |align| => PrintAlign(align[i]))
  }

  // ---- Reading back what was printed --------------------------------------------------------------

  /** Whether the cell leaves inline code open. */
  predicate OpensCode(cell: string) {
    if cell == "" then false else OpensCode(cell[1..]) != (cell[0] == '`')
  }

  ghost predicate AllTrimmed(cells: seq<string>) {
    forall i | 0 <= i < |cells| :: Trimmed(cells[i], IsSpace)
  }

  /** Every cell but the last closes the inline code it opens. */
  ghost predicate ClosesCode(cells: seq<string>) {
    forall i | 0 <= i < |cells| - 1 :: !OpensCode(cells[i])
  }

  lemma EscapedCharacterReads(c: char, more: string, read: string, code: bool)
    requires more == "" || more[0] != '|'
    ensures CellsFrom((if c == '|' then "\\|" else [c]) + more, read, code) == CellsFrom(more, read + [c], code != (c == '`'))
  {
    hide Trim, IsSpace;
    var text := (if c == '|' then "\\|" else [c]) + more;
    if c == '|' {
      assert text[2..] == more && "\\|" <= text;
    } else {
      assert text[0] == c && text[1..] == more && !("\\|" <= text);
    }
  }

  lemma {:induction false} EscapedCellReads(cell: string, rest: string, read: string, code: bool)
    requires rest == "" || rest[0] != '|'
    ensures CellsFrom(Escape(cell) + rest, read, code) == CellsFrom(rest, read + cell, code != OpensCode(cell))
  {
    hide Trim, IsSpace, CellsFrom;
    var text := Escape(cell) + rest;
    if cell == "" {
      assert text == rest && read + cell == read;
    } else {
      var first, more := if cell[0] == '|' then "\\|" else [cell[0]], Escape(cell[1..]) + rest;
      assert text == first + more;
      assert more == "" || more[0] != '|' by {
        if cell[1..] == "" {
          assert more == rest;
        }
      }
      EscapedCharacterReads(cell[0], more, read, code);
      EscapedCellReads(cell[1..], rest, read + [cell[0]], code != (cell[0] == '`'));
      assert read + [cell[0]] + cell[1..] == read + cell;
    }
  }

  lemma InsidePrinted(cells: seq<string>)
    requires cells != []
    ensures Inside(PrintRow(cells)) == Padded(cells)
  {
    hide Padded;
    var body := Padded(cells);
    PaddedEndsInSpace(cells);
    var row := PrintRow(cells);
    assert Trim(row, IsSpace) == row;
    hide Trim;
    var text := body + "|";
    assert row == "|" + text && row[1..] == text && "|" <= row;
    assert text[|text| - 1..] == "|" && text[|text| - 2] == ' ';
    assert text[..|text| - 1] == body;
  }

  lemma {:induction false} PaddedEndsInSpace(cells: seq<string>)
    requires cells != []
    ensures Padded(cells) != "" && Padded(cells)[|Padded(cells)| - 1] == ' '
  {
    if |cells| > 1 {
      PaddedEndsInSpace(cells[1..]);
    }
  }

  lemma SpaceReads(rest: string, read: string, code: bool)
    ensures CellsFrom(" " + rest, read, code) == CellsFrom(rest, read + " ", code)
  {
    hide Trim, IsSpace;
    var text := " " + rest;
    assert text[0] == ' ' && text[1..] == rest && !("\\|" <= text);
  }

  lemma PipeReads(rest: string, read: string, code: bool)
    ensures CellsFrom("|" + rest, read, code) ==
            if code then CellsFrom(rest, read + "|", true) else [Trim(read, IsSpace)] + CellsFrom(rest, "", false)
  {
    hide Trim, IsSpace;
    var text := "|" + rest;
    assert text[0] == '|' && text[1..] == rest && !("\\|" <= text);
  }

  lemma SpacedCellReads(cell: string, more: string)
    ensures CellsFrom(" " + (Escape(cell) + (" " + more)), "", false) == CellsFrom(more, " " + cell + " ", OpensCode(cell))
  {
    hide CellsFrom, Escape, OpensCode;
    SpaceReads(Escape(cell) + (" " + more), "", false);
    assert "" + " " == " ";
    EscapedCellReads(cell, " " + more, " ", false);
    SpaceReads(more, " " + cell, OpensCode(cell));
  }

  /** What is read of the first cell: all of it, and in code opened and not closed the pipe and more as well. */
  lemma FirstCellReads(cells: seq<string>)
    requires cells != []
    ensures var read := " " + cells[0] + " ";
            CellsFrom(Padded(cells), "", false) ==
            if |cells| == 1 then [Trim(read, IsSpace)]
            else if !OpensCode(cells[0]) then [Trim(read, IsSpace)] + CellsFrom(Padded(cells[1..]), "", false)
            else CellsFrom(Padded(cells[1..]), read + "|", true)
  {
    var read := " " + cells[0] + " ";
    if |cells| == 1 {
      SpacedCellReads(cells[0], "");
      hide Escape, OpensCode, Trim, IsSpace;
    } else {
      SpacedCellReads(cells[0], "|" + Padded(cells[1..]));
      hide Escape, OpensCode, Trim, IsSpace, CellsFrom;
      PipeReads(Padded(cells[1..]), read, OpensCode(cells[0]));
    }
  }

  lemma {:induction false} PaddedReads(cells: seq<string>)
    requires cells != [] && AllTrimmed(cells) && ClosesCode(cells)
    ensures CellsFrom(Padded(cells), "", false) == cells
  {
    FirstCellReads(cells);
    TrimStripsPadding(" ", cells[0], " ", IsSpace);
    if |cells| > 1 {
      PaddedReads(cells[1..]);
      assert cells == [cells[0]] + cells[1..];
    } else {
      assert cells == [cells[0]];
    }
  }

  lemma {:induction false} CellsAreTrimmed(text: string, cell: string, code: bool)
    ensures AllTrimmed(CellsFrom(text, cell, code))
    decreases |text|
  {
    TrimsToTrimmed(cell);
    hide Trim, Trimmed, IsSpace;
    if text == "" {
    } else if "\\|" <= text {
      CellsAreTrimmed(text[2..], cell + "|", code);
    } else if text[0] == '|' && !code {
      CellsAreTrimmed(text[1..], "", false);
    } else {
      CellsAreTrimmed(text[1..], cell + [text[0]], code != (text[0] == '`'));
    }
  }

  lemma TrimsToTrimmed(s: string)
    ensures Trimmed(Trim(s, IsSpace), IsSpace)
  {
    var before, after := TrimSplits(s, IsSpace);
  }

  /** What has been read of a cell stays at its front. */
  lemma {:induction false} ReadIsKept(text: string, cell: string, code: bool) returns (more: string)
    ensures CellsFrom(text, cell, code)[0] == Trim(cell + more, IsSpace)
    decreases |text|
  {
    hide Trim, IsSpace;
    if text == "" || (text[0] == '|' && !code && !("\\|" <= text)) {
      more := "";
      assert cell + more == cell;
    } else if "\\|" <= text {
      more := ReadIsKept(text[2..], cell + "|", code);
      assert cell + "|" + more == cell + ("|" + more);
      more := "|" + more;
    } else {
      var rest := ReadIsKept(text[1..], cell + [text[0]], code != (text[0] == '`'));
      assert cell + [text[0]] + rest == cell + ([text[0]] + rest);
      more := [text[0]] + rest;
    }
  }

  lemma {:induction false} TrimRightKeeps(s: string, more: string)
    requires s != "" && !IsSpace(s[|s| - 1])
    ensures |TrimRight(s + more, IsSpace)| >= |s|
  {
    hide IsSpace;
    if more != "" {
      TrimRightKeeps(s, more[..|more| - 1]);
      assert (s + more)[..|s + more| - 1] == s + more[..|more| - 1];
    } else {
      assert s + more == s;
    }
  }

  /** A cell that goes on past its pipe is read as something longer. */
  lemma RunsOn(cell: string, more: string)
    requires cell != "" && Trimmed(cell, IsSpace)
    ensures |Trim(" " + cell + " |" + more, IsSpace)| > |cell|
  {
    assert !IsSpace('|');
    hide IsSpace;
    var kept := cell + " |";
    assert " " + cell + " |" + more == " " + (kept + more);
    TrimLeftPadding(" ", kept + more, IsSpace);
    assert (kept + more)[0] == cell[0];
    assert TrimLeft(kept + more, IsSpace) == kept + more;
    TrimRightKeeps(kept, more);
  }

  /** One open code span before the last cell is enough to read that cell as something else. */
  lemma {:induction false} OpenCodeIsNotReadBack(cells: seq<string>)
    requires cells != [] && AllTrimmed(cells)
    requires var read := CellsFrom(Padded(cells), "", false);
             forall i | 0 <= i < |read| && i < |cells| :: read[i] == cells[i]
    ensures ClosesCode(cells)
  {
    assert OpensCode(cells[0]) ==> cells[0] != "";
    hide Trim, IsSpace, Padded, CellsFrom, OpensCode, Trimmed;
    FirstCellReads(cells);
    if |cells| > 1 {
      if OpensCode(cells[0]) {
        var read := " " + cells[0] + " |";
        assert read == " " + cells[0] + " " + "|";
        var more := ReadIsKept(Padded(cells[1..]), read, true);
        RunsOn(cells[0], more);
        assert false;
      }
      var rest := CellsFrom(Padded(cells[1..]), "", false);
      forall i | 0 <= i < |rest| && i < |cells[1..]| ensures rest[i] == cells[1..][i] {
        assert rest[i] == CellsFrom(Padded(cells), "", false)[i + 1];
      }
      OpenCodeIsNotReadBack(cells[1..]);
    }
  }

  lemma OpeningPipe(text: string, first: bool)
    requires text != "" && text[0] != '|'
    ensures var row := if first then "|" + text else text; (if "|" <= row then row[1..] else row) == text
  {
    assert "|" + text != "" && ("|" + text)[1..] == text;
  }

  lemma ClosingPipe(body: string, last: bool)
    requires body != "" && body[|body| - 1] != '|' && body[|body| - 1] != '\\'
    ensures var text := if last then body + "|" else body;
            (if EndsWith(text, "|") && !EndsWith(text, "\\|") then text[..|text| - 1] else text) == body
  {
    var text := body + "|";
    assert text[|text| - 1..] == "|" && text[|text| - 2..][0] == body[|body| - 1] && text[..|text| - 1] == body;
    assert body[|body| - 1..][0] == body[|body| - 1];
  }

  lemma EndsOfRow(first: bool, text: string)
    requires Trimmed(text, IsSpace) && text != ""
    ensures Trimmed(if first then "|" + text else text, IsSpace)
  {
  }

  lemma SpaceAround(before: string, row: string, after: string)
    requires AllIn(before, IsSpace) && AllIn(after, IsSpace) && Trimmed(row, IsSpace)
    ensures Inside(before + row + after) == Inside(row)
  {
    hide IsSpace;
    TrimStripsPadding(before, row, after, IsSpace);
    TrimStripsPadding("", row, "", IsSpace);
    assert "" + row + "" == row;
  }

  lemma InsideRow(row: string, first: bool, body: string, last: bool)
    requires body != "" && Trimmed(body, IsSpace)
    requires body[0] != '|' && body[|body| - 1] != '|' && body[|body| - 1] != '\\'
    requires var text := if last then body + "|" else body; row == if first then "|" + text else text
    ensures Inside(row) == body && Trimmed(row, IsSpace)
  {
    var text := if last then body + "|" else body;
    assert text[0] == body[0] && Trimmed(text, IsSpace);
    EndsOfRow(first, text);
    OpeningPipe(text, first);
    ClosingPipe(body, last);
    hide EndsWith, IsSpace;
    TrimStripsPadding("", row, "", IsSpace);
    assert "" + row + "" == row;
  }

  /** The pipes at the ends of a row, and the space around it, are optional: with and without them the cells are the same. */
  lemma EndsAreOptional(before: string, first: bool, body: string, last: bool, after: string)
    requires AllIn(before, IsSpace) && AllIn(after, IsSpace) && body != "" && Trimmed(body, IsSpace)
    requires body[0] != '|' && body[|body| - 1] != '|' && body[|body| - 1] != '\\'
    ensures var text := if last then body + "|" else body;
            CellsOf(before + (if first then "|" + text else text) + after) == CellsFrom(body, "", false)
  {
    hide CellsFrom, Inside, Trimmed, AllIn;
    var text := if last then body + "|" else body;
    var row := if first then "|" + text else text;
    InsideRow(row, first, body, last);
    SpaceAround(before, row, after);
  }

  /** A printed row reads back as its cells exactly when they are trimmed and no cell but the last leaves inline code
      open. Pipes and backslashes anywhere in a cell are no obstacle. */
  lemma RowReadsBack(cells: seq<string>)
    requires cells != []
    ensures CellsOf(PrintRow(cells)) == cells <==> AllTrimmed(cells) && ClosesCode(cells)
  {
    hide Trim, IsSpace, Padded, CellsFrom, Trimmed;
    InsidePrinted(cells);
    CellsAreTrimmed(Padded(cells), "", false);
    if AllTrimmed(cells) {
      if ClosesCode(cells) {
        PaddedReads(cells);
      } else if CellsOf(PrintRow(cells)) == cells {
        OpenCodeIsNotReadBack(cells);
      }
    }
  }

  lemma {:induction false} PlainCell(s: string)
    requires '|' !in s && '`' !in s
    ensures Escape(s) == s && !OpensCode(s)
  {
    if s != "" {
      assert s == [s[0]] + s[1..];
      PlainCell(s[1..]);
    }
  }

  lemma AlignReadsBack(align: Align)
    ensures var cell := PrintAlign(align);
            AlignOf(cell) == align && IsDelimiterCell(cell) && Trimmed(cell, IsSpace) &&
            !OpensCode(cell) && Escape(cell) == cell
  {
    var cell := PrintAlign(align);
    PlainCell(cell);
    hide OpensCode, Escape;
    DashesBetween(cell);
  }

  lemma DashesBetween(cell: string)
    requires |cell| == 3 && cell[1] == '-' && cell[0] in ":-" && cell[2] in ":-"
    ensures IsDelimiterCell(cell) && Trimmed(cell, IsSpace)
    ensures (":" <= cell <==> cell[0] == ':') && (EndsWith(cell, ":") <==> cell[2] == ':')
  {
    assert cell[2..] == [cell[2]];
    var head := if cell[0] == ':' then cell[1..] else cell;
    assert EndsWith(head, ":") <==> cell[2] == ':' by {
      assert head[|head| - 1..] == [cell[2]];
    }
  }

  lemma DelimiterReadsBack(align: seq<Align>)
    requires align != []
    ensures DelimiterOf(PrintRow(PrintAligns(align)), |align|) == Some(align)
  {
    hide AlignOf, IsDelimiterCell, Trimmed, OpensCode, IsSpace, CellsOf;
    var cells := PrintAligns(align);
    forall i | 0 <= i < |align|
      ensures AlignOf(cells[i]) == align[i] && IsDelimiterCell(cells[i]) && Trimmed(cells[i], IsSpace) && !OpensCode(cells[i])
    {
      AlignReadsBack(align[i]);
    }
    RowReadsBack(cells);
    assert Aligns(cells) == align;
    DashesPrinted(cells, align[0]);
  }

  lemma DashesPrinted(cells: seq<string>, align: Align)
    requires cells != [] && cells[0] == PrintAlign(align)
    ensures '-' in PrintRow(cells)
  {
    AlignReadsBack(align);
    var text := cells[0];
    assert text[1] == '-' && '-' in text;
    hide PrintAlign, Escape, AlignOf, IsDelimiterCell, OpensCode;
    var rest := " " + if |cells| == 1 then "" else "|" + Padded(cells[1..]);
    assert Padded(cells) == " " + (text + rest);
    assert '-' in text + rest && '-' in Padded(cells);
  }
}
