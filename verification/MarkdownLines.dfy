/** What one line of Markdown is: the renderer's patterns read off a line, and how wrapped lines are joined. */
module MarkdownLines {
  import opened Common

  /** White space and line terminators, as trim() and \s take them. */
  predicate IsSpace(c: char) {
    '\t' <= c <= '\r' || c == ' ' || c == '\U{A0}' || c == '\U{1680}' || '\U{2000}' <= c <= '\U{200A}' ||
    c == '\U{2028}' || c == '\U{2029}' || c == '\U{202F}' || c == '\U{205F}' || c == '\U{3000}' || c == '\U{FEFF}'
  }

  predicate IsDigit(c: char) { '0' <= c <= '9' }

  /** The characters a pattern's dot does not match. */
  predicate EndsLine(c: char) {
    c == '\n' || c == '\r' || c == '\U{2028}' || c == '\U{2029}'
  }

  predicate OneLine(s: string) {
    forall i | 0 <= i < |s| :: !EndsLine(s[i])
  }

  /** The length of the run at the front that `p` accepts. */
  function Span(s: string, p: char -> bool): (n: nat)
    ensures n <= |s| && AllIn(s[..n], p) && (n < |s| ==> !p(s[n]))
  {
    if s != "" && p(s[0]) then
      var n := 1 + Span(s[1..], p);
      assert s[..n] == [s[0]] + s[1..][..n - 1];
      n
    else 0
  }

  predicate IsBlank(line: string) {
    Trim(line, IsSpace) == ""
  }

  predicate IsFence(line: string) {
    var text := TrimLeft(line, IsSpace);
    "```" <= text || "~~~" <= text
  }

  predicate IsRule(line: string) {
    var text := Trim(line, IsSpace);
    |text| >= 3 && text[0] in "-*_" && forall i | 0 <= i < |text| :: text[i] == text[0]
  }

  predicate IsHash(c: char) { c == '#' }

  /** What is left of a heading's text without the closing run of number signs. */
  function StripClosing(s: string): string {
    TrimRight(TrimRight(TrimRight(s, IsSpace), IsHash), IsSpace)
  }

  function HeadingText(line: string): Option<string> {
    var lead := Span(line, IsSpace);
    var level := Span(line[lead..], IsHash);
    var after := line[lead + level..];
    if lead <= 3 && 1 <= level <= 6 && after != "" && IsSpace(after[0]) then
      var text := StripClosing(TrimLeft(after, IsSpace));
      if OneLine(text) then Some(text) else None
    else None
  }

  function QuoteText(line: string): Option<string> {
    var lead := Span(line, IsSpace);
    if lead <= 3 && lead < |line| && line[lead] == '>' then
      var after := line[lead + 1..];
      var text := if after != "" && IsSpace(after[0]) then after[1..] else after;
      if OneLine(text) then Some(text) else None
    else None
  }

  /** What follows the bullet or the number at the front, None when there is neither. */
  function AfterMarker(s: string): Option<string> {
    if s != "" && s[0] in "-*+" then Some(s[1..])
    else
      var digits := Span(s, IsDigit);
      if 0 < digits < |s| && s[digits] in ".)" then Some(s[digits + 1..]) else None
  }

  datatype Item = Item(text: string, depth: nat)

  /** One level of nesting for two characters of indentation, and never more than one. */
  function ItemOf(line: string): (item: Option<Item>)
    ensures item.Some? ==> item.value.depth <= 1
  {
    var lead := Span(line, IsSpace);
    var after := AfterMarker(line[lead..]);
    if after.Some? && after.value != "" && IsSpace(after.value[0]) && OneLine(TrimLeft(after.value, IsSpace))
    then Some(Item(TrimLeft(after.value, IsSpace), if lead / 2 < 1 then lead / 2 else 1))
    else None
  }

  predicate IsOrdered(line: string) {
    var text := TrimLeft(line, IsSpace);
    text != "" && IsDigit(text[0])
  }

  /** An indented line that is not blank. */
  predicate IsIndented(line: string) {
    line != "" && IsSpace(line[0]) && !IsBlank(line)
  }

  datatype Alert = Note | Tip | Important | Warning | Caution

  function LowerCase(s: string): (r: string)
    ensures |r| == |s|
  {
    seq(|s|, i requires 0 <= i < |s| => if 'A' <= s[i] <= 'Z' then s[i] - 'A' + 'a' else s[i])
  }

  function AlertNamed(word: string): Option<Alert> {
    if word == "note" then Some(Note)
    else if word == "tip" then Some(Tip)
    else if word == "important" then Some(Important)
    else if word == "warning" then Some(Warning)
    else if word == "caution" then Some(Caution)
    else None
  }

  function AlertOf(text: string): Option<Alert> {
    var marker := TrimRight(text, IsSpace);
    if "[!" <= marker && marker[|marker| - 1] == ']' then AlertNamed(LowerCase(marker[2..|marker| - 1])) else None
  }

  // ---- Joining wrapped lines ----------------------------------------------------------------------

  predicate IsIdeograph(c: char) {
    '\U{2E80}' <= c <= '\U{303F}' || '\U{3400}' <= c <= '\U{4DBF}' || '\U{4E00}' <= c <= '\U{9FFF}' ||
    '\U{F900}' <= c <= '\U{FAFF}' || '\U{FE30}' <= c <= '\U{FE4F}' || '\U{FF00}' <= c <= '\U{FFEF}'
  }

  predicate IsEmphasis(c: char) { c in "*_`~" }

  /** Nothing between two ideographs, a space between anything else; emphasis markers at the join are looked past. */
  function Glue(joined: string, line: string): string {
    var tail, head := TrimRight(joined, IsEmphasis), TrimLeft(line, IsEmphasis);
    if tail != "" && head != "" && IsIdeograph(tail[|tail| - 1]) && IsIdeograph(head[0]) then "" else " "
  }

  function JoinTwo(joined: string, line: string): string {
    if joined == "" then line else joined + Glue(joined, line) + line
  }

  function JoinLines(lines: seq<string>): string {
    if lines == [] then "" else JoinTwo(JoinLines(lines[..|lines| - 1]), lines[|lines| - 1])
  }

  /** The text without its spaces. */
  function Squeeze(s: string): (r: string)
    ensures s != "" && s[|s| - 1] != ' ' ==> r != ""
  {
    if s == "" then "" else Squeeze(s[..|s| - 1]) + if s[|s| - 1] == ' ' then "" else [s[|s| - 1]]
  }

  function Concat(lines: seq<string>): string {
    if lines == [] then "" else Concat(lines[..|lines| - 1]) + lines[|lines| - 1]
  }

  lemma {:induction false} SqueezeJoins(a: string, b: string)
    ensures Squeeze(a + b) == Squeeze(a) + Squeeze(b)
  {
    if b == "" {
      assert a + b == a;
    } else {
      assert (a + b)[..|a + b| - 1] == a + b[..|b| - 1];
      SqueezeJoins(a, b[..|b| - 1]);
    }
  }

  /** Joining loses and reorders nothing: but for spaces, the text is the lines one after another. */
  lemma {:induction false} JoiningKeepsText(lines: seq<string>)
    ensures Squeeze(JoinLines(lines)) == Squeeze(Concat(lines))
  {
    if lines != [] {
      var init, last := lines[..|lines| - 1], lines[|lines| - 1];
      JoiningKeepsText(init);
      SqueezeJoins(Concat(init), last);
      if JoinLines(init) != "" {
        var glue := Glue(JoinLines(init), last);
        assert Squeeze(" ") == Squeeze("") == "";
        SqueezeJoins(JoinLines(init) + glue, last);
        SqueezeJoins(JoinLines(init), glue);
      } else {
        assert Squeeze(JoinLines(init)) == "";
      }
    }
  }

  // ---- Where a join puts a space -------------------------------------------------------------------

  /** The last character of the line that is no emphasis marker is an ideograph. */
  ghost predicate EndsInIdeograph(line: string) {
    exists k :: 0 <= k < |line| && IsIdeograph(line[k]) && forall j | k < j < |line| :: IsEmphasis(line[j])
  }

  /** The first character of the line that is no emphasis marker is an ideograph. */
  ghost predicate StartsWithIdeograph(line: string) {
    exists k :: 0 <= k < |line| && IsIdeograph(line[k]) && forall j | 0 <= j < k :: IsEmphasis(line[j])
  }

  /** What belongs between two lines: nothing where two ideographs meet, and a space anywhere else. */
  ghost function Seam(above: string, below: string): string {
    if EndsInIdeograph(above) && StartsWithIdeograph(below) then "" else " "
  }

  /** The lines with a seam between each two. */
  ghost function Woven(lines: seq<string>): string {
    if lines == [] then ""
    else if |lines| == 1 then lines[0]
    else Woven(lines[..|lines| - 1]) + Seam(lines[|lines| - 2], lines[|lines| - 1]) + lines[|lines| - 1]
  }

  lemma IdeographsAreNoMarkers(c: char)
    requires IsIdeograph(c)
    ensures !IsEmphasis(c)
  {
  }

  lemma TailIsIdeograph(line: string)
    ensures var tail := TrimRight(line, IsEmphasis);
            EndsInIdeograph(line) <==> tail != "" && IsIdeograph(tail[|tail| - 1])
  {
    hide IsIdeograph, IsEmphasis, TrimRight;
    TrimRightPrefix(line, IsEmphasis);
    var tail := TrimRight(line, IsEmphasis);
    forall j | |tail| <= j < |line| ensures IsEmphasis(line[j]) {
      assert line[j] == line[|tail|..][j - |tail|];
    }
    if k :| 0 <= k < |line| && IsIdeograph(line[k]) && forall j | k < j < |line| :: IsEmphasis(line[j]) {
      IdeographsAreNoMarkers(line[k]);
      assert k == |tail| - 1;
    }
  }

  lemma HeadIsIdeograph(line: string)
    ensures var head := TrimLeft(line, IsEmphasis);
            StartsWithIdeograph(line) <==> head != "" && IsIdeograph(head[0])
  {
    hide IsIdeograph, IsEmphasis, TrimLeft;
    TrimLeftSuffix(line, IsEmphasis);
    var head := TrimLeft(line, IsEmphasis);
    var n := |line| - |head|;
    forall j | 0 <= j < n ensures IsEmphasis(line[j]) {
      assert line[j] == line[..n][j];
    }
    assert head != "" ==> head[0] == line[n];
    if k :| 0 <= k < |line| && IsIdeograph(line[k]) && forall j | 0 <= j < k :: IsEmphasis(line[j]) {
      IdeographsAreNoMarkers(line[k]);
      assert k == n;
    }
  }

  lemma JoinsWithSeam(above: string, below: string)
    ensures JoinTwo(above, below) == if above == "" then below else above + Seam(above, below) + below
  {
    hide EndsInIdeograph, StartsWithIdeograph, TrimLeft, TrimRight, IsIdeograph, IsEmphasis;
    TailIsIdeograph(above);
    HeadIsIdeograph(below);
  }

  /** Whatever emphasis closes at the end of one line and opens on the next, it is what is left and right of it that decides
      whether the lines are joined by a space. */
  lemma JoiningTwo(text: string, closing: string, opening: string, more: string)
    requires AllIn(closing, IsEmphasis) && AllIn(opening, IsEmphasis)
    requires (text != "" ==> !IsEmphasis(text[|text| - 1])) && (more != "" ==> !IsEmphasis(more[0]))
    requires text + closing != ""
    ensures var ideographs := text != "" && more != "" && IsIdeograph(text[|text| - 1]) && IsIdeograph(more[0]);
            JoinTwo(text + closing, opening + more) ==
            text + closing + (if ideographs then "" else " ") + (opening + more)
  {
    hide TrimLeft, TrimRight, IsIdeograph, IsEmphasis;
    TailIsIdeograph(text + closing);
    HeadIsIdeograph(opening + more);
    TrimRightPadding(text, closing, IsEmphasis);
    TrimLeftPadding(opening, more, IsEmphasis);
    NothingToTrim(text, more, IsEmphasis);
  }

  lemma NothingToTrim(text: string, more: string, p: char -> bool)
    ensures (text != "" ==> !p(text[|text| - 1])) ==> TrimRight(text, p) == text
    ensures (more != "" ==> !p(more[0])) ==> TrimLeft(more, p) == more
  {
  }

  lemma EndsBehind(front: string, line: string)
    requires front != "" && line != "" && !IsIdeograph(front[|front| - 1]) && !IsEmphasis(front[|front| - 1])
    ensures EndsInIdeograph(front + line) <==> EndsInIdeograph(line)
  {
    hide IsIdeograph, IsEmphasis;
    var n, all := |front|, front + line;
    if k :| 0 <= k < |all| && IsIdeograph(all[k]) && forall j | k < j < |all| :: IsEmphasis(all[j]) {
      assert all[n - 1] == front[n - 1];
      assert k >= n;
      assert IsIdeograph(line[k - n]);
      assert forall j | k - n < j < |line| :: line[j] == all[n + j];
    }
    if k :| 0 <= k < |line| && IsIdeograph(line[k]) && forall j | k < j < |line| :: IsEmphasis(line[j]) {
      assert IsIdeograph(all[n + k]);
      assert forall j | n + k < j < |all| :: all[j] == line[j - n];
    }
  }

  lemma EndsAtOnce(front: string, line: string)
    requires StartsWithIdeograph(line)
    ensures EndsInIdeograph(front + line) <==> EndsInIdeograph(line)
  {
    hide IsIdeograph, IsEmphasis;
    var n, all := |front|, front + line;
    var s :| 0 <= s < |line| && IsIdeograph(line[s]) && forall j | 0 <= j < s :: IsEmphasis(line[j]);
    IdeographsAreNoMarkers(line[s]);
    assert all[n + s] == line[s];
    if k :| 0 <= k < |all| && IsIdeograph(all[k]) && forall j | k < j < |all| :: IsEmphasis(all[j]) {
      assert k >= n + s;
      assert IsIdeograph(line[k - n]);
      assert forall j | k - n < j < |line| :: line[j] == all[n + j];
    }
    if k :| 0 <= k < |line| && IsIdeograph(line[k]) && forall j | k < j < |line| :: IsEmphasis(line[j]) {
      assert IsIdeograph(all[n + k]);
      assert forall j | n + k < j < |all| :: all[j] == line[j - n];
    }
  }

  /** Each two lines are joined by their own seam: what is above them does not matter. */
  lemma {:induction false} LinesAreWoven(lines: seq<string>)
    requires lines != [] && forall i | 0 <= i < |lines| :: lines[i] != ""
    ensures JoinLines(lines) == Woven(lines) != ""
    ensures EndsInIdeograph(Woven(lines)) <==> EndsInIdeograph(lines[|lines| - 1])
  {
    hide EndsInIdeograph, StartsWithIdeograph, JoinTwo;
    var init, last := lines[..|lines| - 1], lines[|lines| - 1];
    if |lines| == 1 {
      assert init == [];
      JoinsWithSeam("", last);
    } else {
      LinesAreWoven(init);
      JoinsWithSeam(Woven(init), last);
      assert init[|init| - 1] == lines[|lines| - 2];
      var seam := Seam(lines[|lines| - 2], last);
      if seam == "" {
        assert Woven(init) + "" == Woven(init);
        EndsAtOnce(Woven(init), last);
      } else {
        EndsBehind(Woven(init) + " ", last);
      }
    }
  }

  // ---- What the line patterns mean ----------------------------------------------------------------

  lemma {:induction false} SpanOf(run: string, rest: string, p: char -> bool)
    requires AllIn(run, p) && (rest == "" || !p(rest[0]))
    ensures Span(run + rest, p) == |run|
  {
    if run == "" {
      assert run + rest == rest;
    } else {
      assert (run + rest)[1..] == run[1..] + rest;
      SpanOf(run[1..], rest, p);
    }
  }

  lemma {:induction false} TrimLeftIsSpan(s: string, p: char -> bool)
    ensures TrimLeft(s, p) == s[Span(s, p)..]
  {
    if s != "" && p(s[0]) {
      TrimLeftIsSpan(s[1..], p);
      assert s[Span(s, p)..] == s[1..][Span(s[1..], p)..];
    }
  }

  predicate IsMarker(marker: string) {
    marker in ["-", "*", "+"] ||
    (|marker| >= 2 && Span(marker, IsDigit) == |marker| - 1 && marker[|marker| - 1] in ".)")
  }

  /** A list item's line: indentation, a bullet or a number with a full stop or a parenthesis, a gap, the text. */
  ghost predicate ItemShape(line: string, lead: string, marker: string, gap: string, text: string) {
    line == lead + (marker + (gap + text)) && AllIn(lead, IsSpace) && IsMarker(marker) &&
    gap != "" && AllIn(gap, IsSpace) && OneLine(text) && (text == "" || !IsSpace(text[0]))
  }

  lemma MarkerReads(marker: string, rest: string)
    requires IsMarker(marker) && rest != "" && IsSpace(rest[0])
    ensures marker != "" && AfterMarker(marker + rest) == Some(rest) && !IsSpace(marker[0])
  {
    if marker !in ["-", "*", "+"] {
      var digits := marker[..|marker| - 1];
      assert marker + rest == digits + ([marker[|marker| - 1]] + rest);
      SpanOf(digits, [marker[|marker| - 1]] + rest, IsDigit);
      assert IsDigit(digits[0]);
    }
  }

  lemma MarkerWrote(s: string) returns (marker: string)
    requires AfterMarker(s).Some?
    ensures IsMarker(marker) && s == marker + AfterMarker(s).value
  {
    marker := s[..|s| - |AfterMarker(s).value|];
    if s[0] !in "-*+" {
      var digits := Span(s, IsDigit);
      assert marker == s[..digits] + [s[digits]];
      SpanOf(s[..digits], [s[digits]], IsDigit);
    } else {
      assert marker == [s[0]];
    }
  }

  lemma ItemReads(line: string, lead: string, marker: string, gap: string, text: string)
    requires ItemShape(line, lead, marker, gap, text)
    ensures ItemOf(line) == Some(Item(text, if |lead| >= 2 then 1 else 0))
  {
    hide AfterMarker, IsMarker, OneLine, IsSpace, TrimLeft;
    var body := gap + text;
    assert IsSpace(gap[0]);
    MarkerReads(marker, body);
    SpanOf(lead, marker + body, IsSpace);
    assert line[|lead|..] == marker + body;
    TrimLeftPadding(gap, text, IsSpace);
    assert TrimLeft(text, IsSpace) == text by {
      TrimLeftIsSpan(text, IsSpace);
    }
  }

  lemma ItemWrote(line: string) returns (lead: string, marker: string, gap: string, text: string)
    requires ItemOf(line).Some?
    ensures ItemShape(line, lead, marker, gap, text)
  {
    hide AfterMarker, IsMarker, OneLine, IsSpace, TrimLeft;
    var n := Span(line, IsSpace);
    lead := line[..n];
    var after := AfterMarker(line[n..]).value;
    marker := MarkerWrote(line[n..]);
    text := TrimLeft(after, IsSpace);
    TrimLeftSuffix(after, IsSpace);
    gap := after[..|after| - |text|];
    assert after == gap + text;
  }

  /** A line is a list item exactly when it has the shape, and then the text and the depth are the shape's. */
  lemma ItemIff(line: string)
    ensures ItemOf(line).Some? <==> exists lead, marker, gap, text :: ItemShape(line, lead, marker, gap, text)
    ensures forall lead, marker, gap, text | ItemShape(line, lead, marker, gap, text) ::
              ItemOf(line) == Some(Item(text, if |lead| >= 2 then 1 else 0))
  {
    forall lead, marker, gap, text | ItemShape(line, lead, marker, gap, text)
      ensures ItemOf(line) == Some(Item(text, if |lead| >= 2 then 1 else 0))
    {
      ItemReads(line, lead, marker, gap, text);
    }
    if ItemOf(line).Some? {
      var lead, marker, gap, text := ItemWrote(line);
    }
  }

  /** A quoted line: at most three spaces, the mark, and behind it the text, one space in front of it aside. */
  ghost predicate QuoteShape(line: string, lead: string, gap: string, text: string) {
    line == lead + (">" + (gap + text)) && |lead| <= 3 && AllIn(lead, IsSpace) && |gap| <= 1 && AllIn(gap, IsSpace) &&
    (gap == "" && text != "" ==> !IsSpace(text[0])) && OneLine(text)
  }

  /** A line is quoted exactly when it has the shape, and what it quotes is the shape's text. */
  lemma QuoteIff(line: string)
    ensures QuoteText(line).Some? <==> exists lead, gap, text :: QuoteShape(line, lead, gap, text)
    ensures forall lead, gap, text | QuoteShape(line, lead, gap, text) :: QuoteText(line) == Some(text)
  {
    hide QuoteText, QuoteShape;
    forall lead, gap, text | QuoteShape(line, lead, gap, text) ensures QuoteText(line) == Some(text) {
      QuoteReads(line, lead, gap, text);
    }
    if QuoteText(line).Some? {
      var lead, gap := QuoteWrote(line);
    }
  }

  lemma QuoteReads(line: string, lead: string, gap: string, text: string)
    requires QuoteShape(line, lead, gap, text)
    ensures QuoteText(line) == Some(text)
  {
    var after := gap + text;
    QuoteIsNoSpace();
    hide IsSpace, OneLine, Span;
    SpanOf(lead, ">" + after, IsSpace);
    assert line[|lead| + 1..] == after;
    if gap == "" {
      assert after == text;
    } else {
      assert after[0] == gap[0] && after[1..] == text;
    }
  }

  lemma QuoteWrote(line: string) returns (lead: string, gap: string)
    requires QuoteText(line).Some?
    ensures QuoteShape(line, lead, gap, QuoteText(line).value)
  {
    hide IsSpace, OneLine;
    var n := Span(line, IsSpace);
    var after := line[n + 1..];
    lead, gap := line[..n], if after != "" && IsSpace(after[0]) then after[..1] else "";
    assert line == lead + (">" + (gap + after[|gap|..]));
  }

  lemma QuoteIsNoSpace()
    ensures !IsSpace('>')
  {
  }

  /** A rule is three or more of one mark, with nothing but space around them. */
  ghost predicate RuleShape(line: string, before: string, marks: string, after: string) {
    line == before + marks + after && AllIn(before, IsSpace) && AllIn(after, IsSpace) && |marks| >= 3 &&
    (marks[0] == '-' || marks[0] == '*' || marks[0] == '_') && forall i | 0 <= i < |marks| :: marks[i] == marks[0]
  }

  lemma RuleIff(line: string)
    ensures IsRule(line) <==> exists before, marks, after :: RuleShape(line, before, marks, after)
  {
    if IsRule(line) {
      var before, after := TrimSplits(line, IsSpace);
      assert RuleShape(line, before, Trim(line, IsSpace), after);
    }
    forall before, marks, after | RuleShape(line, before, marks, after) ensures IsRule(line) {
      assert Trimmed(marks, IsSpace);
      TrimStripsPadding(before, marks, after, IsSpace);
    }
  }

  /** A fence is three backticks or tildes with nothing but space before them. */
  ghost predicate FenceShape(line: string, lead: string, marks: string, rest: string) {
    line == lead + (marks + rest) && AllIn(lead, IsSpace) && (marks == "```" || marks == "~~~")
  }

  lemma FenceIff(line: string)
    ensures IsFence(line) <==> exists lead, marks, rest :: FenceShape(line, lead, marks, rest)
  {
    if IsFence(line) {
      var text := TrimLeft(line, IsSpace);
      var lead := TrimSplitsLeft(line, IsSpace);
      assert text == text[..3] + text[3..];
      assert FenceShape(line, lead, text[..3], text[3..]);
    }
    forall lead, marks, rest | FenceShape(line, lead, marks, rest) ensures IsFence(line) {
      TrimLeftPadding(lead, marks + rest, IsSpace);
      assert (marks + rest)[0] == marks[0];
    }
  }

  /** No line is of two kinds: of what a line can be by itself, it is one at most. */
  lemma KindsExclude(line: string)
    ensures IsFence(line) ==>
              !IsBlank(line) && !IsRule(line) && HeadingText(line).None? && QuoteText(line).None? && ItemOf(line).None?
    ensures IsBlank(line) ==> !IsRule(line) && HeadingText(line).None? && QuoteText(line).None? && ItemOf(line).None?
    ensures IsRule(line) ==> HeadingText(line).None? && QuoteText(line).None? && ItemOf(line).None?
    ensures HeadingText(line).Some? ==> QuoteText(line).None? && ItemOf(line).None?
    ensures QuoteText(line).Some? ==> ItemOf(line).None?
  {
    hide TrimRight, StripClosing, OneLine;
    var n, text := Span(line, IsSpace), TrimLeft(line, IsSpace);
    TrimLeftIsSpan(line, IsSpace);
    TrimRightPrefix(text, IsSpace);
    if text != "" {
      FirstOf(line, n, text);
    }
  }

  /** What the first character that is no space says about the line. */
  lemma FirstOf(line: string, n: nat, text: string)
    requires n == Span(line, IsSpace) && text == line[n..] == TrimLeft(line, IsSpace) != ""
    ensures !IsBlank(line) && (IsFence(line) ==> text[0] == '`' || text[0] == '~')
    ensures HeadingText(line).Some? ==> text[0] == '#'
    ensures QuoteText(line).Some? ==> text[0] == '>'
    ensures ItemOf(line).Some? ==> text[0] in "-*+" || IsDigit(text[0])
    ensures IsRule(line) ==> text[0] in "-*_"
    ensures IsRule(line) ==> ItemOf(line).None?
  {
    hide StripClosing, OneLine;
    TrimRightPrefix(text, IsSpace);
    assert !IsSpace(text[0]);
    var tail := text[|TrimRight(text, IsSpace)|..];
    assert TrimRight(text, IsSpace) == "" ==> tail == text;
    assert Trim(line, IsSpace)[0] == text[0];
    if IsRule(line) {
      assert text[1] == Trim(line, IsSpace)[1];
    }
  }

  /** A heading's line as its pattern spells it; the closing number signs and the spaces around them are optional. */
  ghost predicate HeadingShape(line: string, lead: string, hashes: string, gap: string, text: string, tail: string) {
    line == lead + (hashes + (gap + (text + tail))) &&
    |lead| <= 3 && AllIn(lead, IsSpace) && 1 <= |hashes| <= 6 && AllIn(hashes, IsHash) &&
    gap != "" && AllIn(gap, IsSpace) && OneLine(text) && Closing(tail)
  }

  ghost predicate Closing(tail: string) {
    exists before, hashes, after ::
      tail == before + hashes + after && AllIn(before, IsSpace) && AllIn(hashes, IsHash) && AllIn(after, IsSpace)
  }

  /** However the tail is cut off a text, StripClosing cuts off no less. */
  lemma StripIsGreatest(text: string, before: string, hashes: string, after: string)
    requires AllIn(before, IsSpace) && AllIn(hashes, IsHash) && AllIn(after, IsSpace)
    ensures StripClosing(text + before + hashes + after) <= text
  {
    var s := text + before + hashes;
    TrimRightPadding(s, after, IsSpace);
    TrimRightPadding(text + before, hashes, IsHash);
    TrimRightPadding(text, before, IsSpace);
    TrimRightPrefix(text, IsSpace);
    if hashes == "" {
      assert s == text + before;
      TrimRightPrefix(TrimRight(text, IsSpace), IsHash);
      TrimRightPrefix(TrimRight(TrimRight(text, IsSpace), IsHash), IsSpace);
    } else {
      assert s[|s| - 1] == '#';
      assert TrimRight(s, IsSpace) == s;
      if before == "" {
        assert text + before == text;
        TrimRightPrefix(text, IsHash);
        TrimRightPrefix(TrimRight(text, IsHash), IsSpace);
      } else {
        assert IsSpace((text + before)[|text + before| - 1]);
        assert TrimRight(text + before, IsHash) == text + before;
      }
    }
  }

  lemma StripLeavesClosing(s: string)
    ensures StripClosing(s) <= s && Closing(s[|StripClosing(s)|..])
  {
    hide TrimRight, AllIn, IsSpace, IsHash;
    var after := TrimSplitsRight(s, IsSpace);
    var hashes := TrimSplitsRight(TrimRight(s, IsSpace), IsHash);
    var before := TrimSplitsRight(TrimRight(TrimRight(s, IsSpace), IsHash), IsSpace);
    var tail := before + hashes + after;
    assert s == StripClosing(s) + tail && s[|StripClosing(s)|..] == tail;
  }

  lemma PrefixIsOneLine(s: string, t: string)
    requires OneLine(t) && s <= t
    ensures OneLine(s)
  {
  }

  /** The same for what follows the gap, which loses its leading space first. */
  lemma ClosedTextIsShort(text: string, tail: string)
    requires OneLine(text) && Closing(tail)
    ensures var s := StripClosing(TrimLeft(text + tail, IsSpace)); |s| <= |text| && OneLine(s)
  {
    hide IsSpace, StripClosing, TrimLeft, Span, Closing, AllIn;
    TrimLeftIsSpan(text + tail, IsSpace);
    var n := Span(text + tail, IsSpace);
    if n <= |text| {
      assert (text + tail)[n..] == text[n..] + tail;
      StripsToPrefix(text[n..], tail);
      PrefixIsOneLine(StripClosing(text[n..] + tail), text[n..]);
    } else {
      assert (text + tail)[n..] == "" + tail[n - |text|..];
      SuffixCloses(tail, n - |text|);
      StripsToPrefix("", tail[n - |text|..]);
    }
  }

  lemma StripsToPrefix(text: string, tail: string)
    requires Closing(tail)
    ensures StripClosing(text + tail) <= text
  {
    hide IsSpace, StripClosing;
    var before, hashes, after :|
      tail == before + hashes + after && AllIn(before, IsSpace) && AllIn(hashes, IsHash) && AllIn(after, IsSpace);
    assert text + tail == text + before + hashes + after;
    StripIsGreatest(text, before, hashes, after);
  }

  lemma SuffixCloses(tail: string, m: nat)
    requires Closing(tail) && m <= |tail|
    ensures Closing(tail[m..])
  {
    hide IsSpace;
    var before, hashes, after :|
      tail == before + hashes + after && AllIn(before, IsSpace) && AllIn(hashes, IsHash) && AllIn(after, IsSpace);
    if m <= |before| {
      assert tail[m..] == before[m..] + hashes + after;
    } else if m <= |before| + |hashes| {
      assert tail[m..] == "" + hashes[m - |before|..] + after;
    } else {
      assert tail[m..] == "" + "" + after[m - |before| - |hashes|..];
    }
  }

  lemma HashesThenGap(hashes: string, gap: string)
    requires hashes != "" && AllIn(hashes, IsHash) && gap != "" && AllIn(gap, IsSpace)
    ensures !IsSpace(hashes[0]) && IsSpace(gap[0]) && !IsHash(gap[0])
  {
  }

  lemma HeadingReads(line: string, lead: string, hashes: string, gap: string, text: string, tail: string)
    requires HeadingShape(line, lead, hashes, gap, text, tail)
    ensures HeadingText(line).Some? && |HeadingText(line).value| <= |text|
  {
    hide IsSpace, OneLine, Closing, StripClosing, IsHash, AllIn, Span, TrimLeft;
    var after := gap + (text + tail);
    HashesThenGap(hashes, gap);
    SpanOf(lead, hashes + after, IsSpace);
    assert line[|lead|..] == hashes + after;
    SpanOf(hashes, after, IsHash);
    assert line[|lead| + |hashes|..] == after;
    TrimLeftPadding(gap, text + tail, IsSpace);
    ClosedTextIsShort(text, tail);
  }

  lemma HeadingParts(line: string) returns (lead: string, hashes: string, after: string)
    requires HeadingText(line).Some?
    ensures line == lead + (hashes + after) && |lead| <= 3 && AllIn(lead, IsSpace) && 1 <= |hashes| <= 6 && AllIn(hashes, IsHash)
    ensures after != "" && IsSpace(after[0])
    ensures var text := StripClosing(TrimLeft(after, IsSpace)); HeadingText(line) == Some(text) && OneLine(text)
  {
    hide IsSpace, OneLine, Closing, StripClosing, IsHash, TrimLeft, AllIn, Span;
    var n := Span(line, IsSpace);
    var level := Span(line[n..], IsHash);
    lead, hashes, after := line[..n], line[n..][..level], line[n + level..];
    CutTwice(line, n, level);
  }

  lemma CutTwice(s: string, n: nat, k: nat)
    requires n + k <= |s|
    ensures s == s[..n] + (s[n..][..k] + s[n + k..])
  {
  }

  lemma HeadingWrote(line: string) returns (lead: string, hashes: string, gap: string, tail: string)
    requires HeadingText(line).Some?
    ensures HeadingShape(line, lead, hashes, gap, HeadingText(line).value, tail)
  {
    hide IsSpace, OneLine, Closing, StripClosing, IsHash, TrimLeft, AllIn, Span, HeadingText;
    var after;
    lead, hashes, after := HeadingParts(line);
    var body := TrimLeft(after, IsSpace);
    TrimLeftSuffix(after, IsSpace);
    gap := after[..|after| - |body|];
    Cut(after, |gap|);
    var text := StripClosing(body);
    StripLeavesClosing(body);
    tail := body[|text|..];
    Cut(body, |text|);
  }

  /** A line is a heading exactly when the pattern fits it, and its text is the shortest the pattern allows. */
  lemma HeadingIff(line: string)
    ensures HeadingText(line).Some? <==>
            exists lead, hashes, gap, text, tail :: HeadingShape(line, lead, hashes, gap, text, tail)
    ensures HeadingText(line).Some? ==>
              exists lead, hashes, gap, tail :: HeadingShape(line, lead, hashes, gap, HeadingText(line).value, tail)
    ensures forall lead, hashes, gap, text, tail | HeadingShape(line, lead, hashes, gap, text, tail) ::
              |HeadingText(line).value| <= |text|
  {
    forall lead, hashes, gap, text, tail | HeadingShape(line, lead, hashes, gap, text, tail)
      ensures HeadingText(line).Some? && |HeadingText(line).value| <= |text|
    {
      HeadingReads(line, lead, hashes, gap, text, tail);
    }
    if HeadingText(line).Some? {
      var lead, hashes, gap, tail := HeadingWrote(line);
      assert HeadingShape(line, lead, hashes, gap, HeadingText(line).value, tail);
    }
  }
}
