/** The quoting that puts a path into the relaunch command, against the shell's own reading of it. */
module ShellQuote {
  import opened Common

  function ReplaceQuotes(value: string): string {
    if value == "" then ""
    else (if value[0] == '\'' then "'\\''" else [value[0]]) + ReplaceQuotes(value[1..])
  }

  function Quote(value: string): string {
    "'" + ReplaceQuotes(value) + "'"
  }

  function WaitForExit(pid: string): string {
    "while kill -0 " + pid + " 2>/dev/null; do sleep 0.2; done; "
  }

  // ---- Token recognition and quote removal, sections 2.2 and 2.3 of the POSIX.1-2017 shell language ----

  datatype Token = Word(text: string) | Operator(symbol: char)

  datatype Mode = Plain | Single | Escaped | Unsupported

  /** The lexer between two characters; `word` is the word being read, quotes already removed. */
  datatype Lexer = Lexer(tokens: seq<Token>, word: Option<string>, mode: Mode)

  function Delimit(l: Lexer): Lexer {
    if l.word.Some? then Lexer(l.tokens + [Word(l.word.value)], None, l.mode) else l
  }

  function Take(l: Lexer, c: char): Lexer {
    l.(word := Some((if l.word.Some? then l.word.value else "") + [c]))
  }

  predicate IsOperator(c: char) {
    c == '\n' || c == ';' || c == '&' || c == '|' || c == '<' || c == '>' || c == '(' || c == ')'
  }

  predicate Expands(c: char) {
    c == '$' || c == '`' || c == '"' || c == '#' || c == '*' || c == '?' || c == '[' || c == '~'
  }

  predicate Tame(c: char) {
    c != '\'' && c != '\\' && !Expands(c)
  }

  predicate Ordinary(c: char) {
    Tame(c) && !IsOperator(c) && c != ' ' && c != '\t'
  }

  /** Expansions and double quotes are outside this lexer: met unquoted, they make it give up. */
  function Next(l: Lexer, c: char): Lexer {
    match l.mode
    case Unsupported => l
    case Single => if c == '\'' then l.(mode := Plain) else Take(l, c)
    case Escaped => if c == '\n' then l.(mode := Plain) else Take(l, c).(mode := Plain)
    case Plain =>
      if c == '\'' then l.(mode := Single, word := Some(if l.word.Some? then l.word.value else ""))
      else if c == '\\' then l.(mode := Escaped)
      else if c == ' ' || c == '\t' then Delimit(l)
      else if IsOperator(c) then Delimit(l).(tokens := Delimit(l).tokens + [Operator(c)])
      else if Expands(c) then l.(mode := Unsupported)
      else Take(l, c)
  }

  function Feed(l: Lexer, text: string): Lexer
    decreases text
  {
    if text == "" then l else Feed(Next(l, text[0]), text[1..])
  }

  const START := Lexer([], None, Plain)

  /** None for an unterminated quote or escape, or for syntax beyond this lexer. */
  function Lex(text: string): Option<seq<Token>> {
    var l := Feed(START, text);
    if l.mode == Plain then Some(Delimit(l).tokens) else None
  }

  lemma {:induction false} FeedAppend(l: Lexer, a: string, b: string)
    ensures Feed(l, a + b) == Feed(Feed(l, a), b)
    decreases a
  {
    if a == "" {
      assert a + b == b;
    } else {
      assert (a + b)[0] == a[0] && (a + b)[1..] == a[1..] + b;
      FeedAppend(Next(l, a[0]), a[1..], b);
    }
  }

  /** Leaving the quotes, escaping one and entering again adds that one quote to the word. */
  lemma EscapedQuote(l: Lexer)
    requires l.mode == Single && l.word.Some?
    ensures Feed(l, "'\\''") == Take(l, '\'')
  {
    var a := Next(l, '\'');
    var b := Next(a, '\\');
    var c := Next(b, '\'');
    assert "'\\''"[1..] == "\\''" && "\\''"[1..] == "''" && "''"[1..] == "'" && "'"[1..] == "";
    assert Feed(c, "'") == Next(c, '\'') == Take(l, '\'');
    assert Feed(b, "''") == Feed(c, "'");
    assert Feed(a, "\\''") == Feed(b, "''");
  }

  lemma {:induction false} FeedReplaced(tokens: seq<Token>, word: string, value: string)
    ensures Feed(Lexer(tokens, Some(word), Single), ReplaceQuotes(value)) == Lexer(tokens, Some(word + value), Single)
    decreases value
  {
    var l := Lexer(tokens, Some(word), Single);
    if value == "" {
      assert word + value == word;
    } else {
      var rest, next := ReplaceQuotes(value[1..]), word + [value[0]];
      if value[0] == '\'' {
        FeedAppend(l, "'\\''", rest);
        EscapedQuote(l);
      } else {
        assert ([value[0]] + rest)[1..] == rest;
      }
      FeedReplaced(tokens, next, value[1..]);
      assert next + value[1..] == word + value;
    }
  }

  /** Whatever stands before it, a quoted value is read as exactly the one word it quotes. */
  lemma QuotedIsOneWord(before: string, value: string)
    requires Feed(START, before).mode == Plain && Feed(START, before).word == None
    ensures Lex(before + Quote(value)) == Some(Feed(START, before).tokens + [Word(value)])
  {
    var l := Feed(START, before);
    var tail := ReplaceQuotes(value) + "'";
    assert Quote(value) == "'" + tail;
    FeedAppend(START, before, Quote(value));
    assert (("'" + tail)[1..]) == tail;
    FeedAppend(l.(mode := Single, word := Some("")), ReplaceQuotes(value), "'");
    FeedReplaced(l.tokens, "", value);
    assert "" + value == value;
  }

  lemma QuoteAlone(value: string)
    ensures Lex(Quote(value)) == Some([Word(value)])
  {
    QuotedIsOneWord("", value);
    assert "" + Quote(value) == Quote(value);
    assert START.tokens + [Word(value)] == [Word(value)];
  }

  /** The lexer is between words after any text that ends in an unquoted blank. */
  lemma BlankDelimits(text: string)
    requires Feed(START, text).mode == Plain
    ensures Feed(START, text + " ").mode == Plain && Feed(START, text + " ").word == None
  {
    FeedAppend(START, text, " ");
    assert " "[1..] == "";
  }

  lemma {:induction false} FeedPlain(l: Lexer, text: string)
    requires l.mode == Plain && AllIn(text, Ordinary) && text != ""
    ensures Feed(l, text) == l.(word := Some((if l.word.Some? then l.word.value else "") + text))
    decreases text
  {
    var word := if l.word.Some? then l.word.value else "";
    assert Ordinary(text[0]);
    assert text == [text[0]] + text[1..];
    if |text| > 1 {
      FeedPlain(Next(l, text[0]), text[1..]);
      assert (word + [text[0]]) + text[1..] == word + text;
    } else {
      assert text == [text[0]] && text[1..] == "";
      assert Feed(Next(l, text[0]), "") == Take(l, text[0]);
    }
  }

  /** The relaunch command ends in the program to run and, as one word, the path to run it on. */
  lemma RelaunchRunsRoot(pid: string, program: string, root: string)
    requires AllIn(pid, Ordinary) && pid != "" && AllIn(program, Ordinary) && program != ""
    ensures var command := Lex(WaitForExit(pid) + (program + " ") + Quote(root));
            command.Some? && |command.value| >= 2 &&
            command.value[|command.value| - 2..] == [Word(program), Word(root)]
  {
    var wait := WaitForExit(pid);
    WaitIsComplete(pid);
    var l := Feed(START, wait);
    FeedAppend(START, wait, program + " ");
    FeedAppend(l, program, " ");
    FeedPlain(l, program);
    assert " "[1..] == "";
    assert "" + program == program;
    assert Feed(START, wait + (program + " ")) == Lexer(l.tokens + [Word(program)], None, Plain);
    assert l.tokens + [Word(program)] + [Word(root)] == l.tokens + [Word(program), Word(root)];
    QuotedIsOneWord(wait + (program + " "), root);
  }

  lemma {:induction false} FeedTame(l: Lexer, text: string)
    requires l.mode == Plain && AllIn(text, Tame)
    ensures Feed(l, text).mode == Plain
    decreases text
  {
    if text != "" {
      assert Tame(text[0]);
      assert forall i | 0 <= i < |text[1..]| :: text[1..][i] == text[i + 1];
      FeedTame(Next(l, text[0]), text[1..]);
    }
  }

  lemma LiteralsAreTame()
    ensures AllIn("while kill -0 ", Tame) && AllIn(" 2>/dev/null; do sleep 0.2; done;", Tame)
  {
  }

  lemma OrdinaryIsTame(s: string)
    requires AllIn(s, Ordinary)
    ensures AllIn(s, Tame)
  {
  }

  lemma WaitIsComplete(pid: string)
    requires AllIn(pid, Ordinary) && pid != ""
    ensures Feed(START, WaitForExit(pid)).mode == Plain && Feed(START, WaitForExit(pid)).word == None
  {
    var head, tail := "while kill -0 ", " 2>/dev/null; do sleep 0.2; done;";
    var body := head + pid + tail;
    assert WaitForExit(pid) == body + " ";
    LiteralsAreTame();
    assert AllIn(body, Tame) by {
      hide Tame;
      assert forall i | 0 <= i < |pid| :: Tame(pid[i]) by {
        OrdinaryIsTame(pid);
      }
    }
    hide Tame, WaitForExit;
    FeedTame(START, body);
    BlankDelimits(body);
  }
}
