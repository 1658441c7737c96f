/** Stable semantic versions: the accepted form, the parsed value and the order. */
module SemVer {
  import opened Common

  const UINT64_LIMIT: nat := 0x1_0000_0000_0000_0000

  /** The characters Go's strings.TrimSpace removes. */
  predicate IsSpace(c: char) {
    var code := c as int;
    9 <= code <= 13 || code in {0x20, 0x85, 0xa0, 0x1680, 0x2028, 0x2029, 0x202f, 0x205f, 0x3000} ||
    0x2000 <= code <= 0x200a
  }

  predicate IsDigit(c: char) { '0' <= c <= '9' }

  predicate IsIdentifier(c: char) {
    IsDigit(c) || 'A' <= c <= 'Z' || 'a' <= c <= 'z' || c == '-'
  }

  predicate Digits(s: string) {
    forall i | 0 <= i < |s| :: IsDigit(s[i])
  }

  /** `0|[1-9]\d*` */
  predicate Canonical(s: string) {
    s != "" && Digits(s) && (s[0] == '0' ==> |s| == 1)
  }

  /** `[0-9A-Za-z-]+(\.[0-9A-Za-z-]+)*`; `open` says whether the current identifier still needs a character. */
  predicate Identifiers(s: string, open: bool) {
    if s == "" then !open
    else if s[0] == '.' then !open && Identifiers(s[1..], true)
    else IsIdentifier(s[0]) && Identifiers(s[1..], false)
  }

  predicate BuildMetadata(s: string) {
    s == "" || (s[0] == '+' && Identifiers(s[1..], true))
  }

  function Value(s: string): nat
    requires Digits(s)
  {
    if s == "" then 0 else 10 * Value(s[..|s| - 1]) + (s[|s| - 1] - '0') as nat
  }

  function Print(n: nat): string {
    var digit := [('0' as int + n % 10) as char];
    if n < 10 then digit else Print(n / 10) + digit
  }

  function DigitRun(s: string): (n: nat)
    ensures n <= |s|
  {
    if s != "" && IsDigit(s[0]) then 1 + DigitRun(s[1..]) else 0
  }

  /** The text left after a number and, where one is due, the dot behind it. */
  function AfterNumber(s: string, dot: bool): Option<(string, string)> {
    var n := DigitRun(s);
    if !(DigitsOfRun(s); Canonical(s[..n])) then None
    else if !dot then Some((s[..n], s[n..]))
    else if n < |s| && s[n] == '.' then Some((s[..n], s[n + 1..]))
    else None
  }

  predicate Numerals(parts: seq<string>) {
    |parts| == 3 && Canonical(parts[0]) && Canonical(parts[1]) && Canonical(parts[2])
  }

  function Values(parts: seq<string>): (values: seq<nat>)
    requires Numerals(parts)
    ensures |values| == 3
  {
    [Value(parts[0]), Value(parts[1]), Value(parts[2])]
  }

  predicate InRange(values: seq<nat>)
    requires |values| == 3
  {
    values[0] < UINT64_LIMIT && values[1] < UINT64_LIMIT && values[2] < UINT64_LIMIT
  }

  function MatchNumbers(text: string): (r: Option<seq<string>>)
    ensures r.Some? ==> Numerals(r.value)
  {
    match AfterNumber(text, true)
    case None => None
    case Some((major, rest)) =>
      match AfterNumber(rest, true)
      case None => None
      case Some((minor, tail)) =>
        match AfterNumber(tail, false)
        case None => None
        case Some((patch, build)) =>
          if BuildMetadata(build) then Some([major, minor, patch]) else None
  }

  /** The three numbers the release pattern captures, or None when it does not match. */
  function Match(s: string): (r: Option<seq<string>>)
    ensures r.Some? ==> Numerals(r.value)
  {
    MatchNumbers(if s != "" && s[0] == 'v' then s[1..] else s)
  }

  function Dotted(parts: seq<string>): string
    requires |parts| == 3
  {
    parts[0] + "." + parts[1] + "." + parts[2]
  }

  datatype StableVersion = StableVersion(normalized: string, parts: seq<nat>)

  function ParseStable(value: string): (r: Option<StableVersion>)
    ensures r.Some? ==> |r.value.parts| == 3
  {
    match Match(Trim(value, IsSpace))
    case None => None
    case Some(text) =>
      var parts := Values(text);
      if !InRange(parts) then None
      else Some(StableVersion(Dotted([Print(parts[0]), Print(parts[1]), Print(parts[2])]), parts))
  }

  method ParseStableVersion(value: string) returns (r: Option<StableVersion>)
    ensures r == ParseStable(value)
  {
    var matched := Match(Trim(value, IsSpace));
    if matched.None? {
      return None;
    }
    var parts := [0, 0, 0];
    for index := 0 to 3
      invariant |parts| == 3
      invariant forall i | 0 <= i < index :: parts[i] == Values(matched.value)[i] < UINT64_LIMIT
    {
      var parsed := Value(matched.value[index]);
      if parsed >= UINT64_LIMIT {
        return None;
      }
      parts := parts[index := parsed];
    }
    assert parts == Values(matched.value);
    r := Some(StableVersion(Dotted([Print(parts[0]), Print(parts[1]), Print(parts[2])]), parts));
  }

  function CompareParts(left: seq<nat>, right: seq<nat>): int
    requires |left| == |right|
  {
    if left == [] then 0
    else if left[0] < right[0] then -1
    else if left[0] > right[0] then 1
    else CompareParts(left[1..], right[1..])
  }

  /** None stands for the error CompareStable returns when either side is no stable version. */
  function Compare(left: string, right: string): Option<int> {
    match ParseStable(left)
    case None => None
    case Some(l) =>
      match ParseStable(right)
      case None => None
      case Some(r) => Some(CompareParts(l.parts, r.parts))
  }

  method CompareStable(left: string, right: string) returns (r: Option<int>)
    ensures r == Compare(left, right)
  {
    var leftVersion := ParseStableVersion(left);
    if leftVersion.None? {
      return None;
    }
    var rightVersion := ParseStableVersion(right);
    if rightVersion.None? {
      return None;
    }
    var l, s := leftVersion.value.parts, rightVersion.value.parts;
    for index := 0 to 3
      invariant CompareParts(l, s) == CompareParts(l[index..], s[index..])
    {
      if l[index] < s[index] {
        return Some(-1);
      }
      if l[index] > s[index] {
        return Some(1);
      }
    }
    r := Some(0);
  }

  /** `latest` is strictly newer than the running `current`. */
  predicate Newer(current: string, latest: string) {
    Compare(current, latest) == Some(-1)
  }

  // ---- The accepted form -------------------------------------------------------------------

  /** The release pattern read declaratively: an optional v, three canonical numbers, build metadata. */
  ghost predicate StableForm(s: string, parts: seq<string>) {
    Numerals(parts) && exists v: string, build: string ::
      (v == "" || v == "v") && BuildMetadata(build) && s == v + (Dotted(parts) + build)
  }

  lemma {:induction false} DigitsOfRun(s: string)
    ensures Digits(s[..DigitRun(s)])
    ensures DigitRun(s) < |s| ==> !IsDigit(s[DigitRun(s)])
  {
    if s != "" && IsDigit(s[0]) {
      DigitsOfRun(s[1..]);
      assert s[..DigitRun(s)] == [s[0]] + s[1..][..DigitRun(s[1..])];
    }
  }

  lemma {:induction false} RunOfDigits(digits: string, rest: string)
    requires Digits(digits) && (rest != "" ==> !IsDigit(rest[0]))
    ensures DigitRun(digits + rest) == |digits|
  {
    if digits == "" {
      assert digits + rest == rest;
    } else {
      assert (digits + rest)[1..] == digits[1..] + rest;
      RunOfDigits(digits[1..], rest);
    }
  }

  lemma AfterNumberReads(text: string, digits: string, rest: string, dot: bool)
    requires Canonical(digits) && (dot || rest == "" || !IsDigit(rest[0]))
    requires text == digits + (if dot then "." + rest else rest)
    ensures AfterNumber(text, dot) == Some((digits, rest))
  {
    var tail := if dot then "." + rest else rest;
    RunOfDigits(digits, tail);
    assert text[..|digits|] == digits;
    assert text[|digits|..] == tail;
    if dot {
      assert text[|digits| + 1..] == rest;
    }
  }

  lemma AfterNumberWrote(s: string, dot: bool)
    requires AfterNumber(s, dot).Some?
    ensures var (digits, rest) := AfterNumber(s, dot).value;
            Canonical(digits) && s == digits + (if dot then "." + rest else rest)
  {
    DigitsOfRun(s);
    var n := DigitRun(s);
    assert s == s[..n] + s[n..];
    if dot {
      assert s[n..] == "." + s[n + 1..];
    }
  }

  lemma Regroup(a: string, b: string, c: string, build: string)
    ensures a + "." + b + "." + c + build == a + ("." + (b + ("." + (c + build))))
  {
  }

  lemma MatchNumbersReads(major: string, minor: string, patch: string, build: string)
    requires Numerals([major, minor, patch]) && BuildMetadata(build)
    ensures MatchNumbers(major + ("." + (minor + ("." + (patch + build))))) == Some([major, minor, patch])
  {
    var tail := patch + build;
    var rest := minor + ("." + tail);
    assert build != "" ==> !IsDigit(build[0]);
    hide Canonical, IsDigit, AfterNumber, BuildMetadata;
    AfterNumberReads(major + ("." + rest), major, rest, true);
    AfterNumberReads(rest, minor, tail, true);
    AfterNumberReads(tail, patch, build, false);
  }

  lemma MatchNumbersWrote(text: string) returns (build: string)
    requires MatchNumbers(text).Some?
    ensures BuildMetadata(build) && text == Dotted(MatchNumbers(text).value) + build
  {
    AfterNumberWrote(text, true);
    var (major, rest) := AfterNumber(text, true).value;
    AfterNumberWrote(rest, true);
    var (minor, tail) := AfterNumber(rest, true).value;
    AfterNumberWrote(tail, false);
    var patch := AfterNumber(tail, false).value.0;
    build := AfterNumber(tail, false).value.1;
    Regroup(major, minor, patch, build);
  }

  lemma MatchReads(s: string, v: string, parts: seq<string>, build: string)
    requires Numerals(parts) && (v == "" || v == "v") && BuildMetadata(build) && s == v + (Dotted(parts) + build)
    ensures Match(s) == Some(parts)
  {
    var text := Dotted(parts) + build;
    assert IsDigit(text[0]) by { assert text[0] == parts[0][0]; }
    assert s[|v|..] == text;
    Regroup(parts[0], parts[1], parts[2], build);
    assert parts == [parts[0], parts[1], parts[2]];
    MatchNumbersReads(parts[0], parts[1], parts[2], build);
  }

  lemma MatchWrote(s: string) returns (v: string, build: string)
    requires Match(s).Some?
    ensures (v == "" || v == "v") && BuildMetadata(build) && s == v + (Dotted(Match(s).value) + build)
  {
    v := if s != "" && s[0] == 'v' then "v" else "";
    build := MatchNumbersWrote(s[|v|..]);
  }

  /** The scanner accepts exactly the pattern, and captures exactly its three groups. */
  lemma MatchIff(s: string, parts: seq<string>)
    ensures Match(s) == Some(parts) <==> StableForm(s, parts)
  {
    if StableForm(s, parts) {
      var v: string, build: string :|
        (v == "" || v == "v") && BuildMetadata(build) && s == v + (Dotted(parts) + build);
      MatchReads(s, v, parts, build);
    }
    if Match(s) == Some(parts) {
      var v, build := MatchWrote(s);
    }
  }

  lemma {:induction false} PrintValue(s: string)
    requires Canonical(s)
    ensures Print(Value(s)) == s
    ensures |s| > 1 ==> Value(s) >= 10
  {
    var init, digit := s[..|s| - 1], s[|s| - 1];
    var units := (digit - '0') as nat;
    assert s == init + [digit] && ('0' as int + units) as char == digit;
    assert Value(s) == 10 * Value(init) + units;
    if |s| == 1 {
      assert init == "" && Value(init) == 0;
    } else {
      PrintValue(init);
      assert Value(init) > 0 by {
        if |init| == 1 {
          assert init[..0] == "" && Value(init) == (init[0] - '0') as nat;
        }
      }
      hide Value;
      assert Print(10 * Value(init) + units) == Print(Value(init)) + [digit];
    }
  }

  lemma {:induction false} ValuePrint(n: nat)
    ensures Canonical(Print(n)) && Value(Print(n)) == n
    ensures n > 0 ==> Print(n)[0] != '0'
  {
    var digit := [('0' as int + n % 10) as char];
    assert Value(digit) == n % 10 by { assert digit[..0] == ""; }
    if n < 10 {
      assert Print(n) == digit;
    } else {
      var init := Print(n / 10);
      ValuePrint(n / 10);
      assert Print(n) == init + digit;
      assert Print(n)[..|init|] == init && Print(n)[0] == init[0];
      hide Print;
      assert Value(init + digit) == Value(init) * 10 + n % 10;
    }
  }

  // ---- What parsing promises ---------------------------------------------------------------

  /** Parsing succeeds exactly on the form, with all three numbers in 64 bits. */
  lemma ParsesIff(value: string)
    ensures ParseStable(value).Some? <==>
            exists parts: seq<string> ::
              StableForm(Trim(value, IsSpace), parts) && InRange(Values(parts))
  {
    var core := Trim(value, IsSpace);
    if ParseStable(value).Some? {
      var parts := Match(core).value;
      MatchIff(core, parts);
    }
    forall parts: seq<string> | StableForm(core, parts) && InRange(Values(parts))
      ensures ParseStable(value).Some?
    {
      MatchIff(core, parts);
    }
  }

  /** The normalised text is the input without surrounding space, `v` and build metadata, digit for digit. */
  lemma NormalizedText(before: string, v: string, parts: seq<string>, build: string, after: string)
    requires Numerals(parts) && InRange(Values(parts))
    requires (v == "" || v == "v") && BuildMetadata(build)
    requires AllIn(before, IsSpace) && AllIn(after, IsSpace)
    ensures ParseStable(before + (v + (Dotted(parts) + build)) + after) ==
            Some(StableVersion(Dotted(parts), Values(parts)))
  {
    hide Match, MatchNumbers, BuildMetadata, Print, Trim;
    var core := v + (Dotted(parts) + build);
    assert core == v + Dotted(parts) + build;
    LastIsNotSpace(v + Dotted(parts), parts[2], build);
    assert core[0] == if v == "" then parts[0][0] else 'v';
    TrimStripsPadding(before, core, after, IsSpace);
    MatchReads(core, v, parts, build);
    PrintValue(parts[0]);
    PrintValue(parts[1]);
    PrintValue(parts[2]);
  }

  lemma {:induction false} IdentifiersEnd(s: string, open: bool)
    requires s != "" && Identifiers(s, open)
    ensures !IsSpace(s[|s| - 1])
  {
    if |s| > 1 {
      IdentifiersEnd(s[1..], s[0] == '.');
    }
  }

  lemma LastIsNotSpace(head: string, number: string, build: string)
    requires Canonical(number) && |number| <= |head| && number == head[|head| - |number|..] && BuildMetadata(build)
    ensures head + build != "" && !IsSpace((head + build)[|head + build| - 1])
  {
    if build == "" {
      assert (head + build)[|head| - 1] == number[|number| - 1];
    } else if |build| > 1 {
      IdentifiersEnd(build[1..], true);
      assert (head + build)[|head + build| - 1] == build[1..][|build| - 2];
    }
  }

  /** Every accepted input normalises to a text that parses to the very same version. */
  lemma NormalizedReparses(value: string)
    requires ParseStable(value).Some?
    ensures var version := ParseStable(value).value;
            ParseStable(version.normalized) == Some(version) && version.normalized != ""
  {
    var core := Trim(value, IsSpace);
    var text := Match(core).value;
    PrintValue(text[0]);
    PrintValue(text[1]);
    PrintValue(text[2]);
    NormalizedText("", "", text, "", "");
    assert "" + ("" + (Dotted(text) + "")) + "" == Dotted(text);
  }

  /** Texts and numbers name each other: one normalised text per triple of numbers. */
  lemma NormalizedIsInjective(left: string, right: string)
    requires ParseStable(left).Some? && ParseStable(right).Some?
    ensures ParseStable(left).value.normalized == ParseStable(right).value.normalized <==>
            ParseStable(left).value.parts == ParseStable(right).value.parts
  {
    NormalizedReparses(left);
    NormalizedReparses(right);
    var l, r := ParseStable(left).value.parts, ParseStable(right).value.parts;
    assert l == [l[0], l[1], l[2]] && r == [r[0], r[1], r[2]];
  }

  // ---- The order ---------------------------------------------------------------------------

  lemma {:induction false} ComparePartsOrders(a: seq<nat>, b: seq<nat>)
    requires |a| == |b|
    ensures CompareParts(a, b) in {-1, 0, 1}
    ensures CompareParts(a, b) == -CompareParts(b, a)
    ensures CompareParts(a, b) == 0 <==> a == b
    ensures CompareParts(a, b) < 0 <==>
            exists i :: 0 <= i < |a| && a[..i] == b[..i] && a[i] < b[i]
  {
    if a != [] {
      ComparePartsOrders(a[1..], b[1..]);
      if a[0] == b[0] {
        assert a == [a[0]] + a[1..] && b == [b[0]] + b[1..];
        if CompareParts(a[1..], b[1..]) < 0 {
          var i :| 0 <= i < |a[1..]| && a[1..][..i] == b[1..][..i] && a[1..][i] < b[1..][i];
          assert a[..i + 1] == [a[0]] + a[1..][..i] && b[..i + 1] == [b[0]] + b[1..][..i];
        }
        forall i | 0 < i < |a| && a[..i] == b[..i] && a[i] < b[i] ensures CompareParts(a[1..], b[1..]) < 0 {
          var rest, other, k := a[1..], b[1..], i - 1;
          assert rest[..k] == a[..i][1..] && other[..k] == b[..i][1..];
          assert rest[k] < other[k];
        }
      } else {
        assert a[..0] == b[..0];
        assert forall i | 0 < i < |a| :: a[..i][0] == a[0] && b[..i][0] == b[0];
      }
    }
  }

  lemma {:induction false} ComparePartsChains(a: seq<nat>, b: seq<nat>, c: seq<nat>)
    requires |a| == |b| == |c| && CompareParts(a, b) <= 0 && CompareParts(b, c) <= 0
    ensures CompareParts(a, c) <= 0
  {
    if a != [] && a[0] == b[0] == c[0] {
      ComparePartsChains(a[1..], b[1..], c[1..]);
    }
  }

  /** Precedence is lexicographic on the three numbers, a strict order up to equal normalised text. */
  lemma PrecedenceIsLexicographic(left: string, right: string)
    requires ParseStable(left).Some? && ParseStable(right).Some?
    ensures var l, r := ParseStable(left).value, ParseStable(right).value;
            Compare(left, right).Some? && Compare(right, left) == Some(-Compare(left, right).value) &&
            Compare(left, right).value in {-1, 0, 1} &&
            (Compare(left, right) == Some(0) <==> l.normalized == r.normalized) &&
            (Newer(left, right) <==> exists i :: 0 <= i < 3 && l.parts[..i] == r.parts[..i] && l.parts[i] < r.parts[i])
  {
    var l, r := ParseStable(left).value.parts, ParseStable(right).value.parts;
    ComparePartsOrders(l, r);
    NormalizedIsInjective(left, right);
  }

  lemma PrecedenceIsTransitive(a: string, b: string, c: string)
    requires Compare(a, b).Some? && Compare(b, c).Some?
    requires Compare(a, b).value <= 0 && Compare(b, c).value <= 0
    ensures Compare(a, c).Some? && Compare(a, c).value <= 0
  {
    ComparePartsChains(ParseStable(a).value.parts, ParseStable(b).value.parts, ParseStable(c).value.parts);
  }

  /** Comparing normalised texts, as CheckLatest does, is comparing the inputs. */
  lemma NormalizingKeepsPrecedence(left: string, right: string)
    requires ParseStable(left).Some? && ParseStable(right).Some?
    ensures Compare(ParseStable(left).value.normalized, ParseStable(right).value.normalized) == Compare(left, right)
    ensures Compare(left, ParseStable(right).value.normalized) == Compare(left, right)
  {
    NormalizedReparses(left);
    NormalizedReparses(right);
  }
}
