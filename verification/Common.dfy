/** Small datatypes and string helpers shared by the models. */
module Common {

  datatype Option<+T> = None | Some(value: T)

  datatype Result<+T, +E> = Ok(value: T) | Err(error: E)

  /** Drops the leading characters that `space` accepts. */
  function TrimLeft(s: string, space: char -> bool): string {
    if s != "" && space(s[0]) then TrimLeft(s[1..], space) else s
  }

  /** Drops the trailing characters that `space` accepts. */
  function TrimRight(s: string, space: char -> bool): string {
    if s != "" && space(s[|s| - 1]) then TrimRight(s[..|s| - 1], space) else s
  }

  function Trim(s: string, space: char -> bool): string {
    TrimRight(TrimLeft(s, space), space)
  }

  ghost predicate Trimmed(s: string, space: char -> bool) {
    s != "" ==> !space(s[0]) && !space(s[|s| - 1])
  }

  ghost predicate AllIn(s: string, space: char -> bool) {
    forall i | 0 <= i < |s| :: space(s[i])
  }

  lemma {:induction false} TrimLeftPadding(pad: string, s: string, space: char -> bool)
    requires AllIn(pad, space)
    ensures TrimLeft(pad + s, space) == TrimLeft(s, space)
  {
    if pad == "" {
      assert pad + s == s;
    } else {
      assert (pad + s)[1..] == pad[1..] + s;
      TrimLeftPadding(pad[1..], s, space);
    }
  }

  lemma {:induction false} TrimRightPadding(s: string, pad: string, space: char -> bool)
    requires AllIn(pad, space)
    ensures TrimRight(s + pad, space) == TrimRight(s, space)
  {
    if pad == "" {
      assert s + pad == s;
    } else {
      assert (s + pad)[..|s + pad| - 1] == s + pad[..|pad| - 1];
      TrimRightPadding(s, pad[..|pad| - 1], space);
    }
  }

  /** Trimming strips exactly the padding: whatever surrounds a trimmed text goes, and the text stays. */
  lemma TrimStripsPadding(before: string, s: string, after: string, space: char -> bool)
    requires AllIn(before, space) && AllIn(after, space) && Trimmed(s, space)
    ensures Trim(before + s + after, space) == s
  {
    assert before + s + after == before + (s + after);
    TrimLeftPadding(before, s + after, space);
    if s == "" {
      assert s + after == after + "";
      TrimLeftPadding(after, "", space);
    } else {
      assert (s + after)[0] == s[0];
      TrimRightPadding(s, after, space);
    }
  }

  lemma {:induction false} TrimLeftSuffix(s: string, space: char -> bool)
    ensures TrimLeft(s, space) == "" || !space(TrimLeft(s, space)[0])
    ensures |TrimLeft(s, space)| <= |s|
    ensures AllIn(s[..|s| - |TrimLeft(s, space)|], space)
    ensures s[|s| - |TrimLeft(s, space)|..] == TrimLeft(s, space)
  {
    if s != "" && space(s[0]) {
      TrimLeftSuffix(s[1..], space);
      var n := |s| - |TrimLeft(s, space)|;
      assert s[..n] == [s[0]] + s[1..][..n - 1];
      assert s[n..] == s[1..][n - 1..];
    }
  }

  lemma {:induction false} TrimRightPrefix(s: string, space: char -> bool)
    ensures TrimRight(s, space) == "" || !space(TrimRight(s, space)[|TrimRight(s, space)| - 1])
    ensures TrimRight(s, space) <= s
    ensures AllIn(s[|TrimRight(s, space)|..], space)
  {
    if s != "" && space(s[|s| - 1]) {
      var t := s[..|s| - 1];
      TrimRightPrefix(t, space);
      assert s[|TrimRight(s, space)|..] == t[|TrimRight(s, space)|..] + [s[|s| - 1]];
    }
  }

  lemma TrimSplitsLeft(s: string, space: char -> bool) returns (before: string)
    ensures AllIn(before, space) && s == before + TrimLeft(s, space)
  {
    hide AllIn, TrimLeft;
    TrimLeftSuffix(s, space);
    before := s[..|s| - |TrimLeft(s, space)|];
    Cut(s, |before|);
  }

  lemma TrimSplitsRight(s: string, space: char -> bool) returns (after: string)
    ensures AllIn(after, space) && s == TrimRight(s, space) + after
  {
    hide AllIn, TrimRight;
    TrimRightPrefix(s, space);
    after := s[|TrimRight(s, space)|..];
    Cut(s, |TrimRight(s, space)|);
  }

  lemma TrimIsTrimmed(s: string, space: char -> bool)
    ensures Trimmed(Trim(s, space), space)
  {
    hide AllIn, TrimLeft, TrimRight;
    TrimLeftSuffix(s, space);
    TrimRightPrefix(TrimLeft(s, space), space);
  }

  /** The converse: every text is its trimmed core between two runs of space. */
  lemma TrimSplits(s: string, space: char -> bool) returns (before: string, after: string)
    ensures AllIn(before, space) && AllIn(after, space) && Trimmed(Trim(s, space), space)
    ensures s == before + Trim(s, space) + after
  {
    hide TrimLeft, TrimRight, AllIn, Trimmed;
    TrimIsTrimmed(s, space);
    before := TrimSplitsLeft(s, space);
    after := TrimSplitsRight(TrimLeft(s, space), space);
    Regroup(before, Trim(s, space), after);
  }

  lemma Cut(s: string, n: nat)
    requires n <= |s|
    ensures s == s[..n] + s[n..]
  {
  }

  lemma Regroup(a: string, b: string, c: string)
    ensures a + (b + c) == a + b + c
  {
  }
}
