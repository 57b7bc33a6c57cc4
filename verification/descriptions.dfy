/**
 * Cleaning of the transaction description (`Descrizione`): surrounding
 * whitespace is stripped and every remaining run of whitespace becomes one
 * space, as `strip()` followed by substituting `\s+` with " " does.
 */
module Descriptions {

  /** The characters Python's `str.isspace` (and so `\s` and `strip()`) treats as whitespace. */
  predicate IsSpace(c: char) {
    || c == ' '
    || '\t' <= c <= '\r'
    || '\U{1C}' <= c <= '\U{1F}'
    || c == '\U{85}' || c == '\U{A0}' || c == '\U{1680}'
    || '\U{2000}' <= c <= '\U{200A}'
    || c == '\U{2028}' || c == '\U{2029}' || c == '\U{202F}' || c == '\U{205F}' || c == '\U{3000}'
  }

  /**
   * The words of `s`: its maximal runs of non-whitespace characters, in order
   * (what `str.split()` with no argument returns).
   */
  function Words(s: string): (ws: seq<string>)
    ensures s != [] && !IsSpace(s[0]) ==> ws != [] && ws[0] != [] && ws[0][0] == s[0]
  {
    if s == [] then []
    else if IsSpace(s[0]) then Words(s[1..])
    else
      var rest := Words(s[1..]);
      if |s| > 1 && !IsSpace(s[1]) then [[s[0]] + rest[0]] + rest[1..] else [[s[0]]] + rest
  }

  /** Text with no whitespace at either end, single spaces between words and no other whitespace. */
  predicate IsClean(s: string) {
    && (s != [] ==> !IsSpace(s[0]) && !IsSpace(s[|s| - 1]))
    && SingleSpaced(s)
  }

  /** Every whitespace character is a plain space and no two are adjacent. */
  predicate SingleSpaced(s: string) {
    && (forall i | 0 <= i < |s| :: IsSpace(s[i]) ==> s[i] == ' ')
    && (forall i | 0 <= i < |s| - 1 :: !TwoSpacesAt(s, i))
  }

  /** Positions `i` and `i + 1` of `s` both hold whitespace. */
  predicate TwoSpacesAt(s: string, i: int)
    requires 0 <= i < |s| - 1
  {
    IsSpace(s[i]) && IsSpace(s[i + 1])
  }

  /** Drops leading whitespace. */
  function TrimStart(s: string): (r: string)
    ensures |r| <= |s| && r == s[|s| - |r|..]
    ensures forall i | 0 <= i < |s| - |r| :: IsSpace(s[i])
    ensures r == [] || !IsSpace(r[0])
    ensures s != [] && IsSpace(s[0]) ==> |r| < |s|
    ensures Words(r) == Words(s)
  {
    if s != [] && IsSpace(s[0]) then TrimStart(s[1..]) else s
  }

  /** Drops trailing whitespace. */
  function TrimEnd(s: string): (r: string)
    ensures |r| <= |s| && r == s[..|r|]
    ensures forall i | |r| <= i < |s| :: IsSpace(s[i])
    ensures r == [] || !IsSpace(r[|r| - 1])
    ensures Words(r) == Words(s)
  {
    if s != [] && IsSpace(s[|s| - 1]) then
      WordsWithoutTrailingSpace(s);
      TrimEnd(s[..|s| - 1])
    else s
  }

  /**
   * `r` is the slice of `s` starting at `k`, with only whitespace before
   * and after it in `s`.
   */
  predicate SliceBetweenSpaces(s: string, k: int, r: string) {
    && 0 <= k <= |s| - |r|
    && r == s[k..k + |r|]
    && (forall i | 0 <= i < k :: IsSpace(s[i]))
    && (forall i | k + |r| <= i < |s| :: IsSpace(s[i]))
  }

  /**
   * A prefix `r` of a suffix `t` of `s` is a slice of `s`; it has only
   * whitespace around it when only whitespace was cut off at each step.
   */
  lemma PrefixOfSuffix(s: string, t: string, r: string)
    requires |t| <= |s| && t == s[|s| - |t|..]
    requires forall i | 0 <= i < |s| - |t| :: IsSpace(s[i])
    requires |r| <= |t| && r == t[..|r|]
    requires forall i | |r| <= i < |t| :: IsSpace(t[i])
    ensures SliceBetweenSpaces(s, |s| - |t|, r)
  {
    var k := |s| - |t|;
    assert r == s[k..k + |r|];
    forall i | k + |r| <= i < |s|
      ensures IsSpace(s[i])
    {
      assert s[i] == t[i - k];
    }
  }

  /**
   * Python's `strip()`: removes the whitespace at both ends and nothing
   * else.
   */
  function Strip(s: string): (r: string)
    ensures exists k :: SliceBetweenSpaces(s, k, r)
    ensures r == [] || (!IsSpace(r[0]) && !IsSpace(r[|r| - 1]))
    ensures Words(r) == Words(s)
  {
    var t := TrimStart(s);
    PrefixOfSuffix(s, t, TrimEnd(t));
    TrimEnd(t)
  }

  /** Replaces every maximal run of whitespace by a single space. */
  function CollapseRuns(s: string): (r: string)
    ensures r == [] <==> s == []
    ensures r != [] ==> (IsSpace(r[0]) <==> IsSpace(s[0]))
    ensures r != [] ==> (IsSpace(r[|r| - 1]) <==> IsSpace(s[|s| - 1]))
    ensures SingleSpaced(r)
    ensures Words(r) == Words(s)
    decreases |s|
  {
    if s == [] then []
    else if IsSpace(s[0]) then
      var t := TrimStart(s);
      assert t != [] ==> t[|t| - 1] == s[|s| - 1];
      SingleSpacedCons(' ', CollapseRuns(t));
      " " + CollapseRuns(t)
    else
      SingleSpacedCons(s[0], CollapseRuns(s[1..]));
      [s[0]] + CollapseRuns(s[1..])
  }

  /** Putting one character in front keeps text single-spaced when it does not start a run. */
  lemma SingleSpacedCons(x: char, s: string)
    requires SingleSpaced(s)
    requires IsSpace(x) ==> x == ' ' && (s == [] || !IsSpace(s[0]))
    ensures SingleSpaced([x] + s)
  {
    var r := [x] + s;
    forall i | 0 <= i < |r| - 1 ensures !TwoSpacesAt(r, i) {
      if i > 0 {
        assert !TwoSpacesAt(s, i - 1);
      }
    }
  }

  lemma SingleSpacedTail(s: string)
    requires s != [] && SingleSpaced(s)
    ensures SingleSpaced(s[1..])
  {
    var t := s[1..];
    forall i | 0 <= i < |t| - 1 ensures !TwoSpacesAt(t, i) {
      assert !TwoSpacesAt(s, i + 1);
    }
  }

  /**
   * The cleaned description: no surrounding whitespace, single spaces only,
   * and exactly the words of the matched text, in order.
   */
  function CleanDescription(s: string): (r: string)
    ensures IsClean(r)
    ensures Words(r) == Words(s)
  {
    CollapseRuns(Strip(s))
  }

  /** A trailing whitespace character does not change the words. */
  lemma {:induction false} WordsWithoutTrailingSpace(s: string)
    requires s != [] && IsSpace(s[|s| - 1])
    ensures Words(s[..|s| - 1]) == Words(s)
    decreases |s|
  {
    if |s| > 1 {
      var init := s[..|s| - 1];
      assert init[1..] == s[1..][..|s| - 2];
      WordsWithoutTrailingSpace(s[1..]);
    }
  }

  /** Cleaning leaves already clean text as it is. */
  lemma {:induction false} CleanTextIsFixed(s: string)
    requires IsClean(s)
    ensures CleanDescription(s) == s
  {
    assert Strip(s) == s;
    CollapseSingleSpacedIsIdentity(s);
  }

  lemma {:induction false} CollapseSingleSpacedIsIdentity(s: string)
    requires SingleSpaced(s)
    ensures CollapseRuns(s) == s
    decreases |s|
  {
    if s != [] {
      SingleSpacedTail(s);
      CollapseSingleSpacedIsIdentity(s[1..]);
      if IsSpace(s[0]) {
        CollapseSpaceStep(s);
      } else {
        CollapseWordStep(s);
      }
    }
  }

  /** A single space followed by collapsed text is kept as it is. */
  lemma CollapseSpaceStep(s: string)
    requires s != [] && IsSpace(s[0]) && SingleSpaced(s)
    requires CollapseRuns(s[1..]) == s[1..]
    ensures CollapseRuns(s) == s
  {
    assert |s| > 1 ==> !TwoSpacesAt(s, 0);
    TrimLoneSpace(s);
    assert s == [' '] + s[1..];
  }

  /** Trimming a lone leading whitespace character drops just that character. */
  lemma TrimLoneSpace(s: string)
    requires s != [] && IsSpace(s[0])
    requires |s| > 1 ==> !IsSpace(s[1])
    ensures TrimStart(s) == s[1..]
  {
  }

  /** A non-whitespace character followed by collapsed text is kept as it is. */
  lemma CollapseWordStep(s: string)
    requires s != [] && !IsSpace(s[0])
    requires CollapseRuns(s[1..]) == s[1..]
    ensures CollapseRuns(s) == s
  {
  }

  /** Cleaning twice is cleaning once. */
  lemma CleanDescriptionIdempotent(s: string)
    ensures CleanDescription(CleanDescription(s)) == CleanDescription(s)
  {
    CleanTextIsFixed(CleanDescription(s));
  }
}
