/** Word and sentence counts (ops_qa_auditor/utils.py, `readability`).

    Words are what `re.findall(r"\b[\w']+\b", t)` returns and sentences are the
    non-blank pieces of `re.split(r"[.!?]+\s+", t)`, both on the stripped text.
    The two regular expressions are modelled by scanners that follow the regex
    engine's left-to-right search: at each position one match attempt, and after
    a match the search resumes at its end. */
module TextStats {
  import opened Wrappers
  import opened Text

  datatype ReadabilityStats = ReadabilityStats(wordCount: nat, sentenceCount: nat)

  // ---------------------------------------------------------------------------
  // Character classes of the two patterns

  /** `\w` over ASCII: letters, digits and the underscore. */
  predicate IsWordChar(c: char) {
    'a' <= c <= 'z' || 'A' <= c <= 'Z' || '0' <= c <= '9' || c == '_'
  }

  /** `[\w']`. */
  predicate IsTokenChar(c: char) {
    IsWordChar(c) || c == '\''
  }

  /** `[.!?]`. */
  predicate IsTerminator(c: char) {
    c == '.' || c == '!' || c == '?'
  }

  // ---------------------------------------------------------------------------
  // The word pattern `\b[\w']+\b`

  /** `\b` between positions k - 1 and k: a word character on exactly one side. */
  predicate IsBoundary(s: string, k: nat)
    requires k <= |s|
  {
    (k > 0 && IsWordChar(s[k - 1])) != (k < |s| && IsWordChar(s[k]))
  }

  /** End of the greedy `[\w']+` run that starts at `a`. */
  function RunEnd(s: string, a: nat): (e: nat)
    requires a <= |s|
    ensures a <= e <= |s|
    ensures forall j :: a <= j < e ==> IsTokenChar(s[j])
    ensures e == |s| || !IsTokenChar(s[e])
    decreases |s| - a
  {
    if a < |s| && IsTokenChar(s[a]) then RunEnd(s, a + 1) else a
  }

  /** Backtracking from the greedy end `k`: the largest end in (a, k] at which
      the closing `\b` holds, if any. */
  function LastBoundary(s: string, a: nat, k: nat): (r: Option<nat>)
    requires a <= k <= |s|
    ensures r.Some? ==> a < r.value <= k && IsBoundary(s, r.value)
    ensures r.Some? ==> forall j :: r.value < j <= k ==> !IsBoundary(s, j)
    ensures r.None? ==> forall j :: a < j <= k ==> !IsBoundary(s, j)
    decreases k
  {
    if k <= a then None
    else if IsBoundary(s, k) then Some(k)
    else LastBoundary(s, a, k - 1)
  }

  /** One attempt of `\b[\w']+\b` at position `a`: the end of the match, if any. */
  function WordMatchAt(s: string, a: nat): (r: Option<nat>)
    requires a <= |s|
    ensures r.Some? ==> a < r.value <= |s|
  {
    if a < |s| && IsTokenChar(s[a]) && IsBoundary(s, a) then LastBoundary(s, a, RunEnd(s, a))
    else None
  }

  /** Number of matches `findall` reports when its search starts at `a`; every
      match consumes at least one character. */
  function CountWordMatches(s: string, a: nat): (n: nat)
    requires a <= |s|
    ensures n <= |s| - a
    decreases |s| - a
  {
    if a == |s| then 0
    else match WordMatchAt(s, a)
      case Some(b) => 1 + CountWordMatches(s, b)
      case None => CountWordMatches(s, a + 1)
  }

  /** Reference word count: the maximal runs of `[\w']` characters that hold at
      least one word character. `seen` says the run in progress already holds one. */
  function CountRuns(s: string, seen: bool): nat
    decreases |s|
  {
    if s == [] then 0
    else if IsWordChar(s[0]) then (if seen then 0 else 1) + CountRuns(s[1..], true)
    else if s[0] == '\'' then CountRuns(s[1..], seen)
    else CountRuns(s[1..], false)
  }

  /** The `seen` flag of CountRuns after reading `s`. */
  function SeenAfter(s: string, seen: bool): bool
    decreases |s|
  {
    if s == [] then seen
    else if IsWordChar(s[0]) then SeenAfter(s[1..], true)
    else if s[0] == '\'' then SeenAfter(s[1..], seen)
    else SeenAfter(s[1..], false)
  }

  // ---------------------------------------------------------------------------
  // The sentence delimiter `[.!?]+\s+`

  function TerminatorEnd(s: string, a: nat): (e: nat)
    requires a <= |s|
    ensures a <= e <= |s|
    ensures forall j :: a <= j < e ==> IsTerminator(s[j])
    ensures e == |s| || !IsTerminator(s[e])
    decreases |s| - a
  {
    if a < |s| && IsTerminator(s[a]) then TerminatorEnd(s, a + 1) else a
  }

  function SpaceEnd(s: string, a: nat): (e: nat)
    requires a <= |s|
    ensures a <= e <= |s|
    ensures forall j :: a <= j < e ==> IsSpace(s[j])
    ensures e == |s| || !IsSpace(s[e])
    decreases |s| - a
  {
    if a < |s| && IsSpace(s[a]) then SpaceEnd(s, a + 1) else a
  }

  /** One attempt of `[.!?]+\s+` at `a`: the terminators must be followed by at
      least one whitespace character (backing off inside the terminator run
      cannot help, since the next character would again be a terminator). The
      delimiter ends after the whole whitespace run. */
  function DelimiterAt(s: string, a: nat): (r: Option<nat>)
    requires a <= |s|
    ensures r.Some? ==> a < r.value <= |s| && IsSpace(s[r.value - 1])
    ensures r.Some? ==> r.value == |s| || !IsSpace(s[r.value])
  {
    if a < |s| && IsTerminator(s[a]) then
      var e := TerminatorEnd(s, a);
      var f := SpaceEnd(s, e);
      if f > e then Some(f) else None
    else None
  }

  /** Number of pieces of `re.split` from `a` on that hold a non-whitespace
      character. `counted` says the piece in progress has already been counted. */
  function CountSentences(s: string, a: nat, counted: bool): nat
    requires a <= |s|
    decreases |s| - a
  {
    if a == |s| then 0
    else match DelimiterAt(s, a)
      case Some(f) => CountSentences(s, f, false)
      case None =>
        if IsSpace(s[a]) then CountSentences(s, a + 1, counted)
        else (if counted then 0 else 1) + CountSentences(s, a + 1, true)
  }

  // ---------------------------------------------------------------------------
  // readability

  /** `readability`: count words and sentences of the stripped text; a text with
      words but no sentence piece counts as one sentence. The word count is the
      reference run count of the whole text, a blank text has no words and no
      sentences, and any other text has at least one sentence. */
  function Readability(text: string): (r: ReadabilityStats)
    ensures r.wordCount == CountRuns(text, false)
    ensures r.wordCount > 0 ==> r.sentenceCount >= 1
    ensures AllSpace(text) ==> r.wordCount == 0 && r.sentenceCount == 0
    ensures !AllSpace(text) ==> r.sentenceCount >= 1
  {
    var t := Strip(text);
    var words := CountWordMatches(t, 0);
    var pieces := CountSentences(t, 0, false);
    ScanCountsRuns(t);
    StripKeepsRuns(text);
    StripOfBlank(text);
    StripShape(text);
    SentencesOfStripped(t);
    ReadabilityStats(words, if pieces == 0 && words > 0 then 1 else pieces)
  }

  // ---------------------------------------------------------------------------
  // The word scanner agrees with the reference run count

  /** The run ending at position `p` already holds a word character. */
  function SeenBefore(s: string, p: nat): bool
    requires p <= |s|
    decreases p
  {
    if p == 0 then false
    else if IsWordChar(s[p - 1]) then true
    else if s[p - 1] == '\'' then SeenBefore(s, p - 1)
    else false
  }

  /** The rest of the run that starts at `p` has no word character. */
  predicate NoWordAhead(s: string, p: nat)
    requires p <= |s|
  {
    forall j :: p <= j < RunEnd(s, p) ==> !IsWordChar(s[j])
  }

  /** The positions the findall search can reach: outside a run that already
      holds a word character, or past its last word character. */
  predicate Reachable(s: string, p: nat)
    requires p <= |s|
  {
    !SeenBefore(s, p) || NoWordAhead(s, p)
  }

  /** The last word character of s[p..k). */
  function LastWordIndex(s: string, p: nat, k: nat): (l: nat)
    requires p < k <= |s| && IsWordChar(s[p])
    ensures p <= l < k && IsWordChar(s[l])
    ensures forall j :: l < j < k ==> !IsWordChar(s[j])
    decreases k
  {
    if IsWordChar(s[k - 1]) then k - 1 else LastWordIndex(s, p, k - 1)
  }

  lemma RunEndInside(s: string, p: nat, q: nat)
    requires p <= |s| && p <= q <= RunEnd(s, p)
    ensures RunEnd(s, q) == RunEnd(s, p)
  {
  }

  /** A match that starts at a word character ends just after the last word
      character of its run. */
  lemma MatchEndsAfterLastWord(s: string, p: nat)
    requires p < |s| && IsWordChar(s[p]) && IsBoundary(s, p)
    ensures var l := LastWordIndex(s, p, RunEnd(s, p));
            WordMatchAt(s, p) == Some(l + 1)
  {
    var e := RunEnd(s, p);
    var l := LastWordIndex(s, p, e);
    assert IsBoundary(s, l + 1);
    forall j | l + 1 < j <= e
      ensures !IsBoundary(s, j)
    {
      assert !IsWordChar(s[j - 1]);
    }
  }

  /** A match attempt at an apostrophe never succeeds from a reachable position. */
  lemma NoMatchAtApostrophe(s: string, p: nat)
    requires p < |s| && s[p] == '\'' && Reachable(s, p)
    ensures WordMatchAt(s, p) == None
  {
    if IsBoundary(s, p) {
      var e := RunEnd(s, p);
      assert SeenBefore(s, p);
      forall j | p < j <= e
        ensures !IsBoundary(s, j)
      {
        assert !IsWordChar(s[j - 1]);
      }
    }
  }

  /** A reachable word character starts a run: nothing word-like precedes it. */
  lemma WordStartIsFresh(s: string, p: nat)
    requires p < |s| && IsWordChar(s[p]) && Reachable(s, p)
    ensures !SeenBefore(s, p) && IsBoundary(s, p)
  {
    assert !NoWordAhead(s, p);
    assert p == 0 || !IsWordChar(s[p - 1]);
  }

  /** At a reachable word character the scan matches up to the last word
      character of the run. */
  lemma ScanAtWordStart(s: string, p: nat) returns (q: nat)
    requires p < |s| && IsWordChar(s[p]) && Reachable(s, p)
    ensures q == LastWordIndex(s, p, RunEnd(s, p)) + 1
    ensures p < q <= |s| && !SeenBefore(s, p)
    ensures CountWordMatches(s, p) == 1 + CountWordMatches(s, q)
  {
    WordStartIsFresh(s, p);
    MatchEndsAfterLastWord(s, p);
    q := LastWordIndex(s, p, RunEnd(s, p)) + 1;
  }

  /** The position just past the run's last word character is reachable. */
  lemma PastLastWordReachable(s: string, p: nat, q: nat)
    requires p < |s| && IsWordChar(s[p])
    requires q == LastWordIndex(s, p, RunEnd(s, p)) + 1
    ensures Reachable(s, q) && SeenBefore(s, q)
  {
    RunEndInside(s, p, q);
    assert NoWordAhead(s, q);
  }

  /** The reference count over the same stretch: one run, then nothing until
      just past its last word character. */
  lemma ScanStepOverWord(s: string, p: nat, q: nat)
    requires p < |s| && IsWordChar(s[p])
    requires q == LastWordIndex(s, p, RunEnd(s, p)) + 1
    ensures CountRuns(s[p..], false) == 1 + CountRuns(s[q..], true)
  {
    assert s[p..][0] == s[p] && s[p..][1..] == s[p + 1..];
    SkipSeenRun(s, p + 1, q);
  }

  /** Reading token characters of a run that already holds a word adds nothing. */
  lemma {:induction false} SkipSeenRun(s: string, i: nat, j: nat)
    requires i <= j <= |s|
    requires forall k :: i <= k < j ==> IsTokenChar(s[k])
    ensures CountRuns(s[i..], true) == CountRuns(s[j..], true)
    decreases j - i
  {
    if i < j {
      assert s[i..][1..] == s[i + 1..];
      SkipSeenRun(s, i + 1, j);
    }
  }

  /** After matching a word the scan resumes just past the run's last word
      character: a reachable position inside a run that already holds a word
      character, and agreement there carries back to `p`. */
  lemma ScanWordStep(s: string, p: nat) returns (q: nat)
    requires p < |s| && IsWordChar(s[p]) && Reachable(s, p)
    ensures p < q <= |s| && Reachable(s, q)
    ensures CountWordMatches(s, q) == CountRuns(s[q..], SeenBefore(s, q))
            ==> CountWordMatches(s, p) == CountRuns(s[p..], SeenBefore(s, p))
  {
    q := ScanAtWordStart(s, p);
    PastLastWordReachable(s, p, q);
    ScanStepOverWord(s, p, q);
  }

  /** Past a character outside `[\w']` the scan and the reference count agree
      if they agree from the next position on. */
  lemma ScanOtherStep(s: string, p: nat)
    requires p < |s| && !IsTokenChar(s[p])
    ensures Reachable(s, p + 1)
    ensures CountWordMatches(s, p + 1) == CountRuns(s[p + 1..], SeenBefore(s, p + 1))
            ==> CountWordMatches(s, p) == CountRuns(s[p..], SeenBefore(s, p))
  {
    assert s[p..][0] == s[p] && s[p..][1..] == s[p + 1..];
  }

  /** An apostrophe at a reachable position is skipped by both counts. */
  lemma ScanApostropheStep(s: string, p: nat)
    requires p < |s| && s[p] == '\'' && Reachable(s, p)
    ensures Reachable(s, p + 1)
    ensures CountWordMatches(s, p + 1) == CountRuns(s[p + 1..], SeenBefore(s, p + 1))
            ==> CountWordMatches(s, p) == CountRuns(s[p..], SeenBefore(s, p))
  {
    NoMatchAtApostrophe(s, p);
    RunEndInside(s, p, p + 1);
    assert s[p..][0] == s[p] && s[p..][1..] == s[p + 1..];
  }

  /** One step of the findall search from a reachable position: the position
      it resumes at, and agreement there carries back to `p`. */
  lemma ScanNext(s: string, p: nat) returns (q: nat)
    requires p < |s| && Reachable(s, p)
    ensures p < q <= |s| && Reachable(s, q)
    ensures CountWordMatches(s, q) == CountRuns(s[q..], SeenBefore(s, q))
            ==> CountWordMatches(s, p) == CountRuns(s[p..], SeenBefore(s, p))
  {
    if !IsTokenChar(s[p]) {
      ScanOtherStep(s, p);
      q := p + 1;
    } else if IsWordChar(s[p]) {
      q := ScanWordStep(s, p);
    } else {
      ScanApostropheStep(s, p);
      q := p + 1;
    }
  }

  lemma {:induction false} ScanMatchesRuns(s: string, p: nat)
    requires p <= |s| && Reachable(s, p)
    ensures CountWordMatches(s, p) == CountRuns(s[p..], SeenBefore(s, p))
    decreases |s| - p
  {
    if p < |s| {
      var q := ScanNext(s, p);
      ScanMatchesRuns(s, q);
    }
  }

  /** The findall scan over the whole text counts exactly the reference runs. */
  lemma ScanCountsRuns(s: string)
    ensures CountWordMatches(s, 0) == CountRuns(s, false)
  {
    ScanMatchesRuns(s, 0);
    assert s[0..] == s;
  }

  // ---------------------------------------------------------------------------
  // Run counts of concatenations and of whitespace

  /** Counting over a concatenation: the second part continues with the flag
      the first part leaves. */
  lemma {:induction false} CountRunsAppend(a: string, b: string, seen: bool)
    ensures CountRuns(a + b, seen) == CountRuns(a, seen) + CountRuns(b, SeenAfter(a, seen))
    decreases |a|
  {
    if a != [] {
      assert (a + b)[0] == a[0];
      assert (a + b)[1..] == a[1..] + b;
      if IsWordChar(a[0]) {
        CountRunsAppend(a[1..], b, true);
      } else if a[0] == '\'' {
        CountRunsAppend(a[1..], b, seen);
      } else {
        CountRunsAppend(a[1..], b, false);
      }
    } else {
      assert a + b == b;
    }
  }

  lemma {:induction false} RunsOfBlank(s: string, seen: bool)
    requires AllSpace(s)
    ensures CountRuns(s, seen) == 0
    ensures s != [] ==> !SeenAfter(s, seen)
    decreases |s|
  {
    if s != [] {
      assert AllSpace(s[1..]);
      RunsOfBlank(s[1..], false);
    }
  }

  /** Stripping whitespace never changes the word count. */
  lemma StripKeepsRuns(s: string)
    ensures CountRuns(Strip(s), false) == CountRuns(s, false)
  {
    var t := TrimStart(s);
    TrimStartShape(s);
    var k := |s| - |t|;
    assert s == s[..k] + t;
    CountRunsAppend(s[..k], t, false);
    RunsOfBlank(s[..k], false);
    var r := TrimEnd(t);
    TrimEndShape(t);
    assert t == r + t[|r|..];
    CountRunsAppend(r, t[|r|..], false);
    RunsOfBlank(t[|r|..], SeenAfter(r, false));
    assert Strip(s) == r;
  }

  // ---------------------------------------------------------------------------
  // Sentences

  /** Text that ends with a non-whitespace character has at least one
      non-blank piece: delimiters end in whitespace, so they cannot reach the end. */
  lemma SentencesOfStripped(t: string)
    requires t == [] || !IsSpace(t[|t| - 1])
    ensures t != [] ==> CountSentences(t, 0, false) >= 1
  {
    if t != [] {
      SentencesOfNonBlank(t, 0, false);
    }
  }

  lemma {:induction false} SentencesOfNonBlank(s: string, a: nat, counted: bool)
    requires a < |s| && !IsSpace(s[|s| - 1])
    ensures CountSentences(s, a, counted) + (if counted then 1 else 0) >= 1
    decreases |s| - a
  {
    match DelimiterAt(s, a)
    case Some(f) =>
      SentencesOfNonBlank(s, f, false);
    case None =>
      if IsSpace(s[a]) {
        SentencesOfNonBlank(s, a + 1, counted);
      }
  }
}
