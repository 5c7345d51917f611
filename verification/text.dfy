/** Whitespace normalisation and case-insensitive phrase containment, over
    ASCII character classes (ops_qa_auditor/utils.py, `normalize` and
    `contains_phrase`). */
module Text {

  // ---------------------------------------------------------------------------
  // Character classes

  /** Whitespace as `str.split`, `str.strip` and the regex `\s` see it, restricted
      to ASCII: space, the controls 9..13 (\t \n \v \f \r) and the separators 28..31. */
  predicate IsSpace(c: char) {
    c == ' ' || 9 <= c as int <= 13 || 28 <= c as int <= 31
  }

  predicate AllSpace(s: string) {
    forall i :: 0 <= i < |s| ==> IsSpace(s[i])
  }

  /** `str.lower` on one ASCII character. */
  function ToLower(c: char): char {
    if 'A' <= c <= 'Z' then (c as int + 32) as char else c
  }

  /** `str.upper` on one ASCII character. */
  function ToUpper(c: char): char {
    if 'a' <= c <= 'z' then (c as int - 32) as char else c
  }

  /** Applies `f` to every character. */
  function MapChars(f: char -> char, s: string): (r: string)
    ensures |r| == |s|
    ensures forall i :: 0 <= i < |s| ==> r[i] == f(s[i])
  {
    seq(|s|, i requires 0 <= i < |s| => f(s[i]))
  }

  function Lower(s: string): string {
    MapChars(ToLower, s)
  }

  function Upper(s: string): string {
    MapChars(ToUpper, s)
  }

  /** A character map that sends whitespace to whitespace, everything else to
      non-whitespace, and the space to itself. */
  predicate KeepsSpaces(f: char -> char) {
    f(' ') == ' ' && forall c :: IsSpace(f(c)) <==> IsSpace(c)
  }

  lemma CaseMapsKeepSpaces()
    ensures KeepsSpaces(ToLower) && KeepsSpaces(ToUpper)
  {
  }

  // ---------------------------------------------------------------------------
  // Line endings: `text.replace("\r\n", "\n").replace("\r", "\n")`

  /** `str.replace("\r\n", "\n")`: a left-to-right scan replacing each CR LF pair. */
  function ReplaceCrLf(s: string): (r: string)
    ensures |r| <= |s|
    decreases |s|
  {
    if |s| >= 2 && s[0] == '\r' && s[1] == '\n' then "\n" + ReplaceCrLf(s[2..])
    else if s == [] then []
    else [s[0]] + ReplaceCrLf(s[1..])
  }

  function CrToLf(c: char): char {
    if c == '\r' then '\n' else c
  }

  /** Both replacements, in the source's order: afterwards no carriage return is left. */
  function UnifyLineEndings(s: string): (r: string)
    ensures |r| <= |s|
    ensures forall i :: 0 <= i < |r| ==> r[i] != '\r'
  {
    MapChars(CrToLf, ReplaceCrLf(s))
  }

  // ---------------------------------------------------------------------------
  // Tokens: `str.split()` with no separator

  predicate IsToken(w: string) {
    |w| > 0 && forall i :: 0 <= i < |w| ==> !IsSpace(w[i])
  }

  predicate WellFormedTokens(ts: seq<string>) {
    forall k :: 0 <= k < |ts| ==> IsToken(ts[k])
  }

  /** Length of the longest whitespace-free prefix of `s`. */
  function WordLen(s: string): (n: nat)
    ensures n <= |s|
    ensures forall i :: 0 <= i < n ==> !IsSpace(s[i])
    ensures n < |s| ==> IsSpace(s[n])
  {
    if s == [] || IsSpace(s[0]) then 0 else 1 + WordLen(s[1..])
  }

  /** The maximal whitespace-free runs of `s`, in order. */
  function Tokens(s: string): (ts: seq<string>)
    ensures WellFormedTokens(ts)
    decreases |s|
  {
    if s == [] then []
    else if IsSpace(s[0]) then Tokens(s[1..])
    else
      var n := WordLen(s);
      [s[..n]] + Tokens(s[n..])
  }

  /** `" ".join(ts)`. */
  function Join(ts: seq<string>): string {
    if |ts| == 0 then ""
    else if |ts| == 1 then ts[0]
    else ts[0] + " " + Join(ts[1..])
  }

  // ---------------------------------------------------------------------------
  // `str.strip()`

  function TrimStart(s: string): string {
    if s != [] && IsSpace(s[0]) then TrimStart(s[1..]) else s
  }

  function TrimEnd(s: string): string {
    if s != [] && IsSpace(s[|s| - 1]) then TrimEnd(s[..|s| - 1]) else s
  }

  /** `lstrip` cuts a whitespace prefix and leaves a non-whitespace start. */
  lemma {:induction false} TrimStartShape(s: string)
    ensures var r := TrimStart(s);
            |r| <= |s| && r == s[|s| - |r|..] && AllSpace(s[..|s| - |r|]) && (r != [] ==> !IsSpace(r[0]))
    decreases |s|
  {
    if s != [] && IsSpace(s[0]) {
      var t := s[1..];
      TrimStartShape(t);
      var r := TrimStart(t);
      var k := |s| - |r|;
      assert t[|t| - |r|..] == s[k..];
      forall i | 0 <= i < k
        ensures IsSpace(s[i])
      {
        if i > 0 {
          assert s[i] == t[..|t| - |r|][i - 1];
        }
      }
      assert forall i :: 0 <= i < k ==> s[..k][i] == s[i];
    }
  }

  /** `rstrip` cuts a whitespace suffix and leaves a non-whitespace end. */
  lemma {:induction false} TrimEndShape(s: string)
    ensures var r := TrimEnd(s);
            |r| <= |s| && r == s[..|r|] && AllSpace(s[|r|..]) && (r != [] ==> !IsSpace(r[|r| - 1]))
    decreases |s|
  {
    if s != [] && IsSpace(s[|s| - 1]) {
      var t := s[..|s| - 1];
      TrimEndShape(t);
      var r := TrimEnd(t);
      assert t[..|r|] == s[..|r|];
      forall i | |r| <= i < |s|
        ensures IsSpace(s[i])
      {
        if i < |s| - 1 {
          assert s[i] == t[|r|..][i - |r|];
        }
      }
      assert forall i :: 0 <= i < |s| - |r| ==> s[|r|..][i] == s[|r| + i];
    }
  }

  /** `str.strip()`. */
  function Strip(s: string): string {
    TrimEnd(TrimStart(s))
  }

  /** The stripped text starts and ends with non-whitespace. */
  lemma StripShape(s: string)
    ensures var r := Strip(s);
            r == [] || (!IsSpace(r[0]) && !IsSpace(r[|r| - 1]))
  {
    var t := TrimStart(s);
    var r := TrimEnd(t);
    TrimStartShape(s);
    TrimEndShape(t);
    if r != [] {
      assert r[0] == t[0];
    }
  }

  /** Stripping leaves nothing exactly when the text is all whitespace. */
  lemma StripOfBlank(s: string)
    ensures Strip(s) == [] <==> AllSpace(s)
  {
    var t := TrimStart(s);
    var r := TrimEnd(t);
    TrimStartShape(s);
    TrimEndShape(t);
    var k := |s| - |t|;
    if r == [] {
      assert t[|r|..] == t;
      if t != [] {
        assert false;
      }
      assert s[..k] == s;
    } else if AllSpace(s) {
      assert false;
    }
  }

  // ---------------------------------------------------------------------------
  // normalize

  /** Normal text: no whitespace at either end, every whitespace character is a
      plain space, and no two of them are adjacent. */
  ghost predicate IsNormal(s: string) {
    && (|s| > 0 ==> !IsSpace(s[0]) && !IsSpace(s[|s| - 1]))
    && (forall i :: 0 <= i < |s| && IsSpace(s[i]) ==> s[i] == ' ')
    && (forall i, j :: 0 <= i && j == i + 1 && j < |s| && IsSpace(s[j]) ==> !IsSpace(s[i]))
  }

  /** `normalize`: unify line endings, split on whitespace runs, join with single
      spaces and strip. The result has the tokens of the input. */
  function Normalize(text: string): (r: string)
    ensures Tokens(r) == Tokens(text)
  {
    var ts := Tokens(UnifyLineEndings(text));
    TokensIgnoreLineEndings(text);
    JoinIsNormal(ts);
    TokensOfJoin(ts);
    StripOfNormal(Join(ts));
    Strip(Join(ts))
  }

  /** The result of `normalize` is normal text. */
  lemma NormalizeIsNormal(text: string)
    ensures IsNormal(Normalize(text))
  {
    NormalizeIsJoin(text);
    JoinIsNormal(Tokens(text));
  }

  /** Python's `p in t` on strings. */
  predicate IsSubstring(p: string, t: string) {
    exists i :: 0 <= i <= |t| - |p| && p <= t[i..]
  }

  /** `contains_phrase`: the normalised, lower-cased phrase occurs in the
      normalised, lower-cased text. */
  predicate ContainsPhrase(text: string, phrase: string) {
    IsSubstring(Lower(Normalize(phrase)), Lower(Normalize(text)))
  }

  /** A phrase with no token (empty or all whitespace) is in every text. */
  lemma BlankPhraseContained(text: string, phrase: string)
    requires AllSpace(phrase)
    ensures ContainsPhrase(text, phrase)
  {
    NormalizeBlank(phrase);
    EmptyIsSubstring(Lower(Normalize(text)));
  }

  lemma EmptyIsSubstring(t: string)
    ensures IsSubstring([], t)
  {
    assert [] <= t[0..];
  }

  // ---------------------------------------------------------------------------
  // Lemmas about tokens

  lemma WordLenOfToken(w: string, rest: string)
    requires forall i :: 0 <= i < |w| ==> !IsSpace(w[i])
    requires rest == [] || IsSpace(rest[0])
    ensures WordLen(w + rest) == |w|
  {
    var s := w + rest;
    assert forall i :: 0 <= i < |w| ==> s[i] == w[i];
    if rest != [] {
      assert s[|w|] == rest[0];
    }
  }

  lemma TokensSpaceCons(c: char, s: string)
    requires IsSpace(c)
    ensures Tokens([c] + s) == Tokens(s)
  {
    assert ([c] + s)[1..] == s;
  }

  /** Prepending a non-whitespace character extends the first token when `s`
      starts inside one, and otherwise adds a one-character token. */
  lemma TokensCons(c: char, s: string)
    requires !IsSpace(c)
    ensures s != [] && !IsSpace(s[0]) ==>
              |Tokens(s)| > 0 && Tokens([c] + s) == [[c] + Tokens(s)[0]] + Tokens(s)[1..]
    ensures (s == [] || IsSpace(s[0])) ==> Tokens([c] + s) == [[c]] + Tokens(s)
  {
    var x := [c] + s;
    assert x[1..] == s;
    var n := WordLen(x);
    assert n == 1 + WordLen(s);
    assert x[..n] == [c] + s[..n - 1];
    assert x[n..] == s[n - 1..];
    if s != [] && !IsSpace(s[0]) {
      assert Tokens(s) == [s[..n - 1]] + Tokens(s[n - 1..]);
    } else {
      assert s[..0] == [];
      assert s[0..] == s;
    }
  }

  lemma TokensOfWordThenSpace(w: string, rest: string)
    requires IsToken(w)
    ensures Tokens(w + " " + rest) == [w] + Tokens(rest)
  {
    var s := w + " " + rest;
    assert s == w + (" " + rest);
    WordLenOfToken(w, " " + rest);
    assert s[..|w|] == w;
    assert s[|w|..] == [' '] + rest;
    TokensSpaceCons(' ', rest);
  }

  lemma TokensOfWord(w: string)
    requires IsToken(w)
    ensures Tokens(w) == [w]
  {
    WordLenOfToken(w, []);
    assert w + [] == w;
    assert w[..|w|] == w;
    assert w[|w|..] == [];
  }

  /** Splitting a join of tokens gives the tokens back. */
  lemma {:induction false} TokensOfJoin(ts: seq<string>)
    requires WellFormedTokens(ts)
    ensures Tokens(Join(ts)) == ts
    decreases |ts|
  {
    if |ts| == 0 {
    } else if |ts| == 1 {
      TokensOfWord(ts[0]);
    } else {
      assert IsToken(ts[0]);
      TokensOfWordThenSpace(ts[0], Join(ts[1..]));
      TokensOfJoin(ts[1..]);
      assert ts == [ts[0]] + ts[1..];
    }
  }

  /** A join of tokens is normal text, and empty only when there are no tokens. */
  lemma {:induction false} JoinIsNormal(ts: seq<string>)
    requires WellFormedTokens(ts)
    ensures IsNormal(Join(ts))
    ensures |ts| > 0 ==> |Join(ts)| > 0
    decreases |ts|
  {
    if |ts| == 1 {
      assert IsToken(ts[0]);
    } else if |ts| > 1 {
      var w := ts[0];
      var j := Join(ts[1..]);
      assert IsToken(w);
      JoinIsNormal(ts[1..]);
      var s := w + " " + j;
      assert Join(ts) == s;
      forall i | 0 <= i < |s| && IsSpace(s[i])
        ensures s[i] == ' '
      {
        if i > |w| {
          assert s[i] == j[i - |w| - 1];
        }
      }
      forall i, k | 0 <= i && k == i + 1 && k < |s| && IsSpace(s[k])
        ensures !IsSpace(s[i])
      {
        if k == |w| {
          assert s[i] == w[|w| - 1];
        } else if k > |w| + 1 {
          assert s[k] == j[k - |w| - 1];
          assert s[i] == j[i - |w| - 1];
        }
      }
      assert s[0] == w[0];
      assert s[|s| - 1] == j[|j| - 1];
    }
  }

  lemma StripOfNormal(s: string)
    requires IsNormal(s)
    ensures Strip(s) == s
  {
  }

  /** A map that keeps the whitespace class commutes with splitting. */
  function MapTokens(f: char -> char, ts: seq<string>): (r: seq<string>)
    ensures |r| == |ts|
    ensures forall k :: 0 <= k < |ts| ==> r[k] == MapChars(f, ts[k])
  {
    seq(|ts|, k requires 0 <= k < |ts| => MapChars(f, ts[k]))
  }

  lemma {:induction false} TokensOfMap(f: char -> char, s: string)
    requires KeepsSpaces(f)
    ensures Tokens(MapChars(f, s)) == MapTokens(f, Tokens(s))
    decreases |s|
  {
    if s == [] {
    } else {
      var m := MapChars(f, s);
      var rest := MapChars(f, s[1..]);
      assert m == [f(s[0])] + rest;
      assert s == [s[0]] + s[1..];
      TokensOfMap(f, s[1..]);
      if IsSpace(s[0]) {
        TokensSpaceCons(s[0], s[1..]);
        TokensSpaceCons(f(s[0]), rest);
      } else {
        TokensOfMapCons(f, s[0], s[1..]);
      }
    }
  }

  /** The step of TokensOfMap for a leading non-whitespace character. */
  lemma TokensOfMapCons(f: char -> char, c: char, s: string)
    requires KeepsSpaces(f) && !IsSpace(c)
    requires Tokens(MapChars(f, s)) == MapTokens(f, Tokens(s))
    ensures Tokens([f(c)] + MapChars(f, s)) == MapTokens(f, Tokens([c] + s))
  {
    var rest := MapChars(f, s);
    var t := Tokens(s);
    TokensCons(c, s);
    TokensCons(f(c), rest);
    if s != [] && !IsSpace(s[0]) {
      assert rest[0] == f(s[0]);
      assert MapChars(f, [c] + t[0]) == [f(c)] + MapChars(f, t[0]);
      MapTokensCons(f, [c] + t[0], t[1..]);
      assert t == [t[0]] + t[1..];
      MapTokensCons(f, t[0], t[1..]);
    } else {
      assert rest == [] || IsSpace(rest[0]);
      assert MapChars(f, [c]) == [f(c)];
      MapTokensCons(f, [c], t);
    }
  }

  lemma MapTokensCons(f: char -> char, w: string, ts: seq<string>)
    ensures MapTokens(f, [w] + ts) == [MapChars(f, w)] + MapTokens(f, ts)
  {
  }

  lemma {:induction false} JoinOfMap(f: char -> char, ts: seq<string>)
    requires f(' ') == ' '
    ensures Join(MapTokens(f, ts)) == MapChars(f, Join(ts))
    decreases |ts|
  {
    if |ts| > 1 {
      JoinOfMap(f, ts[1..]);
      assert MapTokens(f, ts)[1..] == MapTokens(f, ts[1..]);
      var j := Join(ts[1..]);
      assert MapChars(f, ts[0] + " " + j) == MapChars(f, ts[0]) + " " + MapChars(f, j);
    }
  }

  /** A map that only touches whitespace leaves tokens alone. */
  lemma MapTokensFixed(f: char -> char, ts: seq<string>)
    requires forall c :: !IsSpace(c) ==> f(c) == c
    requires WellFormedTokens(ts)
    ensures MapTokens(f, ts) == ts
  {
    forall k | 0 <= k < |ts|
      ensures MapChars(f, ts[k]) == ts[k]
    {
      assert IsToken(ts[k]);
    }
  }

  lemma {:induction false} TokensOfReplaceCrLf(s: string)
    ensures Tokens(ReplaceCrLf(s)) == Tokens(s)
    decreases |s|
  {
    if |s| >= 2 && s[0] == '\r' && s[1] == '\n' {
      TokensOfReplaceCrLf(s[2..]);
      TokensSpaceCons('\n', ReplaceCrLf(s[2..]));
      assert s == [s[0]] + ([s[1]] + s[2..]);
      TokensSpaceCons(s[1], s[2..]);
      TokensSpaceCons(s[0], [s[1]] + s[2..]);
    } else if s != [] {
      var rest := ReplaceCrLf(s[1..]);
      assert ReplaceCrLf(s) == [s[0]] + rest;
      assert s == [s[0]] + s[1..];
      TokensOfReplaceCrLf(s[1..]);
      if IsSpace(s[0]) {
        TokensSpaceCons(s[0], rest);
        TokensSpaceCons(s[0], s[1..]);
      } else {
        FirstOfReplaceCrLf(s[1..]);
        TokensCons(s[0], rest);
        TokensCons(s[0], s[1..]);
      }
    }
  }

  /** ReplaceCrLf keeps whether the text starts with whitespace. */
  lemma FirstOfReplaceCrLf(s: string)
    ensures ReplaceCrLf(s) == [] <==> s == []
    ensures s != [] ==> IsSpace(ReplaceCrLf(s)[0]) == IsSpace(s[0])
  {
  }

  /** Unifying line endings never changes the tokens. */
  lemma TokensIgnoreLineEndings(s: string)
    ensures Tokens(UnifyLineEndings(s)) == Tokens(s)
  {
    TokensOfReplaceCrLf(s);
    assert KeepsSpaces(CrToLf);
    TokensOfMap(CrToLf, ReplaceCrLf(s));
    MapTokensFixed(CrToLf, Tokens(ReplaceCrLf(s)));
  }

  lemma {:induction false} TokensOfBlank(s: string)
    ensures Tokens(s) == [] <==> AllSpace(s)
    decreases |s|
  {
    if s != [] {
      TokensOfBlank(s[1..]);
      if IsSpace(s[0]) {
        assert AllSpace(s) <==> AllSpace(s[1..]);
      }
    }
  }

  // ---------------------------------------------------------------------------
  // Properties of normalize

  /** normalize is exactly "split, then join with single spaces". */
  lemma NormalizeIsJoin(s: string)
    ensures Normalize(s) == Join(Tokens(s))
  {
    TokensIgnoreLineEndings(s);
    JoinIsNormal(Tokens(s));
    StripOfNormal(Join(Tokens(s)));
  }

  /** normalize is idempotent. */
  lemma NormalizeIdempotent(s: string)
    ensures Normalize(Normalize(s)) == Normalize(s)
  {
    NormalizeIsJoin(s);
    NormalizeIsJoin(Normalize(s));
  }

  /** normalize gives the empty string exactly for empty or whitespace-only text. */
  lemma NormalizeBlank(s: string)
    ensures Normalize(s) == [] <==> AllSpace(s)
  {
    NormalizeIsJoin(s);
    TokensOfBlank(s);
    JoinIsNormal(Tokens(s));
  }

  /** normalize commutes with any map that keeps the whitespace class, such as
      lower- and upper-casing. */
  lemma NormalizeOfMap(f: char -> char, s: string)
    requires KeepsSpaces(f)
    ensures Normalize(MapChars(f, s)) == MapChars(f, Normalize(s))
  {
    NormalizeIsJoin(s);
    NormalizeIsJoin(MapChars(f, s));
    TokensOfMap(f, s);
    JoinOfMap(f, Tokens(s));
  }

  function SpaceOut(c: char): char {
    if IsSpace(c) then ' ' else c
  }

  /** Replacing each whitespace character by a plain space changes nothing
      after normalising. */
  lemma NormalizeOfSpaceOut(s: string)
    ensures Normalize(MapChars(SpaceOut, s)) == Normalize(s)
  {
    assert KeepsSpaces(SpaceOut);
    NormalizeIsJoin(s);
    NormalizeIsJoin(MapChars(SpaceOut, s));
    TokensOfMap(SpaceOut, s);
    MapTokensFixed(SpaceOut, Tokens(s));
  }

  /** Normal text with a space in it is a token, a space and normal text. */
  lemma SplitNormal(s: string)
    requires IsNormal(s) && s != [] && WordLen(s) < |s|
    ensures var n := WordLen(s);
            && IsToken(s[..n]) && s == s[..n] + " " + s[n + 1..]
            && IsNormal(s[n + 1..]) && s[n + 1..] != []
  {
    var n := WordLen(s);
    SpaceInsideNormal(s);
    NormalAfterSpace(s, n);
  }

  lemma SpaceInsideNormal(s: string)
    requires IsNormal(s) && s != [] && WordLen(s) < |s|
    ensures var n := WordLen(s);
            && s[n] == ' ' && n + 1 < |s|
            && IsToken(s[..n]) && s == s[..n] + " " + s[n + 1..]
  {
    var n := WordLen(s);
    assert s[n] == ' ';
  }

  lemma NormalAfterSpace(s: string, n: nat)
    requires IsNormal(s) && n + 1 < |s| && s[n] == ' '
    ensures IsNormal(s[n + 1..])
  {
    var rest := s[n + 1..];
    forall i, k | 0 <= i && k == i + 1 && k < |rest| && IsSpace(rest[k])
      ensures !IsSpace(rest[i])
    {
      assert rest[k] == s[n + 1 + k] && rest[i] == s[n + 1 + i];
    }
  }

  lemma JoinCons(w: string, ts: seq<string>)
    requires ts != []
    ensures Join([w] + ts) == w + " " + Join(ts)
  {
    assert ([w] + ts)[1..] == ts;
  }

  /** Splitting normal text and joining it again gives it back. */
  lemma {:induction false} JoinTokensOfNormal(s: string)
    requires IsNormal(s)
    ensures Join(Tokens(s)) == s
    decreases |s|
  {
    if s != [] {
      var n := WordLen(s);
      if n == |s| {
        assert IsToken(s);
        TokensOfWord(s);
      } else {
        SplitNormal(s);
        var w, rest := s[..n], s[n + 1..];
        TokensOfWordThenSpace(w, rest);
        JoinTokensOfNormal(rest);
        TokensOfBlank(rest);
        assert !AllSpace(rest);
        JoinCons(w, Tokens(rest));
      }
    }
  }

  /** The normal strings are exactly the fixed points of normalize. */
  lemma NormalIsFixedPoint(s: string)
    ensures IsNormal(s) <==> Normalize(s) == s
  {
    NormalizeIsJoin(s);
    NormalizeIsNormal(s);
    if IsNormal(s) {
      JoinTokensOfNormal(s);
    }
  }

  lemma LowerAbsorbsCase(s: string)
    ensures Lower(Upper(s)) == Lower(s)
    ensures Lower(Lower(s)) == Lower(s)
  {
  }

  /** Lower-casing after normalising forgets any earlier case change. */
  lemma FoldedNormalIgnoresCase(s: string)
    ensures Lower(Normalize(Upper(s))) == Lower(Normalize(s))
    ensures Lower(Normalize(Lower(s))) == Lower(Normalize(s))
  {
    CaseMapsKeepSpaces();
    NormalizeOfMap(ToUpper, s);
    NormalizeOfMap(ToLower, s);
    LowerAbsorbsCase(Normalize(s));
  }

  // ---------------------------------------------------------------------------
  // Properties of contains_phrase

  /** Re-flowing the whitespace of the text never changes the outcome. */
  lemma ContainsPhraseIgnoresLayout(text: string, phrase: string)
    ensures ContainsPhrase(Normalize(text), phrase) == ContainsPhrase(text, phrase)
  {
    NormalizeIdempotent(text);
  }

  /** Upper- or lower-casing the text or the phrase never changes the outcome. */
  lemma ContainsPhraseIgnoresCase(text: string, phrase: string)
    ensures ContainsPhrase(Upper(text), phrase) == ContainsPhrase(text, phrase)
    ensures ContainsPhrase(Lower(text), phrase) == ContainsPhrase(text, phrase)
    ensures ContainsPhrase(text, Upper(phrase)) == ContainsPhrase(text, phrase)
    ensures ContainsPhrase(text, Lower(phrase)) == ContainsPhrase(text, phrase)
  {
    FoldedNormalIgnoresCase(text);
    FoldedNormalIgnoresCase(phrase);
  }

  /** A character of the folded phrase missing from the folded text rules the phrase out. */
  lemma AbsentCharacter(p: string, t: string, k: nat)
    requires k < |p|
    requires forall i :: 0 <= i < |t| ==> t[i] != p[k]
    ensures !IsSubstring(p, t)
  {
    if i :| 0 <= i <= |t| - |p| && p <= t[i..] {
      assert t[i..][k] == p[k];
      assert t[i + k] == p[k];
    }
  }
}
