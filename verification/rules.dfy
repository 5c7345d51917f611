/** The three rule evaluators (ops_qa_auditor/rules.py). Each is a pure
    function of the transcript text and an ordered list of strings. */
module Rules {
  import opened Text
  import opened Lists

  datatype RuleResult = RuleResult(passed: bool, findings: seq<string>)

  /** `check_required_phrases`: the findings are the phrases not contained in the
      text, in their order, and the check passes iff every phrase is contained. */
  function CheckRequiredPhrases(text: string, required: seq<string>): (r: RuleResult)
    ensures r.passed <==> r.findings == []
    ensures r.passed <==> forall i :: 0 <= i < |required| ==> ContainsPhrase(text, required[i])
    ensures IsSubsequence(r.findings, required)
  {
    var missing := Filter(p => !ContainsPhrase(text, p), required);
    FilterEmpty(p => !ContainsPhrase(text, p), required);
    RuleResult(|missing| == 0, missing)
  }

  /** Every missing phrase is reported as often as it is listed; no contained
      phrase is reported. */
  lemma RequiredFindingsCount(text: string, required: seq<string>)
    ensures forall x :: multiset(CheckRequiredPhrases(text, required).findings)[x]
                        == if ContainsPhrase(text, x) then 0 else multiset(required)[x]
  {
  }

  /** `check_forbidden_phrases`: the findings are the phrases contained in the
      text, in their order, and the check passes iff none is contained. */
  function CheckForbiddenPhrases(text: string, forbidden: seq<string>): (r: RuleResult)
    ensures r.passed <==> r.findings == []
    ensures r.passed <==> forall i :: 0 <= i < |forbidden| ==> !ContainsPhrase(text, forbidden[i])
    ensures IsSubsequence(r.findings, forbidden)
  {
    var found := Filter(p => ContainsPhrase(text, p), forbidden);
    FilterEmpty(p => ContainsPhrase(text, p), forbidden);
    RuleResult(|found| == 0, found)
  }

  /** Every contained forbidden phrase is reported as often as it is listed; no
      other phrase is reported. */
  lemma ForbiddenFindingsCount(text: string, forbidden: seq<string>)
    ensures forall x :: multiset(CheckForbiddenPhrases(text, forbidden).findings)[x]
                        == if ContainsPhrase(text, x) then multiset(forbidden)[x] else 0
  {
  }

  /** The loop of `check_required_sections` over the already folded text. */
  function MissingSections(folded: string, sections: seq<string>): seq<string>
    decreases |sections|
  {
    if sections == [] then []
    else
      var token := Lower(Normalize(sections[0]));
      (if IsSubstring(token, folded) then [] else [sections[0]]) + MissingSections(folded, sections[1..])
  }

  /** `check_required_sections`: normalise and lower-case the text once, then
      collect the sections (as written) whose normalised, lower-cased form does
      not occur. This is the required-phrase check under another name. */
  function CheckRequiredSections(text: string, sections: seq<string>): (r: RuleResult)
    ensures r == CheckRequiredPhrases(text, sections)
    ensures r.passed <==> r.findings == []
  {
    var folded := Lower(Normalize(text));
    var missing := MissingSections(folded, sections);
    SectionsAreRequiredPhrases(text, sections);
    RuleResult(|missing| == 0, missing)
  }

  lemma {:induction false} SectionsAreRequiredPhrases(text: string, sections: seq<string>)
    ensures MissingSections(Lower(Normalize(text)), sections) == Filter(p => !ContainsPhrase(text, p), sections)
    decreases |sections|
  {
    if sections != [] {
      SectionsAreRequiredPhrases(text, sections[1..]);
      FilterUnfold(p => !ContainsPhrase(text, p), sections);
    }
  }

  /** Every phrase of one list lands in exactly one of the required-phrase and
      forbidden-phrase findings. */
  lemma {:induction false} PhrasesPartition(text: string, phrases: seq<string>)
    ensures |CheckRequiredPhrases(text, phrases).findings| + |CheckForbiddenPhrases(text, phrases).findings|
            == |phrases|
  {
    FilterPartition(p => ContainsPhrase(text, p), p => !ContainsPhrase(text, p), phrases);
  }

  /** With nothing to check, every rule passes and reports nothing. */
  lemma EmptyListsPass(text: string)
    ensures CheckRequiredPhrases(text, []) == RuleResult(true, [])
    ensures CheckForbiddenPhrases(text, []) == RuleResult(true, [])
    ensures CheckRequiredSections(text, []) == RuleResult(true, [])
  {
  }

  // ---------------------------------------------------------------------------
  // The repository's own examples

  /** The required-phrase check on a two-element list, phrase by phrase. */
  lemma RequiredOfTwo(text: string, a: string, b: string)
    ensures CheckRequiredPhrases(text, [a, b]).findings
            == (if ContainsPhrase(text, a) then [] else [a]) + (if ContainsPhrase(text, b) then [] else [b])
  {
    FilterOfTwo(p => !ContainsPhrase(text, p), a, b);
  }

  /** The forbidden-phrase check on a two-element list, phrase by phrase. */
  lemma ForbiddenOfTwo(text: string, a: string, b: string)
    ensures CheckForbiddenPhrases(text, [a, b]).findings
            == (if ContainsPhrase(text, a) then [a] else []) + (if ContainsPhrase(text, b) then [b] else [])
  {
    FilterOfTwo(p => ContainsPhrase(text, p), a, b);
  }

  /** A character of the folded phrase that the folded text lacks keeps the
      phrase out, once the text's normal form `t` is known. */
  lemma PhraseAbsent(text: string, t: string, phrase: string, k: nat)
    requires Normalize(text) == t && IsNormal(phrase)
    requires k < |phrase| && forall i :: 0 <= i < |t| ==> Lower(t)[i] != Lower(phrase)[k]
    ensures !ContainsPhrase(text, phrase)
  {
    NormalIsFixedPoint(phrase);
    AbsentCharacter(Lower(phrase), Lower(t), k);
  }

  /** An occurrence of the folded phrase at offset `i` of the folded text puts
      the phrase in, once the text's normal form `t` is known. */
  lemma PhrasePresent(text: string, t: string, phrase: string, i: nat)
    requires Normalize(text) == t && IsNormal(phrase)
    requires i <= |t| - |phrase| && Lower(phrase) <= Lower(t)[i..]
    ensures ContainsPhrase(text, phrase)
  {
    NormalIsFixedPoint(phrase);
  }

  /** A phrase that occurs verbatim at `i` still occurs there after case folding. */
  lemma LowerOfSlice(t: string, phrase: string, i: nat)
    requires i + |phrase| <= |t| && t[i..i + |phrase|] == phrase
    ensures Lower(phrase) <= Lower(t)[i..]
  {
    assert forall k :: 0 <= k < |phrase| ==> phrase[k] == t[i + k];
  }

  /** Normal text is its own normal form. */
  lemma NormalText(t: string)
    requires IsNormal(t)
    ensures Normalize(t) == t
  {
    NormalIsFixedPoint(t);
  }

  // Each example is stated over parameters pinned to the literals, and the
  // character-level facts are proved apart from the containment facts: this
  // keeps the solver from evaluating normalize on the literals.

  lemma HelloWorldFolds(text: string, a: string, b: string)
    requires text == "hello world" && a == "NEXT STEPS" && b == "SUMMARY"
    ensures IsNormal(text) && IsNormal(a) && IsNormal(b)
    ensures forall i :: 0 <= i < |text| ==> Lower(text)[i] != Lower(a)[0] && Lower(text)[i] != Lower(b)[0]
  {
  }

  lemma HelloWorldLacksBoth(text: string, a: string, b: string)
    requires text == "hello world" && a == "NEXT STEPS" && b == "SUMMARY"
    ensures !ContainsPhrase(text, a) && !ContainsPhrase(text, b)
  {
    HelloWorldFolds(text, a, b);
    NormalText(text);
    PhraseAbsent(text, text, a, 0);
    PhraseAbsent(text, text, b, 0);
  }

  /** A transcript with neither phrase misses both, in order. */
  lemma RequiredPhrasesExample(text: string, a: string, b: string)
    requires text == "hello world" && a == "NEXT STEPS" && b == "SUMMARY"
    ensures CheckRequiredPhrases(text, [a, b]) == RuleResult(false, [a, b])
  {
    HelloWorldLacksBoth(text, a, b);
    RequiredOfTwo(text, a, b);
  }

  lemma GuaranteeNormal(text: string, a: string, b: string)
    requires text == "I guarantee this works." && a == "I guarantee" && b == "diagnose"
    ensures IsNormal(text) && IsNormal(a) && IsNormal(b)
  {
  }

  lemma GuaranteeFolds(text: string, a: string, b: string)
    requires text == "I guarantee this works." && a == "I guarantee" && b == "diagnose"
    ensures |a| <= |text| && Lower(a) <= Lower(text)
    ensures forall i :: 0 <= i < |text| ==> Lower(text)[i] != Lower(b)[0]
  {
    assert Lower(text) == "i guarantee this works.";
    assert Lower(a) == "i guarantee";
  }

  lemma GuaranteeFound(text: string, a: string, b: string)
    requires text == "I guarantee this works." && a == "I guarantee" && b == "diagnose"
    ensures ContainsPhrase(text, a) && !ContainsPhrase(text, b)
  {
    GuaranteeNormal(text, a, b);
    GuaranteeFolds(text, a, b);
    NormalText(text);
    PhrasePresent(text, text, a, 0);
    PhraseAbsent(text, text, b, 0);
  }

  /** Only the forbidden phrase that occurs is reported. */
  lemma ForbiddenPhrasesExample(text: string, a: string, b: string)
    requires text == "I guarantee this works." && a == "I guarantee" && b == "diagnose"
    ensures CheckForbiddenPhrases(text, [a, b]) == RuleResult(false, [a])
  {
    GuaranteeFound(text, a, b);
    ForbiddenOfTwo(text, a, b);
  }

  lemma SectionsFlatten(text: string, flat: string)
    requires text == "SUMMARY:\nX\nNEXT STEPS:\nY" && flat == "SUMMARY: X NEXT STEPS: Y"
    ensures MapChars(SpaceOut, text) == flat
  {
  }

  lemma SectionsNormal(flat: string, a: string, b: string)
    requires flat == "SUMMARY: X NEXT STEPS: Y" && a == "SUMMARY:" && b == "NEXT STEPS:"
    ensures IsNormal(flat) && IsNormal(a) && IsNormal(b)
  {
  }

  lemma SectionsFolds(flat: string, a: string, b: string)
    requires flat == "SUMMARY: X NEXT STEPS: Y" && a == "SUMMARY:" && b == "NEXT STEPS:"
    ensures |a| <= |flat| && Lower(a) <= Lower(flat)
    ensures 11 + |b| <= |flat| && Lower(b) <= Lower(flat)[11..]
  {
    assert flat[..|a|] == a;
    assert flat[11..11 + |b|] == b;
    LowerOfSlice(flat, a, 0);
    LowerOfSlice(flat, b, 11);
  }

  lemma SectionsFound(text: string, flat: string, a: string, b: string)
    requires text == "SUMMARY:\nX\nNEXT STEPS:\nY" && flat == "SUMMARY: X NEXT STEPS: Y"
    requires a == "SUMMARY:" && b == "NEXT STEPS:"
    ensures ContainsPhrase(text, a) && ContainsPhrase(text, b)
  {
    SectionsFlatten(text, flat);
    SectionsNormal(flat, a, b);
    SectionsFolds(flat, a, b);
    NormalizeOfSpaceOut(text);
    NormalText(flat);
    PhrasePresent(text, flat, a, 0);
    PhrasePresent(text, flat, b, 11);
  }

  /** Section headers on their own lines are found after normalisation. */
  lemma RequiredSectionsExample(text: string, a: string, b: string)
    requires text == "SUMMARY:\nX\nNEXT STEPS:\nY" && a == "SUMMARY:" && b == "NEXT STEPS:"
    ensures CheckRequiredSections(text, [a, b]) == RuleResult(true, [])
  {
    SectionsFound(text, "SUMMARY: X NEXT STEPS: Y", a, b);
    RequiredOfTwo(text, a, b);
  }
}
