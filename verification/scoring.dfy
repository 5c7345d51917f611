/** The weighted scorer (ops_qa_auditor/scoring.py): all-or-nothing credit for
    four components, clamped to [0, 100] and compared with a pass threshold. */
module Scoring {
  import opened Wrappers
  import opened TextStats

  // ---------------------------------------------------------------------------
  // Weight tables: a `dict[str, int]` as an association list

  /** No name occurs twice, as in a dictionary. */
  predicate DistinctNames(t: seq<(string, int)>) {
    forall i, j :: 0 <= i < j < |t| ==> t[i].0 != t[j].0
  }

  type WeightTable = t: seq<(string, int)> | DistinctNames(t)

  /** `weights.get(name, 0)`. */
  function Lookup(t: WeightTable, name: string): (w: int)
    ensures forall i :: 0 <= i < |t| && t[i].0 == name ==> w == t[i].1
    ensures (forall i :: 0 <= i < |t| ==> t[i].0 != name) ==> w == 0
    decreases |t|
  {
    if t == [] then 0
    else if t[0].0 == name then t[0].1
    else Lookup(t[1..], name)
  }

  /** `sum(weights.values())`. */
  function SumWeights(t: WeightTable): int
    decreases |t|
  {
    if t == [] then 0 else t[0].1 + SumWeights(t[1..])
  }

  const RequiredPhrasesKey := "required_phrases"
  const ForbiddenPhrasesKey := "forbidden_phrases"
  const RequiredSectionsKey := "required_sections"
  const ReadabilityKey := "readability"

  // ---------------------------------------------------------------------------
  // Readability bounds: the `readability` mapping of a checklist

  /** The two keys the scorer reads; either may be absent. */
  datatype ReadabilityCfg = ReadabilityCfg(minWordCount: Option<int>, maxWordCount: Option<int>)
  {
    function Min(): int { minWordCount.GetOr(0) }
    function Max(): int { maxWordCount.GetOr(DefaultMaxWordCount) }
  }

  const DefaultMaxWordCount: int := 1_000_000_000

  // ---------------------------------------------------------------------------
  // The score and its details

  datatype ComponentDetail = ComponentDetail(weight: int, passed: bool)

  datatype ReadabilityDetail = ReadabilityDetail(
    wordCount: nat,
    sentenceCount: nat,
    minWordCount: int,
    maxWordCount: int,
    passed: bool)

  datatype Components = Components(
    requiredPhrases: ComponentDetail,
    forbiddenPhrases: ComponentDetail,
    requiredSections: ComponentDetail,
    readability: ComponentDetail)
  {
    /** The four components in the order the scorer adds them up. */
    function AsList(): seq<ComponentDetail> {
      [requiredPhrases, forbiddenPhrases, requiredSections, readability]
    }
  }

  datatype Details = Details(readability: ReadabilityDetail, components: Components, passThreshold: int)

  datatype ScoreBreakdown = ScoreBreakdown(total: int, passed: bool, details: Details)

  /** `_component_score`: the whole weight when the component passed, else nothing. */
  function ComponentScore(weight: int, ok: bool): (r: int)
    ensures r == 0 || r == weight
    ensures 0 <= weight ==> 0 <= r <= weight
  {
    if ok then weight else 0
  }

  /** `max(0, min(100, x))`. */
  function Clamp(x: int): (r: int)
    ensures 0 <= r <= 100
    ensures 0 <= x <= 100 ==> r == x
    ensures x < 0 ==> r == 0
    ensures x > 100 ==> r == 100
  {
    var m := if x < 100 then x else 100;
    if m > 0 then m else 0
  }

  /** Reference total: the sum of the weights of the components that passed. */
  function Credited(cs: seq<ComponentDetail>): int
    decreases |cs|
  {
    if cs == [] then 0
    else (if cs[0].passed then cs[0].weight else 0) + Credited(cs[1..])
  }

  /** `score_audit`. The word count is checked against the configured bounds,
      each component is credited in full or not at all, the sum is clamped and
      compared with the threshold inclusively; the details record every input
      the total was computed from. */
  function ScoreAudit(
    weights: WeightTable,
    requiredOk: bool,
    forbiddenOk: bool,
    sectionsOk: bool,
    text: string,
    cfg: ReadabilityCfg,
    passThreshold: int): (s: ScoreBreakdown)
    ensures 0 <= s.total <= 100
    ensures s.passed <==> s.total >= passThreshold
    ensures s.total == Clamp(Credited(s.details.components.AsList()))
    ensures s.details.readability.wordCount == Readability(text).wordCount
    ensures s.details.readability.sentenceCount == Readability(text).sentenceCount
    ensures s.details.readability.minWordCount == cfg.Min()
    ensures s.details.readability.maxWordCount == cfg.Max()
    ensures s.details.readability.passed <==> cfg.Min() <= Readability(text).wordCount <= cfg.Max()
    ensures s.details.components.requiredPhrases == ComponentDetail(Lookup(weights, RequiredPhrasesKey), requiredOk)
    ensures s.details.components.forbiddenPhrases == ComponentDetail(Lookup(weights, ForbiddenPhrasesKey), forbiddenOk)
    ensures s.details.components.requiredSections == ComponentDetail(Lookup(weights, RequiredSectionsKey), sectionsOk)
    ensures s.details.components.readability
            == ComponentDetail(Lookup(weights, ReadabilityKey), s.details.readability.passed)
    ensures s.details.passThreshold == passThreshold
  {
    var stats := Readability(text);
    var minWc := cfg.Min();
    var maxWc := cfg.Max();
    var readabilityOk := stats.wordCount >= minWc && stats.wordCount <= maxWc;
    var wRequired := Lookup(weights, RequiredPhrasesKey);
    var wForbidden := Lookup(weights, ForbiddenPhrasesKey);
    var wSections := Lookup(weights, RequiredSectionsKey);
    var wReadability := Lookup(weights, ReadabilityKey);
    var sum := ComponentScore(wRequired, requiredOk) + ComponentScore(wForbidden, forbiddenOk)
               + ComponentScore(wSections, sectionsOk) + ComponentScore(wReadability, readabilityOk);
    var total := Clamp(sum);
    var components := Components(
      ComponentDetail(wRequired, requiredOk),
      ComponentDetail(wForbidden, forbiddenOk),
      ComponentDetail(wSections, sectionsOk),
      ComponentDetail(wReadability, readabilityOk));
    CreditedOfFour(components);
    ScoreBreakdown(
      total,
      total >= passThreshold,
      Details(ReadabilityDetail(stats.wordCount, stats.sentenceCount, minWc, maxWc, readabilityOk), components, passThreshold))
  }

  lemma CreditedOfFour(c: Components)
    ensures Credited(c.AsList())
            == ComponentScore(c.requiredPhrases.weight, c.requiredPhrases.passed)
             + ComponentScore(c.forbiddenPhrases.weight, c.forbiddenPhrases.passed)
             + ComponentScore(c.requiredSections.weight, c.requiredSections.passed)
             + ComponentScore(c.readability.weight, c.readability.passed)
  {
    var cs := c.AsList();
    assert cs[3..][1..] == [];
    assert Credited(cs[3..]) == ComponentScore(c.readability.weight, c.readability.passed);
    assert cs[2..][1..] == cs[3..];
    assert Credited(cs[2..]) == ComponentScore(c.requiredSections.weight, c.requiredSections.passed) + Credited(cs[3..]);
    assert cs[1..][1..] == cs[2..];
    assert Credited(cs[1..]) == ComponentScore(c.forbiddenPhrases.weight, c.forbiddenPhrases.passed) + Credited(cs[2..]);
  }

  // ---------------------------------------------------------------------------
  // Properties

  /** With every component failing, nothing is credited whatever the weights. */
  lemma AllFailedScoresZero(weights: WeightTable, text: string, cfg: ReadabilityCfg, passThreshold: int)
    requires !(cfg.Min() <= Readability(text).wordCount <= cfg.Max())
    ensures ScoreAudit(weights, false, false, false, text, cfg, passThreshold).total == 0
  {
    var s := ScoreAudit(weights, false, false, false, text, cfg, passThreshold);
    CreditedOfFour(s.details.components);
  }

  /** Component lists ordered by outcome: same weights, and every component
      that passes on the left passes on the right. */
  predicate NoMoreCredit(a: seq<ComponentDetail>, b: seq<ComponentDetail>) {
    |a| == |b| && forall i :: 0 <= i < |a| ==> NoMoreThan(a[i], b[i])
  }

  /** With non-negative weights, passing more components never lowers the credit. */
  lemma {:induction false} CreditedMonotone(a: seq<ComponentDetail>, b: seq<ComponentDetail>)
    requires NoMoreCredit(a, b)
    requires forall i :: 0 <= i < |a| ==> a[i].weight >= 0
    ensures Credited(a) <= Credited(b)
    decreases |a|
  {
    if a != [] {
      CreditedMonotone(a[1..], b[1..]);
    }
  }

  /** With non-negative weights, turning a failing rule outcome into a passing
      one never lowers the total, and never turns a pass into a fail. */
  lemma ScoreMonotone(
    weights: WeightTable,
    r1: bool, f1: bool, s1: bool,
    r2: bool, f2: bool, s2: bool,
    text: string, cfg: ReadabilityCfg, passThreshold: int)
    requires Lookup(weights, RequiredPhrasesKey) >= 0 && Lookup(weights, ForbiddenPhrasesKey) >= 0
    requires Lookup(weights, RequiredSectionsKey) >= 0 && Lookup(weights, ReadabilityKey) >= 0
    requires (r1 ==> r2) && (f1 ==> f2) && (s1 ==> s2)
    ensures ScoreAudit(weights, r1, f1, s1, text, cfg, passThreshold).total
            <= ScoreAudit(weights, r2, f2, s2, text, cfg, passThreshold).total
    ensures ScoreAudit(weights, r1, f1, s1, text, cfg, passThreshold).passed
            ==> ScoreAudit(weights, r2, f2, s2, text, cfg, passThreshold).passed
  {
    var x := ScoreAudit(weights, r1, f1, s1, text, cfg, passThreshold);
    var y := ScoreAudit(weights, r2, f2, s2, text, cfg, passThreshold);
    assert x.details.readability.passed == y.details.readability.passed;
    var c, d := x.details.components, y.details.components;
    OrderedComponents(c, d);
    ClampMonotone(Credited(c.AsList()), Credited(d.AsList()));
  }

  /** One component credits no more than another: same weight, and it passes
      only if the other does. */
  predicate NoMoreThan(p: ComponentDetail, q: ComponentDetail) {
    p.weight == q.weight && (p.passed ==> q.passed)
  }

  /** The four-component form of CreditedMonotone. */
  lemma OrderedComponents(c: Components, d: Components)
    requires NoMoreThan(c.requiredPhrases, d.requiredPhrases) && NoMoreThan(c.forbiddenPhrases, d.forbiddenPhrases)
    requires NoMoreThan(c.requiredSections, d.requiredSections) && NoMoreThan(c.readability, d.readability)
    requires c.requiredPhrases.weight >= 0 && c.forbiddenPhrases.weight >= 0
    requires c.requiredSections.weight >= 0 && c.readability.weight >= 0
    ensures Credited(c.AsList()) <= Credited(d.AsList())
  {
    var a, b := c.AsList(), d.AsList();
    assert forall i :: 0 <= i < |a| ==> NoMoreThan(a[i], b[i]) && a[i].weight >= 0;
    CreditedMonotone(a, b);
  }

  lemma ClampMonotone(x: int, y: int)
    requires x <= y
    ensures Clamp(x) <= Clamp(y)
  {
  }

  // ---------------------------------------------------------------------------
  // The repository's own examples

  /** `s * n` for a string `s`. */
  function Repeat(s: string, n: nat): (r: string)
    ensures |r| == |s| * n
  {
    if n == 0 then [] else s + Repeat(s, n - 1)
  }

  /** Each "x " adds one word. */
  lemma {:induction false} RunsOfRepeatedWord(n: nat)
    ensures CountRuns(Repeat("x ", n), false) == n
    ensures !SeenAfter(Repeat("x ", n), false)
  {
    if n > 0 {
      RunsOfRepeatedWord(n - 1);
      CountRunsAppend("x ", Repeat("x ", n - 1), false);
      SeenAfterAppend("x ", Repeat("x ", n - 1), false);
    }
  }

  lemma {:induction false} SeenAfterAppend(a: string, b: string, seen: bool)
    ensures SeenAfter(a + b, seen) == SeenAfter(b, SeenAfter(a, seen))
    decreases |a|
  {
    if a != [] {
      assert (a + b)[0] == a[0];
      assert (a + b)[1..] == a[1..] + b;
      SeenAfterAppend(a[1..], b, if IsWordChar(a[0]) then true else if a[0] == '\'' then seen else false);
    } else {
      assert a + b == b;
    }
  }

  /** Each piece of the test header is a word followed by separators: one
      run, and nothing carried over. */
  lemma HeaderPieces()
    ensures CountRuns("SUMMARY:\n", false) == 1 && !SeenAfter("SUMMARY:\n", false)
    ensures CountRuns("hello. ", false) == 1 && !SeenAfter("hello. ", false)
    ensures CountRuns("NEXT ", false) == 1 && !SeenAfter("NEXT ", false)
    ensures CountRuns("STEPS:\n", false) == 1 && !SeenAfter("STEPS:\n", false)
    ensures CountRuns("world. ", false) == 1 && !SeenAfter("world. ", false)
  {
    SummaryPiece();
    HelloPiece();
    NextPiece();
    StepsPiece();
    WorldPiece();
  }

  lemma SummaryPiece()
    ensures CountRuns("SUMMARY:\n", false) == 1 && !SeenAfter("SUMMARY:\n", false)
  {
  }

  lemma HelloPiece()
    ensures CountRuns("hello. ", false) == 1 && !SeenAfter("hello. ", false)
  {
  }

  lemma NextPiece()
    ensures CountRuns("NEXT ", false) == 1 && !SeenAfter("NEXT ", false)
  {
  }

  lemma StepsPiece()
    ensures CountRuns("STEPS:\n", false) == 1 && !SeenAfter("STEPS:\n", false)
  {
  }

  lemma WorldPiece()
    ensures CountRuns("world. ", false) == 1 && !SeenAfter("world. ", false)
  {
  }

  /** Adding a one-word piece after text that carries nothing over adds one word. */
  lemma AppendPiece(a: string, p: string, n: nat)
    requires CountRuns(a, false) == n && !SeenAfter(a, false)
    requires CountRuns(p, false) == 1 && !SeenAfter(p, false)
    ensures CountRuns(a + p, false) == n + 1 && !SeenAfter(a + p, false)
  {
    CountRunsAppend(a, p, false);
    SeenAfterAppend(a, p, false);
  }

  lemma HeaderChain(p1: string, p2: string, p3: string, p4: string, p5: string)
    requires p1 == "SUMMARY:\n" && p2 == "hello. " && p3 == "NEXT " && p4 == "STEPS:\n" && p5 == "world. "
    ensures CountRuns(p1 + p2 + p3 + p4 + p5, false) == 5 && !SeenAfter(p1 + p2 + p3 + p4 + p5, false)
  {
    HeaderPieces();
    AppendPiece(p1, p2, 1);
    AppendPiece(p1 + p2, p3, 2);
    AppendPiece(p1 + p2 + p3, p4, 3);
    AppendPiece(p1 + p2 + p3 + p4, p5, 4);
  }

  lemma HeaderSplit(h: string)
    requires h == "SUMMARY:\nhello. NEXT STEPS:\nworld. "
    ensures h == "SUMMARY:\n" + "hello. " + "NEXT " + "STEPS:\n" + "world. "
  {
  }

  /** The header of the test transcript holds five words. */
  lemma TestHeaderWords(h: string)
    requires h == "SUMMARY:\nhello. NEXT STEPS:\nworld. "
    ensures CountRuns(h, false) == 5 && !SeenAfter(h, false)
  {
    HeaderSplit(h);
    HeaderChain("SUMMARY:\n", "hello. ", "NEXT ", "STEPS:\n", "world. ");
  }

  /** The test transcript has 55 words, inside the bounds 10..200. */
  lemma TestTranscriptWords(text: string)
    requires text == "SUMMARY:\nhello. NEXT STEPS:\nworld. " + Repeat("x ", 50)
    ensures Readability(text).wordCount == 55
  {
    var h := "SUMMARY:\nhello. NEXT STEPS:\nworld. ";
    TestHeaderWords(h);
    RunsOfRepeatedWord(50);
    CountRunsAppend(h, Repeat("x ", 50), false);
  }

  lemma TestWeightsLookup(weights: WeightTable)
    requires weights == [("required_phrases", 40), ("forbidden_phrases", 30),
                         ("required_sections", 20), ("readability", 10)]
    ensures Lookup(weights, RequiredPhrasesKey) == 40 && Lookup(weights, ForbiddenPhrasesKey) == 30
    ensures Lookup(weights, RequiredSectionsKey) == 20 && Lookup(weights, ReadabilityKey) == 10
  {
    assert weights[0].0 == RequiredPhrasesKey && weights[1].0 == ForbiddenPhrasesKey;
    assert weights[2].0 == RequiredSectionsKey && weights[3].0 == ReadabilityKey;
  }

  /** Weights 40/30/20/10, every component passing: 100, a pass at 80; with the
      required phrases failing: 60, a fail at 80. */
  lemma ScoreExamples(weights: WeightTable, text: string, cfg: ReadabilityCfg)
    requires weights == [("required_phrases", 40), ("forbidden_phrases", 30),
                         ("required_sections", 20), ("readability", 10)]
    requires text == "SUMMARY:\nhello. NEXT STEPS:\nworld. " + Repeat("x ", 50)
    requires cfg == ReadabilityCfg(Some(10), Some(200))
    ensures ScoreAudit(weights, true, true, true, text, cfg, 80).total == 100
    ensures ScoreAudit(weights, true, true, true, text, cfg, 80).passed
    ensures ScoreAudit(weights, false, true, true, text, cfg, 80).total == 60
    ensures !ScoreAudit(weights, false, true, true, text, cfg, 80).passed
  {
    TestTranscriptWords(text);
    TestWeightsLookup(weights);
    var pass := ScoreAudit(weights, true, true, true, text, cfg, 80);
    var fail := ScoreAudit(weights, false, true, true, text, cfg, 80);
    CreditedOfFour(pass.details.components);
    CreditedOfFour(fail.details.components);
  }
}
