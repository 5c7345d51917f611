/** The orchestrator (ops_qa_auditor/engine.py): checklists with their
    defaults, checklist warnings, and the audit of one transcript. */
module Engine {
  import opened Wrappers
  import opened Lists
  import opened Rules
  import opened Scoring
  import opened Decimal

  // ---------------------------------------------------------------------------
  // Checklists

  datatype Checklist = Checklist(
    name: string,
    passThreshold: int,
    weights: WeightTable,
    requiredPhrases: seq<string>,
    forbiddenPhrases: seq<string>,
    requiredSections: seq<string>,
    readability: ReadabilityCfg)

  /** The parsed checklist document: every key may be absent. */
  datatype RawChecklist = RawChecklist(
    name: Option<string>,
    passThreshold: Option<int>,
    weights: Option<WeightTable>,
    requiredPhrases: Option<seq<string>>,
    forbiddenPhrases: Option<seq<string>>,
    requiredSections: Option<seq<string>>,
    readability: Option<ReadabilityCfg>)

  const DefaultName := "Unnamed Checklist"
  const DefaultPassThreshold := 80

  /** `load_checklist` after parsing: each absent key takes its default, each
      present key is taken as it is. */
  function LoadChecklist(raw: RawChecklist): (c: Checklist)
    ensures c.name == if raw.name.Some? then raw.name.value else DefaultName
    ensures c.passThreshold == if raw.passThreshold.Some? then raw.passThreshold.value else DefaultPassThreshold
    ensures c.weights == if raw.weights.Some? then raw.weights.value else []
    ensures c.requiredPhrases == if raw.requiredPhrases.Some? then raw.requiredPhrases.value else []
    ensures c.forbiddenPhrases == if raw.forbiddenPhrases.Some? then raw.forbiddenPhrases.value else []
    ensures c.requiredSections == if raw.requiredSections.Some? then raw.requiredSections.value else []
    ensures c.readability == if raw.readability.Some? then raw.readability.value else ReadabilityCfg(None, None)
  {
    Checklist(
      raw.name.GetOr(DefaultName),
      raw.passThreshold.GetOr(DefaultPassThreshold),
      raw.weights.GetOr([]),
      raw.requiredPhrases.GetOr([]),
      raw.forbiddenPhrases.GetOr([]),
      raw.requiredSections.GetOr([]),
      raw.readability.GetOr(ReadabilityCfg(None, None)))
  }

  /** The document that spells out every field of `c`. */
  function FullRaw(c: Checklist): RawChecklist {
    RawChecklist(Some(c.name), Some(c.passThreshold), Some(c.weights), Some(c.requiredPhrases),
                 Some(c.forbiddenPhrases), Some(c.requiredSections), Some(c.readability))
  }

  /** A document that states every field loads to exactly that checklist. */
  lemma LoadFullRaw(c: Checklist)
    ensures LoadChecklist(FullRaw(c)) == c
  {
  }

  /** A document with no keys (`{}`) loads to the all-defaults checklist, whose
      bounds are 0 and 10^9 words. */
  lemma LoadEmptyRaw()
    ensures var c := LoadChecklist(RawChecklist(None, None, None, None, None, None, None));
            && c == Checklist(DefaultName, 80, [], [], [], [], ReadabilityCfg(None, None))
            && c.readability.Min() == 0 && c.readability.Max() == 1_000_000_000
  {
  }

  // ---------------------------------------------------------------------------
  // validate_checklist

  const MissingWeightsWarning := "weights are missing."
  const ThresholdWarning := "pass_threshold must be between 0 and 100."

  /** `f"weights sum to {total_w}, recommended sum is 100."` */
  function WeightSumWarning(total: int): (w: string)
    ensures |w| > 15 && w[..15] == "weights sum to "
  {
    "weights sum to " + IntToString(total) + ", recommended sum is 100."
  }

  /** The three warnings are told apart by their text, and the weight-sum
      warning names its sum. */
  lemma WarningsDistinct(m: int, n: int)
    ensures WeightSumWarning(m) != MissingWeightsWarning
    ensures WeightSumWarning(m) != ThresholdWarning
    ensures MissingWeightsWarning != ThresholdWarning
    ensures WeightSumWarning(m) == WeightSumWarning(n) ==> m == n
  {
    assert WeightSumWarning(m)[8] == 's' && MissingWeightsWarning[8] == 'a';
    assert WeightSumWarning(m)[0] == 'w' && ThresholdWarning[0] == 'p';
    if WeightSumWarning(m) == WeightSumWarning(n) {
      var k := 15 + |IntToString(m)|;
      assert IntToString(m) == WeightSumWarning(m)[15..k];
      assert IntToString(n) == WeightSumWarning(n)[15..k];
      IntToStringInjective(m, n);
    }
  }

  /** `validate_checklist`: warnings as data, in a fixed order: missing
      weights, a weight sum other than 100, a threshold outside [0, 100]. */
  function ValidateChecklist(c: Checklist): (errs: seq<string>)
    ensures MissingWeightsWarning in errs <==> |c.weights| == 0
    ensures WeightSumWarning(SumWeights(c.weights)) in errs <==> SumWeights(c.weights) != 100
    ensures ThresholdWarning in errs <==> c.passThreshold < 0 || c.passThreshold > 100
    ensures forall e :: e in errs ==> e == MissingWeightsWarning || e == ThresholdWarning
                                       || e == WeightSumWarning(SumWeights(c.weights))
    ensures IsSubsequence(errs, [MissingWeightsWarning, WeightSumWarning(SumWeights(c.weights)), ThresholdWarning])
    ensures errs == [] <==> |c.weights| > 0 && SumWeights(c.weights) == 100 && 0 <= c.passThreshold <= 100
  {
    var total := SumWeights(c.weights);
    WarningsDistinct(total, total);
    var e1 := if |c.weights| == 0 then [MissingWeightsWarning] else [];
    var e2 := if total != 100 then [WeightSumWarning(total)] else [];
    var e3 := if c.passThreshold < 0 || c.passThreshold > 100 then [ThresholdWarning] else [];
    OrderedPicks(MissingWeightsWarning, WeightSumWarning(total), ThresholdWarning, e1, e2, e3);
    e1 + e2 + e3
  }

  /** Picking some of three items, in order, gives a subsequence of the three. */
  lemma OrderedPicks(a: string, b: string, c: string, e1: seq<string>, e2: seq<string>, e3: seq<string>)
    requires e1 == [] || e1 == [a]
    requires e2 == [] || e2 == [b]
    requires e3 == [] || e3 == [c]
    ensures IsSubsequence(e1 + e2 + e3, [a, b, c])
  {
    var x := [a, b, c];
    assert x[1..] == [b, c] && x[1..][1..] == [c] && x[1..][1..][1..] == [];
    assert IsSubsequence(e3, [c]) by {
      if e3 != [] { assert e3[1..] == []; }
    }
    assert IsSubsequence(e2 + e3, [b, c]) by {
      if e2 != [] { assert (e2 + e3)[0] == b && (e2 + e3)[1..] == e3; }
    }
    if e1 != [] {
      assert (e1 + e2 + e3)[0] == a && (e1 + e2 + e3)[1..] == e2 + e3;
    } else {
      assert e1 + e2 + e3 == e2 + e3;
    }
  }

  /** An empty weight table draws both weight warnings, the sum one naming 0. */
  lemma EmptyWeightsWarnTwice(c: Checklist)
    requires c.weights == []
    ensures MissingWeightsWarning in ValidateChecklist(c)
    ensures WeightSumWarning(0) in ValidateChecklist(c)
  {
  }

  // ---------------------------------------------------------------------------
  // audit_text

  const RequiredRecommendation := "Add missing required phrases or elements to meet checklist standards."
  const ForbiddenRecommendation := "Remove forbidden language and replace with compliant, non-diagnostic phrasing."
  const SectionsRecommendation := "Add missing required sections (e.g., SUMMARY, NEXT STEPS) for consistency."
  const ReadabilityRecommendation := "Adjust transcript length to fit readability bounds (word count)."

  /** Every recommendation, in the order they are given. */
  const AllRecommendations := [RequiredRecommendation, ForbiddenRecommendation,
                               SectionsRecommendation, ReadabilityRecommendation]

  const DefaultSourceName := "transcript"

  datatype Meta = Meta(checklistName: string, sourceName: string)

  datatype Findings = Findings(
    missingRequiredPhrases: seq<string>,
    foundForbiddenPhrases: seq<string>,
    missingRequiredSections: seq<string>)

  datatype AuditResult = AuditResult(score: ScoreBreakdown, findings: Findings, recommendations: seq<string>)

  datatype AuditPayload = AuditPayload(meta: Meta, result: AuditResult)

  /** One fixed recommendation per failed component, in the order required
      phrases, forbidden phrases, sections, readability. */
  function Recommendations(requiredOk: bool, forbiddenOk: bool, sectionsOk: bool, readabilityOk: bool)
    : (recs: seq<string>)
    ensures RequiredRecommendation in recs <==> !requiredOk
    ensures ForbiddenRecommendation in recs <==> !forbiddenOk
    ensures SectionsRecommendation in recs <==> !sectionsOk
    ensures ReadabilityRecommendation in recs <==> !readabilityOk
    ensures forall r :: r in recs ==> r in AllRecommendations
    ensures IsSubsequence(recs, AllRecommendations)
    ensures recs == [] <==> requiredOk && forbiddenOk && sectionsOk && readabilityOk
  {
    var r1 := if !requiredOk then [RequiredRecommendation] else [];
    var r2 := if !forbiddenOk then [ForbiddenRecommendation] else [];
    var r3 := if !sectionsOk then [SectionsRecommendation] else [];
    var r4 := if !readabilityOk then [ReadabilityRecommendation] else [];
    OrderedPicksOfFour(r1, r2, r3, r4);
    r1 + r2 + r3 + r4
  }

  lemma OrderedPicksOfFour(r1: seq<string>, r2: seq<string>, r3: seq<string>, r4: seq<string>)
    requires r1 == [] || r1 == [RequiredRecommendation]
    requires r2 == [] || r2 == [ForbiddenRecommendation]
    requires r3 == [] || r3 == [SectionsRecommendation]
    requires r4 == [] || r4 == [ReadabilityRecommendation]
    ensures IsSubsequence(r1 + r2 + r3 + r4, AllRecommendations)
  {
    var x := AllRecommendations;
    OrderedPicks(ForbiddenRecommendation, SectionsRecommendation, ReadabilityRecommendation, r2, r3, r4);
    assert x[1..] == [ForbiddenRecommendation, SectionsRecommendation, ReadabilityRecommendation];
    if r1 != [] {
      assert (r1 + r2 + r3 + r4)[0] == x[0];
      assert (r1 + r2 + r3 + r4)[1..] == r2 + r3 + r4;
    } else {
      assert r1 + r2 + r3 + r4 == r2 + r3 + r4;
      SkipHead(r2 + r3 + r4, x);
    }
  }

  lemma SkipHead(a: seq<string>, b: seq<string>)
    requires b != [] && IsSubsequence(a, b[1..])
    ensures IsSubsequence(a, b)
  {
  }

  /** `audit_text`: run the three rules, score, and assemble the payload. */
  function AuditText(text: string, c: Checklist, sourceName: string): (p: AuditPayload)
    ensures p.meta == Meta(c.name, sourceName)
    ensures p.result.findings == Findings(
              CheckRequiredPhrases(text, c.requiredPhrases).findings,
              CheckForbiddenPhrases(text, c.forbiddenPhrases).findings,
              CheckRequiredSections(text, c.requiredSections).findings)
    ensures 0 <= p.result.score.total <= 100
    ensures p.result.score.details.passThreshold == c.passThreshold
    ensures p.result.score.details.components.requiredPhrases.passed <==> p.result.findings.missingRequiredPhrases == []
    ensures p.result.score.details.components.forbiddenPhrases.passed <==> p.result.findings.foundForbiddenPhrases == []
    ensures p.result.score.details.components.requiredSections.passed <==> p.result.findings.missingRequiredSections == []
    ensures RequiredRecommendation in p.result.recommendations <==> p.result.findings.missingRequiredPhrases != []
    ensures ForbiddenRecommendation in p.result.recommendations <==> p.result.findings.foundForbiddenPhrases != []
    ensures SectionsRecommendation in p.result.recommendations <==> p.result.findings.missingRequiredSections != []
    ensures ReadabilityRecommendation in p.result.recommendations <==> !p.result.score.details.readability.passed
    ensures IsSubsequence(p.result.recommendations, AllRecommendations)
  {
    var req := CheckRequiredPhrases(text, c.requiredPhrases);
    var forb := CheckForbiddenPhrases(text, c.forbiddenPhrases);
    var secs := CheckRequiredSections(text, c.requiredSections);
    var score := ScoreAudit(c.weights, req.passed, forb.passed, secs.passed, text, c.readability, c.passThreshold);
    var recs := Recommendations(req.passed, forb.passed, secs.passed, score.details.readability.passed);
    AuditPayload(
      Meta(c.name, sourceName),
      AuditResult(score, Findings(req.findings, forb.findings, secs.findings), recs))
  }

  /** The audit's score is the scorer's verdict on the three rule outcomes. */
  lemma AuditScoresRules(text: string, c: Checklist, sourceName: string)
    ensures AuditText(text, c, sourceName).result.score
            == ScoreAudit(c.weights,
                          CheckRequiredPhrases(text, c.requiredPhrases).passed,
                          CheckForbiddenPhrases(text, c.forbiddenPhrases).passed,
                          CheckRequiredSections(text, c.requiredSections).passed,
                          text, c.readability, c.passThreshold)
  {
  }

  /** A transcript that passes every component gets no recommendation. */
  lemma CleanAuditHasNoRecommendations(text: string, c: Checklist, sourceName: string)
    requires CheckRequiredPhrases(text, c.requiredPhrases).passed
    requires CheckForbiddenPhrases(text, c.forbiddenPhrases).passed
    requires CheckRequiredSections(text, c.requiredSections).passed
    requires AuditText(text, c, sourceName).result.score.details.readability.passed
    ensures AuditText(text, c, sourceName).result.recommendations == []
  {
  }
}
