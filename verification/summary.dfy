/** The batch aggregator (ops_qa_auditor/summary.py): counts, the average
    score and one flattened row per audit payload. */
module Summary {
  import opened Lists
  import opened Engine

  datatype BatchSummary = BatchSummary(total: nat, passed: nat, failed: int, avgScore: real)

  datatype SummaryRow = SummaryRow(
    sourceName: string,
    score: int,
    passed: bool,
    missingRequiredPhrases: seq<string>,
    foundForbiddenPhrases: seq<string>,
    missingRequiredSections: seq<string>)

  datatype BatchPayload = BatchPayload(summary: BatchSummary, results: seq<SummaryRow>)

  function ScoreOf(p: AuditPayload): int {
    p.result.score.total
  }

  predicate Passed(p: AuditPayload) {
    p.result.score.passed
  }

  /** `sum(scores)`. */
  function SumScores(results: seq<AuditPayload>): int
    decreases |results|
  {
    if results == [] then 0 else ScoreOf(results[0]) + SumScores(results[1..])
  }

  /** Reference count of the passing payloads, one by one. */
  function CountPassed(results: seq<AuditPayload>): nat
    decreases |results|
  {
    if results == [] then 0 else (if Passed(results[0]) then 1 else 0) + CountPassed(results[1..])
  }

  /** One row of the `results` list: the payload's name, score, verdict and
      findings, copied as they are. */
  function RowOf(p: AuditPayload): (row: SummaryRow)
    ensures row.sourceName == p.meta.sourceName
    ensures row.score == p.result.score.total && row.passed == p.result.score.passed
    ensures row.missingRequiredPhrases == p.result.findings.missingRequiredPhrases
    ensures row.foundForbiddenPhrases == p.result.findings.foundForbiddenPhrases
    ensures row.missingRequiredSections == p.result.findings.missingRequiredSections
  {
    SummaryRow(
      p.meta.sourceName,
      p.result.score.total,
      p.result.score.passed,
      p.result.findings.missingRequiredPhrases,
      p.result.findings.foundForbiddenPhrases,
      p.result.findings.missingRequiredSections)
  }

  /** `sum(scores) / total`, or 0.0 for an empty batch. */
  function Average(sum: int, n: nat): (avg: real)
    ensures n > 0 ==> avg * (n as real) == sum as real
    ensures n == 0 ==> avg == 0.0
    ensures n > 0 && 0 <= sum <= 100 * n ==> 0.0 <= avg <= 100.0
  {
    if n > 0 then
      var avg := (sum as real) / (n as real);
      AverageScales(avg, sum, n);
      avg
    else 0.0
  }

  lemma AverageScales(avg: real, sum: int, n: nat)
    requires n > 0 && avg == (sum as real) / (n as real)
    ensures avg * (n as real) == sum as real
    ensures 0 <= sum <= 100 * n ==> 0.0 <= avg <= 100.0
  {
  }

  /** `build_batch_summary_payload`, with the average kept exact (no rounding). */
  function BuildBatchSummary(results: seq<AuditPayload>): (b: BatchPayload)
    ensures b.summary.total == |results|
    ensures b.summary.passed == CountPassed(results)
    ensures b.summary.passed <= b.summary.total
    ensures b.summary.failed == b.summary.total - b.summary.passed >= 0
    ensures results == [] ==> b.summary == BatchSummary(0, 0, 0, 0.0)
    ensures b.summary.avgScore == Average(SumScores(results), |results|)
    ensures |b.results| == |results|
    ensures forall i :: 0 <= i < |results| ==> b.results[i] == RowOf(results[i])
  {
    var total := |results|;
    var passed := CountPassed(results);
    PassedIsCounted(results);
    var avg := Average(SumScores(results), total);
    BatchPayload(
      BatchSummary(total, passed, total - passed, avg),
      seq(|results|, i requires 0 <= i < |results| => RowOf(results[i])))
  }

  /** The filtered count equals the one-by-one count, and neither exceeds the length. */
  lemma {:induction false} PassedIsCounted(results: seq<AuditPayload>)
    ensures |Filter(Passed, results)| == CountPassed(results) <= |results|
    decreases |results|
  {
    if results != [] {
      PassedIsCounted(results[1..]);
      FilterUnfold(Passed, results);
    }
  }

  /** Scores in [0, 100] add up to at most 100 per payload. */
  lemma {:induction false} SumScoresBounds(results: seq<AuditPayload>)
    requires forall i :: 0 <= i < |results| ==> 0 <= ScoreOf(results[i]) <= 100
    ensures 0 <= SumScores(results) <= 100 * |results|
    decreases |results|
  {
    if results != [] {
      SumScoresBounds(results[1..]);
    }
  }

  /** When every score is in [0, 100], so is the average. */
  lemma AverageBounds(results: seq<AuditPayload>)
    requires forall i :: 0 <= i < |results| ==> 0 <= ScoreOf(results[i]) <= 100
    ensures 0.0 <= BuildBatchSummary(results).summary.avgScore <= 100.0
  {
    if results != [] {
      SumScoresBounds(results);
    }
  }

  /** A batch of audits has every count consistent and its average in [0, 100]. */
  lemma BatchOfAudits(texts: seq<string>, c: Checklist, names: seq<string>)
    requires |names| == |texts|
    ensures var results := seq(|texts|, i requires 0 <= i < |texts| => AuditText(texts[i], c, names[i]));
            var b := BuildBatchSummary(results);
            && b.summary.passed + b.summary.failed == |texts|
            && 0.0 <= b.summary.avgScore <= 100.0
            && forall i :: 0 <= i < |texts| ==> b.results[i].sourceName == names[i]
  {
    var results := seq(|texts|, i requires 0 <= i < |texts| => AuditText(texts[i], c, names[i]));
    AverageBounds(results);
  }
}
