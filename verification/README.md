# ops_qa_auditor core in Dafny

A Dafny model of the checking core of `ops_qa_auditor`. This tool audits
call transcripts against a configurable checklist. The model covers five parts:

- **Text normalisation.** `normalize` unifies line endings, collapses whitespace runs to one space and strips the ends.
- **Phrase containment.** `contains_phrase` is a case-insensitive substring test on normalised text.
- **Readability statistics.** The word count is the number of matches of `re.findall(r"\b[\w']+\b")`. The sentence count is the number of non-blank pieces of `re.split(r"[.!?]+\s+")`.
- **The three rules.** These are required phrases, forbidden phrases and required sections.
- **Scoring, the audit and the batch summary.**
  - The weighted scorer gives each of four components all or nothing, clamps the total to [0, 100] and compares it with a pass threshold.
  - Loading and validating a checklist works on the already-parsed document.
  - `audit_text` assembles the findings, the score and the recommendations.
  - The batch summary holds counts, the average score and one row per audit.

Every operation is a pure function over immutable datatypes:

- strings are `seq<char>`;
- the weights dictionary is an association list with distinct keys;
- an optional key of the checklist document is an `Option`;
- the average score is an exact `real`.

Modules follow the source files:

| module | file | models |
|---|---|---|
| `Wrappers` | `wrappers.dfy` | `Option` |
| `Lists` | `lists.dfy` | order-keeping filter (the source's list comprehensions) and subsequences |
| `Text` | `text.dfy` | `normalize`, `contains_phrase`, `str.split`, `str.strip`, ASCII case mapping |
| `TextStats` | `readability.dfy` | `readability`, with scanners for the two regular expressions |
| `Rules` | `rules.dfy` | `rules.py` |
| `Scoring` | `scoring.dfy` | `scoring.py` |
| `Decimal` | `decimal.dfy` | `str(int)` for the f-string of the weight-sum warning |
| `Engine` | `engine.dfy` | `engine.py` |
| `Summary` | `summary.dfy` | `build_batch_summary_payload` |

Each operation comes with a partner. The partners are:

- an independent reference definition. For example, the regex word scanner is proved equal to a count of maximal `[\w']` runs, and the section loop is proved equal to the required-phrase filter;
- an inverse, such as `str(int)` read back;
- or an invariant the operation keeps, such as normal form, the clamp range, or subsequence order.

A lemma connects each operation to its partner for all inputs.

### Notes on the code

- **Section check.** A comment in `rules.py` (line 27) calls the section check stricter than the phrase check. The code computes exactly `contains_phrase` for every section, and `Rules.CheckRequiredSections` proves the two equal. The model follows the code.
- **Summary rows.** The rows of `build_batch_summary_payload` carry the finding lists themselves. Only `write_summary_csv` reduces them to counts. The model follows the code.
- **Whitespace.** The whitespace class is Python's `str.isspace` over ASCII. It includes the separators `\x1c`–`\x1f` as well as space and `\t\n\v\f\r`, and `str.split`, `str.strip` and the regex `\s` all use it.

## Model

| member | source | states |
|---|---|---|
| Lists.Filter | src/ops_qa_auditor/rules.py:17 | the comprehension keeps a subsequence of the input in which each accepted value occurs as often as in the input and each rejected value not at all |
| Lists.FilterPartition | src/ops_qa_auditor/rules.py:17-23 | a condition and its negation split a list between them: their result lengths add up to the list's length |
| Text.Normalize | src/ops_qa_auditor/utils.py:18-20 | normalising keeps exactly the whitespace-separated tokens of the input, in order |
| Text.NormalizeIsNormal | src/ops_qa_auditor/utils.py:18-20 | the result has no leading or trailing whitespace, and its only whitespace is single plain spaces |
| Text.NormalizeIsJoin | src/ops_qa_auditor/utils.py:20 | normalising is splitting then joining with one space; the line-ending replacements and the final strip change nothing |
| Text.TokensIgnoreLineEndings | src/ops_qa_auditor/utils.py:20 | replacing `\r\n` and `\r` by `\n` does not change how the text splits |
| Text.NormalizeIdempotent | src/ops_qa_auditor/utils.py:18-20 | normalising twice is normalising once |
| Text.NormalIsFixedPoint | src/ops_qa_auditor/utils.py:18-20 | a string is normal exactly when normalising leaves it unchanged |
| Text.NormalizeBlank | src/ops_qa_auditor/utils.py:18-20 | the normal form is empty exactly for empty or whitespace-only text |
| Text.NormalizeOfMap | src/ops_qa_auditor/utils.py:18-27 | normalising commutes with any character map that keeps the whitespace class, such as lower-casing |
| Text.TrimStartShape | src/ops_qa_auditor/utils.py:31 | `lstrip` removes a whitespace-only prefix and leaves a non-whitespace first character |
| Text.TrimEndShape | src/ops_qa_auditor/utils.py:31 | `rstrip` removes a whitespace-only suffix and leaves a non-whitespace last character |
| Text.StripShape | src/ops_qa_auditor/utils.py:31 | stripped text starts and ends with non-whitespace |
| Text.StripOfBlank | src/ops_qa_auditor/utils.py:31 | stripping leaves nothing exactly when the text is all whitespace |
| Text.ContainsPhraseIgnoresLayout | src/ops_qa_auditor/utils.py:23-27 | containment does not change when the text's whitespace layout changes (text replaced by its normal form) |
| Text.ContainsPhraseIgnoresCase | src/ops_qa_auditor/utils.py:23-27 | upper- or lower-casing the text or the phrase does not change containment |
| Text.BlankPhraseContained | src/ops_qa_auditor/utils.py:23-27 | an empty or whitespace-only phrase is contained in every text |
| Text.AbsentCharacter | src/ops_qa_auditor/utils.py:27 | a phrase with a character the text lacks is not a substring of it |
| TextStats.Readability | src/ops_qa_auditor/utils.py:30-38 | the word count is the number of maximal `[\w']` runs holding a word character; words imply at least one sentence; blank text gives 0 and 0; non-blank text gives at least one sentence |
| TextStats.ScanCountsRuns | src/ops_qa_auditor/utils.py:15 | the left-to-right `\b[\w']+\b` match scan counts exactly the reference runs |
| TextStats.StripKeepsRuns | src/ops_qa_auditor/utils.py:31-32 | stripping the text before matching words does not change the word count |
| TextStats.CountRunsAppend | src/ops_qa_auditor/utils.py:32 | the word count of a concatenation is the first part's count plus the second's, continuing from the run state the first part leaves |
| TextStats.SentencesOfStripped | src/ops_qa_auditor/utils.py:34-35 | non-empty text ending in non-whitespace has at least one non-blank piece after the sentence split |
| Rules.CheckRequiredPhrases | src/ops_qa_auditor/rules.py:16-18 | findings are the not-contained phrases as a subsequence of the list; passes exactly when every phrase is contained, exactly when the findings are empty |
| Rules.RequiredFindingsCount | src/ops_qa_auditor/rules.py:17 | each missing phrase is reported as often as it is listed, each contained phrase never |
| Rules.CheckForbiddenPhrases | src/ops_qa_auditor/rules.py:21-23 | findings are the contained phrases as a subsequence of the list; passes exactly when no phrase is contained, exactly when the findings are empty |
| Rules.ForbiddenFindingsCount | src/ops_qa_auditor/rules.py:22 | each contained phrase is reported as often as it is listed, each other phrase never |
| Rules.CheckRequiredSections | src/ops_qa_auditor/rules.py:26-34 | the section check equals the required-phrase check on the same list; passes exactly when nothing is missing |
| Rules.SectionsAreRequiredPhrases | src/ops_qa_auditor/rules.py:26-34 | the loop over the once-folded text collects exactly the sections that `contains_phrase` rejects, in order |
| Rules.PhrasesPartition | src/ops_qa_auditor/rules.py:16-23 | for one list, the required-phrase and forbidden-phrase findings have lengths adding up to the list's length |
| Rules.EmptyListsPass | src/ops_qa_auditor/rules.py:16-34 | with an empty list every rule passes with no findings |
| Rules.RequiredOfTwo | src/ops_qa_auditor/rules.py:16-18 | on a two-phrase list the findings are the missing phrases in list order |
| Rules.ForbiddenOfTwo | src/ops_qa_auditor/rules.py:21-23 | on a two-phrase list the findings are the contained phrases in list order |
| Rules.RequiredPhrasesExample | tests/test_rules.py:5-9 | "hello world" misses both "NEXT STEPS" and "SUMMARY", reported in that order, and fails |
| Rules.ForbiddenPhrasesExample | tests/test_rules.py:12-16 | "I guarantee this works." contains "I guarantee" but not "diagnose"; only the first is reported, and the check fails |
| Rules.RequiredSectionsExample | tests/test_rules.py:19-23 | headers on their own lines are found after normalisation; the check passes with no findings |
| Scoring.Lookup | src/ops_qa_auditor/scoring.py:37-40 | `weights.get(name, 0)`: the weight stored under the name, or 0 when the name is absent |
| Scoring.ComponentScore | src/ops_qa_auditor/scoring.py:17-18 | a component earns nothing or its whole weight, and never more than a non-negative weight |
| Scoring.Clamp | src/ops_qa_auditor/scoring.py:43 | the result is in [0, 100], equals the input inside that range, and is 0 below it and 100 above it |
| Scoring.ScoreAudit | src/ops_qa_auditor/scoring.py:21-65 | total in [0, 100] and equal to the clamped sum of the passing components' weights; passes exactly when total ≥ threshold; readability passes exactly when min ≤ word count ≤ max with defaults 0 and 10^9; details record every weight, flag, bound and the threshold |
| Scoring.CreditedOfFour | src/ops_qa_auditor/scoring.py:36-40 | the reference sum over the four components equals the scorer's four-term sum |
| Scoring.AllFailedScoresZero | src/ops_qa_auditor/scoring.py:36-43 | when every component fails the total is 0, whatever the weights |
| Scoring.CreditedMonotone | src/ops_qa_auditor/scoring.py:36-40 | with non-negative weights, passing more components never lowers the sum |
| Scoring.ScoreMonotone | src/ops_qa_auditor/scoring.py:36-44 | with non-negative weights, turning a failing rule into a passing one never lowers the total and never turns a pass into a fail |
| Scoring.ClampMonotone | src/ops_qa_auditor/scoring.py:43 | clamping keeps order |
| Scoring.RunsOfRepeatedWord | tests/test_scoring.py:11 | `"x " * n` holds n words |
| Scoring.TestTranscriptWords | tests/test_scoring.py:11 | the scorer examples' transcript has 55 words: five before the fifty `x` |
| Scoring.ScoreExamples | tests/test_scoring.py:5-30 | with weights 40/30/20/10 and threshold 80: all passing gives 100 and a pass; required phrases failing gives 60 and a fail |
| Decimal.NatToStringRoundTrip | src/ops_qa_auditor/engine.py:46 | reading the decimal rendering of a natural number back gives the number |
| Decimal.IntToStringRoundTrip | src/ops_qa_auditor/engine.py:46 | reading `str(n)` back gives n, including negative numbers |
| Decimal.IntToStringInjective | src/ops_qa_auditor/engine.py:46 | different sums render differently |
| Engine.LoadChecklist | src/ops_qa_auditor/engine.py:26-36 | each absent key takes its default ("Unnamed Checklist", 80, empty weights, lists and bounds); each present key is kept as is |
| Engine.LoadFullRaw | src/ops_qa_auditor/engine.py:28-36 | a document giving every key loads to exactly that checklist |
| Engine.LoadEmptyRaw | src/ops_qa_auditor/engine.py:28-36 | a document with no keys (`{}`) loads to the all-defaults checklist, whose word-count bounds are 0 and 10^9 |
| Engine.WeightSumWarning | src/ops_qa_auditor/engine.py:46 | the warning starts with "weights sum to " |
| Engine.WarningsDistinct | src/ops_qa_auditor/engine.py:42-48 | the three warnings have different texts, and two weight-sum warnings are equal only for equal sums |
| Engine.ValidateChecklist | src/ops_qa_auditor/engine.py:39-49 | "weights are missing." exactly when the table is empty; the sum warning exactly when the sum is not 100; the threshold warning exactly when it is outside [0, 100]; nothing else, in that order; no warnings exactly when all three conditions hold |
| Engine.EmptyWeightsWarnTwice | src/ops_qa_auditor/engine.py:41-46 | an empty weight table draws both the missing-weights warning and the sum warning for 0 |
| Engine.Recommendations | src/ops_qa_auditor/engine.py:67-75 | one fixed recommendation per failed component, exactly for the failed ones, in the order required, forbidden, sections, readability; none exactly when all pass |
| Engine.AuditText | src/ops_qa_auditor/engine.py:52-92 | meta names the checklist and the source; findings are the three rule findings unchanged; total in [0, 100]; threshold recorded; each rule component passes exactly when its findings are empty; each recommendation is present exactly when its component failed, in fixed order |
| Engine.AuditScoresRules | src/ops_qa_auditor/engine.py:53-65 | the audit's score is the scorer's verdict on the three rule outcomes, the text, the bounds and the threshold |
| Engine.CleanAuditHasNoRecommendations | src/ops_qa_auditor/engine.py:67-75 | a transcript that passes every component gets no recommendation |
| Summary.RowOf | src/ops_qa_auditor/summary.py:33-40 | a row copies the source name, score, verdict and the three finding lists of its payload |
| Summary.Average | src/ops_qa_auditor/summary.py:23 | for a non-empty batch the average times the count is the sum; 0.0 for an empty batch; in [0, 100] when the sum lies in [0, 100·n] |
| Summary.BuildBatchSummary | src/ops_qa_auditor/summary.py:18-43 | total is the number of payloads; passed is the number of passing payloads; failed = total − passed ≥ 0; empty input gives 0, 0, 0, 0.0; the average is the sum of scores over the count; one row per payload, in order |
| Summary.PassedIsCounted | src/ops_qa_auditor/summary.py:20 | the generator count of passing payloads equals the filter's length and never exceeds the batch size |
| Summary.SumScoresBounds | src/ops_qa_auditor/summary.py:19-23 | scores in [0, 100] sum to between 0 and 100 per payload |
| Summary.AverageBounds | src/ops_qa_auditor/summary.py:23 | when every score is in [0, 100], so is the average |
| Summary.BatchOfAudits | src/ops_qa_auditor/summary.py:18-43 | for a batch of audits, passed + failed is the batch size, the average is in [0, 100], and each row names its source |

## Left out

- **cli.py and reporting.py:** argument parsing, file discovery, and the JSON and Markdown report writers are I/O. `serialize_score` is taken to hand the score breakdown over unchanged.
- **write_summary_json and write_summary_csv:** they only write files.
- **load_checklist:** the file read and `yaml.safe_load` are left out. The model starts from the parsed document, and `RawChecklist` always stands for a mapping. A parsed document that is not a mapping makes `raw.get` raise at engine.py:29, and an empty file parses to `None`, so it raises too; that error path is not modelled. Each key of the mapping is either absent (the `Option` value `None`) or present with a value of the right type, and a YAML `null` value is not modelled.
- **int(), str(), list() and dict() coercions:** in `load_checklist`, `score_audit` and `validate_checklist`, the values are assumed to already have the coerced type.
- **round(avg, 2) and float arithmetic:** the average is the exact rational `sum / total`.
- **Unicode beyond ASCII:** the whitespace class, `\w`, word boundaries and `str.lower` are modelled on ASCII characters. Every other character is treated as neither whitespace nor a word character, and case mapping leaves it unchanged.
- **audit_text default argument:** the default `source_name="transcript"` is the constant `Engine.DefaultSourceName`, which a caller passes explicitly.
- TextStats.Readability: the sentence count is stated only by its bounds. It is zero for blank text, at least one when there is a word, and at least one for non-blank text. No reference definition of the non-blank pieces of the split is proved equal to the scanner.
- Rules.CheckRequiredPhrases: the contract says the findings are a subsequence of the list, empty exactly when every phrase is contained; that they are exactly the missing phrases, each as often as listed, is stated in the separate lemma `Rules.RequiredFindingsCount`.
- Rules.CheckForbiddenPhrases: the contract says the findings are a subsequence of the list, empty exactly when no phrase is contained; that they are exactly the contained phrases, each as often as listed, is stated in the separate lemma `Rules.ForbiddenFindingsCount`.
