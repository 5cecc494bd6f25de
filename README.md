# Biomarker scoring engine: a Dafny model

This project models the scoring engine of a lab-report viewer, together with the two display components that classify its output again.

The engine (`src/services/api.js`) does the following:

- classifies each biomarker reading against its threshold triple (NORMAL, ELEVATED, HIGH, CRITICAL);
- maps each status to a severity of 0, 3, 6 or 9;
- builds a reference-range text;
- runs seven fixed co-occurrence rules that report health patterns;
- groups the markers by category and averages each group's severity;
- weighs each category with a fixed table and combines them into an overall weighted score and a risk category;
- derives a biological age from the mean severity;
- renames backend category names when it reshapes an API response.

The risk panel (`src/components/RiskAssessment.jsx`):

- picks the score to show;
- normalises that score to 0..100;
- labels it;
- turns the category object into cards, with its own 2.5/5.0 level scale.

The pattern panel (`src/components/PatternDetection.jsx`):

- bands pattern severities at 3 and 6 and colours them;
- sorts a copy of the pattern list by descending severity;
- counts the critical patterns;
- shows a marker count on each card.

Modules, one per file:

| file | module | what it holds |
|---|---|---|
| `wrappers.dfy` | `Wrappers` | `Option` |
| `tables.dfy` | `Tables` | a JavaScript object as an insertion-ordered key list plus a map; `Put` is property assignment |
| `markers.dfy` | `Markers` | status, classifier, severity, reference range, evaluation of one reading, severity sums and means |
| `patterns.dfy` | `Patterns` | the rule catalogue, the specification `Detect`, and the method `DetectHealthPatterns` with one block per rule as in the source |
| `categoryrisks.dfy` | `CategoryRisks` | the per-category level, the weight table, the specification `RisksOf`, and the method `CalculateCategoryRisks` with the source's two loops |
| `assessment.dfy` | `Assessment` | overall risk, risk category, biological age |
| `transform.dfy` | `Transform` | the category mapping of `transformAPIResponse` and its loop over `category_risks` |
| `riskview.dfy` | `RiskAssessmentView` | the risk panel |
| `patternview.dfy` | `PatternDetectionView` | the pattern panel |
| `examples.dfy` | `VipExamples` | readings from the static marker table of `generateVIPMarkers`, evaluated under the model |

How the imperative parts are modelled:

- The mutating code, the `push` chain of `detectHealthPatterns` and the two `forEach` loops of `calculateCategoryRisks`, is written as methods with loops.
- Each method is proved equal to a pure specification function.
- The properties are proved as lemmas about those functions.

How numbers are modelled:

- Numbers are exact `real`s.
- Number-to-text conversion is a parameter `show: real -> string`.
- The chronological age is a parameter; the source fixes it at 32.

## Model

| member | source | states |
|---|---|---|
| Markers.ParseStatus | src/services/api.js:473-479 | a status text other than the four names reads as Unknown; a known status reads back as its own name |
| Markers.ParseLabel | src/services/api.js:473-479 | the name of a known status parses back to that status |
| Markers.SeverityOfText | src/services/api.js:472-480 | the lookup on a status text: ELEVATED 3, HIGH 6, CRITICAL 9, and 0 for NORMAL and for any other text |
| Markers.Classify | src/services/api.js:450-466 | the classifier returns one of NORMAL, ELEVATED, HIGH or CRITICAL for any value and any thresholds |
| Markers.ClassifyCountsThresholds | src/services/api.js:450-466 | with ordered thresholds, the status rank equals the number of thresholds the value strictly passes |
| Markers.ClassifyHigherIsWorseBands | src/services/api.js:453-458 | higher-is-worse with ordered thresholds: each status is exactly its half-open band, with the upper edge included (both directions) |
| Markers.ClassifyLowerIsWorseBands | src/services/api.js:459-465 | lower-is-worse with ordered thresholds: the mirror-image bands, with the lower edge included (both directions) |
| Markers.ClassifyBoundary | src/services/api.js:450-466 | a value exactly on the elevated, high or critical threshold gets NORMAL, ELEVATED or HIGH respectively, in both directions |
| Markers.ClassifyMonotone | src/services/api.js:450-466 | for any thresholds, the status never improves as the value moves in the bad direction |
| Markers.ClassifyMirror | src/services/api.js:450-466 | lower-is-worse classification equals higher-is-worse classification of the negated value and thresholds |
| Markers.Severity | src/services/api.js:472-480 | severity is in {0,3,6,9}, equals 3 times the status rank, and is 0 exactly for NORMAL and for any unknown status |
| Markers.ClassifiedSeverityZeroIffNormal | src/services/api.js:450-480 | a classified value has severity 0 if and only if it is NORMAL |
| Markers.SeverityMonotone | src/services/api.js:450-480 | severity grows as the value moves in the bad direction, for any thresholds |
| Markers.ReferenceRange | src/services/api.js:485-495 | lower is worse: ">" followed by the elevated threshold's text; higher is worse: "0-" followed by it; the first character is ">" exactly when lower is worse |
| Markers.ReferenceRangeDependsOnElevated | src/services/api.js:485-495 | thresholds with the same elevated value give the same reference range |
| Markers.NormalBandEdge | src/services/api.js:485-495 | with ordered thresholds, the threshold printed in the range is the edge of the NORMAL band |
| Markers.Evaluate | src/services/api.js:551-562 | an evaluated reading keeps its fields; its status is the classifier's result on its value and thresholds, its severity that status's severity (0..9, zero iff NORMAL), its range the reference range of its thresholds |
| Markers.MeanBounds | src/services/api.js:250 | the mean severity lies between any bounds on the individual severities |
| Markers.MeanAtUpperBound | src/services/api.js:588 | a mean equal to an upper bound of all severities means that every severity equals it |
| Patterns.Emit | src/services/api.js:249-257 | the pattern of a firing rule: its name and description, the codes of the abnormal watched markers, their mean severity and the number of abnormal trigger markers (a definition; its properties are in RuleFires and PatternShape) |
| Patterns.Detect | src/services/api.js:239-374 | the seven rules of the catalogue evaluated in source order, keeping the pattern of each one that fires (the reference definition that DetectHealthPatterns is proved against) |
| Patterns.CatalogShape | src/services/api.js:239-374 | seven rules in source order; only Insulin Resistance has a trigger list that differs from, and lies within, its reported list |
| Patterns.Abnormal | src/services/api.js:244-247 | the selected markers are exactly the markers with a listed code whose status is not NORMAL |
| Patterns.AbnormalAppend | src/services/api.js:244-247 | the selection keeps input order, because it distributes over concatenation |
| Patterns.NonNormalOfWithCodes | src/services/api.js:244-247 | the source's two filters in a row select the same markers as `Abnormal` |
| Patterns.AbnormalOfWithCodes | src/services/api.js:280-285 | filtering by the watch list and then by the trigger list selects by the common codes |
| Patterns.AbnormalSubsetLength | src/services/api.js:280-288 | a smaller code list never selects more markers |
| Patterns.Codes | src/services/api.js:253 | the reported codes are the markers' codes, position by position |
| Patterns.ApplySimpleRule | src/services/api.js:244-258 | one simple block appends the rule's pattern exactly when the rule fires |
| Patterns.ApplyInsulinRule | src/services/api.js:280-299 | the Insulin Resistance block appends its pattern exactly when the rule fires |
| Patterns.DetectHealthPatterns | src/services/api.js:239-374 | the seven blocks give the specification `Detect` |
| Patterns.DetectWithMembers | src/services/api.js:239-374 | a pattern is in the output if and only if some rule fires and emits it |
| Patterns.RuleFires | src/services/api.js:244-371 | a rule's pattern is reported iff more than one of its trigger markers is abnormal; then it lists the abnormal watched markers' codes in input order, with their mean severity and the trigger count |
| Patterns.DetectOrdered | src/services/api.js:239-374 | at most seven patterns, in catalogue order, so no rule name appears twice |
| Patterns.PatternShape | src/services/api.js:239-374 | each pattern lists at least two markers; its trigger count is at least 2 and at most the list length, and equal to it except for Insulin Resistance; on the 0..9 scale its severity is in 0..9 |
| Patterns.LiverStressNeedsBoth | src/services/api.js:321-335 | with unique codes, Liver Stress is reported iff both ALT and GGT are abnormal |
| Patterns.ThyroidDysfunctionNeedsBoth | src/services/api.js:357-371 | with unique codes, Thyroid Dysfunction is reported iff both TSH and T3 are abnormal |
| Patterns.InsulinResistanceNeedsBoth | src/services/api.js:280-287 | with unique codes, Insulin Resistance is reported iff both INSULIN and HOMA_IR are abnormal |
| CategoryRisks.RiskLevelFromSeverity | src/services/api.js:171-176 | the engine's level: CRITICAL from 9, HIGH from 6, MODERATE from 3, else LOW (a definition; its bands are stated in RiskLevelBands) |
| CategoryRisks.RiskLevelBands | src/services/api.js:171-176 | each engine level is exactly its band, with cut points 3, 6 and 9, each inclusive |
| CategoryRisks.RiskLevelMonotone | src/services/api.js:171-176 | a higher average never gives a lower level |
| CategoryRisks.RiskLevelOfStatus | src/services/api.js:171-176 | the level of a single marker's severity has the rank of its status |
| CategoryRisks.CategoryWeight | src/services/api.js:613-626 | every weight lies in [1.0, 1.5]; an unlisted category weighs 1.0 |
| CategoryRisks.Categories | src/services/api.js:574-582 | the group keys are the categories present, each once, and no more keys than markers |
| CategoryRisks.Members | src/services/api.js:574-582 | a group holds exactly the markers of its category |
| CategoryRisks.RiskMap | src/services/api.js:585-597 | there is an entry for a category iff the category is present, and each entry is that category's risk |
| CategoryRisks.RisksOf | src/services/api.js:568-608 | the result object: keys the categories in first-appearance order, each entry its category's risk, and the totals the sums of the weighted scores and of the weights over those keys (the reference definition that CalculateCategoryRisks is proved against) |
| CategoryRisks.GroupByCategory | src/services/api.js:569-582 | the first loop yields one group per category present, in first-appearance order; each group has its markers in input order and its weight |
| CategoryRisks.ScoreCategories | src/services/api.js:584-601 | the second loop scores the groups in key order and totals the weighted scores and the weights over those keys |
| CategoryRisks.CalculateCategoryRisks | src/services/api.js:568-608 | the two loops together give the specification `RisksOf` |
| CategoryRisks.RisksTable | src/services/api.js:585-604 | the result object is well formed and has one entry per category present, each being that category's risk |
| CategoryRisks.RiskEntry | src/services/api.js:586-597 | an entry's average is its group's mean; its weighted score is average times weight; its weight is in [1.0, 1.5]; its count is its group size (≥ 1); its level bands its average |
| CategoryRisks.MarkersCountsSum | src/services/api.js:595 | the `markers_count` values add up to the number of markers |
| CategoryRisks.TotalWeightBounds | src/services/api.js:600 | the total weight is between 1.0 and 1.5 per category, and zero exactly when there are no markers |
| CategoryRisks.AverageOnScale | src/services/api.js:588 | with severities on 0..9, every category average is on 0..9 |
| CategoryRisks.CriticalIffAllCritical | src/services/api.js:588-596 | with consistent severities, a category is CRITICAL iff all of its markers are CRITICAL |
| Assessment.OverallRisk | src/services/api.js:631-634 | zero when there is no weight; otherwise the score times the total weight is the total weighted score |
| Assessment.OverallRiskBetween | src/services/api.js:631-634 | the overall score lies between any bounds of the category averages, so it is a weighted mean |
| Assessment.OverallRiskOnScale | src/services/api.js:631-634 | with severities on 0..9, the overall score is in 0..9 |
| Assessment.AllNormalIsLow | src/services/api.js:631-645 | a panel with all severities 0 scores 0 and is LOW |
| Assessment.RiskCategory | src/services/api.js:640-645 | LOW below 3.0, MODERATE below 6.0, HIGH below 8.0, else CRITICAL (a definition; its bands are stated in RiskCategoryBands) |
| Assessment.RiskCategoryBands | src/services/api.js:640-645 | each risk category is exactly its band, with cut points 3.0, 6.0 and 8.0 |
| Assessment.RiskCategoryMonotone | src/services/api.js:640-645 | a higher score never gives a lower category |
| Assessment.CategoryAndLevelScalesDiffer | src/services/api.js:640-645 | below 8 the overall category agrees with the per-category level; at 8.5 one says CRITICAL and the other HIGH |
| Assessment.BiologicalAgeOf | src/services/api.js:408-410 | the mean severity over all markers; the age delta is the biological age minus the age, at 1.5 years per point from 5; older iff above 5; equal iff 5 |
| Assessment.BiologicalAgeBounds | src/services/api.js:408-410 | on the 0..9 scale the biological age lies between the age minus 7.5 and the age plus 6 |
| Assessment.BiologicalAgeMonotone | src/services/api.js:408-410 | a higher mean severity never gives a younger biological age |
| Transform.MapCategory | src/services/api.js:122-145 | "Liver" becomes "Liver Function" and "Kidney" becomes "Kidney Function"; every other name, listed or not, is kept |
| Transform.MapCategoryIdempotent | src/services/api.js:122-145 | mapping twice is mapping once, and never yields "Liver" or "Kidney" |
| Transform.MappedNamesAreWeighted | src/services/api.js:122-132 | every mapped name has its own weight; "Liver" itself would get the default 1.0, but its mapped name gets 1.2 |
| Transform.NormaliseMarkers | src/services/api.js:135-138 | each marker keeps its position and fields, with its category mapped |
| Transform.NormaliseMarkersIdempotent | src/services/api.js:135-138 | normalising twice is normalising once, and leaves no backend-only name |
| Transform.Rerated | src/services/api.js:147-150 | the entry keeps its data, and its level is re-banded from its average |
| Transform.ReratedKeepsConsistent | src/services/api.js:147-150 | an entry whose level already bands its average is unchanged |
| Transform.Relabel | src/services/api.js:141-151 | the object the loop builds: the keys taken in order, each re-rated entry assigned under the key's new name (the reference definition that TransformCategoryRisks is proved against) |
| Transform.RelabelKeys | src/services/api.js:141-151 | the result is well formed, and its keys are exactly the mapped names |
| Transform.RelabelLevels | src/services/api.js:141-151 | every result entry's level bands its average severity |
| Transform.RelabelLastWins | src/services/api.js:141-151 | the entry under a mapped name comes from the last key that maps to it |
| Transform.RelabelInjective | src/services/api.js:141-151 | when no two keys collide, the result keys are the mapped keys, position by position |
| Transform.LiverCollision | src/services/api.js:141-151 | "Liver" and "Liver Function" collapse into one category holding the later entry |
| Transform.RelabelIdentity | src/services/api.js:141-151 | a table with kept names and consistent levels comes out unchanged |
| Transform.RelabelKeepsEngineTable | src/services/api.js:141-151 | when no marker has a backend-only name, the engine's own category table comes out unchanged |
| Transform.TransformCategoryRisks | src/services/api.js:140-152 | a missing `category_risks` gives the empty object; otherwise the loop gives the relabelled table |
| RiskAssessmentView.DisplayRiskLevel | src/components/RiskAssessment.jsx:28-32 | the panel's level: Low below 2.5, Moderate below 5.0, else High (a definition; its bands are stated in DisplayRiskLevelBands) |
| RiskAssessmentView.DisplayRiskLevelBands | src/components/RiskAssessment.jsx:28-32 | each panel level is exactly its band, with cut points 2.5 and 5.0 |
| RiskAssessmentView.DisplayRiskLevelMonotone | src/components/RiskAssessment.jsx:28-32 | a higher severity never gives a lower panel level |
| RiskAssessmentView.DisplayScaleHarsher | src/components/RiskAssessment.jsx:28-32 | the panel's scale is never milder than the engine's; it differs at 2.5 (Moderate against LOW) and at 5.0 (High against MODERATE) |
| RiskAssessmentView.OverallScore | src/components/RiskAssessment.jsx:11 | the first present non-zero score of `overall_risk_score` and `overall_score`, otherwise 0 |
| RiskAssessmentView.OverallScoreFallback | src/components/RiskAssessment.jsx:11 | the shown score is 0 iff neither score is a non-zero number; a zero engine score lets a legacy score show |
| RiskAssessmentView.NormalizedScore | src/components/RiskAssessment.jsx:60 | multiplied by 10 up to 10, kept above 10 |
| RiskAssessmentView.NormalizedScoreProperties | src/components/RiskAssessment.jsx:60 | never smaller than a non-negative score; 0..9 maps into 0..90; not monotone (10 gives 100, 11 gives 11) |
| RiskAssessmentView.OverallLabel | src/components/RiskAssessment.jsx:49-57 | given a category: Low for LOW, Moderate for MODERATE, High for anything else incl. CRITICAL; without one: 30/70 bands on the score (each iff) |
| RiskAssessmentView.ShownLabel | src/components/RiskAssessment.jsx:11-60 | the label shown: `getOverallRiskCategory` of the normalised fallback score, with a missing category read as empty (its two paths are compared in LabelPathsDisagree) |
| RiskAssessmentView.LabelPathsDisagree | src/components/RiskAssessment.jsx:49-60 | with the engine's category the label follows its 3/6 bands; without it, 6.5 reads Moderate instead of High |
| RiskAssessmentView.CardOf | src/components/RiskAssessment.jsx:18-23 | one card: the key as category, the entry's fields spread, the level re-banded at 2.5/5.0 and `markers_count` as affected markers (a definition; CardsOf states it per key) |
| RiskAssessmentView.CardsOf | src/components/RiskAssessment.jsx:16-23 | one card per key, in key order: category is the key, affected markers is `markers_count`, and the level is re-banded at 2.5/5.0 |
| RiskAssessmentView.CategoryRisksArray | src/components/RiskAssessment.jsx:16-23 | an array is kept; an object gives exactly CardsOf its table, one card per key in key order; a missing field gives no cards |
| RiskAssessmentView.AffectedTotalIsCountSum | src/components/RiskAssessment.jsx:18-23 | the cards' affected-marker counts add up to the table's `markers_count` values |
| RiskAssessmentView.EngineCardsCoverMarkers | src/components/RiskAssessment.jsx:16-23 | over the engine's table: one card per category, with affected counts adding up to the number of markers |
| PatternDetectionView.SeverityLevelOf | src/components/PatternDetection.jsx:24-28 | Low below 3, Moderate below 6, else High (a definition; its bands are stated in SeverityLevelBands) |
| PatternDetectionView.SeverityLevelBands | src/components/PatternDetection.jsx:24-28 | each level is exactly its band, with cut points 3 and 6 |
| PatternDetectionView.SeverityColor | src/components/PatternDetection.jsx:33-37 | green below 3, orange below 6, else red (a definition; ColorAgreesWithLevel ties it to the level) |
| PatternDetectionView.ColorAgreesWithLevel | src/components/PatternDetection.jsx:33-37 | the colour is always the level's colour, and distinct levels have distinct colours |
| PatternDetectionView.Insert | src/components/PatternDetection.jsx:56 | insertion adds exactly the one pattern (multiset) |
| PatternDetectionView.InsertSorted | src/components/PatternDetection.jsx:56 | insertion keeps a list sorted by descending severity |
| PatternDetectionView.SortBySeverity | src/components/PatternDetection.jsx:56 | the sorted copy is a permutation of the input, in non-increasing severity |
| PatternDetectionView.InsertOfSeverity | src/components/PatternDetection.jsx:56 | inserting a pattern puts it in front of the patterns of its own severity and leaves their order |
| PatternDetectionView.SortBySeverityStable | src/components/PatternDetection.jsx:56 | the sort is stable: for every severity, its patterns keep their input order in the sorted copy |
| PatternDetectionView.CriticalCount | src/components/PatternDetection.jsx:153 | the critical count is at most the number of patterns |
| PatternDetectionView.CriticalCountSorted | src/components/PatternDetection.jsx:153 | sorting does not change the critical count |
| PatternDetectionView.CriticalIsHighLevel | src/components/PatternDetection.jsx:153 | a pattern counts as critical iff its card shows the High level |
| PatternDetectionView.CriticalFirst | src/components/PatternDetection.jsx:56 | in the sorted list every critical pattern comes before every non-critical one |
| PatternDetectionView.DisplayedMarkerCount | src/components/PatternDetection.jsx:80 | the trigger count when it is non-zero, else the number of listed markers |
| PatternDetectionView.DisplayedCountOfDetected | src/components/PatternDetection.jsx:80 | for a detected pattern the card shows its trigger count (≤ listed markers), equal to the listed markers except for Insulin Resistance |
| PatternDetectionView.PatternPanel | src/components/PatternDetection.jsx:8-19 | "no patterns" iff the list is missing or empty; otherwise the total, a sorted permutation and a critical count ≤ total |
| VipExamples.CrpIsElevated | src/services/api.js:505 | CRP 4.2 against {3.5, 10, 20} is ELEVATED, severity 3, range "0-3.5" |
| VipExamples.HdlIsNormal | src/services/api.js:516 | HDL 55, lower-is-worse, against {40, 30, 20} is NORMAL, severity 0, range ">40" |
| VipExamples.GlucoseIsCritical | src/services/api.js:511 | glucose 240 against {100, 126, 200} is CRITICAL, severity 9 |
| VipExamples.MetabolismPanelGroups | src/services/api.js:510-512 | the three Metabolism markers form one group, with severities summing to 12 |
| VipExamples.MetabolismPanelCategory | src/services/api.js:510-512 | their category entry: average 4, weight 1.5, weighted score 6, count 3, MODERATE |
| VipExamples.MetabolismPanelRisk | src/services/api.js:510-512 | overall score 4, MODERATE; biological age 30.5 at age 32 |
| VipExamples.MetabolismPanelFires | src/services/api.js:510-512 | only Metabolic Syndrome fires, over HbA1c and glucose |
| VipExamples.MetabolismPanelPatterns | src/services/api.js:510-512 | the detector returns exactly one pattern: Metabolic Syndrome over HBA1C and GLUCOSE, severity 6, trigger count 2 |

## Left out

- `Number(x.toFixed(2))` rounding is omitted everywhere. Pattern severities, category averages, weighted scores, totals and the overall score are exact reals. The source rounds each to two decimals, and computes the overall score from the rounded totals.
- Assessment.OverallRisk: does not model the rounding of the quotient or of its two inputs, for the reason above.
- CategoryRisks.CalculateCategoryRisks: stores the exact average and weighted score, not the two-decimal values the source stores. The level is banded from the exact average, as in the source.
- IEEE floating point, including binary rounding of weights such as 1.3 and NaN from a non-numeric severity: numbers are exact reals.
- Number-to-text conversion in the reference range is the parameter `show`; JavaScript's number formatting is not modelled.
- JavaScript orders integer-like object keys before the others. The model keeps every key in insertion order, which matches for the category names the engine uses.
- Inherited object properties are not modelled. Each of these lookups sees only its own listed names:
  - Transform.MapCategory: `categoryMapping[c] || c` would map a category named "constructor" to the Object function.
  - CategoryRisks.CategoryWeight: `weights[category] || 1.0` would give a category named "constructor" a function as its weight, and a weighted score of NaN, where the model gives 1.0.
  - Markers.Severity and Markers.ParseStatus: `severityMap[status] || 0` has the same lookup; the model gives 0 to every text but the four names.
  - CategoryRisks.GroupByCategory: `!categories[marker.category]` is false for a category named "toString", so the source skips creating the group and the `push` then throws a TypeError, where the model creates the group.
- A marker's severity is a field, as in the source, which reads `m.severity` rather than recomputing it. `SeverityConsistent` ties it to the status where a lemma needs that.
- The chronological age is a parameter; `generateMockPatientData` fixes it at 32.
- The patient summary counts, the `generated_at` timestamp and the rest of the mock record in `generateMockPatientData`: these are static data assembly.
- `getAPIBaseURL`, `uploadPDFFiles`, `generateAIReport`, `generateMockAIReport` and `generateMockPatterns`: network I/O, environment lookup, randomness and static narrative data.
- The rest of `transformAPIResponse` (copying `participant`, `summary`, `patterns || []` and the other fields) is plain field copying. Only the category mapping, the marker normalisation and the `category_risks` loop are modelled.
- `getRiskColor` in the risk panel and `getPatternIcon` in the pattern panel are fixed lookups with no logic beyond a default.
- The pattern panel's average-severity summary (`toFixed(1)` of a mean) and the pluralisation of "Pattern"/"marker" are display formatting.
- RiskAssessmentView.OverallScore: models `||` on numbers (a missing value or 0 is falsy); other falsy values such as NaN or an empty string are not modelled.
- The React rendering of both panels (markup, styles, the SVG ring) and the other components are presentation only.
- Where the source's comments and its code differ, the model follows the code:
  - Metabolic Syndrome's comment says "3+", but the code fires at more than one abnormal marker.
  - Liver Stress, Vitamin Deficiency and Thyroid Dysfunction are commented "1+", but the code needs more than one abnormal marker.
  - Insulin Resistance is commented "INSULIN or HOMA_IR abnormal", but the code needs more than one abnormal marker among those two codes.
  - `calculateSeverity` gives 0 to an unknown status.
  - The classifier never checks that the thresholds are ordered. The lemmas that need ordering take it as a precondition.
