# Label-mapping discovery, modelled in Dafny

This project models the label-mapping discovery tool `discover_label_mapping.py`,
and the labelling and confusion-matrix logic of `evaluate_classification.py`.

The discovery tool takes two annotation sets for the same images:
- "original" files, with one `label x1 y1 x2 y2` line per box;
- YOLO files, with one `class xc yc w h` line per box in normalised coordinates.

It works out which YOLO class id stands for which label from box overlap alone, in five stages:

1. **File pairing** (`FilePairs`). Both directory listings become base-name → path tables:
   - only files whose name ends with the suffix are kept, and the suffix is stripped;
   - the first file with a given base wins, and every later one raises a duplicate warning.

   The shared keys are the sorted intersection of the two tables. They are cut to `--limit` only when the limit is truthy, and a negative limit drops keys from the end, as Python's `[:n]` does.
2. **Loading** (`Loaders`). Each line is stripped and split:
   - a blank or `#` line is skipped silently;
   - a line with fewer than five tokens, a non-numeric coordinate, or a non-positive width or height gives a numbered warning;
   - every other line gives a record.

   For a YOLO line, the centre/size box is turned into corners clipped to the unit square. The class token becomes `str(int(float(token)))` when it parses as a number, and stays verbatim otherwise.
3. **IoU** (`Geometry`): `compute_iou` over real coordinates.
4. **Greedy matching** (`Matching`). Every (original, YOLO) pair whose IoU clears the threshold is a candidate `(iou, o_idx, y_idx)`:
   - the candidates are sorted in descending tuple order;
   - they are walked once, and a pair is accepted when neither index is claimed yet.
5. **Counting and finalisation** (`Counters`, `Accumulation`, `Finalisation`, `Discovery`).
   - **Per sample:** a sample with an empty side is skipped. Otherwise its unmatched boxes are added to the running totals, and each match is counted under (class id, label).
   - **Per class id:** each class id is resolved to its most frequent label (`most_common(1)`, ties going to the label counted first), with its total, its confidence and the other labels ranked by count.
   - **Visiting order:** class ids are visited by `int(id)` when all are digit strings, and as strings when none is.

`Classification` models the evaluation script:
- `assign_label`: two path patterns and an unmatched policy give the ground-truth label and a reason;
- the tally loop into tp/fn/fp/tn and skip reasons;
- the five guarded ratios of `compute_metrics`.

## How the model is built

Functions state what each stage computes. Methods then walk the data as the source does and are proved to compute it:
- `CollectLabelFiles`, `LoadOriginalBoxes` and `LoadYoloBoxes`;
- `CollectCandidates`, `ClaimGreedily` and `MatchBoxes`;
- `CountSampleMatches` and `AccumulateCounts`;
- `ResolveInOrder` and `ResolveMappings`;
- `DiscoverMapping` and `TallySamples`.

Inputs the source gets from the outside world are parameters:
- a directory tree is the sorted sequence of its entries;
- a file is its sequence of lines (`readLines`);
- `float()` on a token is any function `parse` from strings to optional reals;
- a compiled regular expression is the predicate its `search` induces.

Two behaviours of the code that are easy to misread:
- **Candidate order.** The candidate sort compares whole `(iou, o_idx, y_idx)` tuples. Equal IoUs are therefore ordered by the larger original index, then the larger YOLO index. They are not left to the enumeration order.
- **Mixed class ids.** A table that mixes digit and non-digit class ids makes Python's `sorted` compare an `int` with a `str`, which raises `TypeError`. There is no lexicographic fallback, so the model ends such a run with `MixedClassIds`.

## Model

| member | source | states |
|---|---|---|
| Text.StripTrims | discover_label_mapping.py:82 | a stripped line is the slice left when white space, and only white space, is cut from both ends: everything cut is white space, and the slice neither starts nor ends with it |
| Text.WordsAreRuns | discover_label_mapping.py:85 | every token of `split()` is a non-empty run of non-space characters |
| Text.WordsOfRun | discover_label_mapping.py:85 | a non-empty run of non-space characters splits into exactly itself |
| Text.WordsOfBlank | discover_label_mapping.py:85 | a string of white space splits into no tokens |
| Text.WordsSplitAtSpace | discover_label_mapping.py:85 | `split()` cuts at every white-space character: the tokens of `a + c + b`, with `c` white space, are those of `a` followed by those of `b`; with the two rows above this makes the tokens exactly the maximal non-space runs |
| Text.TruncateTowardZero | discover_label_mapping.py:115 | `int()` of a float is the integer next to it on the side of zero |
| Text.DecimalRoundTrip | discover_label_mapping.py:115 | `int()` of the decimal string `str()` writes for a natural number gives that number back |
| Text.NatToDecimalInjective | discover_label_mapping.py:115 | distinct naturals have distinct decimal strings |
| Text.Sorted | discover_label_mapping.py:189 | `sorted` of a set of strings: the same elements, one each, strictly ascending in Python's string order |
| Geometry.InterWithinAreas | discover_label_mapping.py:137-143 | when the boxes overlap, the intersection area is positive and no larger than either box |
| Geometry.IouRange | discover_label_mapping.py:134-149 | IoU lies in [0, 1], and is 0 exactly when the boxes do not overlap on some axis |
| Geometry.IouSymmetric | discover_label_mapping.py:134-149 | IoU does not depend on the order of the boxes |
| Geometry.IouSelf | discover_label_mapping.py:134-149 | a non-degenerate box has IoU 1 with itself |
| Loaders.ParseFour | discover_label_mapping.py:91-94 | the four coordinates parse exactly when each of tokens 1-4 parses, and are their values |
| Loaders.ParseOriginalLine | discover_label_mapping.py:82-98 | a line is skipped exactly when blank or a comment; otherwise fewer than five tokens give a malformed warning, a token 1-4 that does not parse gives a non-numeric warning, numbers without x1 < x2 and y1 < y2 give a degenerate warning, and exactly the remaining lines are kept, as the record of token 0 and the box of tokens 1-4 as written |
| Loaders.YoloCorners | discover_label_mapping.py:123-126 | the corner box of a centre/size record lies in the unit square and within the unclipped box, keeps each unclipped corner coordinate that already lies in [0, 1], and sets a coordinate below 0 to exactly 0 and one above 1 to exactly 1 |
| Loaders.ParseYoloLine | discover_label_mapping.py:106-130 | a line is skipped exactly when blank or a comment; otherwise fewer than five tokens give a malformed warning, a token 1-4 that does not parse gives a non-numeric warning, a degenerate clipped box gives a degenerate warning, and exactly the remaining lines are kept, as the normalised class id of token 0 with the clipped corners of tokens 1-4 |
| Loaders.KeptAppend | discover_label_mapping.py:98 | records keep file order: the records of two consecutive parts of a file are those of the first followed by those of the second |
| Loaders.KeptMembers | discover_label_mapping.py:98 | a record is returned exactly when some line produced it |
| Loaders.LinesAccounted | discover_label_mapping.py:81-98 | every line is exactly one of kept, warned about, or skipped silently |
| Loaders.WarningsPointToLines | discover_label_mapping.py:81-97 | each warning names, in increasing order, an existing 1-based line that produced that warning |
| Loaders.OriginalRecordsNonDegenerate | discover_label_mapping.py:95-98 | every original record has x1 < x2 and y1 < y2 |
| Loaders.YoloBoxesClipped | discover_label_mapping.py:123-130 | every YOLO box has 0 <= x1 < x2 <= 1 and 0 <= y1 < y2 <= 1 |
| Loaders.ExtraTokensIgnoredOriginal | discover_label_mapping.py:85-91 | two original lines that agree on their first five tokens give the same outcome |
| Loaders.ExtraTokensIgnoredYolo | discover_label_mapping.py:109-119 | two YOLO lines that agree on their first five tokens give the same outcome |
| Loaders.ClassIdNumeric | discover_label_mapping.py:113-115 | a class token with a non-negative numeric value becomes the digit string of its truncated value |
| Loaders.ClassIdRaw | discover_label_mapping.py:116-117 | a class token `float()` rejects is kept verbatim |
| Loaders.ClassIdCoercion | discover_label_mapping.py:115 | two numeric class tokens name the same class exactly when their values truncate to the same integer |
| Loaders.LoadOriginalBoxes | discover_label_mapping.py:78-99 | the loop, reading each line as its body does, returns exactly the kept records and the warnings, in line order, and every record is non-degenerate |
| Loaders.LoadYoloBoxes | discover_label_mapping.py:102-131 | the loop, reading each line as its body does, returns exactly the kept boxes and the warnings, in line order, and every box is non-degenerate and clipped |
| FilePairs.BaseName | discover_label_mapping.py:70 | the base key followed by the suffix is the file name |
| FilePairs.BaseNameInjective | discover_label_mapping.py:68-70 | under one suffix, distinct eligible names have distinct base keys |
| FilePairs.CollectMembers | discover_label_mapping.py:64-74 | a key is in the table exactly when some eligible file has it as its base |
| FilePairs.CollectFirstWins | discover_label_mapping.py:71-74 | a key maps to the path of the first eligible file with that base |
| FilePairs.DuplicateIgnored | discover_label_mapping.py:71-73 | a later file whose base is taken leaves the table unchanged and adds one warning naming the base |
| FilePairs.CollectAccounting | discover_label_mapping.py:64-74 | table size plus duplicate warnings equals the number of eligible files |
| FilePairs.CollectLabelFiles | discover_label_mapping.py:62-75 | the loop builds exactly that table and those warnings, every key mapping to the path of a file with that base |
| FilePairs.SliceTo | discover_label_mapping.py:191 | Python's `[:n]` for any integer `n`: a prefix of the length Python gives, negative `n` counting from the end |
| FilePairs.SharedKeysSound | discover_label_mapping.py:189-191 | the shared keys are in both tables, strictly ascending, and a prefix of the sorted intersection; with no limit or limit 0 it is all of it, and a positive limit keeps that many smallest keys |
| FilePairs.NoSharedKeys | discover_label_mapping.py:189-193 | with no limit or a non-negative one, there are no shared keys exactly when the tables have no key in common |
| Matching.SortDescending | discover_label_mapping.py:164 | the sorted list is a permutation of the candidates |
| Matching.SortDescendingSound | discover_label_mapping.py:164 | sorting distinct candidates gives a strictly descending permutation of them |
| Matching.DescendingUnique | discover_label_mapping.py:164 | two strictly descending lists with the same elements are equal, so the sorted order is fully determined |
| Matching.CandidatesMembership | discover_label_mapping.py:157-162 | the candidates are exactly the in-range index pairs whose IoU clears the threshold, each once with its own IoU |
| Matching.SortedCandidates | discover_label_mapping.py:157-164 | the sorted candidates are strictly descending and are exactly those pairs |
| Matching.ClaimedMembers | discover_label_mapping.py:211-212 | the claimed index sets hold exactly the indices used by some pair |
| Matching.GreedySound | discover_label_mapping.py:169-174 | the walk never claims an index twice, and each accepted pair is a candidate's pair |
| Matching.GreedyPrefix | discover_label_mapping.py:169-174 | the pairs accepted after the first k candidates are a prefix of the final answer |
| Matching.GreedyStep | discover_label_mapping.py:169-174 | one step accepts the candidate unless one of its indices is already claimed |
| Matching.GreedyAccepts | discover_label_mapping.py:170-174 | a candidate with neither index claimed before it ends up in the answer |
| Matching.GreedyBlocked | discover_label_mapping.py:170-171 | a candidate left out had one of its indices claimed before it |
| Matching.GreedyBlockedBy | discover_label_mapping.py:169-174 | a candidate left out shares an index with an accepted pair from an earlier candidate |
| Matching.MatchSound | discover_label_mapping.py:152-176 | the matches are one-to-one, in range, and each has IoU at least the threshold |
| Matching.MatchGreedyMaximal | discover_label_mapping.py:164-174 | an above-threshold pair not chosen shares an index with a chosen pair above it in descending (iou, o_idx, y_idx) order |
| Matching.MatchMonotone | discover_label_mapping.py:157-174 | raising the threshold can only shorten the answer: the matches at the higher threshold are a prefix of those at the lower one |
| Matching.CollectCandidates | discover_label_mapping.py:157-162 | the nested loops build exactly the candidate list, row by row |
| Matching.ClaimGreedily | discover_label_mapping.py:165-175 | the loop with the two claimed sets computes the greedy walk |
| Matching.MatchBoxes | discover_label_mapping.py:152-176 | `match_boxes` returns the greedy answer: one-to-one, in range and above the threshold |
| Counters.IncrementCounts | discover_label_mapping.py:219 | `counter[label] += 1` raises that label's count by one, the sum by one, and adds the label |
| Counters.IncrementValid | discover_label_mapping.py:219 | incrementing keeps labels distinct and counts positive |
| Counters.TopEntryIsFirstMaximal | discover_label_mapping.py:235 | `most_common(1)` gives an entry with the largest count, counted before every other entry with that count |
| Counters.InsertByCountAdds | discover_label_mapping.py:240 | placing an entry in the ranking adds exactly that entry and its count |
| Counters.RankByCountPermutes | discover_label_mapping.py:240 | `most_common()` is a permutation of the counter and keeps its sum |
| Counters.InsertByCountDescending | discover_label_mapping.py:240 | placing an entry keeps the ranking ordered by count |
| Counters.RankByCountSound | discover_label_mapping.py:235-240 | `most_common()` is ordered by count and starts with the `most_common(1)` entry |
| Counters.InsertByCountStable | discover_label_mapping.py:240 | an entry placed into the ranking goes ahead of every entry with the same count |
| Counters.RankByCountStable | discover_label_mapping.py:240 | `most_common()` is stable: for every count, the entries with that count keep the order the counter holds them in |
| Counters.AddMatchCounts | discover_label_mapping.py:217-219 | counting a match adds one to exactly one (class id, label) count and to the total |
| Counters.AddMatchValid | discover_label_mapping.py:217-219 | counting a match keeps class ids distinct and each counter valid |
| Accumulation.CountMatchesConserves | discover_label_mapping.py:217-219 | a sample's matches raise each (class id, label) count by the matches pairing them, and the total by the number of matches |
| Accumulation.ClaimedSize | discover_label_mapping.py:211-212 | one-to-one matches claim exactly one index per match on each side |
| Accumulation.ClaimedBound | discover_label_mapping.py:211-215 | one-to-one in-range matches number at most the boxes on each side |
| Accumulation.MatchCount | discover_label_mapping.py:210-215 | a sample never has more matches than boxes on either side |
| Accumulation.SampleStepConserves | discover_label_mapping.py:205-220 | an empty side changes nothing; otherwise the counts grow by the matches, the unmatched totals by the non-negative leftovers, and files used by one |
| Accumulation.AccumulateInvariant | discover_label_mapping.py:197-220 | over the run the table stays valid, unmatched totals are non-negative, and files used never exceed the shared keys |
| Accumulation.AccumulateTotal | discover_label_mapping.py:202-220 | the counts add up to the number of matches over all samples |
| Accumulation.EmptyTableCountsNothing | discover_label_mapping.py:222 | a table built by counting is empty exactly when it counts nothing |
| Accumulation.CountSampleMatches | discover_label_mapping.py:217-219 | the inner loop counts exactly the sample's matches |
| Accumulation.AccumulateCounts | discover_label_mapping.py:197-220 | the per-sample loop computes the run's tally, with a valid table and non-negative unmatched totals |
| Finalisation.ResolveTop | discover_label_mapping.py:233-236 | the resolved label has the largest count, the first counted among equals; 0 < top <= total and the confidence lies in (0, 1] |
| Finalisation.ResolveOthers | discover_label_mapping.py:234-241 | the other candidates are the remaining entries, ranked by count, none above the top, summing with it to the total |
| Finalisation.ResolveConfident | discover_label_mapping.py:236 | a resolved class id has 0 < top <= total and a confidence in (0, 1] |
| Finalisation.SortById | discover_label_mapping.py:232 | the visiting order is a permutation of the class ids |
| Finalisation.InsertByIdAscending | discover_label_mapping.py:232 | placing a class id keeps the order ascending under the key |
| Finalisation.SortByIdSound | discover_label_mapping.py:232 | the visiting order is ascending under `int(id)` or string order, and a permutation of the class ids |
| Finalisation.ResolveAllEntries | discover_label_mapping.py:232-241 | there is one resolution per class id visited, in visiting order |
| Finalisation.FinaliseMixed | discover_label_mapping.py:232 | finalisation fails exactly when digit and non-digit class ids are mixed |
| Finalisation.FinaliseResolved | discover_label_mapping.py:231-237 | otherwise every class id is resolved once, in ascending key order, and every resolution belongs to a class id of the table |
| Finalisation.FinaliseConfident | discover_label_mapping.py:233-236 | every resolution has 0 < top <= total and a confidence in (0, 1] |
| Finalisation.DiscoveredEntries | discover_label_mapping.py:231-237 | the `discovered` table maps exactly the resolved class ids, each to a label resolved for it |
| Finalisation.ResolveInOrder | discover_label_mapping.py:231-241 | the loop gathers each id's total, top entry and ranked others, so it resolves the class ids in visiting order and fills the `discovered` table |
| Finalisation.ResolveMappings | discover_label_mapping.py:231-241 | finalisation either fails on mixed ids with nothing discovered, or returns the resolutions and their table |
| Discovery.KeysPresentIn | discover_label_mapping.py:189-204 | every shared key can be looked up in both tables |
| Discovery.DiscoverMapping | discover_label_mapping.py:186-241 | `main` from the listings on computes the run's report |
| Discovery.DiscoverNoOverlap | discover_label_mapping.py:189-195 | the run stops with "no overlap" exactly when no key is shared; with no limit or a non-negative one, exactly when the tables have no key in common |
| Discovery.DiscoverNoMatches | discover_label_mapping.py:222-224 | with shared keys, the run stops with "no matches" exactly when no box pair matched in any paired file |
| Discovery.DiscoveredFrom | discover_label_mapping.py:189-241 | the run ends with a discovered mapping exactly when keys are shared, something was counted and finalisation succeeds; the report then holds that run's statistics, resolutions and table |
| Discovery.DiscoverStatistics | discover_label_mapping.py:197-228 | the reported unmatched totals are non-negative, files used never exceed the shared keys, and at least one class id is resolved |
| Discovery.DiscoverResolutions | discover_label_mapping.py:231-246 | every reported resolution has confidence in (0, 1], and the JSON table maps exactly the resolved class ids to their labels |
| Classification.ConflictExactly | evaluate_classification.py:69-74 | the reason is "conflict" exactly when both patterns match, and a conflict has no label |
| Classification.SingleMatchDecides | evaluate_classification.py:69-79 | a positive-only match gives True and a negative-only match gives False whatever the policy; an absent negative pattern matches nothing |
| Classification.UnmatchedFollowsPolicy | evaluate_classification.py:81-85 | a sample matching neither pattern is labelled by the policy |
| Classification.LabelAgreesWithReason | evaluate_classification.py:63-85 | the label is missing exactly for "conflict" or "unmatched"; "unmatched" happens only under the skip policy; each present label agrees with its reason |
| Classification.TallyCell | evaluate_classification.py:129-136 | each cell of the matrix counts exactly the samples with its (label, prediction) |
| Classification.TallyCells | evaluate_classification.py:129-136 | tp, fn, fp and tn count exactly the samples of their (label, prediction) |
| Classification.TallySkips | evaluate_classification.py:125-127 | each skip reason counts exactly the samples skipped for it, and only "conflict" and "unmatched" occur |
| Classification.TallyConserves | evaluate_classification.py:118-138 | used samples plus skipped samples equals the number of samples |
| Classification.TallySamples | evaluate_classification.py:115-138 | the loop computes the tally, and every sample is used or skipped |
| Classification.Safe | evaluate_classification.py:90-91 | `safe` is 0 for a zero divisor and the quotient otherwise |
| Classification.PartOfWhole | evaluate_classification.py:90-91 | a part over a whole of non-negative counts is in [0, 1] |
| Classification.MetricsInUnitRange | evaluate_classification.py:88-99 | for counts, every metric lies in [0, 1] |
| Classification.F1IsHarmonicMean | evaluate_classification.py:95-98 | with a true positive, f1 is the harmonic mean of precision and recall |
| Classification.PerfectClassifier | evaluate_classification.py:88-99 | with no false positive or negative and both classes seen, every metric is 1 |
| Classification.EvaluateSound | evaluate_classification.py:138-157 | metrics are reported exactly when some sample was used, and accuracy is then the share of used samples whose prediction agrees |

## Left out

- Argument parsing, every `print`, the text of `warn` messages, and writing the mapping as JSON. Warnings are returned as values instead: line numbers with a kind, or duplicate base names. The run ends in a `Report` value.
- The two root checks in `main` that raise `FileNotFoundError`, and the results-file check of the evaluation script. The model starts from the directory listings.
- Walking the file system (`rglob`, `is_file`) and opening files:
  - a directory tree is given as its sorted sequence of entries;
  - a file is given as its lines, through `readLines`;
  - `readLines` is a function, so a file is assumed not to change during a run.
- Python's `float()`, which is the parameter `parse`:
  - IEEE floating point is not modelled, so coordinates and IoU are exact reals;
  - infinities and NaN are not modelled, which includes the `OverflowError` that `int(float("inf"))` raises on a class token.
- `str.isdigit` and `int(id)` in the class-id ordering are restricted to ASCII digits. Other Unicode digits are not modelled.
- `candidates.sort(reverse=True)` sorts a local list in place. It is modelled as a function that returns the sorted list; the list is not shared, so nothing else can observe the update.
- `Counter` and `defaultdict(Counter)` are insertion-ordered association lists. Reading a class id that is not in the table (which would make `defaultdict` create an empty counter) never happens in the source.
- In `evaluate_classification.py`:
  - `load_results` (JSON decoding) is not modelled. The samples are given as a sequence of (path, predicted) pairs, and the model does not assume that paths are distinct, as the source's dictionary keys are.
  - Regular expressions are the predicates their `search` answers.
  - Printing of the matrix and the metrics is not modelled.
- `visualize_results.py`, `detect_and_visualize.py` and `create_single_result.py` are not part of this model. They are image drawing, HTTP requests and a one-line JSON writer.
