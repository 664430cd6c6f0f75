# hsr_tools core, modelled in Dafny

hsr_tools reads relic (equipment) screenshots from Honkai: Star Rail and turns them into
validated records. Its core has three parts, and each is modelled here:

- **Relic validation** (`relic.py`). A `Relic` is built from a name, a set, a slot and
  main and sub stats. Every field is checked against a vocabulary of allowed values
  using `difflib.get_close_matches`. A misspelt value is replaced by its closest allowed
  value. A value with no close match raises `ValidationError`.
- **OCR text handling** (`ocr.py`). Recognised text fragments are sorted into reading
  order and merged into lines. Lines can then be searched by text or by screen region.
  `ocr.py` also defines a one-edit comparison of two strings, which no caller in these
  files uses.
- **Screen regions** (`coordinate_manage.py`). A `Box` is a named rectangle measured at
  some screen resolution. A `BoxManager` stores boxes by name, rescales them to its own
  resolution, and converts them to and from plain dicts.

The modules follow the source files:

| file | module | models |
|---|---|---|
| `results.dfy` | `Results` | `Option` and `Result` values |
| `strings.dfy` | `Strings` | the Python string operations the core uses: `in`, `", ".join`, `split(c)[0]`, `strip()`, `str` `<`, decimal `str(n)` |
| `sorting.dfy` | `Sorting` | `sorted(..., key=cmp_to_key(...))`, as a stable insertion sort |
| `geometry.dfy` | `Geometry` | the `[x_min, x_max, y_min, y_max]` rectangles of `ocr.py` |
| `closematches.dfy` | `CloseMatches` | `difflib.get_close_matches` over an abstract similarity ratio |
| `validation.dfy` | `Validation` | `Relic._validate`, `Relic.suggest_similar`, `ValidationError` |
| `relic_values.dfy` | `RelicValues` | stat dicts, `_normalize_stat_name_by_value`, `_clean_value` |
| `relic.dfy` | `Relics` | `Relic.__init__`, `_parse_single_kv`, `to_dict` |
| `ocr_text.dfy` | `OcrText` | `sort_text`, `merge`, `box_contain`, crop translation, polygon bounding boxes |
| `ocr_scanner.dfy` | `OcrScanner` | `My_TS.forward`, `find_with_text`, `find_with_box` (class `TextScanner`) |
| `ocr_edit.dfy` | `OcrEdit` | `is_edit_distance_at_most_one` |
| `coordinates.dfy` | `Coordinates` | `Box`, `BoxManager` (class `BoxManager`) |

Python exceptions become error values. In `Validation.Outcome`:

- `ValidationErr` is the `ValidationError` exception;
- `StructuralErr` is a `ValueError`;
- `TypeErr` is a `TypeError`.

Elsewhere a `Result` carries the exception's name and message.

Some Python features are replaced by explicit values:

- **Dicts** are sequences of `(key, value)` entries in insertion order. Every dict the
  model builds holds at most one entry per key (`RelicValues.BuildDict`,
  `RelicValues.PutUnique`). The input dicts `ItemDetail.main` and `SubInput.StatDict` are
  assumed to be real dicts; the model does not enforce this.
- **Similarity:** `difflib`'s similarity ratio is a function parameter `sim(candidate, word)`.
  The predicate `CloseMatches.IsRatio` states the two facts about `ratio()` that the
  lemmas rely on: the value lies in `[0, 1]`, and it is 1 exactly for equal strings.
- **Recogniser:** the OCR engine's output is an input to `Forward` and `FindWithBox`
  (a sequence of `Detection` values).
- **Crop:** the cropped screen image is an input to `FindWithBox`, as an opaque `Image`.

## Model

| member | source | states |
|---|---|---|
| CloseMatches.Candidates | relic.py:115 | the candidates are exactly the vocabulary entries whose score reaches the cutoff |
| CloseMatches.GetCloseMatches | relic.py:142 | at most `n` results, each an entry of the vocabulary scoring at least the cutoff |
| CloseMatches.RankingStrictWeak | relic.py:115 | the ranking (higher score first, ties to the larger string) is a strict weak order, so the stable sort really sorts |
| CloseMatches.MatchesArePrefix | relic.py:115 | the result is a prefix of the full ranked candidate list |
| CloseMatches.RankedByScore | relic.py:115 | the ranked candidates have non-increasing scores |
| CloseMatches.RankedTop | relic.py:115 | whenever some entry reaches the cutoff, the ranking is non-empty and its head scores at least as high as any qualifying entry |
| CloseMatches.BestFirst | relic.py:115-119 | results are in non-increasing score order, and the first scores at least as high as every qualifying entry |
| CloseMatches.EmptyIff | relic.py:116 | with `n >= 1`, no result exactly when no entry reaches the cutoff |
| CloseMatches.ExactWordFirst | relic.py:115-119 | a word that is itself in the vocabulary comes back first |
| Validation.SuggestSimilar | relic.py:139-143 | the text is the "no suggestion" marker exactly when there are no suggestions at cutoff 0.5, or the only suggestion is the marker itself |
| Validation.JoinedIsNotMarker | relic.py:143 | joining two or more suggestions never produces the marker |
| Validation.Validate | relic.py:110-127 | a cutoff outside [0, 1] is a `ValueError` (from `difflib`); a `TypeError` never occurs; a raised `ValidationError` carries the field, the value and the list given, and no hint |
| Validation.ValidateUsesBestAtThreshold | relic.py:115-119 | when some entry reaches the threshold, the result is an entry of the list with the highest score |
| Validation.ValidateFallsBackToBestSuggestion | relic.py:120-127 | when none reaches the threshold but one reaches 0.5, the result is the best-scoring entry at 0.5, read back from the joined suggestions |
| Validation.ValidateFailsIff | relic.py:115-123 | `ValidationError` is raised exactly when every entry scores below both the threshold and 0.5 |
| Validation.ValidateReturnsEntry | relic.py:110-127 | any accepted value is an entry of the list |
| Validation.ValidateKeepsEntry | relic.py:115-119 | a value already in the list is returned unchanged |
| RelicValues.Lookup | relic.py:40 | a key is found exactly when the dict has an entry for it |
| RelicValues.Put | relic.py:93 | definition of `d[key] = v` on an insertion-ordered dict; its properties are in the PutLookup, PutHasName, PutShape and PutUnique rows |
| RelicValues.PutLookup | relic.py:93 | after `d[key] = v`, `key` maps to `v` and every other key keeps its value |
| RelicValues.PutHasName | relic.py:93 | the keys after an assignment are the old keys plus `key` |
| RelicValues.PutShape | relic.py:93 | assigning an existing key keeps the size; a new key is appended at the end, as dict insertion order does |
| RelicValues.PutUnique | relic.py:93 | assignment keeps keys unique |
| RelicValues.BuildDict | relic.py:96-100 | a dict built by successive assignments has unique keys and no more entries than assignments |
| RelicValues.BuildDictKeepsLast | relic.py:100 | each key holds the value of its last assignment |
| RelicValues.BuildDictOfUnique | relic.py:91-93 | assignments under distinct keys build exactly that sequence of entries |
| RelicValues.NormalizeStatName | relic.py:152-162 | the percent name is chosen exactly when the value is a string with `%` and the percent name is a valid item; otherwise the name is unchanged |
| RelicValues.CleanValue | relic.py:164-176 | definition of `_clean_value`: a string becomes its numeric core, any other value passes through; see the NumericCoreIsLeftmostRun, CleanValueIdempotent and CleanValueIsClean rows |
| RelicValues.NumericCore | relic.py:171-175 | definition of `re.search(r'[\d.]+', s).group(0)`, or `""` when nothing matches; proved equal to the leftmost maximal run in the NumericCoreIsLeftmostRun row |
| RelicValues.LeadingRun | relic.py:171 | the longest prefix made of digits and `.` |
| RelicValues.FirstNumIndex | relic.py:171 | the position of the first digit or `.`, or the length when there is none |
| RelicValues.NumericCoreIsLeftmostRun | relic.py:169-175 | the cleaned text is empty when there is no digit or `.`; otherwise it is the maximal run starting at the leftmost one, as `re.search(r'[\d.]+')` finds |
| RelicValues.CleanValueIdempotent | relic.py:164-176 | cleaning a cleaned value changes nothing |
| Strings.BeforeFirst | relic.py:127 | `split(c)[0]` is the longest prefix without `c`, and it ends at the end of the text or at a `c` |
| Strings.BeforeFirstOfJoin | relic.py:127 | splitting a `", "`-joined text at `,` gives back its first part |
| Strings.StripUnpadded | relic.py:127 | `strip()` leaves text without surrounding whitespace unchanged |
| Strings.NatToStringInjective | relic.py:92 | distinct counts give distinct decimal texts |
| Sorting.Sort | ocr.py:58 | the sort is a permutation of its input |
| Sorting.SortSorted | ocr.py:58 | under a strict weak order, the result is sorted |
| Sorting.SortMember | ocr.py:58 | every element of the result comes from the input |
| Relics.SetMembers | relic.py:40 | the names of a set are the list of the first pair with that set name, and empty when no pair has it |
| Relics.InAllNames | relic.py:44 | a name is in the concatenated name lists exactly when some set lists it |
| Relics.InMatchedSets | relic.py:48-51 | a set is matched exactly when it lists the name |
| Relics.ResolveSetAndName | relic.py:37-65 | definition of the set and name resolution as intended, with the inference errors carrying their hint; see the GivenSetHoldsName, InferredSetIsUnique, AmbiguousNameFails and InferredNameHasSet rows |
| Relics.ResolveSetAndNameAsWritten | relic.py:37-65 | with no set given, a name listed by zero or several sets ends in `TypeError` (the `hint=` argument that `ValidationError` does not accept) |
| Relics.GivenSetHoldsName | relic.py:37-41 | with a set given, the resolved set is a valid set and the resolved name is one of its names |
| Relics.InferredSetIsUnique | relic.py:43-53 | with no set given, the resolved name is a known name and the resolved set is the only set listing it |
| Relics.AmbiguousNameFails | relic.py:54-59 | a name listed by two or more sets is rejected with the "several sets" hint |
| Relics.InferredNameHasSet | relic.py:43-65 | a name accepted from the concatenated lists is always listed by some set, so the "no set" branch of lines 60-65 is unreachable when no name contains `,`, is padded with whitespace, or is the marker (`PlainList`); otherwise the fallback `split(",")[0].strip()` can reach it |
| Relics.ParseSingle | relic.py:145-150 | succeeds exactly on a one-entry dict, returning that entry; otherwise the `ValueError` |
| Relics.ValidatedNames | relic.py:87-89 | one validated name per sub-stat entry, and a failure is never a `TypeError` |
| Relics.ValidatedNamesFailurePersists | relic.py:87-89 | the first rejected entry stops the loop, and later entries do not change the error |
| Relics.ValidatedNamesAreItems | relic.py:87-89 | every validated sub-stat name is a valid item |
| Relics.KeyedEntries | relic.py:91-93 | one keyed entry per list pair |
| Relics.ListSubStatsSpec | relic.py:83-94 | definition of `sub_stats` for a list input; see the ListSubStatsKeepsEachEntry and KeyedEntriesUnique rows |
| Relics.DictSubStatsSpec | relic.py:96-100 | definition of `sub_stats` for a dict input; see the DictSubStatsKeepsLast row |
| Relics.SubStatsSpec | relic.py:80-103 | definition of the sub-stat stage for every input shape; see the SubStats, SubStatsUnique and SubStatsCount rows |
| Relics.ListSubStats | relic.py:83-94 | the loop's result equals the specification: each name validated in order, stored under its occurrence key |
| Relics.DictSubStats | relic.py:96-100 | the loop's result equals the specification: each key validated in order and assigned |
| Relics.SubStats | relic.py:80-103 | the list input, the dict input, and the `ValueError` for any other shape |
| Relics.RelicSpec | relic.py:26-107 | definition of what the constructor builds, as written; see the Build, RelicSpecStages, RelicFieldsValid, RelicNameBelongsToSet and RelicSpecDiffersOnlyByHint rows |
| Relics.RelicSpecIntended | relic.py:26-107 | definition of the constructor as intended, with hinted inference errors; related to the as-written one in the RelicSpecDiffersOnlyByHint row |
| Relics.Build | relic.py:26-107 | the constructor's result equals the staged specification, with the set and name resolved as the source runs it, so the hinted raises end in `TypeError` |
| Relics.RelicFromResolved | relic.py:67-107 | the stages after set and name resolution never raise `TypeError` |
| Relics.RelicSpecDiffersOnlyByHint | relic.py:37-107 | the constructor as written fails with `TypeError` exactly when the as-written resolver does; there the intended constructor gives a hinted `ValidationError`, and on every other input the two agree |
| Relics.RelicAmbiguousNameRaisesTypeError | relic.py:52-59 | constructing a relic, with no set given, whose name two sets list raises `TypeError`; the intended constructor reports the "several sets" hint |
| Relics.OccurrenceKeyName | relic.py:92 | the stat name is what precedes the first `#` of its occurrence key |
| Relics.OccurrenceKeyInjective | relic.py:92 | different occurrence counts of one name give different keys |
| Relics.KeyedEntriesUnique | relic.py:91-93 | the occurrence keys of a list input are all distinct, so no list entry is overwritten |
| Relics.ListSubStatsKeepsEachEntry | relic.py:83-94 | an accepted list input keeps one entry per pair, in order, with its value; each key is a valid item followed by an optional `#n` |
| Relics.DictSubStatsKeepsLast | relic.py:96-100 | an accepted dict input has unique keys, and each key holds the value of the last entry validated to it |
| Relics.RelicSpecStages | relic.py:26-107 | a built relic passed every stage in source order, and its fields are the stage results with `item_number = 1 + number of sub stats` |
| Relics.SubStatsUnique | relic.py:81-105 | the sub stats never repeat a key |
| Relics.RelicNameBelongsToSet | relic.py:37-65 | the relic's name is listed by the relic's set, and a given set is a valid set |
| Relics.RelicFieldsValid | relic.py:67-107 | the location and main stat name are allowed values, the main value and level are as given, and the item number counts the stats |
| Relics.SubStatsCount | relic.py:80-100 | at most one sub stat per input entry, and exactly one for every list entry |
| Relics.RelicItemNumber | relic.py:107 | the item number is at most one more than the entries given, and exactly that for a list input |
| Relics.RelicRequiresSingleMain | relic.py:72 | a main-stat dict without exactly one entry aborts construction with the `ValueError` |
| Relics.RelicRejectsOtherSubShape | relic.py:102-103 | a sub-stat input that is neither a list nor a dict aborts with the `ValueError` |
| Relics.HintedErrorBecomesTypeError | relic.py:55-59 | for a name listed by two sets, the intended error carries the "several sets" hint, while the code as written raises `TypeError` |
| Relics.ToDict | relic.py:187-203 | the export has one main stat and one sub-stat entry per sub stat, and passes name, location, item number and set through unchanged |
| Relics.CleanValueIsClean | relic.py:164-176 | a cleaned value is only digits and `.`, and cleaning it again changes nothing |
| Relics.ExportIsClean | relic.py:187-203 | the export keeps every stat name in order; the level, main value and each sub value are `_clean_value` of the relic's own, and each is clean |
| OcrText.Compare | ocr.py:52-57 | definition of `sort_text`'s comparator: by left edge within a 7-pixel row, otherwise by top edge; see the SameRowStrictWeak and SeparateRowsStrictWeak rows |
| OcrText.Before | ocr.py:58 | definition of the order `cmp_to_key` derives from the comparator (a negative comparison); see the SortTextOneRow and SortTextSeparateRows rows |
| OcrText.SortText | ocr.py:51-59 | sorting loses and adds no fragment |
| OcrText.SameRowStrictWeak | ocr.py:52-57 | on fragments whose tops are all within 7 pixels, the comparator is a strict weak order |
| OcrText.SeparateRowsStrictWeak | ocr.py:52-57 | on fragments whose tops are pairwise more than 7 pixels apart, the comparator is a strict weak order |
| OcrText.SortTextOneRow | ocr.py:55-56 | fragments on one row come out left to right |
| OcrText.SeparateRowsPair | ocr.py:57 | on separate rows, a fragment not ordered before another lies no lower on screen |
| OcrText.SortTextSeparateRows | ocr.py:57 | fragments on separate rows come out top to bottom |
| OcrText.MergeTest | ocr.py:68 | definition of `merge`'s gap test (tops and bottoms within 10, next left within 35 of the current right); see the MergeLinesGroups and MergeNeighboursApart rows |
| OcrText.Absorb | ocr.py:69-70 | definition of one merge step: append the text, overwrite the right edge; see the MergeLineEdges and MergeCanShrinkLine rows |
| OcrText.MergeFrom | ocr.py:65-74 | definition of the accumulator loop of `merge` over the remaining fragments; see the MergeLinesGroups row |
| OcrText.MergeSpec | ocr.py:61-75 | definition of `merge`: sort, then merge; see the Merge, MergeSizeAndText, MergeNeighboursApart and MergeLineEdges rows |
| OcrText.Merge | ocr.py:61-75 | the loop's result equals the group-and-fold specification of the sorted fragments |
| OcrText.MergeLinesGroups | ocr.py:64-74 | the merged lines are the folds of a split of the sorted fragments into consecutive groups; within a group each fragment passes the gap test against the line so far; between groups the test fails |
| OcrText.MergeSizeAndText | ocr.py:61-75 | no fragment gives no line; otherwise between 1 and as many lines as fragments; the line texts concatenate to the sorted fragments' texts |
| OcrText.MergeNeighboursApart | ocr.py:67-73 | consecutive merged lines never pass the gap test |
| OcrText.MergeLineEdges | ocr.py:68-70 | each line keeps its first fragment's left, top, bottom and score, takes its last fragment's right edge, and concatenates the group's texts |
| OcrText.MergePair | ocr.py:66-70 | two ordered fragments that pass the gap test merge into one line |
| OcrText.MergeJoinsNeighbours | ocr.py:66-70 | two nearby fragments on one row merge into one line |
| OcrText.MergeCanShrinkLine | ocr.py:68-70 | the right edge is overwritten with the new fragment's, so a line can end left of where it was |
| OcrText.BoxContain | ocr.py:119-124 | definition of `box_contain`; see the UniformIsPair, ContainMonotone, ContainSelf and Contained rows |
| OcrText.UniformIsPair | ocr.py:119-124 | a single tolerance behaves as the same tolerance on both axes |
| OcrText.ContainMonotone | ocr.py:119-124 | a larger tolerance accepts every box a smaller one accepts |
| OcrText.ContainSelf | ocr.py:119-124 | with a non-negative tolerance, every box contains itself |
| OcrText.Contained | ocr.py:133-139 | kept lines come from the input and lie inside the region; every input line inside the region is kept |
| OcrText.Shifted | ocr.py:141 | definition of one fragment moved by the crop origin; see the TranslatedShifts row |
| OcrText.Translated | ocr.py:140-142 | one translated fragment per fragment; see the TranslatedShifts, TranslatedTwice and TranslateLines rows |
| OcrText.TranslatedShifts | ocr.py:140-142 | translation keeps text, score and size, and moves every line by the crop offset |
| OcrText.TranslatedTwice | ocr.py:140-142 | translating twice is one translation by the summed offsets, so a cached result asked for again is shifted twice |
| OcrText.MinX | ocr.py:105 | the least x of the polygon's points |
| OcrText.MaxX | ocr.py:105 | the greatest x of the polygon's points |
| OcrText.MinY | ocr.py:105 | the least y of the polygon's points |
| OcrText.MaxY | ocr.py:105 | the greatest y of the polygon's points |
| OcrText.BoundingRect | ocr.py:104-105 | an ordered rectangle holding every point, inside every other rectangle that holds them all |
| OcrScanner.Boxes | ocr.py:103-106 | one text box per detection |
| OcrScanner.CollectBoxes | ocr.py:103-106 | the loop's boxes equal the detections' bounding boxes, in order |
| OcrScanner.ByScore | ocr.py:117 | sorting the matches loses and adds none |
| OcrScanner.ByScoreDescending | ocr.py:117 | matches come out highest score first |
| OcrScanner.Matches | ocr.py:114 | definition of the two-way substring test of `find_with_text` |
| OcrScanner.AllMatches | ocr.py:111-116 | definition of both loops of `find_with_text`; see the LineMatchesSound, LineMatchesComplete and AllMatchesExact rows |
| OcrScanner.LineMatchesSound | ocr.py:112-116 | every match for a target is a stored line whose text contains, or is contained in, the target |
| OcrScanner.LineMatchesComplete | ocr.py:112-116 | every stored line matching a target is reported |
| OcrScanner.AllMatchesExact | ocr.py:111-116 | a line is reported exactly when it matches some target, and each match records the whole target list under `text` |
| OcrScanner.OwnTextMatches | ocr.py:113-115 | a stored line always matches its own text, so a search for it reaches the `print` |
| OcrScanner.TextScanner.constructor | ocr.py:11-16 | a new scanner has no lines and no cached image |
| OcrScanner.TextScanner.Forward | ocr.py:96-107 | the same image again keeps the cached lines; a new image replaces them with its merged detections and becomes the cache |
| OcrScanner.TextScanner.FindWithText | ocr.py:110-117 | the matches for every target, highest score first |
| OcrScanner.TextScanner.FindWithTextAsWritten | ocr.py:110-117 | the code as written fails exactly when there is some match, and otherwise returns no match |
| OcrScanner.TextScanner.MatchesPersist | ocr.py:112-115 | one matching line and target is enough for the as-written search to fail |
| OcrScanner.TextScanner.FindWithBox | ocr.py:126-143 | no region gives nothing; without a recognise step, the stored lines inside the region, sorted; with one, the crop's lines (cached or freshly merged) shifted to screen positions, stored and returned sorted |
| OcrScanner.TextScanner.ContainedLines | ocr.py:133-139 | the loop keeps exactly the stored lines inside the region |
| OcrScanner.TextScanner.TranslateLines | ocr.py:133-142 | the loop shifts every stored line by the crop offset, in place |
| OcrEdit.Mismatches | ocr.py:34 | definition of the first pass's mismatch count; see the CountMismatches and MismatchesOfPrefix rows |
| OcrEdit.OneDeletion | ocr.py:37-49 | definition of "one deletion from the padded prefix gives the first string", what the second pass decides; see the DeletionAt, NoSingleDeletion and WalkWithSkip rows |
| OcrEdit.MismatchesOfPrefix | ocr.py:33-36 | a prefix of the second string has no mismatches |
| OcrEdit.DeletionAt | ocr.py:37-49 | agreeing before and after one skipped position is a single deletion |
| OcrEdit.NoSingleDeletion | ocr.py:37-49 | two offsets at which the strings disagree rule out any single deletion |
| OcrEdit.CountMismatches | ocr.py:33-34 | `IndexError` exactly when the second string is shorter; otherwise the number of mismatched positions |
| OcrEdit.WalkWithSkip | ocr.py:37-49 | `IndexError` exactly when the padded string is no longer than the first; otherwise true exactly when deleting one character from its first `len(str1)+1` characters gives the first string |
| OcrEdit.IsEditDistanceAtMostOne | ocr.py:32-49 | `IndexError` exactly when the second string is shorter, or the padded string runs out in the second pass; otherwise true exactly when at most one position differs or one deletion from the padded prefix gives the first string |
| Coordinates.FormatOutput | coordinate_manage.py:24-30 | the corners are ordered on each axis and are the box's own coordinates |
| Coordinates.FormatOutputSwap | coordinate_manage.py:24-30 | swapping the start and end corners does not change the output |
| Coordinates.PairFromJson | coordinate_manage.py:52-54 | a pair reads back exactly from a two-integer list |
| Coordinates.Field | coordinate_manage.py:51-54 | a lookup succeeds exactly for a present key of a dict, returning its value; otherwise a `KeyError` |
| Coordinates.BoxToDict | coordinate_manage.py:32-42 | the dict has exactly the four keys `name`, `resolution`, `position_start`, `position_end` |
| Coordinates.BoxFromDict | coordinate_manage.py:44-55 | reading succeeds exactly on a well-formed box dict |
| Coordinates.BoxRoundTrip | coordinate_manage.py:32-55 | `from_dict(to_dict(b))` gives `b` back |
| Coordinates.TruncDiv | coordinate_manage.py:144-147 | definition of `int()` truncation of a quotient, toward zero; see the TruncDivMonotone and TruncDivExact rows |
| Coordinates.Scale | coordinate_manage.py:139-147 | definition of `int(v * (target / source))` in exact arithmetic |
| Coordinates.TruncDivMonotone | coordinate_manage.py:144-147 | `int()` truncation of a quotient by a positive divisor keeps order |
| Coordinates.TruncDivExact | coordinate_manage.py:139-147 | scaling by a factor of exactly 1 gives the coordinate back |
| Coordinates.ScaledBox | coordinate_manage.py:125-148 | definition of `format_box_scaled` on the manager's state; see the ScaledBoxFails, ScaledBoxSameResolution, ScaledBoxOrdered and FormatBoxScaled rows |
| Coordinates.ScaledBoxFails | coordinate_manage.py:132-140 | scaling fails exactly for an unknown name (`ValueError` with the name) or a box resolution with a zero component (`ZeroDivisionError`) |
| Coordinates.ScaledBoxSameResolution | coordinate_manage.py:135-148 | a box measured at the manager's own resolution scales to its `format_output()` |
| Coordinates.ScaledBoxOrdered | coordinate_manage.py:139-148 | with positive resolutions, the scaled corners stay ordered |
| Coordinates.ManagerToDict | coordinate_manage.py:150-154 | the dict has keys `resolution` and `boxes`, and `boxes` has one key per stored box |
| Coordinates.ManagerFromDict | coordinate_manage.py:156-161 | definition of the state `from_dict` builds, or its error; see the ManagerRoundTrip, LoadBoxes and FromDict rows |
| Coordinates.BoxesRoundTrip | coordinate_manage.py:150-161 | exported boxes all read back, giving the same map |
| Coordinates.ManagerRoundTrip | coordinate_manage.py:150-161 | `from_dict(to_dict())` restores the resolution and every box |
| Coordinates.BoxManager.constructor | coordinate_manage.py:62-69 | a new manager has the given resolution and no boxes |
| Coordinates.BoxManager.AddBox | coordinate_manage.py:71-77 | the box is stored under its name, replacing any earlier one; other boxes and the resolution are unchanged; boxes stay keyed by their own names |
| Coordinates.BoxManager.FormatBoxScaled | coordinate_manage.py:125-148 | the result is the scaled box specification for the current state |
| Coordinates.BoxManager.ToDict | coordinate_manage.py:150-154 | the exported dict is the manager's serialisation |
| Coordinates.LoadBoxes | coordinate_manage.py:159-160 | the loop succeeds exactly when every box entry reads back, and then stores each under its key |
| Coordinates.FromDict | coordinate_manage.py:156-161 | a fresh manager exactly when the data reads back, holding the read resolution and boxes |

## Left out

- `ocr.py` runs an ONNX text detector and recogniser. Its output is an input here
  (`Detection` values), and `ocr_one_row` is not modelled.
- Screen capture, `filter_non_white`, `cv.imwrite` and the debug image in `find_with_box`
  are outside the model. The crop arrives as an opaque `Image`.
- `forward`'s numpy image comparison is modelled as equality of `Image` values.
- OcrText.Point: detections arrive with integer coordinates, already truncated by
  `int()`. `ocr.py:105` truncates after `np.min`/`np.max` instead. Truncation is
  monotone, so the bounding box is the same.
- Every `print` is dropped: the warnings of `_validate`, and the line listing of
  `find_with_box` when no region is given.
- YAML and JSON file I/O (`export_to_*`, `import_from_*`) is left out. Only the dict
  conversion it wraps is modelled.
- `__repr__`, `_validate_origin` and `_clean_value_origin` are not called by the core and
  are not modelled.
- `main.py`, `img_process.py`, `config.py`, `simulation.py` and `test.py` are not part of
  this model.
- `difflib.SequenceMatcher.ratio` is an abstract parameter. Its only assumed facts are
  the ones in `CloseMatches.IsRatio`.
- `ValidationError`'s message text is not built. The error keeps its field, value,
  candidates and suggestion text as data.
- Python's `sorted` is Timsort. The model uses a stable insertion sort, which gives the
  same order whenever the comparator is a strict weak order on the input. `sort_text`'s
  comparator is one only when rows are cleanly separated (7 pixels), and
  `OcrText.SameRowStrictWeak` and `OcrText.SeparateRowsStrictWeak` state those cases.
  On other inputs the two sorts may order fragments differently.
- **Aliasing is not modelled.** Everything is a value, but the Python shares and mutates objects:
  - `merge` updates the first dict of each group, which the caller's list also holds;
  - `find_with_box` mutates the dicts of `self.res` in place;
  - the `BoxManager` shares `Box` objects with its caller.
- Relics.Vocabulary: `valid_names_by_set` is a sequence of `(set, names)` pairs, and
  nothing excludes a repeated set name, which a Python dict cannot hold.
  `Relics.SetMembers` takes the first.
- RelicValues.IsNumChar: `\d` in Python's `re` also matches non-ASCII decimal digits. The
  model accepts only `0`-`9` and `.`.
- Coordinates.ScaledBox: the source multiplies by a float ratio and truncates with
  `int()`. The model truncates the exact rational `v * target / source` toward zero,
  which can differ from the float result by one when rounding error crosses an integer.
- Coordinates.BoxFromDict: Python's `tuple()` accepts any iterable and `name` can be any
  value. The model accepts only a string name and lists of two integers, and reports
  anything else as an error. `Coordinates.PairFromJson` narrows `tuple()` the same way.
  So does the `resolution` read in `Coordinates.ManagerFromDict`, which
  `Coordinates.FromDict` uses.
- Coordinates.FromDict: when several box entries are malformed, Python reports whichever
  comes first in dict order. The model's error names no entry.
- Relics.HintTypeErrorMessage: the `TypeError` text is the wording of Python 3.10 and
  later. Earlier versions omit the `ValidationError.` qualifier.
- OcrEdit.IsEditDistanceAtMostOne: the first branch returns the integer `1`, not `True`.
  The model returns `true`.
- Validation.ValidateFallsBackToBestSuggestion, Validation.ValidateFailsIff and
  Validation.ValidateReturnsEntry require plain vocabulary entries (`PlainList`): no `,`,
  no surrounding whitespace, and not the "no suggestion" marker. Otherwise
  `split(",")[0].strip()` can return text that is not an entry.
- Relics.GivenSetHoldsName, Relics.InferredSetIsUnique, Relics.InferredNameHasSet,
  Relics.ValidatedNamesAreItems, Relics.RelicNameBelongsToSet and Relics.RelicFieldsValid
  make the same `PlainList` requirement, for the same reason.
- Relics.ListSubStatsKeepsEachEntry and Relics.SubStatsCount (exactly one entry per list
  pair) also require that no valid item contains `#`. Otherwise a `name#2` key could
  collide with a real item name.

## Findings

| source | as written | input that shows it | evidently intended | confidence | as-written member | corrected member |
|---|---|---|---|---|---|---|
| relic.py:55-65 | `raise ValidationError(..., hint=...)`, but `ValidationError.__init__` (relic.py:7) takes no `hint` parameter, so the raise itself fails with `TypeError` | no `from_set`, and a name listed by two sets, e.g. sets `A` and `B` both listing `x` | raise `ValidationError` carrying the hint ("several sets" / "no known set") | high, not executed | Relics.ResolveSetAndNameAsWritten, Relics.Build, Relics.HintedErrorBecomesTypeError, Relics.RelicAmbiguousNameRaisesTypeError | Relics.ResolveSetAndName, Relics.RelicSpecIntended, Relics.AmbiguousNameFails, Relics.RelicSpecDiffersOnlyByHint |
| ocr.py:115 | the `print` reads `self.text`, which `My_TS` never sets, so any match raises `AttributeError` | any stored line searched for by its own text, e.g. `find_with_text(["攻击力"])` after a line `攻击力` was recognised | print the matched line's text and go on collecting matches | high, not executed | OcrScanner.TextScanner.FindWithTextAsWritten, OcrScanner.OwnTextMatches | OcrScanner.TextScanner.FindWithText, OcrScanner.AllMatchesExact |
