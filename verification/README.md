# trendreview fault-detection core in Dafny

This project models the core of *trendreview*, a fault-detection tool for
building-automation trend data from dual-duct variable-air-volume terminal units. It also
models the small row cleaners that prepare its CSV input. The model covers these parts:

- **RunDetector.** The run-onset ("rising edge") detector `masked_consecutive_elements` is
  a loop over a boolean series. Its running `count` and `pushed` flag are proved equal to
  a declarative definition: the starts of maximal runs of true values that are at least
  `k` long.
- **Thresholds.** These are the two checks every rule applies to its condition series.
  - The proportional check allows `floor(p * N)` true samples and reports at most that
    many rows.
  - The consecutive check reports every run onset.
  - `Check` fixes the order in which a rule runs them.
- **Frames.** A table is a row count plus named real or text columns. A row/column view
  stands in for `data.loc[rows, columns]`.
- **DDVAVRules.** Each `rule_*` classmethod is data: a `Condition` over named columns (a
  comparison with a tolerance, an absolute difference, a text equality, and their
  conjunction) plus a `Config` of thresholds, report columns and message lead-ins.
  - `Eval` derives the condition series from a table.
  - `Apply` runs the checks on that series.
  - `Registry` lists the nine rules in the order the class's `_get_rules` discovers them.
- **RulePass.** The pass loop `evaluate_rules` is generic over the data, the fault, the
  error and the reporter. Each fault is logged and the pass continues. Any other error
  ends the pass.
- **Review.** This instantiates the pass loop with the registry and the reporter. It
  also models the review as written with the top-level rules, whose faults the loop does
  not catch, so it ends at the first fault (see Findings).
- **FDDExceptions.** The fault payload validator `FDDException.__init__` checks the
  payload with Python truthiness. A list used as a key raises `TypeError`. A text
  dependent-labels value is iterated character by character.
- **Reporting.** This covers:
  - the highest-figure-number computation over a list of file names;
  - the image and issue counters of the reporter;
  - the y-axis label builder.
- **CleaningUtilities, TrendreviewCleaning, CleanCsv.** These are the CSV row predicates
  (three variants of the empty-line test), the fill-from-previous-row repair, the
  numeric-ratio test, the column-count test and the row/filter loops of the two cleaning
  entry points.

Python semantics are written out where they matter:
- `math.floor` is `.Floor` on reals.
- `xs[:n]` with a possibly negative `n` is `PyPrefix`.
- A missing column is a `KeyError`.
- A text column used in arithmetic or ordering is a `TypeError`, but only when the table
  has rows.
- `== "COOL"` on a numeric column is all false.
- `max([])` raises.

The rule order follows the code. `dir()` returns attribute names sorted, so the registry
is alphabetical, not in declaration order.

## Model

| member | source | states |
|---|---|---|
| RunDetector.TrailingTruesAtLeast | helpers.py:48-56 | the detector's count is at least m iff the m values before position n are all true |
| RunDetector.OnsetByTrailingTrues | helpers.py:49-53 | position i starts a maximal run of length at least k exactly when the count reaches k at i + k - 1 |
| RunDetector.OnsetsBelow | helpers.py:48-53 | the onsets below n: membership is exactly "starts a maximal run of length at least k", ascending, all below n |
| RunDetector.Onsets | helpers.py:48-58 | every reported index starts a maximal true run of length at least k; output strictly increasing; each index leaves room for k values; k < 1 or k > N gives [] |
| RunDetector.ScanStep | helpers.py:49-56 | reading one more value settles at most one new onset, i + 1 - k, exactly when the run ending there has just reached k |
| RunDetector.MaskedConsecutiveElements | helpers.py:28-58 | the loop with count and pushed flag returns exactly the declarative onsets |
| RunDetector.OnePerMaximalRun | helpers.py:49-56 | a maximal run [s, e) is reported once, at s, iff e - s >= k; no index inside it is reported |
| RunDetector.RunHasOnset | helpers.py:49-56 | any k consecutive trues lie in a run whose start is reported |
| RunDetector.OnsetsNonEmptyIff | helpers.py:49-53 | the result is non-empty iff k >= 1 and the series holds k consecutive trues |
| RunDetector.ExampleRunAtThree | ddvav_test.py:39-41 | [0,0,0,1,1,1,1,0,0,0] with k = 3 gives [3] |
| RunDetector.ExampleRunAtTwo | ddvav_test.py:43-45 | [0,0,1,1,1,1,1,0,0,0] with k = 3 gives [2] |
| RunDetector.ExampleLongRun | ddvav_test.py:47-49 | a run of seven from 0 with k = 3 gives [0] |
| RunDetector.ExampleRunAtFour | ddvav_test.py:51-53 | [0,0,0,0,1,1,1,0,0,0] with k = 3 gives [4] |
| RunDetector.ExampleSeparatedRuns | helpers.py:39-42 | two runs of three separated by falses are reported independently: [4, 10] |
| RunDetector.BrokenRun | helpers.py:49-54 | a false value inside a window of k means no run of k starts there, since the count resets |
| Frames.View | ddvav.py:74 | data.loc[rows, cols] succeeds iff every column exists and every row is in range; the result holds exactly those cells; otherwise KeyError names a missing column or row |
| Thresholds.TrueIndices | ddvav.py:73 | nonzero()[0]: exactly the true positions, ascending, as many as the true count |
| Thresholds.TrueIndicesRank | ddvav.py:73 | the i-th true position has exactly i true samples before it |
| Thresholds.PyPrefix | ddvav.py:73 | Python slicing xs[:n] for any integer n, including negative n, is a prefix of the stated length |
| Thresholds.MaxFailuresIsFloor | ddvav.py:71 | the allowed count is the floor of percent * N, and is non-negative for a non-negative percent |
| Thresholds.ReportRows | ddvav.py:73 | the reported rows are in range and, for a non-negative percent, are exactly the first floor(p * N) true positions |
| Thresholds.MaximumAllowedFailures | ddvav.py:63-81 | raises iff the true count exceeds floor(p * N); the fault carries the message, allowed, percent and observed counts, the first floor(p * N) true rows and their view; a missing report column is an error |
| Thresholds.MaximumConsecutiveFailures | ddvav.py:83-99 | raises iff some run of k trues exists; the payload is every onset, uncapped, and the count is the number of onsets; a missing report column is an error |
| Thresholds.Check | ddvav.py:150-170 | passes iff neither threshold is exceeded; the proportional check runs first and a raise ends the rule, so at most one fault; the consecutive check runs only when the first passed |
| Thresholds.ProportionalBoundary | ddvav.py:71-72 | exactly floor(p * N) trues pass; one more raises |
| Thresholds.ZeroPercent | ddvav.py:71-73 | with p = 0 a single true raises and the payload rows are empty |
| Thresholds.TwoPercentOfHundred | ddvav.py:71-74 | 100 samples at 2%: two trues pass, three raise with two rows and summary (2, 0.02, 3) |
| Thresholds.ConsecutiveBoundary | ddvav.py:89-90 | a run of k raises the consecutive check; no run of k passes it |
| DDVAVRules.Numeric | ddvav.py:145 | reading a column as numbers: succeeds iff the column exists and is numeric or empty text; KeyError when absent, TypeError when text |
| DDVAVRules.Eval | ddvav.py:145-147 | the condition series exists iff every column it reads is readable; pointwise it is the condition; otherwise the error names an offending column; both operands of a difference are indexed before the subtraction, so a missing one is a KeyError, the first operand before the second, and a TypeError only arises when both exist (also ddvav.py:272, 299) |
| DDVAVRules.Apply | ddvav.py:132-364 | a placeholder rule passes; a threshold rule passes iff its series is readable and tolerated, runs Check on the series when readable, and fails with the read error otherwise |
| DDVAVRules.OverlapCondition | ddvav.py:145-147 | simultaneous heating and cooling: both air volumes above 10 |
| DDVAVRules.OpposedModeConditions | ddvav.py:187-189 | heating air volume above 10 while the mode is "COOL", and cooling air volume above 10 while it is "HEAT" (also ddvav.py:229-231) |
| DDVAVRules.DamperStuckConditions | ddvav.py:272-273 | damper command and position differ by more than 5 in absolute value, cooling and heating (also ddvav.py:299-300) |
| DDVAVRules.DamperStuckMissingPosition | ddvav.py:272 | a one-row table with a text damper command and no damper position fails with KeyError on the position, not TypeError on the command |
| DDVAVRules.ClosedDamperConditions | ddvav.py:326-328 | air volume above 10 while damper position is below 2, cooling and heating (also ddvav.py:354-356) |
| DDVAVRules.PlaceholdersNeverRaise | ddvav.py:366-372 | the airflow-relationship and room-temperature rules never raise |
| DDVAVRules.ThreeSamplesOverlapping | ddvav.py:150-158 | three samples all overlapping give floor(0.02 * 3) = 0 allowed and raise with no payload rows |
| RulePass.Outcomes | GraphAll.py:69-70 | one outcome per method, the i-th being method i called on the data |
| RulePass.FirstFailure | GraphAll.py:69-71 | the position of the first method whose error is not a fault, or the list length |
| RulePass.Faults | GraphAll.py:71-72 | the faults in method order: every raised fault is included and nothing else |
| RulePass.EvaluateRules | GraphAll.py:55-73 | methods run in order up to and including the first other error, which propagates; every fault before it is logged once, in order, and the reporter state is the replay of those logs |
| RulePass.FaultsAppend | GraphAll.py:68-72 | logging over consecutive stretches of methods concatenates |
| RulePass.NoFaultsNoLogging | GraphAll.py:69-72 | the reporter is never called iff no method raised a fault |
| RulePass.CompletePass | GraphAll.py:68-72 | without other errors every method runs and every fault is logged |
| RulePass.OneLogPerFault | GraphAll.py:71-72 | the number of log calls equals the number of faulting methods |
| Review.RuleMethods | ddvav.py:121-130 | the registry's rules as callables, each applying its rule to the table |
| Review.RuleOutcomes | src/trendreview/trendreview.py:67-70 | what each registry rule does to the table, in registry order |
| Review.ReplayCounters | src/trendreview/reporting.py:161-175 | logging n faults with images advances the issue number and the image number by n and adds n entries |
| Review.ReviewTable | src/trendreview/trendreview.py:65-72 | with the reporter as evidently intended: the review fails iff some rule meets an input error, with the first failing rule's error, after logging exactly the faults of the rules before it; otherwise every fault is logged and the issue number advances by the number of faulting rules |
| Review.PlaceholdersNeverLog | ddvav.py:366-372 | the two placeholder rules never add an issue |
| Review.LogFault | src/trendreview/trendreview.py:72 | logging a fault with an image appends one entry with the current issue number, the fault's message and the figure about to be saved, and advances both counters by one |
| Review.FirstStop | src/trendreview/trendreview.py:68-72 | the position of the first rule that does not pass: every earlier rule passes and that one does not; the registry length when all pass |
| Review.ReviewAsWritten | src/trendreview/trendreview.py:68-72 | with the top-level rules, whose fault class the loop's `except` does not name, the review stops at the first rule that does not pass: with that rule's input error or with its uncaught fault; it runs to the end iff every rule passes, and nothing is logged |
| FDDExceptions.Labels | src/trendreview/FDDExceptions.py:46 | iterating the dependent labels: a list yields its items, a text its characters, and a number raises TypeError |
| FDDExceptions.FirstBadLabel | src/trendreview/FDDExceptions.py:46-49 | the first dependent label whose key is absent or falsy; none iff all are present |
| FDDExceptions.Validate | src/trendreview/FDDExceptions.py:24-53 | construction succeeds iff the payload is well formed, storing message and data unchanged; a missing or falsy required key, primary key or dependent key raises KeyError; a list key raises TypeError |
| FDDExceptions.Construct | src/trendreview/FDDExceptions.py:37-51 | the validator with the message naming the missing dependent key, which is one of the labels and is absent or falsy |
| FDDExceptions.ConstructAsWritten | src/trendreview/FDDExceptions.py:46-49 | the validator as written: the same acceptance, but a missing dependent key is reported by quoting the primary key, which is present |
| FDDExceptions.AsWrittenQuotesWrongKey | src/trendreview/FDDExceptions.py:48 | a payload whose one dependent key is missing gets a message naming "DateTime", not "RoomTemperature" |
| FDDExceptions.TimeSeriesPayloadAccepted | src/tests/test_FDDExceptions.py:22-71 | a payload with non-empty DateTime and RoomTemperature lists and both label keys constructs, storing message and data |
| FDDExceptions.TextLabelsIterateCharacters | src/trendreview/FDDExceptions.py:42-49 | a text dependent-labels value is checked character by character |
| Reporting.DigitsRoundTrip | src/trendreview/reporting.py:96-97 | int(str(n)) == n |
| Reporting.RunStartIs | src/trendreview/reporting.py:118 | the regex [0-9]* before ".png" starts at the beginning of the digit run |
| Reporting.FigureNumber | src/trendreview/reporting.py:118-124 | a name without ".png" has no number; a number is the value of a non-empty digit run ending at the first ".png" |
| Reporting.FigureNameRoundTrip | src/trendreview/reporting.py:96-124 | a saved name figure<n>.png matches the glob and parses back to n |
| Reporting.MatchesFigureGlob | src/trendreview/reporting.py:110-113 | the glob figure[0-9]*.png: the base name, at least one digit right after it, and the extension at the end |
| Reporting.Matching | src/trendreview/reporting.py:110-113 | the names matching figure[0-9]*.png |
| Reporting.Parsed | src/trendreview/reporting.py:119-129 | the numbers parsed from the names; names that fail to parse are skipped |
| Reporting.Max | src/trendreview/reporting.py:131 | max of a non-empty list is an element and bounds all elements |
| Reporting.NumberedIsParsed | src/trendreview/reporting.py:119-129 | a number is attested by some matching name iff it is among the parsed numbers |
| Reporting.HighestImgNumber | src/trendreview/reporting.py:105-131 | 0 when no name matches; max([]) raises iff names match but none parses; otherwise the result is attested and bounds every attested number |
| Reporting.NewImageGenerator | src/trendreview/reporting.py:38-47 | a non-directory is rejected; otherwise the image number is highest + 1, above every existing figure number |
| Reporting.SaveImage | src/trendreview/reporting.py:91-103 | the file is named with the pre-increment number, which then increases by exactly 1 |
| Reporting.SavedImageParses | src/trendreview/reporting.py:96-97 | the saved file matches the glob and parses back to its number |
| Reporting.SavesNeverOverwrite | src/trendreview/reporting.py:44-45 | a generator numbered above every figure already present, as a fresh one is, never saves over one of them, however many saves later |
| Reporting.NewReporter | src/trendreview/reporting.py:138-146 | the issue number starts at 1 with an empty log, and the generator is created as above |
| Reporting.LogException | src/trendreview/reporting.py:148-177 | one entry is appended with the current issue number and message; with an image it cites image_number - 1, the number just saved; the issue number increases by exactly 1 |
| Reporting.LogAll | src/trendreview/reporting.py:161-175 | logging k messages in turn adds k entries and keeps the earlier entries unchanged |
| Reporting.LogAllCounters | src/trendreview/reporting.py:141-175 | after k logs from a fresh reporter: the issue number is k + 1, the image number advanced by k, k entries and k images |
| Reporting.LogAllEntry | src/trendreview/reporting.py:161-175 | the i-th entry is issue i + 1 and cites image start + i |
| Reporting.LogAllNumbering | src/trendreview/reporting.py:161-175 | the issues are numbered 1..k in order, each citing its own image |
| Reporting.LogAllImages | src/trendreview/reporting.py:96-100 | the images written are numbered consecutively from the generator's start |
| Reporting.LoggedFiguresAreNew | src/trendreview/reporting.py:44-45 | no figure written while logging overwrites a figure present when the reporter was created |
| Reporting.BuildYLabel | src/trendreview/reporting.py:68-73 | the loop builds the label: ", " before even-indexed labels, a newline before odd-indexed ones |
| Reporting.YLabelLeadingComma | src/trendreview/reporting.py:70-71 | a non-empty label list yields a label starting with ", " |
| Reporting.YLabelLength | src/trendreview/reporting.py:69-73 | the label length is the labels' total length plus 2 per even index and 1 per odd index |
| Reporting.YLabelNewlines | src/trendreview/reporting.py:72-73 | for labels without newlines, the label holds exactly one newline per odd index |
| CleaningUtilities.IsAnyTextEmpty | src/trendreview/data_cleaning_utilities.py:42-52 | true iff some field is empty (also src/scripts/data_cleaning_utilities.py:41-50) |
| CleaningUtilities.IsLineEmpty | src/trendreview/data_cleaning_utilities.py:32-40 | true iff every field is empty, and so true of [] |
| CleaningUtilities.FirstFieldEmpty | src/scripts/data_cleaning_utilities.py:34-39 | true iff the first field is empty; an empty row raises IndexError(0) |
| CleaningUtilities.EmptyVariantsOrdered | src/trendreview/data_cleaning_utilities.py:32-52 | on a non-empty row, all-empty implies first-field-empty, which implies some field empty |
| CleaningUtilities.FillFromPrevious | src/scripts/data_cleaning_utilities.py:25-32 | succeeds iff every empty field has a previous-row field at its index; each empty field then takes it and every other field and the length are kept; otherwise IndexError at the first empty field without one (also src/trendreview/data_cleaning_utilities.py:93-103) |
| CleaningUtilities.FillIdempotent | src/scripts/data_cleaning_utilities.py:28-30 | filling twice from the same previous row is filling once |
| CleaningUtilities.FillRemovesEmpties | src/scripts/data_cleaning_utilities.py:28-30 | a previous row without empty fields leaves no empty field |
| CleaningUtilities.ColumnsMatchHeaders | src/scripts/data_cleaning_utilities.py:74-89 | true iff the number of non-empty fields equals n_headers (also src/trendreview/data_cleaning_utilities.py:76-91) |
| CleaningUtilities.CountNonEmpty | src/scripts/data_cleaning_utilities.py:80-84 | the non-empty fields: at most the field count, and none iff every field is empty |
| CleaningUtilities.FullWidthIffNoEmpty | src/scripts/data_cleaning_utilities.py:74-89 | every field counts as non-empty iff no field is empty |
| CleaningUtilities.RemoveFirstDot | src/scripts/data_cleaning_utilities.py:60 | str.replace('.', '', 1): unchanged without a full stop, one character shorter with one |
| CleaningUtilities.IsNumericToken | src/scripts/data_cleaning_utilities.py:60 | text.replace('.', '', 1).isnumeric(): after dropping the first full stop, a non-empty string of digits |
| CleaningUtilities.IsAlphaToken | src/scripts/data_cleaning_utilities.py:62 | text.isalpha(): a non-empty string of letters |
| CleaningUtilities.NumericTokenShape | src/scripts/data_cleaning_utilities.py:60 | a field counts as numeric iff it is a non-empty digit string, or a digit string with one full stop anywhere and at least one digit |
| CleaningUtilities.NumericNotAlpha | src/scripts/data_cleaning_utilities.py:60-63 | no field counts as both numeric and alphabetic |
| CleaningUtilities.Count | src/scripts/data_cleaning_utilities.py:59-63 | the numeric and alphabetic tallies, each field counted at most once, numeric first |
| CleaningUtilities.CountAppend | src/scripts/data_cleaning_utilities.py:59-63 | the numeric and alphabetic tallies add over concatenated rows |
| CleaningUtilities.IsLinePrimarilyNumeric | src/scripts/data_cleaning_utilities.py:52-72 | false when nothing counts, so false for []; false for a non-positive threshold; true when only numeric fields count (also src/trendreview/data_cleaning_utilities.py:54-74) |
| CleaningUtilities.DefaultThresholdExact | src/scripts/data_cleaning_utilities.py:65-72 | with threshold 0.05: true iff something counts and 20 * alphabetic < numeric + alphabetic |
| CleaningUtilities.AppendNumericKeepsNumeric | src/scripts/data_cleaning_utilities.py:59-72 | adding a numeric field to a primarily numeric row keeps it primarily numeric |
| CleaningUtilities.AllNumericCount | src/scripts/data_cleaning_utilities.py:59-61 | a row of numeric fields counts every field as numeric |
| CleaningUtilities.CountRepeat | src/scripts/data_cleaning_utilities.py:59-63 | n copies of a numeric field count n numeric; n copies of an alphabetic field count n alphabetic |
| CleaningUtilities.NineDigits | src/scripts/clean_csv_test.py:39-40 | the nine digit fields the first two test lines share count nine numeric, none alphabetic |
| CleaningUtilities.TenDigitsNumeric | src/scripts/clean_csv_test.py:39 | fields "1".."10" are primarily numeric |
| CleaningUtilities.OneLetterInTen | src/scripts/clean_csv_test.py:40 | nine digits and "a" are not (10% >= 5%) |
| CleaningUtilities.FourLettersInHundred | src/scripts/clean_csv_test.py:41-49 | 96 copies of "1.02" and four "a" are primarily numeric (4% < 5%) |
| TrendreviewCleaning.Unflagged | src/trendreview/data_cleaning_utilities.py:133-140 | the number of filters that do not flag a row is at most the filter count, with equality iff no filter flags it |
| TrendreviewCleaning.MainLoop | src/trendreview/data_cleaning_utilities.py:132-140 | the loop as written produces the as-written output |
| TrendreviewCleaning.CopiesCount | src/trendreview/data_cleaning_utilities.py:133-140 | as written, a row is written once per filter returning False, so it is dropped only when every filter flags it |
| TrendreviewCleaning.AsWrittenDuplicates | src/trendreview/data_cleaning_utilities.py:133-140 | with filters [_is_line_empty, _is_any_text_empty] the row ["1", "2"] is written twice |
| TrendreviewCleaning.AsWrittenKeepsFlagged | src/trendreview/data_cleaning_utilities.py:133-140 | with the same filters the row ["", "x"] is written although _is_any_text_empty flags it |
| TrendreviewCleaning.FilterRows | src/trendreview/data_cleaning_utilities.py:105-142 | the corrected loop writes each row at most once, in order |
| TrendreviewCleaning.FilterRowsMembers | src/trendreview/data_cleaning_utilities.py:133-140 | the corrected loop writes a row iff it is in the input and no filter flags it; no row is written more often than it is read |
| TrendreviewCleaning.FilterRowsAppend | src/trendreview/data_cleaning_utilities.py:132-140 | filtering distributes over concatenated inputs |
| TrendreviewCleaning.FilterRowsIdempotent | src/trendreview/data_cleaning_utilities.py:132-140 | filtering the output again changes nothing |
| TrendreviewCleaning.SingleFilterAgrees | src/trendreview/data_cleaning_utilities.py:133-140 | with one filter the loop as written and the corrected loop agree |
| CleanCsv.Filter2 | src/scripts/clean_csv.py:115-121 | _filter2 is true iff some field is empty |
| CleanCsv.Filter1 | src/scripts/clean_csv.py:106-113 | _filter1 is true iff some field is empty, or nothing counts, or 20 * alphabetic >= numeric + alphabetic; it is implied by _filter2 |
| CleanCsv.Kept | src/scripts/clean_csv.py:140-152 | the rows a filter lets through, never more than the input |
| CleanCsv.KeptMembers | src/scripts/clean_csv.py:140-152 | a row is written iff it is in the input and the selected filter is false; no row is written more often than it is read |
| CleanCsv.CleanRows | src/scripts/clean_csv.py:123-154 | the loop writes exactly the kept rows, in input order, with the filter the alphabetic option selects |
| CleanCsv.KeptAppend | src/scripts/clean_csv.py:140-152 | cleaning distributes over concatenated inputs |
| CleanCsv.StricterAbsorbs | src/scripts/clean_csv.py:140-152 | cleaning with a weaker filter and then with a stricter one equals cleaning with the stricter one alone |
| CleanCsv.AlphabeticRefines | src/scripts/clean_csv.py:142-152 | the run with the alphabetic option is the run without it, cleaned again with it, and writes a sub-multiset of its rows |
| CleanCsv.NothingRejected | src/scripts/clean_csv.py:140-152 | a filter that rejects no row copies the input |
| CleanCsv.CompleteRowsCopied | src/scripts/clean_csv.py:148-152 | without the alphabetic option a file with no empty field is copied unchanged |
| CleanCsv.LineEmptyAsWrittenMisreadsTrailingData | src/scripts/clean_csv.py:49-54 | the first-field test calls ["", "", "", "", "a"] empty, as it does ["", "", "", "", "", ""] |
| CleanCsv.LineEmptyCorrectedMatchesTests | src/scripts/clean_csv_test.py:32-33 | the all-fields test calls ["", "", "", "", "", ""] empty and ["", "", "", "", "a"] not empty |

## Left out

- CSV reading, file writing, argument parsing and the module-level script code are left
  out. Rows arrive as a sequence and the written rows are returned. The `output_filepath`
  argument of the package's cleaning `main` is ignored by the code, so it has no
  counterpart.
- Directory listing becomes a list of bare file names plus an `isDirectory` flag. The
  directory prefix of a glob result is not modelled.
- Plotting is left out: matplotlib calls, `savefig`, legends and date formatting. The
  model keeps only the counters, the file names and the label string.
- The log file's text format is left out. An entry records the issue number, the message
  and the figure it cites.
- Frames.View: names a missing column before a missing row, while pandas resolves the
  row axis first. The rules pass only row positions taken from the condition series,
  which are always in range, so the order cannot be observed.
- Review: joins the rules of the top-level ddvav.py to the loop of
  src/trendreview/trendreview.py:65-72 and the package reporter.
  src/trendreview/ddvav.py, the rules module that loop imports, is not part of this
  model.
- Review.ReviewTable: assumes what the top-level rules do not provide. It assumes every
  fault a rule raises is caught by the loop's `except FDDException`
  (src/trendreview/trendreview.py:71). It also assumes the fault carries the plot labels
  that image generation reads (src/trendreview/reporting.py:59-61). Its "every fault is
  logged" holds only under both assumptions. The top-level rules raise the top-level
  fault class (ddvav.py:34, 79, 97), which that `except` does not name. Their payloads
  hold only the report columns (ddvav.py:74, 92). `Review.ReviewAsWritten` models the
  uncaught case.
- src/trendreview/trendreview.py:66-67 builds `DDVAVRules(filepath)` and reads
  `get_rules()` and `.data`. The top-level ddvav.py rules class, which the model uses,
  has neither: its `__init__` takes
  no file path (ddvav.py:105) and its discovery method is `_get_rules` (ddvav.py:121).
  The model takes the table as a parameter and uses the registry directly.
- Floating point is left out. Columns hold exact reals, so rounding of `p * N`, NaN and
  the `{:.0%}` formatting are not modelled. Faults carry the numbers their messages
  report, not the formatted strings.
- Unicode `isnumeric`/`isalpha` are approximated by ASCII digits and letters.
- pandas `.loc` label indexing is treated as positional indexing.
- Rules never set a mask, so conditions are plain `seq<bool>`.
- Rule discovery by reflection (`_get_rules`, `get_rules`) becomes the explicit
  `Registry`. Sortedness of the registry names is not proved, only written down.
- `DDVAVRules.__call__` is left out: it calls the rules without their data argument.
- `masked_rolling_sum` is left out. It is unused.
- The root `reporting.py` is not part of this model. Its numbering takes the last name of
  an unordered glob result.
- The root `FDDExceptions.py` is not part of this model. It stores its inputs unchecked.
- The header typo `CooingDamperPosition` is left out. Columns are looked up by the names
  the rules read. A table lacking a column is a `KeyError`, which `Apply` reports as
  failed.
- The `np.trapz` integration test and the date-deviation helper are left out.
- Mutation in place is modelled as returning a new row. Before the `IndexError`, the
  source has already filled the earlier fields of the caller's list. That partial
  mutation is not modelled. The previous row is a value, so it is never modified.
- CleaningUtilities.IsLinePrimarilyNumeric: for an arbitrary threshold the contract gives
  only the boundary cases. The exact ratio condition is stated as integer arithmetic only
  for the default threshold 0.05, in `DefaultThresholdExact`.
- Thresholds.MaximumAllowedFailures: the payload row count and rank are stated only for a
  non-negative percent. For a negative percent the rows are Python's `xs[:n]` with
  negative `n`, which `PyPrefix` defines.
- Reporting.LogException: only the entry's issue number, message and cited figure are
  stated. The written text is not.

## Findings

| source | as written | input that shows it | evidently intended | confidence | as-written member | corrected member |
|---|---|---|---|---|---|---|
| src/trendreview/FDDExceptions.py:48 | the missing-dependent-key message is formatted with the primary axis key | primary label "DateTime" present, dependent labels ["RoomTemperature"], no "RoomTemperature" key: the message names "DateTime" | the message names the missing dependent label "RoomTemperature" | high, not executed | FDDExceptions.AsWrittenQuotesWrongKey | FDDExceptions.Construct |
| src/scripts/clean_csv.py:49-54 | `_is_line_empty` looks only at the first field | ["", "", "", "", "a"] is called empty, while src/scripts/clean_csv_test.py:33 expects False | a line is empty when every field is empty, as in src/trendreview/data_cleaning_utilities.py:32-40 | medium, not executed | CleanCsv.LineEmptyAsWrittenMisreadsTrailingData | CleaningUtilities.IsLineEmpty |
| src/trendreview/trendreview.py:71 | the loop catches the package's `FDDException` (imported at src/trendreview/trendreview.py:18), while the top-level rules raise the top-level class of the same name (ddvav.py:34, 79, 97), so a fault is not caught and ends the review | any table on which a rule raises a fault before any rule meets an input error (DDVAVRules.ThreeSamplesOverlapping gives one such fault): the review stops at that rule with the uncaught fault and logs nothing | the rules raise the class the loop catches, so each fault is logged and the review continues | low, not executed: the package's own rules module is not part of this model and may raise the package class | Review.ReviewAsWritten | Review.ReviewTable |
| src/trendreview/data_cleaning_utilities.py:133-140 | each row is written once per filter that returns False | filters [_is_line_empty, _is_any_text_empty]: ["1", "2"] is written twice and ["", "x"] is written although a filter flags it | a row is written once, and only when no filter flags it | high, not executed | TrendreviewCleaning.AsWrittenDuplicates | TrendreviewCleaning.FilterRows |
