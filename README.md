# Data-quality pipeline of the Excel/Google Sheets analysis dashboard, in Dafny

This project models the table-normalisation core of a Streamlit dashboard. The dashboard loads
spreadsheets (uploaded Excel files or Google Sheets) and cleans them before charting and
question answering. The model covers the following:

- **The pipeline** in `app.py`:
  - the upload gate;
  - dropping empty rows and columns;
  - header reconciliation (promotion of row 0, sanitising, de-duplication, renaming of
    placeholder labels);
  - type inference and conversion;
  - text standardisation (missing-value spellings, mis-decoded punctuation);
  - duplicate handling;
  - the check on the processed table;
  - the quality score.
- **The helpers in `utils.py`:** frame validation, column-type detection, cleaning suggestions,
  safe column selection, number formatting and separator detection.
- **The Google Sheets side** (`google_sheets_reader.py`): spreadsheet-ID extraction and how a
  source is routed to the Google or the Excel reader.
- **Chart choice** (`visualizer.py`): which chart suggestions are made, in what order, and the
  dispatch from a suggestion to its chart.
- **Excel checks** (`excel_reader.py`): file validation and basic cleaning.

A DataFrame is a `Frames.Frame`, made of three parts:

- a sequence of column labels;
- one dtype per column (int64, float64, datetime64, bool, object, nullable Int64, category,
  string);
- rectangular rows of `Cell`s (missing, text, integer, real, ±infinity, boolean or timestamp).

Behaviour that belongs to Python, pandas or numpy enters as fields of a `Frames.Lib` value:

- which strings `float()`, `pd.to_numeric` and `pd.to_datetime` accept;
- how floats and timestamps print;
- Unicode `isalnum`/`isdigit`;
- whether `np.issubdtype` rejects the nullable integer dtype.

Every proof holds for all such behaviours. The thresholds are exact rationals.

Where the source builds a result step by step, the model has a method with loops. Examples:

- the header de-duplication loop;
- the counting tests of type inference;
- the column-by-column conversion and cleaning passes;
- the quality score accumulators;
- the suggestion lists;
- separator detection;
- the fill loop of `clean_data`.

Each such method is proved equal to a specification function. The properties are proved about
those functions.

Files:

- `wrappers.dfy`: Option and Result.
- `text.dfy`: the string operations used: strip, ASCII `lower`, `startswith`/`endswith`,
  containment, replace, and decimal printing.
- `frames.dfy`: the table datatype and `duplicated()`/`drop_duplicates()`.
- `type_inference.dfy`, `headers.dfy`, `standardize.dfy`, `duplicates.dfy`, `quality.dfy`,
  `pipeline.dfy`: the `app.py` pipeline.
- `utils.dfy`, `sheets.dfy`, `visualizer.dfy`, `excel_reader.dfy`: the other four files.

These behaviours of the code are proved as lemmas:

- **Strict thresholds.** The numeric test (app.py:971) and the date test on its sample of at
  most 20 values (app.py:995) need strictly more than 80% / 70%, and the boolean conversion
  (app.py:833) strictly more than 80%. They are not inclusive: exactly 8 of 10 values parsing
  is not numeric (`TypeInference.NumericThresholdStrict`, `TypeInference.DateThresholdStrict`,
  `TypeInference.BooleanThresholdStrict`). For these the exact comparison agrees with the
  source's double products; the 70% gate of the date conversion does not always (see
  "## Left out").
- **"0"/"1" columns become integers.** A column of "0" and "1" passes the numeric test first and
  becomes a nullable integer column, not a boolean one (`TypeInference.ZeroOneColumnBecomesInteger`).
- **The pipeline is not idempotent.** A second all-text row is promoted again (`Headers.NotIdempotent`).
- **Final labels can repeat.** Renaming placeholder labels can produce two equal column labels
  (`Headers.RenamedLabelsCanCollide`). `df[col]` is then a DataFrame, and the later steps
  behave accordingly:
  - type conversion and standardisation raise and return their input
    (`Pipeline.RepeatedLabelsSkipConversion`);
  - the quality score falls back to 0.85 when rows remain under that label after `dropna`
    (`Quality.RepeatedLabelFallback`);
  - such an object column is never a date column for the chart suggestions;
  - `clean_data` raises when filling (`ExcelReader.CleanedRaisesOnRepeatedLabel`).
- **An infinity blocks the integer check.** `astype(int)` raises on a parsed infinity, so the
  column falls through to the later strategies (`TypeInference.InfinityFallsThrough`).
- **Missing text cells become text.** An already-missing cell in a text column becomes the text
  "nan" or "<NA>" instead of staying missing (`Standardize.MissingObjectBecomesText`,
  `Standardize.MissingStringBecomesText`).
- **An all-missing text column becomes float64.** When `replace` leaves nothing but missing
  values in a non-empty text column, pandas before 3.0 downcasts it to `float64`, and the
  encoding repair's `.str` then raises into its `except: pass`
  (`Standardize.OnlyMissingSpellingsBecomeFloat`, `Standardize.NonTextColumnsKept`).
- **Empty rows and columns go first.** The pipeline removes fully empty rows and columns before
  header reconciliation (`Pipeline.DropEmptySpec`, `Pipeline.ApplyComprehensiveProcessing`).

One behaviour is a modelling decision rather than a lemma:

- **The header fallback is unreachable.** Nothing in header reconciliation (app.py:689-773)
  raises on a rectangular table, so the `Column_1..N` reset of app.py:775-777 never happens and
  the model has no such branch.

## Model

| member | source | states |
|---|---|---|
| Pipeline.UploadGate | app.py:432-444 | a file over 100 MB is refused for its size whatever its name; otherwise a name ending in any casing of ".xlsx" or ".xls" is accepted |
| Pipeline.UploadRefusesOtherNames | app.py:439-442 | a small file whose name does not end in s/S/x/X is refused as a bad format |
| Pipeline.DropEmptyRows | app.py:488 | `dropna(how='all')` keeps exactly the rows that hold a value, each as often as it occurred |
| Pipeline.DropEmptyRowsKeeps | app.py:488 | every row that holds a value survives the row drop |
| Pipeline.KeptColumns | app.py:488 | the kept column positions are increasing and each column holds a value |
| Pipeline.KeptColumnsComplete | app.py:488 | every column that holds a value after the row drop is kept |
| Pipeline.DropEmptySpec | app.py:488 | after the drop no row and no column is entirely missing; nothing with a value is lost; nothing grows |
| Pipeline.ApplyComprehensiveProcessing | app.py:485-502 | the five steps in order: drop empty, headers, types, standardise, duplicates |
| Pipeline.RepeatedLabelsSkipConversion | app.py:485-502 | when the reconciled labels repeat, type conversion and standardisation give their input back and only duplicate handling changes the table |
| Pipeline.ProcessingShrinks | app.py:485-502 | processing never adds rows or columns |
| Pipeline.ValidateProcessedDataSpec | app.py:504-518 | the processed-data check passes exactly for a present table with at least one row and one column |
| Headers.ScoreHeaderRow | app.py:693-716 | the score loop equals the header score: +3 for over 60% text cells, +1 per keyword cell, +2 for no numeric cell, +2 for over 50% placeholder labels |
| Headers.SanitizeLabelSpec | app.py:721-728 | a promoted label is never blank, holds only alphanumerics, '_', ' ', '-' and is at most 50 characters unless it is `Column_{i+1}` |
| Headers.CleanLabelKept | app.py:725-728 | a stripped clean value of at most 50 allowed characters is promoted unchanged |
| Headers.Dedup | app.py:730-738 | de-duplicated labels are pairwise distinct, one per input, each starting with its input |
| Headers.DedupDistinct | app.py:730-738 | labels that are already distinct come through unchanged |
| Headers.CandidateBound | app.py:733-737 | the suffix search terminates: a taken `h_j` has j below 10^(longest label) |
| Headers.UniqueHeaders | app.py:730-738 | the loop over the headers computes the de-duplication |
| Headers.FreshHeader | app.py:733-737 | the `while unique_header in final_headers` loop yields the first of h, h_1, h_2, ... not yet taken |
| Headers.DetectAndFixHeaders | app.py:687-778 | the method builds exactly the reconciled frame: score, maybe promote, rename placeholders |
| Headers.FixHeaders | app.py:687-778 | reconciliation keeps the column count and dtypes |
| Headers.RowsAfterHeaders | app.py:740-741 | promotion removes exactly row 0 and keeps the rest in order; no promotion removes nothing |
| Headers.PromotedLabels | app.py:718-741 | promoted labels are distinct, start with their sanitised row-0 text, and strategy 2 keeps those not starting with "Unnamed" |
| Headers.FinalLabelsNamed | app.py:743-772 | every final label is a non-blank string |
| Headers.TextRowPromoted | app.py:698-718 | a row 0 of non-empty strings scores at least 5 and is always promoted |
| Headers.NotIdempotent | app.py:687-778 | with two all-text leading rows, reconciling twice promotes row 1 too and changes the result |
| Headers.PlainHeaderRowPromoted | app.py:718-741 | a promoted row of distinct plain header texts becomes exactly the labels, and the data starts at the former row 1 |
| Headers.CleanRowPromoted | app.py:720-741 | distinct clean row-0 texts are promoted verbatim |
| Headers.ProductHeaderExample | test_99_percent_accuracy.py:63-70 | the row "Product_ID", "Product Name", "Sales_Amount", "Date_Sold", "Is_Premium" becomes exactly the labels (checked at test_99_percent_accuracy.py:140-142) |
| Headers.RenamedLabelsCanCollide | app.py:743-772 | renaming after promotion can give two columns the label "Data_Column_1" |
| TypeInference.BoolValue | app.py:825-832 | the boolean mapping is defined exactly on its twelve words |
| TypeInference.PrepareCell | app.py:793-794 | a prepared value is stripped and is none of "", "nan", "NaN", "null", "NULL", "None" |
| TypeInference.IsNumericColumn | app.py:952-974 | the counting loop decides: over 80% of the non-null values parse with `float()` after removing ',', '$', '%' |
| TypeInference.IsDateColumn | app.py:976-998 | the counting loop decides: over 70% of the first min(20, n) non-null values parse as dates |
| TypeInference.NumericThresholdStrict | app.py:952-971 | the numeric test holds exactly when more than four fifths of the non-null values parse; exactly 80% fails |
| TypeInference.DateThresholdStrict | app.py:976-995 | the date test holds exactly when more than 70% of its sample of at most 20 parse; exactly 70% fails |
| TypeInference.BooleanThresholdStrict | app.py:831-833 | the boolean conversion holds exactly when the mapped values exceed four fifths of all cells; exactly 80% fails |
| TypeInference.ConvertColumn | app.py:785-848 | one column is converted by trying numeric, date, boolean, categorical, then string, in that order |
| TypeInference.ChooseStrategy | app.py:796-810 | the numeric strategy is taken when the test passes, over 80% parse and every parsed value is finite, as Int64 or float64; otherwise the later strategies decide |
| TypeInference.ChooseLater | app.py:812-846 | date, then boolean, then categorical, else string |
| TypeInference.EnhanceDataTypes | app.py:780-854 | the copy is converted column by column, left to right; at a repeated label the input comes back unconverted |
| TypeInference.EnhancedColumns | app.py:783-850 | the loop's state after j columns without a repeated label: labels and row count stay, each column below j is its conversion, the rest are untouched |
| TypeInference.EnhancedSpec | app.py:780-854 | labels and row count stay; with distinct labels column k is the conversion of column k; with a repeated label the input comes back |
| TypeInference.TypedColumnsSkipped | app.py:788-790 | int64, float64, datetime64 and bool columns are left exactly as they were |
| TypeInference.ConvertedCellsConform | app.py:796-848 | every converted column holds only values of its new dtype or missing values |
| TypeInference.NumericFirst | app.py:797-810 | with finite parsed values a numeric column becomes Int64 exactly when every parsed value equals its int64 cast (integral and within the int64 range), else float64, and unparsed values become missing; with an infinity the later strategies decide |
| TypeInference.InfinityFallsThrough | app.py:797-846 | nine copies of one number and one infinity pass the numeric test but become a category column, not an integer one |
| TypeInference.IntegralColumnBecomesInteger | app.py:800-805 | a column of integral numerals within the int64 range becomes nullable Int64 holding those integers |
| TypeInference.ZeroOneColumnBecomesInteger | app.py:797-823 | a column of "0"/"1" becomes Int64 (0 and 1), because the numeric test comes first |
| TypeInference.BooleanConversion | app.py:822-835 | a non-numeric, non-date column of at most two boolean words becomes bool with the mapped values |
| TypeInference.CategoricalNeedsFiveValues | app.py:1015-1026 | the categorical test never holds with fewer than five non-null values |
| TypeInference.DateSampleOnly | app.py:983-995 | the date test decides on the first twenty non-null values alone |
| Standardize.CleanAndStandardize | app.py:856-907 | the copy is cleaned one column at a time; at a repeated label the input comes back unchanged |
| Standardize.StandardizedColumns | app.py:861-886 | the loop's state after j columns without a repeated label: labels and row count stay, each column below j is standardised, the rest are untouched |
| Standardize.StandardizedSpec | app.py:856-907 | labels and row count stay; with distinct labels column k is the standardisation of column k (a text column becomes object, or float64 when `replace` left it non-empty and entirely missing); with a repeated label the input comes back |
| Standardize.NonTextColumnsKept | app.py:865-901 | non-text columns keep dtype and cells (the outlier scan changes nothing); with distinct labels a text column becomes object, or float64 exactly when it has rows and every cell is now missing |
| Standardize.OnlyMissingSpellingsBecomeFloat | app.py:867-883 | a non-empty text column of only "N/A" becomes all missing and is downcast to float64 |
| Standardize.TextCellOutcome | app.py:865-875 | a text cell becomes missing exactly when its stripped text is one of the twelve missing spellings; otherwise it is text and, in a string column, exactly the stripped text |
| Standardize.MissingStringBecomesText | app.py:867 | a missing value in a `string` column comes out as the text "<NA>" |
| Standardize.MissingObjectBecomesText | app.py:867 | a missing value in an `object` column comes out as the text "nan" |
| Standardize.EncodingRepaired | app.py:877-883 | after the repair, none of the three mis-decoded sequences remains |
| Standardize.EncodingKeepsCleanText | app.py:877-883 | text without a mis-decoded sequence is unchanged |
| Standardize.EncodingIdempotent | app.py:877-883 | repairing twice is repairing once |
| Duplicates.Deduplicated | app.py:925 | `df[~duplicated()]` keeps labels and dtypes and removes exactly the duplicate count |
| Duplicates.HandleDuplicatesSpec | app.py:909-950 | rows go exactly when 0 < duplicates < 20% of rows, counting `duplicated()` as pandas does (none in a table without columns); then the result is distinct, has the same rows as a set, keeps first occurrences in order, and reports the removed count; otherwise the table is unchanged, and a table without columns reports no duplicates |
| Duplicates.DeduplicatedSpec | app.py:925 | de-duplication keeps every row; with columns the result is distinct and in first-occurrence order; a table without columns, empty to pandas, comes back whole |
| Duplicates.FifthIsTooMany | app.py:924 | 20 duplicates in 100 rows are too many: nothing is removed and a warning is reported |
| Duplicates.OneInElevenRemoved | test_99_percent_accuracy.py:208-226 | one duplicate in eleven rows is removed, leaving ten distinct rows |
| Quality.TallyConsistency | app.py:559-571 | the type tally and maximum give min(1, r + 0.3) for a dominant-type ratio r > 0.5, else max(0.7, r) |
| Quality.ScoreColumnConsistency | app.py:544-573 | one pass of the consistency loop over a column whose label does not repeat |
| Quality.ScoreColumn | app.py:544-599 | one pass of either loop, a repeated label included |
| Quality.SumScores | app.py:543-601 | the consistency or validity accumulator, which stops at the first column that raises |
| Quality.QualityScore | app.py:520-628 | 0 for no cells, the fallback 0.85 when a column raises in either loop, else the weighted mix plus bonuses, clamped to 1 |
| Quality.ScoreAtRaises | app.py:544-599 | a column raises exactly when rows remain under its label after `dropna` and either the label repeats or, in the validity loop, numpy rejects its nullable-integer dtype |
| Quality.ScoreSumNone | app.py:543-601 | a loop raises exactly when one of its columns does |
| Quality.SingleLabelRowsLeft | app.py:545-546 | for a label that does not repeat, rows remain after `dropna` exactly when the column holds a value |
| Quality.RaiseFallsBack | app.py:520-628 | a column that raises in either loop makes the score 0.85 |
| Quality.NoRaiseWeighted | app.py:520-628 | with no column raising, both sums exist and the score is their weighted mix |
| Quality.RepeatedLabelFallback | app.py:544-551 | a repeated label with rows left after `dropna` makes the score 0.85 |
| Quality.ScoreAtBounds | app.py:544-599 | every column score that does not raise lies in [0.7, 1] for consistency and [0.9, 1] for validity |
| Quality.ColumnConsistencyBounds | app.py:544-573 | every column's consistency lies in [0.7, 1] |
| Quality.ColumnValidityBounds | app.py:586-599 | every column's validity lies in [0.9, 1] |
| Quality.ComponentBounds | app.py:531-540 | completeness lies in [0.8, 1] and uniqueness in [0.9, 1] |
| Quality.CombineBounds | app.py:604-622 | with the components within their floors, the weighted score lies in [0.815, 1] |
| Quality.ScoreBounds | app.py:520-628 | a table without cells scores 0; any other scores between 0.815 and 1 |
| Quality.UniformColumnConsistent | app.py:559-569 | a text column whose sampled values share one Python type is perfectly consistent |
| Quality.NullableIntFallback | app.py:586-590 | a nullable-integer column with rows left after `dropna` (for a label that does not repeat: one holding a value) makes the score the fallback 0.85 where numpy rejects that dtype |
| Utils.ValidateDataFrameSpec | utils.py:28-52 | valid exactly when present, not empty and with enough rows and columns; only then is the message "DataFrame is valid"; each failure message appears exactly when its check is the first to fail |
| Utils.MessagesDistinct | utils.py:40-52 | the five messages differ pairwise, whatever the counts |
| Utils.DetectColumnTypes | utils.py:54-109 | the detection loop fills the column information in label order, or fails at the first column that raises |
| Utils.ColumnTypesFail | utils.py:66-76 | detection fails exactly when there are columns and either no rows or a repeated label |
| Utils.SemanticSpec | utils.py:78-105 | int64/float64 are numeric; datetime is a date; object is a date when its probe parses, else categorical or text; every other dtype is "other" |
| Utils.AllMissingObjectIsDate | utils.py:86-90 | an object column with no values passes the empty date probe and is reported as a date |
| Utils.PercentagesBounded | utils.py:73-75 | the null and unique percentages lie in [0, 100] |
| Utils.SuggestDataCleaning | utils.py:111-171 | the suggestions are detection's, then the null, duplicate, constant and date passes in that order |
| Utils.SuggestNulls | utils.py:125-139 | the null pass loop |
| Utils.SuggestConstants | utils.py:151-158 | the constant-column loop |
| Utils.SuggestDates | utils.py:161-169 | the date pass loop, which raises at the first text column whose label has no `lower()` |
| Utils.NullPassSpec | utils.py:125-139 | "high" for a column over 50% missing, "moderate" for over 10% and at most 50%, nothing else, at most one per column |
| Utils.ConstantPassSpec | utils.py:151-158 | a constant-column suggestion exactly for each column with one distinct value |
| Utils.DatePassKinds | utils.py:161-169 | the date pass only suggests dates |
| Utils.DatePassSpec | utils.py:161-169 | when the pass succeeds, every text column has a string label, and a potential_date suggestion appears for a column exactly when it is text and its lower-cased label holds date, time, created or updated |
| Utils.DatePassSucceeds | utils.py:161-163 | the date pass succeeds exactly when every text column has a string label; otherwise it raises with the first text column's non-string label |
| Utils.DuplicatesSuggested | utils.py:142-148 | a duplicate suggestion appears exactly when the duplicate count is positive, and carries the count |
| Utils.TableDuplicatesSuggested | utils.py:142-148 | on a table, the suggestion appears exactly when `duplicated().sum()` is positive; a table without columns gets no suggestion at all |
| Utils.NullsFirst | utils.py:121-171 | the null suggestions come first and none follows them |
| Utils.SafeColumnSelectionCounts | utils.py:297-308 | each existing requested name is kept as often as requested; nothing else is kept |
| Utils.SafeColumnSelectionKeeps | utils.py:297-308 | asking only for existing names gives the request back in order |
| Utils.SafeColumnSelectionMembers | utils.py:297-308 | every selected name was requested and exists |
| Utils.FormatNumberSpec | utils.py:173-194 | the scaled figure times its unit is the number; the suffix is B, M, K or none, the figure is at least 1 once a suffix is used and below 1000 unless it is B, so the largest fitting unit is chosen; a missing number gives "N/A" |
| Utils.FormatNumberExamples | test_app.py:129-131 | 1234.56, 1234567 and 1234567890 scale to 1.23456 K, 1.234567 M and 1.23456789 B |
| Utils.AutoDetectSeparator | utils.py:329-357 | a non-CSV path or a failed read gives ','; otherwise the separator with the highest count, the earliest of equal counts |
| Sheets.Search | google_sheets_reader.py:86-89 | a match is a non-empty run of ID characters |
| Sheets.SecondPatternRedundant | google_sheets_reader.py:81-93 | the docs.google.com pattern never decides: the result is the first pattern's match, else the whole input when it is an ID |
| Sheets.ExtractFromEditLink | google_sheets_reader.py:81-89 | the ID of "https://docs.google.com/spreadsheets/d/" + id + "/edit" is id |
| Sheets.ExtractIdempotent | google_sheets_reader.py:86-93 | an extracted ID extracts to itself |
| Sheets.TrailingNewlineKept | google_sheets_reader.py:91-93 | a bare ID with one trailing newline is accepted and returned with the newline |
| Sheets.GoogleSourcesRouted | google_sheets_reader.py:297-325 | a source containing "/spreadsheets/d/", or a bare ID of 20 or more characters, goes to the Google reader |
| Sheets.ShortIdRoutedToExcel | google_sheets_reader.py:316-325 | a bare ID shorter than 20 characters goes to the Excel reader although the ID extraction accepts it |
| Visualizer.CollectDateColumns | visualizer.py:360-370 | the date columns are the datetime columns followed by the object columns whose label does not repeat and that parse entirely as dates |
| Visualizer.SuggestBestVisualizations | visualizer.py:349-439 | the suggestion list for the numeric, object and date columns |
| Visualizer.AppendSuggestions | visualizer.py:372-439 | the appends in the source's order |
| Visualizer.SuggestionsShape | visualizer.py:372-439 | the overview is last and only last, so 1 to 7 entries; correlation exactly with two numeric columns and then first; distribution followed by box plot exactly with one |
| Visualizer.SuggestionsColumns | visualizer.py:398-429 | scatter of numeric[0], numeric[1] exactly with two numeric columns; bar chart of the first object and numeric columns exactly when both exist; time series of the first date column and up to three numeric columns exactly when both exist |
| Visualizer.DateColumnsSound | visualizer.py:360-370 | each date column is a datetime column or an object column whose label does not repeat and that parses as dates |
| Visualizer.DateColumnsComplete | visualizer.py:360-370 | every such column is a date column |
| Visualizer.DispatchSpec | visualizer.py:453-471 | each suggestion dispatches to its own chart; only a missing name or one no suggestion carries gives the unknown figure |
| ExcelReader.ValidateFileSpec | excel_reader.py:117-137 | any-case ".xlsx"/".xls" paths are valid exactly when the workbook opens; a path not ending in s/x is refused before opening |
| ExcelReader.CleanData | excel_reader.py:139-172 | the copy is de-duplicated on request (a table without columns is kept whole), then missing values are dropped, filled column by column, or kept; filling raises at the first repeated label |
| ExcelReader.DropNullRows | excel_reader.py:160-161 | `dropna()` keeps only original rows without a missing value |
| ExcelReader.DropNullRowsCounts | excel_reader.py:160-161 | `dropna()` keeps exactly the rows without a missing value, each as often as it occurred |
| ExcelReader.CleanedWithoutDuplicates | excel_reader.py:156-157 | with duplicate removal and handle_nulls "keep", every input row is present; with columns no two rows are equal and first occurrences keep their order; a table without columns comes back whole |
| ExcelReader.CleanedDropsNulls | excel_reader.py:153-161 | with "drop", with or without duplicate removal, no row holds a missing value, every row without one stays, and rows never increase; with duplicate removal on a table with columns the rows are also distinct and in first-occurrence order |
| ExcelReader.DropNullRowsOrdered | excel_reader.py:160-161 | `dropna()` keeps rows that are in first-occurrence order in that order |
| ExcelReader.DropNullRowsOfFirsts | excel_reader.py:156-161 | `drop_duplicates()` then `dropna()` leaves distinct rows in first-occurrence order |
| ExcelReader.CleanedFillsNulls | excel_reader.py:153-170 | "fill", with or without duplicate removal first, succeeds exactly when no label repeats; then the rows of the (de-duplicated) table, the labels and the present values stay, and a missing value becomes the column's median (int64/float64) or mode when there is one |
| ExcelReader.CleanedRaisesOnRepeatedLabel | excel_reader.py:162-165 | filling a table whose labels repeat raises at the first repeated label |
| ExcelReader.CleanedKeeps | excel_reader.py:153-172 | without duplicate removal, any policy other than "drop" or "fill" returns the table unchanged, and duplicate removal alone never adds rows |

## Left out

- Streamlit UI, messages and widgets. The duplicate step's `st.info`/`st.warning` are a returned
  report. The upload gate's `st.error` messages are the verdict. The processed-data check's
  messages are not modelled.
- File and network I/O are not modelled: temporary files, Excel reading, Google authentication
  and sheet reading, CSV file reading (`auto_detect_separators` takes the first line as a
  parameter), and logging.
- The OpenAI analyzer, the sample-data generators, the debug helpers and the test scripts are
  not part of this model, except for the test examples cited above.
- Floating point is replaced by exact reals. The mean/standard-deviation outlier scan in
  `_clean_and_standardize_data` is a no-op and is modelled as leaving numeric columns unchanged.
- `TypeInference.ChooseLater`: the date conversion gate of app.py:816 compares the count with
  the double `len(col_data) * 0.7`, which rounds below 7n/10 for some n that are multiples of
  10 (90 * 0.7 == 62.99999999999999; also 170, 180, 330, 340, 350, 360, ...). At those n a
  column with exactly 70% dates is converted by the source; the model's exact comparison
  (`TypeInference.DateSucceeds`) refuses it. The 80% products (app.py:801, 833, 971), the 70%
  product of the date test on at most 20 values (app.py:995), and the 60%, 50% and 20% products
  do not round across an integer for tables of fewer than 100,000 rows, so there the exact
  comparison is the source's.
- `TypeInference.ConvertColumn`: inherits the rounding difference of the date conversion gate
  described for `TypeInference.ChooseLater`.
- The grammars of `float()`, `pd.to_numeric` and `pd.to_datetime`, `str()` of floats and
  timestamps, and Unicode character classes are `Lib` parameters. So are `pd.ExcelFile` (the
  `opens` flag of `ExcelReader.ValidateFile`) and the median and mode used by `clean_data`.
- Labels and cells are compared as model cells. Python's `1 == 1.0 == True` across types is
  not modelled. For labels this does not matter after header reconciliation, where every label is
  a string. In object columns, pandas' `duplicated()`, `drop_duplicates()` and `nunique()` hash
  values the Python way and treat 1, 1.0 and True as equal; the model's duplicate count,
  first-occurrence filter and distinct-value count (`Frames.DuplicateCount`, `Frames.KeepFirst`,
  `Utils.UniqueCount`) treat `Int(1)`, `Num(1.0)` and `Bool(true)` as different values.
- Python `None` and NaN are one missing value. pandas' distinction between them in object
  columns is not modelled.
- Text lower-casing is ASCII-only. Non-ASCII letters are left as they are.
- `pd.to_datetime` on a whole column is modelled as every non-missing value being accepted one
  by one. Format inference across values is not modelled.
- `Utils.FormatNumberSpec`: the two-decimal rendering is not modelled. The result is the scaled
  value and its suffix, not the printed string. The input is a real or missing, so an infinite
  number, which the source renders as "infB" or "-infB", is not modelled.
- `Quality.TallyConsistency`: the 0.8 branch for an empty type tally is not modelled, because the
  sample is never empty there. The sum of the tallies is the sample size.
- `ExcelReader.CleanedFillsNulls`: the fill is modelled as taking effect. Whether the chained
  `cleaned_df[col].fillna(..., inplace=True)` writes through depends on the pandas version.
- Column statistics are not modelled (`min`, `max`, `mean`, `median`, `std`, `top_values`,
  `date_range` in `detect_column_types`), nor are `create_summary_stats`,
  `create_data_profile_report`, `detect_outliers_iqr`, `export_to_excel` and
  `generate_insights_prompt`, because they are floating-point summaries or output formatting.
- Chart drawing is not modelled. `create_visualization_from_suggestion` is modelled as the chart
  kind it dispatches to, and titles and descriptions of suggestions are left out. A suggestion
  lacking the keys its chart needs would raise and give the error figure; suggestions made by
  `suggest_best_visualizations` always carry them.
- The quality-gate labels shown by the dashboard are presentation.
