# Customer data cleaning, modelled in Dafny

This project models the two parts of the customer-data-cleaning repository that hold deterministic logic.

- **`CustomerDataCleaner`** (`src/data_cleaner.py`) turns a raw customer table into a cleaned one. It runs four stages in order:
  1. missing values: drop the columns that are more than half missing, then fill the rest;
  2. duplicate rows: remove them, keeping first occurrences;
  3. formats: validate e-mails, strip phones to digits, parse dates, title-case statuses;
  4. outliers: IQR clipping of Age and Income.

  As it runs, it fills in a `report` dictionary and computes a quality score before and after.
- **`create_sample_customer_data`** (`create_sample_data.py`) builds the raw table the cleaner is meant for. The table has customer IDs, names with gaps, good and bad e-mails, phones in four renderings, ages and incomes with planted outliers, statuses in mixed case, and appended duplicate rows.

A table is column-major (`Tables.Table`): each column has a name, a dtype (`Kind`: object, numeric, bool, datetime) and its cells. A cell is a `Value`: missing, string, number or bool. Numbers are exact `real`s. The pandas calls below are given a definition on this model; the format guessing and parsing inside `pd.to_datetime` and `astype(str)` are parameters, and `dtypes`, `nunique` and `memory_usage` are left out (see below):

- `isnull`, `duplicated` and `drop_duplicates`;
- `mode`, `median` and `quantile` with linear interpolation;
- `np.clip`;
- `str.match` with the e-mail pattern, `str.replace` removing non-digits, `str.title`.

Where pandas raises an exception on some input, the model returns `Err` with a `Failure` saying which. Examples are `~` on a mask containing NaN, `.str` on a column that is not an object column, and `removed / initial` with no rows.

The modules follow the program:

| file | module | models |
|---|---|---|
| `tables.dfy` | `Tables` | values, columns, tables, null counts, rows, column replacement |
| `text.dfy` | `Text` | decimal and zero-padded rendering, digit stripping, `str.title`, string order |
| `email.dfy` | `Email` | the e-mail pattern as a regular-expression reference and as a decision procedure |
| `dedup.dfy` | `Deduplication` | keep-first duplicate detection on sequences |
| `stats.dfy` | `Stats` | sorting, median, interpolated quantile, IQR fences, clipping, mode |
| `missing.dfy` | `Missing` | `clean_missing_values` |
| `duplicates.dfy` | `Duplicates` | `drop_duplicates` / `duplicated` on tables |
| `formats.dfy` | `Formats` | `standardize_formats` |
| `outliers.dfy` | `Outliers` | `handle_outliers` and the outlier counts of `assess_data_quality` |
| `quality.dfy` | `Quality` | `_calc_quality_score` |
| `cleaner.dfy` | `Cleaner` | the `report` as a class with fields, its stage methods, `clean_dataset` |
| `sample.dfy` | `SampleData` | `create_sample_customer_data` with its random outcomes as inputs |

**Line 87 (the phone reformat).** Line 87 of `src/data_cleaner.py` writes the phone back through the template `(\1) \2-\3` with a pattern that has one group. A common reading is that this step does nothing. CPython's `re` module reads it differently: it rejects a template that names an undefined group ("invalid group reference") before it matches anything. So with any phone present, the call raises.

The model makes the reading a parameter, `Formats.TemplateReading`:

- `RejectTemplate`, what CPython does: the step fails with `InvalidGroupReference` whenever the Phone column has a cell;
- `IgnoreTemplate`: the step leaves the digits as they are.

Whether the authors meant the three-group reformat `(area) prefix-line` stays an open question. The model does not implement that reformat.

## Model

| member | source | states |
|---|---|---|
| Tables.NullCount | src/data_cleaner.py:22 | the number of missing cells is at most the column length, and is 0 exactly when no cell is missing |
| Tables.NullCountSet | create_sample_data.py:18-19 | making one cell missing changes the missing count by exactly the change at that cell |
| Tables.NullCountAll | src/data_cleaner.py:46 | a column whose cells are all missing has a missing count equal to its length |
| Tables.Strings | src/data_cleaner.py:51 | the non-missing strings of a column: exactly the strings that occur in it |
| Tables.Numbers | src/data_cleaner.py:55 | the non-missing numbers of a column: exactly the numbers that occur in it |
| Tables.TotalNullsAppend | src/data_cleaner.py:60 | the total missing count of two column lists side by side is the sum of theirs |
| Tables.TotalNulls | src/data_cleaner.py:60 | definition: `isnull().sum().sum()`, the missing cells of every column added up; TotalNullsAppend, TotalNullsSplit and TotalNullsZero state what it counts |
| Tables.UpsertNamed | src/data_cleaner.py:82 | assigning a column leaves every label either an existing label or the assigned one |
| Tables.Upsert | src/data_cleaner.py:82 | assigning a column replaces the column of that name where it stands, or appends it; other columns are unchanged |
| Tables.UpsertWellFormed | src/data_cleaner.py:82 | assigning a column of the right length and dtype keeps a table well formed |
| Tables.SetColumn | src/data_cleaner.py:86 | replacing a column in place keeps the height and every other column |
| Tables.SetColumnWellFormed | src/data_cleaner.py:86 | replacing a column with one of the same name, length and valid cells keeps the table well formed |
| Tables.FindDistinct | src/data_cleaner.py:80 | with distinct labels, the column `name in df.columns` finds is the only one with that name |
| Text.Decimal | create_sample_data.py:24 | `str(i)` is a non-empty string of digits |
| Text.ParseDecimalOfDecimal | create_sample_data.py:24 | reading the digits of `str(i)` back gives `i` |
| Text.DecimalLength | create_sample_data.py:36 | a number between 10^(k-1) and 10^k renders in exactly k digits |
| Text.ZeroPad | create_sample_data.py:11 | `{i:06d}` is all digits and exactly as long as the wider of 6 and `str(i)` |
| Text.ParseZeroPad | create_sample_data.py:11 | leading zeros lose nothing: the padded string reads back as `i` |
| Text.ZeroPadInjective | create_sample_data.py:11 | different numbers pad to different strings |
| Text.StripNonDigits | src/data_cleaner.py:86 | removing non-digits leaves only digits and never lengthens the string |
| Text.StripAppend | src/data_cleaner.py:86 | stripping distributes over concatenation |
| Text.StripOfDigits | src/data_cleaner.py:86 | a string of digits strips to itself |
| Text.StripIdempotent | src/data_cleaner.py:86 | stripping twice equals stripping once |
| Text.StripIsDigitSubsequence | src/data_cleaner.py:86 | the stripped string is exactly the subsequence of digit characters, each at its rank among the digits |
| Text.Title | src/data_cleaner.py:95 | definition: `str.title()`; TitleIsPointwise and TitleIdempotent state its meaning |
| Text.TitleIsPointwise | src/data_cleaner.py:95 | `str.title()` puts at each position: the character itself if not a letter, lower case after a letter, upper case otherwise |
| Text.TitleIdempotent | src/data_cleaner.py:95 | title-casing twice equals title-casing once |
| Text.LexLeTotal | src/data_cleaner.py:51 | Python's string order is total |
| Text.LexLeAntisymmetric | src/data_cleaner.py:51 | Python's string order is antisymmetric |
| Text.LexLeTransitive | src/data_cleaner.py:51 | Python's string order is transitive |
| Email.FullValid | src/data_cleaner.py:81 | definition: the decision procedure for the pattern; FullValidIsPattern proves it equals the pattern |
| Email.EmailValid | src/data_cleaner.py:81-82 | definition: a full match, or a full match followed by one newline; EmailValidIsRegex proves it equals the anchored pattern |
| Email.FirstIndex | src/data_cleaner.py:81 | the first position of a character, or none when it does not occur |
| Email.LastIndex | src/data_cleaner.py:81 | the last position of a character, or none when it does not occur |
| Email.MatchesFullValid | src/data_cleaner.py:81 | whenever the pattern matches a string with some split at an `@` and a dot, the decision procedure accepts it |
| Email.FullValidIsPattern | src/data_cleaner.py:81 | the decision procedure (one `@`, the last dot of the domain before the final letters) accepts a string exactly when the pattern matches all of it |
| Email.EmailValidIsRegex | src/data_cleaner.py:81-82 | `EmailValid(s)` holds exactly when the pattern, anchored by `^` and by a `$` that also matches before a final newline, matches `s` |
| Email.EmailValidIsRegexEverywhere | src/data_cleaner.py:81-82 | the same equivalence for all strings at once |
| Email.NoAtInvalid | src/data_cleaner.py:81 | a string without `@` is invalid |
| Email.TwoAtsInvalid | src/data_cleaner.py:81 | a string with two `@` is not matched in full |
| Deduplication.Dedup | src/data_cleaner.py:67 | definition: keep each element whose value does not occur earlier; DedupPicksFirstOccurrences, DedupSameValues and DedupDistinct state its meaning |
| Deduplication.DuplicatedCount | src/data_cleaner.py:23 | definition: the positions whose value occurs earlier; DedupRemovesDuplicated ties it to Dedup |
| Deduplication.FirstOccurrences | src/data_cleaner.py:67 | the positions of first occurrences, increasing, and exactly the positions whose value does not occur earlier |
| Deduplication.DedupPicksFirstOccurrences | src/data_cleaner.py:67 | the keep-first result is the input at its first-occurrence positions, in order |
| Deduplication.DedupSameValues | src/data_cleaner.py:67 | the result holds every value of the input and no other |
| Deduplication.DedupDistinct | src/data_cleaner.py:67 | the result has no two equal elements |
| Deduplication.DedupRemovesDuplicated | src/data_cleaner.py:23 | the number removed is the number `duplicated()` marks |
| Deduplication.DedupOfDistinct | src/data_cleaner.py:67 | a sequence without repeats is left alone and has no duplicates |
| Deduplication.DedupIdempotent | src/data_cleaner.py:67 | deduplicating twice equals deduplicating once |
| Deduplication.FirstOccurrencesOfDistinct | src/data_cleaner.py:67 | without repeats every position is a first occurrence |
| Deduplication.DedupIgnoresCopies | create_sample_data.py:89-91 | appending copies of earlier elements changes neither the result nor anything but the duplicate count, which grows by the number of copies |
| Duplicates.DuplicatedRows | src/data_cleaner.py:23 | definition: `duplicated().sum()` over the rows, 0 for a table without columns; RemovedIsDuplicated ties it to DropDuplicates |
| Duplicates.DropDuplicates | src/data_cleaner.py:67 | `drop_duplicates()` keeps the columns with their names and dtypes and never adds rows |
| Duplicates.DropDuplicatesRows | src/data_cleaner.py:67 | with at least one column, the rows of the result are the keep-first deduplication of the input rows |
| Duplicates.DropDuplicatesDistinct | src/data_cleaner.py:67 | the result has no two equal rows and still holds every input row |
| Duplicates.RemovedIsDuplicated | src/data_cleaner.py:66-68 | input length minus output length equals `duplicated().sum()` |
| Duplicates.DropDuplicatesWellFormed | src/data_cleaner.py:67 | removing duplicates keeps a table well formed |
| Duplicates.DropDuplicatesIdempotent | src/data_cleaner.py:65-75 | applying it twice equals applying it once; the result has no duplicated rows |
| Stats.Sort | src/data_cleaner.py:105 | an ordered permutation of the values |
| Stats.CountSort | src/data_cleaner.py:105 | sorting keeps how many values lie at most / at least any bound |
| Stats.Quantile | src/data_cleaner.py:105-106 | the linear-interpolation quantile of sorted values lies between the two values it interpolates, hence between the minimum and the maximum |
| Stats.QuantileMonotone | src/data_cleaner.py:105-106 | a larger quantile level never gives a smaller quantile |
| Stats.Median | src/data_cleaner.py:55 | the median lies between the two middle values of the sorted data |
| Stats.MedianSplitsInHalf | src/data_cleaner.py:55 | at least half the values are at most the median and at least half are at least it |
| Stats.MedianIsHalfQuantile | src/data_cleaner.py:55 | the median is the 0.5 quantile |
| Stats.ColumnFences | src/data_cleaner.py:105-110 | the IQR fences Q1 - 1.5 IQR and Q3 + 1.5 IQR, with lower <= upper |
| Stats.Clamp | src/data_cleaner.py:112 | the clipped value lies in the bounds, is the value itself when already inside, and is the point of the bounds nearest the value |
| Stats.ClampMonotone | src/data_cleaner.py:112 | clipping to fixed bounds keeps the order of two values |
| Stats.ClampIdempotent | src/data_cleaner.py:112 | clipping an already clipped value changes nothing |
| Stats.Mode | src/data_cleaner.py:51-53 | `mode()[0]`: none for an empty column, otherwise a most frequent value, the least such one in string order |
| Stats.ModeUnique | src/data_cleaner.py:51-53 | any value that is most frequent and least among the tied values is the one `Mode` returns, so `mode()[0]` is determined |
| Missing.Kept | src/data_cleaner.py:47 | `drop` never yields more columns than the input; KeptColumns and KeptAtPositions say which and in what order |
| Missing.Dropped | src/data_cleaner.py:46 | `high_missing` never has more columns than the input; DroppedColumns and DroppedAtPositions say which and in what order |
| Missing.HighMissing | src/data_cleaner.py:46 | definition: a column with cells of which more than half are missing (the mean of an empty column is NaN, never above 0.5); KeptColumns and DroppedColumns state which columns it selects |
| Missing.KeptColumns | src/data_cleaner.py:46-47 | a column is kept exactly when it is a column of the input that is not more than half missing |
| Missing.DroppedColumns | src/data_cleaner.py:46 | a column is dropped exactly when it is a column of the input that is more than half missing |
| Missing.DroppedPositions | src/data_cleaner.py:46 | the dropped columns sit at increasing positions, and a column is dropped exactly when more than half of it is missing |
| Missing.DroppedAtPositions | src/data_cleaner.py:46 | the dropped columns are the input's columns at those positions, in their original order |
| Missing.DroppedNames | src/data_cleaner.py:59 | definition: `list(high_missing)`, the names of the dropped columns; DroppedNamesInOrder states which and in what order |
| Missing.DroppedNamesInOrder | src/data_cleaner.py:58-59 | the recorded names are those of the input's columns at the dropped positions, in column order |
| Missing.KeptPositions | src/data_cleaner.py:46-47 | the kept columns sit at increasing positions, and a column is kept exactly when its missing fraction is at most 1/2 |
| Missing.KeptAtPositions | src/data_cleaner.py:47 | the kept columns are the input's columns at those positions, in their original order |
| Missing.TotalNullsSplit | src/data_cleaner.py:60 | the missing cells of the input split between the kept and the dropped columns |
| Missing.KeptWellFormed | src/data_cleaner.py:47 | dropping columns keeps a table well formed |
| Missing.FillValue | src/data_cleaner.py:50-56 | an object column is filled with a most frequent string (least of ties), a numeric column with the median of its numbers, which at least half the values lie at or below and at least half at or above; other columns, and columns with no value, get nothing |
| Missing.Imputed | src/data_cleaner.py:53-56 | cells with a value keep it; when there is a fill value every missing cell takes it and none is left missing; otherwise the column is unchanged |
| Missing.ImputedNulls | src/data_cleaner.py:53-56 | filling never adds missing cells |
| Missing.KeptIsFillable | src/data_cleaner.py:49-56 | a kept object or numeric column with rows always has a fill value |
| Missing.ImputedOk | src/data_cleaner.py:53-56 | filling keeps a column's cells within its dtype |
| Missing.ImputeAllNulls | src/data_cleaner.py:49-56 | filling all columns never adds missing cells |
| Missing.CleanMissing | src/data_cleaner.py:43-63 | the stage keeps the row count |
| Missing.ImputedCount | src/data_cleaner.py:60 | definition: the missing cells of the input less those left after the stage; ImputedCountSplit states what it counts |
| Missing.ImputedCountSplit | src/data_cleaner.py:60 | filling never adds missing cells, and `imputed` counts the missing cells of the dropped columns plus the cells filled in the kept ones |
| Missing.CleanMissingShape | src/data_cleaner.py:46-47 | the result is well formed and holds exactly the kept columns, in order, with their names and dtypes |
| Missing.CleanMissingLeavesNoNulls | src/data_cleaner.py:49-56 | in a table with rows, only datetime columns can still hold missing cells after the stage |
| Formats.EmailStep | src/data_cleaner.py:80-83 | it fails exactly when Email is not an object column without missing cells; otherwise a matching address is kept, any other becomes missing, `Email_Valid` records the match and is the only column added, and nothing else changes |
| Formats.EmailStepSucceeds | src/data_cleaner.py:80-83 | in a well-formed table the step succeeds exactly when Email has no missing cell |
| Formats.EmailStepWellFormed | src/data_cleaner.py:80-83 | the step keeps a table well formed |
| Formats.PhoneStep | src/data_cleaner.py:85-87 | each phone becomes the digit string of its text and no other column changes; under the CPython reading the line-87 template fails exactly when the column has a cell |
| Formats.PhoneStepWellFormed | src/data_cleaner.py:85-87 | the step keeps a table well formed |
| Formats.PhoneStepIdempotent | src/data_cleaner.py:86 | when the template is taken to change nothing, a second application changes nothing |
| Formats.FirstPresent | src/data_cleaner.py:91-92 | the first non-missing cell of a column, or none exactly when every cell is missing |
| Formats.ColumnDateFormat | src/data_cleaner.py:91-92 | definition: the format guessed from the first present cell when it is text, no format otherwise; DateStep parses the whole column with it |
| Formats.DateStep | src/data_cleaner.py:89-92 | a bool column cannot be converted; otherwise the column becomes datetime: every text cell is parsed with the one format guessed from the first present cell (unparsable text becomes missing), and numbers are kept |
| Formats.DateStepWellFormed | src/data_cleaner.py:89-92 | the step keeps a table well formed |
| Formats.DateStepIdempotent | src/data_cleaner.py:92 | converting a second time changes nothing |
| Formats.StatusStep | src/data_cleaner.py:94-95 | a non-object Status fails; otherwise each status is title-cased, missing ones stay missing, nothing else changes |
| Formats.StatusStepWellFormed | src/data_cleaner.py:94-95 | the step keeps a table well formed |
| Formats.StatusStepIdempotent | src/data_cleaner.py:95 | title-casing the column twice equals doing it once |
| Formats.StandardizeFormats | src/data_cleaner.py:77-97 | definition: the e-mail, phone, date and status steps in that order, the first failing step ending the stage; StandardizeFormatsWellFormed states what a successful stage keeps |
| Formats.StandardizeFormatsWellFormed | src/data_cleaner.py:77-97 | a successful stage keeps the table well formed and keeps its row count |
| Formats.EmailStepNamed | src/data_cleaner.py:80-83 | the e-mail step adds at most one column, and every label afterwards is an input label or `Email_Valid` |
| Formats.StandardizeFormatsNamed | src/data_cleaner.py:77-97 | a successful stage adds at most one column, and every label afterwards is an input label or `Email_Valid` |
| Outliers.ClipOne | src/data_cleaner.py:104-112 | definition: an absent column leaves the table alone, a numeric or datetime column is clipped to its own fences, any other dtype fails; HandleOutliersEffect states the effect |
| Outliers.ClipAll | src/data_cleaner.py:101-114 | definition: ClipOne over the names in order, stopping at the first failure |
| Outliers.ClampCells | src/data_cleaner.py:112 | `np.clip` of a column clips each number and keeps missing cells in place |
| Outliers.ClippedColumn | src/data_cleaner.py:105-112 | every number of a clipped column lies within the fences of that column's own quartiles; non-numbers are unchanged; a column with no numbers is left as it is |
| Outliers.HandleOutliersEffect | src/data_cleaner.py:99-114 | the stage fails exactly when Age or Income is present and not numeric; otherwise rows and columns are kept, Age and Income are clipped to their fences, and every other column is unchanged |
| Outliers.ClipAllWellFormed | src/data_cleaner.py:99-114 | the stage keeps a table well formed |
| Outliers.CountOutside | src/data_cleaner.py:38 | the number of values strictly outside the fences, never more than the number of values |
| Outliers.OutlierCount | src/data_cleaner.py:29-39 | definition: CountOutside of a numeric column's values against the column's own fences, 0 for a column with no numbers; OutliersAreClipped ties it to the clip |
| Outliers.ChangedIsOutside | src/data_cleaner.py:112 | clipping changes exactly the numbers outside the fences |
| Outliers.OutliersAreClipped | src/data_cleaner.py:29-39 | the outlier count of `assess_data_quality` equals the number of cells `handle_outliers` changes when it clips that column |
| Quality.QualityScore | src/data_cleaner.py:152-160 | the score lies in [0, 100]; for a table with rows and columns it is 100 exactly when there are no missing cells and no duplicated rows, and 0 when every cell is missing; a table without rows or columns scores 0 |
| Cleaner.QualityOf | src/data_cleaner.py:138-145 | both scores lie in [0, 100] and the improvement is final minus original |
| Cleaner.CleanPipeline | src/data_cleaner.py:116-134 | definition: the four stages in order, with the division by zero of `remove_duplicates` when no row is left; PipelineStops and CleanPipelineWellFormed state its results |
| Cleaner.DupesRecord | src/data_cleaner.py:66-73 | definition: the rows removed and their percentage; RemovedIsDuplicated states that the rows removed are the duplicated rows |
| Cleaner.PipelineStops | src/data_cleaner.py:124-134 | the run stops at the first stage that fails, with that stage's error, and otherwise returns the clipped table |
| Cleaner.CleanPipelineWellFormed | src/data_cleaner.py:116-150 | a successful run turns a well-formed table into a well-formed table with the input's row count less the duplicated rows found after the missing-value stage |
| Cleaner.CleanPipelineColumns | src/data_cleaner.py:116-134 | a successful run has at most one column more than the input, and every label of the result is an input label or `Email_Valid` |
| Cleaner.MissingLabels | src/data_cleaner.py:43-63 | the missing-value stage only removes columns: no more columns than the input, every label an input label |
| Cleaner.ClipAllNamed | src/data_cleaner.py:99-114 | the outlier stage adds no column and no label |
| Cleaner.CustomerDataCleaner.constructor | src/data_cleaner.py:11-18 | a new report has no entry written |
| Cleaner.MissingCounts | src/data_cleaner.py:22 | `isnull().sum().to_dict()`: keyed by exactly the column names, each mapped to that column's missing count |
| Cleaner.CustomerDataCleaner.AssessDataQuality | src/data_cleaner.py:20-41 | the assessment has the missing count of every column, keyed by exactly the column names; the duplicated-row count; and the outlier count of every numeric column, keyed by exactly the numeric column names |
| Cleaner.CustomerDataCleaner.CleanMissingValues | src/data_cleaner.py:43-63 | the column loop returns the stage's table; `fixed.missing` records the dropped names and the imputed count; no other report entry changes |
| Cleaner.CustomerDataCleaner.RemoveDuplicates | src/data_cleaner.py:65-75 | without rows the division fails and nothing is recorded; otherwise the deduplicated table is returned and `removed` equals the duplicated-row count |
| Cleaner.CustomerDataCleaner.HandleOutliers | src/data_cleaner.py:99-114 | the loop over Age and Income computes the stage |
| Cleaner.CustomerDataCleaner.CleanDataset | src/data_cleaner.py:116-150 | returns the pipeline's result; records the original shape, the assessment of the input, the missing and duplicate fixes; on success the final shape and both quality scores; a failing stage leaves later entries as they were |
| SampleData.CustomerId | create_sample_data.py:11 | definition: `CUST_` and the six-digit zero-padded number; CustomerIdLength and CustomerIdInjective state its properties |
| SampleData.CustomerIdLength | create_sample_data.py:11 | for 1 <= i <= 999999 the ID has 11 characters |
| SampleData.CustomerIdInjective | create_sample_data.py:11 | different record numbers give different IDs |
| SampleData.CustomerIds | create_sample_data.py:11 | n IDs, the k-th being the ID of record k + 1; CustomerIdsDistinct states they are pairwise distinct |
| SampleData.CustomerIdsDistinct | create_sample_data.py:11 | the n IDs are pairwise distinct |
| SampleData.BuildNames | create_sample_data.py:13-19 | n names; the sampled positions become missing and there are exactly as many missing names as sampled positions; the rest are "First Last" from the two pools |
| SampleData.EmailFor | create_sample_data.py:21-28 | definition: an invalid, a missing or a valid address according to the draws; ValidEmailMatches and InvalidEmailFails state which the cleaner accepts |
| SampleData.ValidEmailMatches | create_sample_data.py:28 | `user{i}@example.com` matches the cleaner's e-mail pattern |
| SampleData.InvalidEmailFails | create_sample_data.py:24 | `invalid_email_{i}` does not match it |
| SampleData.BuildEmails | create_sample_data.py:21-28 | one e-mail per record, and it is present and valid exactly when its draws said so |
| SampleData.BasePhone | create_sample_data.py:36 | the base phone has exactly 10 digits |
| SampleData.Rendering | create_sample_data.py:38-43 | definition: the four renderings of a base phone; RenderingStrips states what stripping gives back |
| SampleData.PhoneFor | create_sample_data.py:33-44 | definition: a missing phone or the chosen rendering; SamplePhoneStrips states what stripping gives back |
| SampleData.BuildPhones | create_sample_data.py:31-44 | one phone per record, missing or in the rendering its draw chose |
| SampleData.ParenthesisedStrips | create_sample_data.py:40 | stripping `(ddd) ddd-dddd` leaves its ten digits in order |
| SampleData.DashedStrips | create_sample_data.py:41 | stripping `ddd-ddd-dddd` leaves its ten digits in order |
| SampleData.RenderingStrips | create_sample_data.py:38-43 | stripping non-digits from the plain, parenthesised or dashed rendering gives the base phone, and from the `+1` rendering gives "1" followed by it |
| SampleData.ClipInt | create_sample_data.py:47 | an integer clip lands in the bounds and keeps values already inside |
| SampleData.Overwrite | create_sample_data.py:49-50 | writing values at distinct positions puts each value at its position and changes nothing else |
| SampleData.BuildAges | create_sample_data.py:46-50 | ages outside the sampled positions are the clipped samples, within [18, 80]; each sampled position holds one of 5, 10, 150, 200 |
| SampleData.BuildIncomes | create_sample_data.py:52-56 | incomes outside the sampled positions are the clipped samples, within [20000, 200000]; each sampled position holds one of 5000, 500000, 1000000 |
| SampleData.BuildStatuses | create_sample_data.py:71-74 | every status is one of the five options, the one its draw chose |
| SampleData.StatusOptionsTitled | create_sample_data.py:72 | title-casing maps the five options to Active, Inactive, Pending, Suspended, Active |
| SampleData.ColumnNamesDistinct | create_sample_data.py:77-86 | the eight column labels are pairwise distinct |
| SampleData.SampleTable | create_sample_data.py:77-86 | the table has n rows, the eight columns in the source's order with their dtypes (Age and Income numeric, the other six object), and each column holds n cells |
| SampleData.SampleTableWellFormed | create_sample_data.py:77-86 | the table is well formed |
| SampleData.AppendRows | create_sample_data.py:89-91 | `pd.concat` with `ignore_index=True`: the height grows by the number of picks, every column keeps its label and dtype, and its cells are the old cells followed by the picked ones in pick order |
| SampleData.AppendRowsRows | create_sample_data.py:89-91 | the appended table is well formed, starts with the old rows, and each appended row is a copy of its sampled row |
| SampleData.AppendedCopies | create_sample_data.py:89-91 | in the appended table each appended row equals the row at its sampled position |
| SampleData.AppendedRowsAreCopies | create_sample_data.py:89-91 | when the old rows are distinct, deduplicating the appended rows gives the old rows back and counts each copy as a duplicate |
| SampleData.IdRowsDistinct | create_sample_data.py:11 | rows whose first cells are distinct customer IDs are pairwise distinct |
| SampleData.DuplicatesAreTheCopies | create_sample_data.py:89-91 | with distinct old rows, `drop_duplicates` on the appended table gives back the original table and `duplicated()` counts exactly the appended rows |
| SampleData.CreateSampleCustomerData | create_sample_data.py:6-93 | fails exactly for fewer than 100 records, with the sample-larger-than-population error; otherwise the result satisfies `IsSample` for the draws (`DrawsFor`): a well-formed table of the eight columns with their dtypes (Age and Income numeric, the other six object) that has n + int(n * 0.08) rows, the first n built record by record from the draws and the rest copies of the sampled rows |
| SampleData.SampleDuplicates | create_sample_data.py:89-91 | removing duplicates from a generated table removes exactly the int(n * 0.08) appended rows and keeps the first n |
| SampleData.SamplePhoneStrips | create_sample_data.py:38-44 | the cleaner's digit stripping turns a generated phone back into its 10 base digits, led by "1" for the `+1` rendering |

## Left out

- `dtypes`, `nunique` and `memory_usage` in `assess_data_quality` are not modelled. They depend on pandas' type system and memory accounting.
- The `:.2f` percentage strings in `remove_duplicates` and `clean_dataset` are not modelled. The model keeps the percentages as exact numbers.
- Floating point is not modelled. Medians, quantiles, fences, clipping and the score use exact real arithmetic, with no NaN and no rounding.
- `int(n * 0.15)` and `int(n * 0.08)` are taken as the exact `n * 15 / 100` and `n * 8 / 100`.
- `generate_report` is text formatting only.
- Progress printing, CSV reading and writing, and the plotting imports are I/O.
- `pd.to_datetime` is modelled through two parameters, pandas' own: `Conversions.guessFormat` (the format pandas guesses from one string) and `Conversions.parseDate` (parsing one string with that format, or without one). The model applies them as pandas 2 does with `errors='coerce'`, with one format for the whole column, guessed from the first non-missing cell (see the next line).
- `Formats.FirstPresent` skips only missing cells. pandas chooses the cell to guess the format from with its own first-non-null scan, which also skips the empty string, the not-a-time spellings such as "NaT" and "nan", and "now" and "today". For a text column that starts with one of those strings, the model guesses from that string, while pandas guesses from a later cell.
- The default `n_records=10000` of `create_sample_customer_data` is not modelled. `SampleData.CreateSampleCustomerData` takes the record count as an explicit argument; the default value is 10000, which is at least 100, so a default call is on the success path.
- `str()` of a number or a timestamp is a parameter too (`numberText`, `dateText`). `astype(str)` uses this rendering.
- The generator's `strftime` renderings of registration dates are left out for the same reason. The rendered strings are an input, `Draws.dates`.
- Random draws are inputs, `SampleData.Draws`. This covers `random.seed`, `np.random.normal`, `random.choice`, `random.random` and `random.sample`.
- `.astype(int)` truncation of the normal age samples is left out. Those samples are taken as integers already.
- The fill at lines 53 and 56 is `inplace` on a column selection. The model fills the table, as pandas did before copy-on-write. Under copy-on-write this chained assignment would leave `cleaned` unchanged.
- The three-group phone reformat that line 87 suggests was evidently intended, but it is not implemented.
- `Formats.PhoneStep`: with `IgnoreTemplate` the step leaves the stripped digits unchanged. This is the "does nothing" reading of line 87. CPython's reading is `RejectTemplate`.
- Character classes are ASCII: `\d`, the letters of the e-mail pattern, and the cased letters of `str.title()`. Non-ASCII letters and digits are not modelled.
- Tables with repeated column labels are not modelled. The cleaner's `to_dict` calls and column lookups require distinct labels.
- `Outliers.ClipOne`: clipping a datetime column writes back the clipped number as is. The model does not reproduce how pandas would cast a fractional bound back to nanoseconds.
- `Outliers.ClipOne` treats an object or bool Age or Income column as an error, because its quantiles cannot be computed. It does not model pandas' partial support for such columns.
- `Formats.DateStep` treats a bool column as an error. It does not model how pandas might convert one.
- `Tables.Table` has no row index. After `drop_duplicates` the kept rows keep their original labels, which only matters for label-based access; the cleaner does none.
