# data_sampling in Dafny

`data_sampling` thins out a log of timestamped measurements. It takes a time window and one
aperture (a tolerance) per parameter. It keeps the rows of the measurement log whose time stamp
lies in the window and sorts them in place with a first-element-pivot quicksort. It then walks
adjacent pairs and emits, under a running sequence number, every record in which some parameter
moved by strictly more than its aperture since the record before. Time stamps are written with
Russian month names, so reading and writing them swaps the month name for its two-digit number
and back, using the two tables in `constants.py`.

This project models that core:

- `records.dfy` (`Records`): a record is a time stamp and its parameter values. It is ordered
  the way Python orders the tuples `(datetime, params)`. That order is proved total, reflexive,
  transitive and antisymmetric.
- `quicksort.dfy` (`Quicksort`): `partition` and `quicksort` as in-place methods on an
  `array<Record>`. They are proved to sort the segment, to permute it, and to leave the rest of
  the array untouched.
- `aperture.dfy` (`Aperture`): `comparison_parameters_with_aperture`. It is characterised as
  "some parameter changed by more than its aperture".
- `sampling.dfy` (`Sampling`): the loop of `data_sampling`. It is proved equal to a
  specification function. That function is characterised by the indices at which changes
  occur.
- `selection.dfy` (`Selection`): the row-filtering and field-slicing of `select_data` and the
  request parsing of `read_input`, with their error paths. The selected records go through the
  array quicksort.
- `months.dfy` (`Months`): `MONCH_DICT` and `MONCH_DICT_FOR_STR`, the month substitution of
  `format_data` / `format_data_in_str`, and the substitution as written (see Findings).
- `pipeline.dfy` (`Pipeline`): how selection feeds sampling in `main`.
- `wrappers.dfy` (`Wrappers`): `Option` and `Result`. These stand for the exceptions of the
  source (`IndexError`, `KeyError`, `ValueError`).

Time stamps are integers (microseconds). Parameter values and apertures are reals. Parsing a
time stamp (`format_data`, which ends in `strptime`) and parsing a number
(`float(value.replace(',', '.'))`) are function parameters returning `Option`. `None` stands
for the exception the source would raise.

## Model

| member | source | states |
|---|---|---|
| Records.Le | data_sampling.py:59-61 | Tuple `<=` on `(timestamp, params)`: when the stamps differ, the earlier stamp is the smaller; on equal stamps, a parameter tuple that is a prefix of the other is `<=` it, and a longer tuple is never `<=` its proper prefix. |
| Records.LeTotal | data_sampling.py:59-61 | Any two records compare one way or the other under tuple `<=`, so a record that fails `<= pivot` satisfies `>= pivot`. |
| Records.LeReflexive | data_sampling.py:59-61 | Every record is `<=` itself. |
| Records.LeTransitive | data_sampling.py:59-61 | Tuple `<=` on records is transitive. |
| Records.LeAntisymmetric | data_sampling.py:59-61 | Records that are `<=` each other both ways are equal. |
| Records.SortedAroundPivot | data_sampling.py:43-46 | A sorted left part, all `<=` the pivot, followed by the pivot and then a sorted right part, all `>=` the pivot, is sorted. |
| Quicksort.Swap | data_sampling.py:64-72 | The tuple swap exchanges the two cells, leaves every other cell unchanged and keeps the array's multiset. |
| Quicksort.SkipAtMost | data_sampling.py:59-60 | The left scan stops at the first cell at or after `left` that is not `<=` the pivot, or just past `right`. Every cell it passes is `<=` the pivot. |
| Quicksort.SkipAtLeast | data_sampling.py:61-62 | The right scan stops at the last cell at or before `right` that is not `>=` the pivot, or just before `left`. Every cell it passes is `>=` the pivot. |
| Quicksort.ExchangeRound | data_sampling.py:58-67 | One round of the outer loop scans both ways. Unless the pointers cross, it exchanges the two elements they stopped on, so that every element left of the left pointer is `<=` the pivot and every element right of the right pointer is `>=` it. When the pointers do not cross, exactly those two cells are exchanged and every other cell keeps its value; when they cross, the array is unchanged. The stop positions are stated against the array before the round. It keeps the multiset, changes nothing outside the range, and narrows the gap after an exchange. |
| Quicksort.Partition | data_sampling.py:50-73 | `partition` returns p with start <= p < end. The old first element lands at p. Everything in [start, p) is `<=` it and everything in (p, end) is `>=` it. The segment is permuted and the rest of the array is unchanged. |
| Quicksort.Quicksort | data_sampling.py:38-47 | `quicksort` sorts [start, end) in place under tuple order. It permutes the segment, changes nothing outside it, and returns the same array it was given. |
| Aperture.Exceeds | data_sampling.py:103-113 | The comparator reports True exactly when some parameter changed by strictly more than its aperture (abs(current - previous) > aperture). |
| Aperture.ChangeEqualToApertureIsNotExceedance | data_sampling.py:110-113 | A change exactly equal to the aperture is within tolerance, because `le` is inclusive. |
| Aperture.ExceedsSymmetric | data_sampling.py:110 | The comparison depends only on the size of each change, not its direction. |
| Aperture.WiderApertureExceedsLess | data_sampling.py:110-113 | An exceedance against wider apertures is also one against narrower apertures. |
| Aperture.ZeroApertureDetectsEveryChange | data_sampling.py:110-113 | With all apertures zero, the comparator fires exactly when the two vectors differ. |
| Aperture.ExactToleranceExample | data_sampling.py:110-113 | With aperture 1, a change of 1 does not fire and a change of 1.5 does. |
| Sampling.Emitted | data_sampling.py:120-138 | The emitted rows are change points numbered 1, 2, … with no gaps. There are fewer of them than records unless there are none. |
| Sampling.ChangeIndicesExact | data_sampling.py:123-130 | The positions found are exactly the i in 1..n-1 where record i exceeds the aperture against record i-1. Each appears once, in increasing order. |
| Sampling.EmittedAtChangeIndices | data_sampling.py:127-138 | The j-th emitted row carries number j+1 and the time stamp and values of the record at the j-th change position. |
| Sampling.ChronologicalOutput | data_sampling.py:127-138 | For sorted input, emitted rows come out in non-decreasing time order. |
| Sampling.DataSampling | data_sampling.py:116-139 | The loop returns the header followed by exactly the emitted change points. |
| Sampling.FiveRecordExample | data_sampling.py:116-139 | Values 0, 0, 5, 5, 100 at aperture 1 emit record 3 as number 1 and record 5 as number 2. |
| Selection.ParseAll | data_sampling.py:93-95 | When the numbers parse, there is one value per field. |
| Selection.ParseAllExact | data_sampling.py:93-95 | The fields parse exactly when each one does, and then the i-th value is the i-th field's number. |
| Selection.ParseParameters | data_sampling.py:93-95 | The enumerate loop over `index > 1` turns the fields from index 2 on into numbers, or fails. |
| Selection.Select | data_sampling.py:85-96 | Every record kept has a time stamp inside [start, end]. |
| Selection.SelectSucceedsIffWellFormed | data_sampling.py:85-96 | Selection fails exactly when some row lacks a parsable time stamp, or lies in the window and has an unparsable number. Rows outside the window need no parsable numbers. |
| Selection.WindowIndicesExact | data_sampling.py:89-91 | The window positions are exactly the rows whose stamp lies in [start, end], each once, in increasing order. |
| Selection.SelectKeepsWindowRows | data_sampling.py:89-96 | On success, the j-th kept record is the stamp and the parsed fields from index 2 on of the j-th in-window row. |
| Selection.SelectFailurePersists | data_sampling.py:89-95 | An error in an earlier row is the error of the whole selection, because later rows cannot undo it. |
| Selection.SelectRows | data_sampling.py:85-96 | The reading loop, with its three early exits, computes exactly the specified selection. |
| Selection.SelectData | data_sampling.py:76-98 | On success, the header is unchanged and the records are sorted in tuple order and are a permutation of the selected rows. Otherwise the first row's error is returned. |
| Selection.ReadInput | data_sampling.py:142-157 | A request is read exactly when there are two parsable stamps and every later field is a number. Then the window is the two stamps and the apertures are the later fields, in order. Otherwise the error is that of the first step to fail, in the source's order: a missing or malformed start stamp, a missing or malformed end stamp, then a malformed aperture. |
| Months.MonthNumberSize | constants.py:7-20 | `MONCH_DICT` has 12 entries. |
| Months.MonthNameKeys | constants.py:21-34 | `MONCH_DICT_FOR_STR` is keyed by exactly '01'..'12'. |
| Months.NameNumberRoundTrip | constants.py:7-34 | Each month name, mapped to its number and back, gives the same name. |
| Months.NumberNameRoundTrip | constants.py:7-34 | Each month number, mapped to its name and back, gives the same number. |
| Months.TablesInverse | constants.py:7-34 | The values of `MONCH_DICT` are exactly '01'..'12'. The values of `MONCH_DICT_FOR_STR` are exactly the names that key `MONCH_DICT`. |
| Months.ToNumericMonth | data_sampling.py:24-25 | The substitution `format_data` makes before `strptime` succeeds exactly for a month name (a `KeyError` otherwise). The new month is the two digits that `MONCH_DICT_FOR_STR` maps back to that name. Day, year and clock are unchanged. |
| Months.ToMonthName | data_sampling.py:33-34 | The substitution `format_data_in_str` intends after `strftime` succeeds exactly for '01'..'12'. The new month is the name that `MONCH_DICT` maps back to those digits. Day, year and clock are unchanged. |
| Months.ReadThenWrite | data_sampling.py:24-25 | Substituting a stamp's month name by its number and then the number by its name restores the stamp. |
| Months.WriteThenRead | data_sampling.py:33-34 | Substituting a two-digit month by its name and back restores the stamp. |
| Months.ReplaceAll | data_sampling.py:34 | `str.replace` leaves a text shorter than the pattern alone. An occurrence at the very start is replaced, so the result starts with the replacement. Otherwise the first character is kept. |
| Months.MonthNameAsWritten | data_sampling.py:32-34 | `format_data_in_str` as written replaces the month digits throughout the formatted text. When the day reads the same as the month, the text starts with the month name. |
| Months.ReplaceAllWithoutOccurrence | data_sampling.py:34 | `str.replace` changes nothing where the pattern does not occur. |
| Months.NamesStartWithLetter | constants.py:21-34 | Each key of `MONCH_DICT_FOR_STR` has two characters, and its name starts with a different character than the key. |
| Months.ReplaceAllReachesDay | data_sampling.py:32-34 | If the day field reads the same as the month field, replacing the month text throughout also rewrites the day. |
| Months.AsWrittenRenamesDayEqualToMonth | data_sampling.py:30-35 | If the day equals the month, `format_data_in_str` as written does not produce the intended text. |
| Months.NewYearStampExample | data_sampling.py:30-35 | For 1 January 2023, the text as written differs from "01 января 2023 г. …". |
| Pipeline.SampledStampsInWindow | data_sampling.py:166-168 | In any order of the selected records, every change point emitted has its time stamp inside the requested window. |

## Left out

- File handling, `main`'s timing and logging, `tqdm`, `locale` and `outputs.py` are not modelled. Rows, the header and the request fields arrive as already split `seq<string>`. `DataSampling` returns the rows the source hands to `file_output`.
- `FileNotFoundError`: `select_data` and `read_input` then print and return `None`. This is not modelled, because the model has no files.
- `strptime` / `strftime` and the text form of `datetime` are parameters or field records (`Months.StampText`). Number parsing (`float`) is a parameter too. The month substitution is modelled on the month field after `split()[1]`.
- Aperture.Exceeds: arithmetic is exact over reals. The source takes `Decimal` differences of floats and rounds the `fabs` back to a float, so rounding at the boundary is not modelled.
- Aperture.Exceeds: requires equal lengths. `zip` / `map` in the source silently truncate to the shortest input.
- Aperture.Exceeds: returns `false` where the source falls off the end and returns `None`. `data_sampling` only tests `is True`, so the two agree there.
- Quicksort.Quicksort: Python's recursion limit is not modelled. A long, already sorted input drives the first-element pivot to linear recursion depth, which raises `RecursionError` in the source.
- Sampling.DataSampling: requires every record to have as many values as there are apertures. For other records the source's `zip` truncation applies.
- Non-finite numbers are not modelled. `float()` accepts `nan` and `inf` (data_sampling.py:95, 156), but the number parser returns a real or nothing. With NaN the tuple order is not total and the comparator always fires. With infinities the `Decimal` difference can raise.
- The `(number, text stamp, values...)` tuples of the output are modelled as `Point(number, stamp, values)` with the stamp kept as a time value. The rendering goes through `format_data_in_str`, which is modelled separately in `Months`.

## Findings

| source | as written | input that shows it | evidently intended | confidence | as-written member | corrected member |
|---|---|---|---|---|---|---|
| data_sampling.py:34 | `date_str.replace(month_str, …)` replaces the two-digit month wherever it occurs in the formatted text: in the day, the year, the clock and the microseconds too. | 2023-01-01 00:00:00 formats as "01 01 2023 г. 00:00:00.000000 мсек". The day "01" is renamed as well, so the text starts "января января". | Only the month field is replaced: "01 января 2023 г. 00:00:00.000000 мсек". | not executed; follows from the semantics of `str.replace` | Months.AsWrittenRenamesDayEqualToMonth | Months.WriteThenRead |
