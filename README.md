# Verified model of the MTG CSV price updater

The program reads a CSV file of trading-card listings, sets each row's
`TCG Marketplace Price` to the row's `TCG Low Price` clamped from below by a
price floor (as a two-decimal string), and writes the rows to
`<input without its extension>_updated.csv`. It aborts with exit status 1,
writing nothing, when the header is missing, when the header lacks
`TCG Market Price` or `TCG Marketplace Price`, or at the first row whose low
price is not a number.

This project models that logic in Dafny and proves its properties:

- `output_path.dfy` (module `OutputPath`): the output path of main.py:35,
  with POSIX `os.path.splitext` written out (`SplitExt`) and characterised
  independently (the last dot of the final path component starts the
  extension when some earlier character of that component is not a dot;
  otherwise there is no extension).
- `row_transform.dfy` (module `RowTransform`): `process_row` as a pure
  function from a record to the updated record or an error. Prices are
  exact (`real`). The `float(...)` parser and the `:.2f` formatter are the
  function parameters `parse: string -> Option<real>` and
  `format2: real -> string`; nothing is assumed about either. A record is a
  `map<string, Cell>`, where `Cell` is the field's text or `Missing`, the
  value the CSV dict reader supplies for columns a short row does not reach
  (the source's `None`, which `float` rejects).
- `pipeline.dfy` (module `Pipeline`): `read_and_update_csv` without the file
  and CSV I/O. The header (empty when the file has none) and the parsed rows
  are inputs; the result is either an error kind or what would be written
  (output path, header, updated rows). `Run` is the specification;
  `ReadAndUpdateCsv` is the imperative loop of the source, proved equal to
  it; the lemmas state the all-or-nothing rule, the row numbering from 2,
  the early exit, and the shape of the output.
- `wrappers.dfy` (module `Wrappers`): `Option` and `Result`.

The output name never keeps the original extension: main.py:35 always
appends `_updated.csv`, so `a/prices.txt` becomes `a/prices_updated.csv`.

## Model

| member | source | states |
|---|---|---|
| `OutputPath.UpdatedPath` | main.py:35 | without an extension the output is the input followed by `_updated.csv`; otherwise everything from the last dot of the final path component on is replaced by `_updated.csv` |
| `OutputPath.SplitExtRejoins` | main.py:35 | root followed by extension gives back the input path |
| `OutputPath.SplitExtIsLastExtension` | main.py:35 | a non-empty extension starts at a dot of the final path component that follows a non-dot character of it, and contains no other dot |
| `OutputPath.SplitExtFindsEveryExtension` | main.py:35 | the extension is non-empty exactly when some dot of the final path component follows a non-dot character of it |
| `OutputPath.ExtensionReplaced` | main.py:35 | `a/prices.txt` gives `a/prices_updated.csv`: the original extension is not kept |
| `OutputPath.NoExtensionAppends` | main.py:35 | `prices` gives `prices_updated.csv` |
| `OutputPath.LeadingDotIsNotExtension` | main.py:35 | `data/.prices` gives `data/.prices_updated.csv`: a leading dot is not an extension |
| `OutputPath.OnlyLastExtensionOfLastComponent` | main.py:35 | only the last extension is removed, and dots in directory names are ignored |
| `RowTransform.Clamp` | main.py:27-30 | the price is the larger of the low price and the floor |
| `RowTransform.ProcessRow` | main.py:18-31 | succeeds exactly when the `TCG Low Price` column is present and its field parses; then the marketplace price is the formatted max of low price and floor, every other field is unchanged, and the key set is the old one plus the marketplace price column (added if absent); a field that does not parse, including the missing field of a short row, fails with the given row number and the row's product name; an absent `TCG Low Price` column, or an absent `Product Name` when the price does not parse, fails as a missing key |
| `RowTransform.ClampScenarios` | main.py:27-30 | low price 0.50 under floor 1.00 gives the formatted floor; 2.50 gives the formatted 2.50 |
| `Pipeline.TransformRows` | main.py:49-56 | on success, one output row per input row in input order, the k-th being the transform of the k-th input row under row number first + k |
| `Pipeline.TransformRowsSucceeds` | main.py:50-56 | when every row transforms, transforming them all succeeds |
| `Pipeline.TransformRowsFirstFailure` | main.py:50-55 | when rows before k pass and row k fails, the result is row k's error |
| `Pipeline.ExitCodeOfRun` | main.py:40-70 | the exit status of a run is 0 exactly when the header passes both checks and every data row transforms, and 1 on every other path |
| `Pipeline.ReadAndUpdateCsv` | main.py:34-64 | the loop that numbers rows from 2, returns at the first failing row and collects the updated rows computes exactly `Run` |
| `Pipeline.MissingHeaderFailsFirst` | main.py:40-42 | with no header the run fails with the missing-header error, whatever the rows |
| `Pipeline.MissingColumnsFailsFirst` | main.py:43-48 | with a header, the run fails with the missing-columns error exactly when `TCG Market Price` or `TCG Marketplace Price` is absent, whatever the rows |
| `Pipeline.RunSucceedsIffAllRowsPass` | main.py:49-64 | output is produced exactly when the header is valid and every row, numbered from 2, transforms |
| `Pipeline.RunStopsAtFirstBadRow` | main.py:50-70 | the first failing row's error is the outcome: a price that does not parse gives a malformed-row error with row number k + 2 and that row's product name; a missing `TCG Low Price` column, or a missing `Product Name` column with an unparsable price, gives an unexpected error naming the column |
| `Pipeline.RunIgnoresRowsAfterFailure` | main.py:50-57 | rows after the first failing one do not affect the outcome, which is a failure |
| `Pipeline.RunOutput` | main.py:49-62 | on success the output has the input header, the derived path, and one row per input row in order, each the input row with only the marketplace price replaced by the formatted max of low price and floor |
| `Pipeline.RunKeepsColumns` | main.py:57-62 | rows whose columns are the header's keep exactly those columns in the output |
| `Pipeline.HeaderOnlyOutput` | main.py:43-64 | every header that passes both checks, with no data rows, gives header-only output at the derived path |
| `Pipeline.LowPriceNotChecked` | main.py:43-48 | a header with only `TCG Market Price` and `TCG Marketplace Price` passes the checks: `TCG Low Price` is not checked |
| `Pipeline.LowPriceColumnAbsentIsUnexpected` | main.py:19 | a valid header without `TCG Low Price` passes validation, and the first data row then fails with an unexpected error naming that column |
| `Pipeline.EmptyLowPriceOnSecondRowAborts` | main.py:50-55 | an empty low price on the second data row aborts with row number 3 and that row's product name |

## Left out

- Argument parsing (`argparse`, main.py:7-15) and the process exit (main.py:73-79): library plumbing; the exit status is `Pipeline.ExitCode`.
- Opening, reading and writing files, CSV tokenising and `QUOTE_MINIMAL` quoting (main.py:37-39, 57-62): the header and the parsed rows are inputs, and the output is returned as a value instead of being written.
- File not found (main.py:65-67) and other I/O failures, including a write that fails midway and leaves partial output: they depend on the file system, which is not modelled.
- Rows longer than the header: the CSV reader stores the extra fields under a `None` key, which a `map<string, Cell>` cannot hold; in the source the writer then rejects the row after the header line has been written.
- Floating point: `float()` accepting `nan`, `inf`, exponents and surrounding blanks is inside the `parse` parameter; NaN comparing false against the floor and the rounding of `:.2f` are not modelled, since prices are exact and `format2` is uninterpreted.
- Diagnostic messages printed to standard output (main.py:41, 47, 54, 63, 66, 69): replaced by the error kinds of `Pipeline.PipelineError`.
- Windows paths: `os.path.splitext` is modelled for POSIX (`/` as the only separator).

