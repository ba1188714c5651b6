/**
 * The decision logic of `read_and_update_csv` (main.py:34-70) without the
 * file and CSV input/output: validate the header, transform the data rows
 * in order, numbering them from 2, stop at the first row that fails, and
 * produce the output table only once every row has passed.
 */
module Pipeline {
  import opened Wrappers
  import opened RowTransform
  import OutputPath

  /** The row number of the first data row; the header is row 1 (main.py:50). */
  const FirstDataRow := 2

  /** Why a run ends with exit status 1. */
  datatype PipelineError =
      /** The file has no header row (main.py:40-42). */
    | MissingHeader
      /** The header lacks `TCG Market Price` or `TCG Marketplace Price` (main.py:43-48). */
    | MissingColumns
      /** A row's low price is not a number (main.py:53-55). */
    | MalformedRow(rowNum: int, name: Cell)
      /** Any other exception; here, a column the records do not have (main.py:68-70). */
    | Unexpected(cause: string)

  /** What a successful run writes: the output path, the header, the updated rows. */
  datatype Written = Written(path: string, header: seq<string>, rows: seq<Record>)

  /** How a failing row aborts the run: a malformed price is reported as such, a `KeyError` as unexpected. */
  function AsPipelineError(e: RowError): PipelineError
  {
    match e
    case MalformedLowPrice(n, name) => MalformedRow(n, name)
    case MissingKey(k) => Unexpected(k)
  }

  /** The header passes both checks made before any row is read. */
  predicate ValidHeader(header: seq<string>) {
    header != [] && MarketPrice in header && MarketplacePrice in header
  }

  /** The `k`-th of `rows`, numbered `first + k`, transforms without error. */
  predicate RowPasses(rows: seq<Record>, floor: real, first: int, k: int,
                      parse: string -> Option<real>, format2: real -> string)
    requires 0 <= k < |rows|
  {
    ProcessRow(rows[k], floor, first + k, parse, format2).Success?
  }

  /**
   * Transforming the rows in order, the first numbered `first`: the first
   * failure is the result, otherwise all transformed rows in input order.
   */
  function TransformRows(rows: seq<Record>, floor: real, first: int,
                         parse: string -> Option<real>, format2: real -> string): (r: Result<seq<Record>, RowError>)
    ensures r.Success? ==>
      && |r.value| == |rows|
      && forall k :: 0 <= k < |rows| ==> ProcessRow(rows[k], floor, first + k, parse, format2) == Success(r.value[k])
    decreases |rows|
  {
    if rows == [] then Success([])
    else
      match ProcessRow(rows[0], floor, first, parse, format2)
      case Failure(e) => Failure(e)
      case Success(updated) =>
        match TransformRows(rows[1..], floor, first + 1, parse, format2)
        case Failure(e) => Failure(e)
        case Success(rest) => Success([updated] + rest)
  }

  /** When every row passes, transforming them all succeeds. */
  lemma {:induction false} TransformRowsSucceeds(rows: seq<Record>, floor: real, first: int,
                                                 parse: string -> Option<real>, format2: real -> string)
    requires forall k :: 0 <= k < |rows| ==> RowPasses(rows, floor, first, k, parse, format2)
    ensures TransformRows(rows, floor, first, parse, format2).Success?
    decreases |rows|
  {
    if rows != [] {
      var rest, next := rows[1..], first + 1;
      forall k | 0 <= k < |rest|
        ensures RowPasses(rest, floor, next, k, parse, format2)
      {
        assert rest[k] == rows[k + 1];
        assert RowPasses(rows, floor, first, k + 1, parse, format2);
      }
      TransformRowsSucceeds(rest, floor, next, parse, format2);
      assert RowPasses(rows, floor, first, 0, parse, format2);
    }
  }

  /**
   * When rows before `k` pass and row `k` fails, the result is row `k`'s
   * error, whatever the rows after it hold.
   */
  lemma {:induction false} TransformRowsFirstFailure(rows: seq<Record>, k: int, floor: real, first: int,
                                                     parse: string -> Option<real>, format2: real -> string)
    requires 0 <= k < |rows|
    requires forall j :: 0 <= j < k ==> RowPasses(rows, floor, first, j, parse, format2)
    requires !RowPasses(rows, floor, first, k, parse, format2)
    ensures TransformRows(rows, floor, first, parse, format2)
         == Failure(ProcessRow(rows[k], floor, first + k, parse, format2).error)
    decreases k
  {
    if k > 0 {
      assert RowPasses(rows, floor, first, 0, parse, format2);
      var rest, next := rows[1..], first + 1;
      forall j | 0 <= j < k - 1
        ensures RowPasses(rest, floor, next, j, parse, format2)
      {
        assert rest[j] == rows[j + 1];
        assert RowPasses(rows, floor, first, j + 1, parse, format2);
      }
      assert rest[k - 1] == rows[k];
      TransformRowsFirstFailure(rest, k - 1, floor, next, parse, format2);
    }
  }

  /**
   * A whole run, as a function of the input path, the header (empty when
   * the file has none), the parsed data rows and the price floor.
   */
  function Run(input: string, header: seq<string>, rows: seq<Record>, floor: real,
               parse: string -> Option<real>, format2: real -> string): Result<Written, PipelineError>
  {
    if header == [] then Failure(MissingHeader)
    else if MarketPrice !in header || MarketplacePrice !in header then Failure(MissingColumns)
    else
      match TransformRows(rows, floor, FirstDataRow, parse, format2)
      case Failure(e) => Failure(AsPipelineError(e))
      case Success(updated) => Success(Written(OutputPath.UpdatedPath(input), header, updated))
  }

  /** The exit status of an outcome: 0 when the output was written, 1 on every error. */
  function ExitCode(outcome: Result<Written, PipelineError>): int
  {
    if outcome.Success? then 0 else 1
  }

  /**
   * `read_and_update_csv`: the header checks, then a loop over the data
   * rows that returns at the first failing row and otherwise collects the
   * updated rows; the output exists only after the loop has finished.
   */
  method ReadAndUpdateCsv(input: string, header: seq<string>, rows: seq<Record>, floor: real,
                          parse: string -> Option<real>, format2: real -> string)
    returns (outcome: Result<Written, PipelineError>)
    ensures outcome == Run(input, header, rows, floor, parse, format2)
  {
    var output := OutputPath.UpdatedPath(input);
    if header == [] {
      return Failure(MissingHeader);
    }
    if MarketPrice !in header || MarketplacePrice !in header {
      return Failure(MissingColumns);
    }
    var updated: seq<Record> := [];
    var i := 0;
    while i < |rows|
      invariant 0 <= i <= |rows|
      invariant |updated| == i
      invariant forall k :: 0 <= k < i ==>
        ProcessRow(rows[k], floor, FirstDataRow + k, parse, format2) == Success(updated[k])
    {
      var r := ProcessRow(rows[i], floor, FirstDataRow + i, parse, format2);
      if r.Failure? {
        TransformRowsFirstFailure(rows, i, floor, FirstDataRow, parse, format2);
        return Failure(AsPipelineError(r.error));
      }
      updated := updated + [r.value];
      i := i + 1;
    }
    TransformRowsSucceeds(rows, floor, FirstDataRow, parse, format2);
    assert TransformRows(rows, floor, FirstDataRow, parse, format2).value == updated;
    return Success(Written(output, header, updated));
  }

  /** Without a header the run fails before any row is looked at. */
  lemma MissingHeaderFailsFirst(input: string, rows: seq<Record>, floor: real,
                                parse: string -> Option<real>, format2: real -> string)
    ensures Run(input, [], rows, floor, parse, format2) == Failure(MissingHeader)
  {
  }

  /**
   * A header lacking either checked column fails before any row is looked
   * at; `TCG Low Price` is not among the columns checked.
   */
  lemma MissingColumnsFailsFirst(input: string, header: seq<string>, rows: seq<Record>, floor: real,
                                 parse: string -> Option<real>, format2: real -> string)
    requires header != []
    ensures Run(input, header, rows, floor, parse, format2) == Failure(MissingColumns)
        <==> MarketPrice !in header || MarketplacePrice !in header
  {
  }

  /** All or nothing: output is written exactly when the header is valid and every row passes. */
  lemma RunSucceedsIffAllRowsPass(input: string, header: seq<string>, rows: seq<Record>, floor: real,
                                  parse: string -> Option<real>, format2: real -> string)
    ensures Run(input, header, rows, floor, parse, format2).Success?
        <==> ValidHeader(header) && forall k :: 0 <= k < |rows| ==> RowPasses(rows, floor, FirstDataRow, k, parse, format2)
  {
    if ValidHeader(header) && forall k :: 0 <= k < |rows| ==> RowPasses(rows, floor, FirstDataRow, k, parse, format2) {
      TransformRowsSucceeds(rows, floor, FirstDataRow, parse, format2);
    }
  }

  /**
   * The run stops at the first failing row: its error, with row number
   * `k + 2` and the row's product name, is the outcome.
   */
  lemma RunStopsAtFirstBadRow(input: string, header: seq<string>, rows: seq<Record>, k: int, floor: real,
                              parse: string -> Option<real>, format2: real -> string)
    requires ValidHeader(header)
    requires 0 <= k < |rows|
    requires forall j :: 0 <= j < k ==> RowPasses(rows, floor, FirstDataRow, j, parse, format2)
    requires !RowPasses(rows, floor, FirstDataRow, k, parse, format2)
    ensures Run(input, header, rows, floor, parse, format2)
         == Failure(AsPipelineError(ProcessRow(rows[k], floor, k + 2, parse, format2).error))
    // a price that does not parse is reported with row number k + 2 and the product name
    ensures LowPrice in rows[k] && ProductName in rows[k] ==>
      Run(input, header, rows, floor, parse, format2) == Failure(MalformedRow(k + 2, rows[k][ProductName]))
    // a missing column escapes the malformed-row handler and ends as an unexpected error
    ensures LowPrice !in rows[k] ==>
      Run(input, header, rows, floor, parse, format2) == Failure(Unexpected(LowPrice))
    ensures LowPrice in rows[k] && ProductName !in rows[k] ==>
      Run(input, header, rows, floor, parse, format2) == Failure(Unexpected(ProductName))
  {
    TransformRowsFirstFailure(rows, k, floor, FirstDataRow, parse, format2);
  }

  /** Rows after the first failing one are never looked at: changing them changes nothing. */
  lemma RunIgnoresRowsAfterFailure(input: string, header: seq<string>, rows: seq<Record>, rows': seq<Record>,
                                   k: int, floor: real, parse: string -> Option<real>, format2: real -> string)
    requires 0 <= k < |rows| && k < |rows'| && rows[..k + 1] == rows'[..k + 1]
    requires forall j :: 0 <= j < k ==> RowPasses(rows, floor, FirstDataRow, j, parse, format2)
    requires !RowPasses(rows, floor, FirstDataRow, k, parse, format2)
    ensures Run(input, header, rows, floor, parse, format2).Failure?
    ensures Run(input, header, rows, floor, parse, format2) == Run(input, header, rows', floor, parse, format2)
  {
    forall j | 0 <= j <= k
      ensures rows[j] == rows'[j]
      ensures RowPasses(rows, floor, FirstDataRow, j, parse, format2) == RowPasses(rows', floor, FirstDataRow, j, parse, format2)
    {
      assert rows[..k + 1][j] == rows'[..k + 1][j];
    }
    if ValidHeader(header) {
      TransformRowsFirstFailure(rows, k, floor, FirstDataRow, parse, format2);
      TransformRowsFirstFailure(rows', k, floor, FirstDataRow, parse, format2);
    }
  }

  /**
   * On success the output has the input header and path derived from the
   * input, one row per input row in input order; each output row is its
   * input row with only the marketplace price replaced, by the formatted
   * max of the row's low price and the floor.
   */
  lemma RunOutput(input: string, header: seq<string>, rows: seq<Record>, floor: real,
                  parse: string -> Option<real>, format2: real -> string)
    requires Run(input, header, rows, floor, parse, format2).Success?
    ensures var w := Run(input, header, rows, floor, parse, format2).value;
      && w.path == OutputPath.UpdatedPath(input)
      && w.header == header
      && |w.rows| == |rows|
      && forall k :: 0 <= k < |rows| ==>
           && LowPrice in rows[k]
           && ParseCell(rows[k][LowPrice], parse).Some?
           && w.rows[k] == rows[k][MarketplacePrice := Text(format2(Clamp(ParseCell(rows[k][LowPrice], parse).value, floor)))]
  {
  }

  /** The set of column names of a header. */
  function Columns(header: seq<string>): set<string>
  {
    set c | c in header
  }

  /** Records whose columns are the header's keep exactly those columns in the output. */
  lemma RunKeepsColumns(input: string, header: seq<string>, rows: seq<Record>, floor: real,
                        parse: string -> Option<real>, format2: real -> string)
    requires forall k :: 0 <= k < |rows| ==> rows[k].Keys == Columns(header)
    requires Run(input, header, rows, floor, parse, format2).Success?
    ensures forall k :: 0 <= k < |rows| ==> Run(input, header, rows, floor, parse, format2).value.rows[k].Keys == Columns(header)
  {
  }

  /**
   * Any valid header with no data rows yields header-only output.
   */
  lemma HeaderOnlyOutput(input: string, header: seq<string>, floor: real,
                         parse: string -> Option<real>, format2: real -> string)
    requires ValidHeader(header)
    ensures Run(input, header, [], floor, parse, format2)
         == Success(Written(OutputPath.UpdatedPath(input), header, []))
  {
  }

  /** `TCG Low Price` is not among the checked columns: a header without it is valid. */
  lemma LowPriceNotChecked()
    ensures ValidHeader([MarketPrice, MarketplacePrice]) && LowPrice !in [MarketPrice, MarketplacePrice]
  {
  }

  /**
   * Because `TCG Low Price` is not checked in the header, records without
   * that column pass validation and the run fails at the first data row
   * with an unexpected error naming the column.
   */
  lemma LowPriceColumnAbsentIsUnexpected(input: string, header: seq<string>, rows: seq<Record>, floor: real,
                                         parse: string -> Option<real>, format2: real -> string)
    requires ValidHeader(header) && LowPrice !in header
    requires rows != [] && rows[0].Keys == Columns(header)
    ensures Run(input, header, rows, floor, parse, format2) == Failure(Unexpected(LowPrice))
  {
  }

  /**
   * An empty low price on the second data row aborts the run with row
   * number 3 and that row's product name, although the first row is fine.
   */
  lemma EmptyLowPriceOnSecondRowAborts(input: string, floor: real,
                                       parse: string -> Option<real>, format2: real -> string)
    requires parse("0.50").Some? && parse("") == None
    ensures Run(input, [ProductName, LowPrice, MarketPrice, MarketplacePrice],
                [Listing("Bolt", "0.50"), Listing("Shock", "")], floor, parse, format2)
         == Failure(MalformedRow(3, Text("Shock")))
  {
  }

  /**
   * The exit status of a run is 0 exactly when the header passes both
   * checks and every data row transforms; every other path returns 1.
   */
  lemma ExitCodeOfRun(input: string, header: seq<string>, rows: seq<Record>, floor: real,
                      parse: string -> Option<real>, format2: real -> string)
    ensures ExitCode(Run(input, header, rows, floor, parse, format2)) == 0
        <==> ValidHeader(header) && forall k :: 0 <= k < |rows| ==> RowPasses(rows, floor, FirstDataRow, k, parse, format2)
    ensures ExitCode(Run(input, header, rows, floor, parse, format2)) in {0, 1}
  {
    RunSucceedsIffAllRowsPass(input, header, rows, floor, parse, format2);
  }
}
