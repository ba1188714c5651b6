/**
 * The per-record transform `process_row` (main.py:18-31): read the low
 * price of one record and overwrite its marketplace price with the low
 * price clamped from below by the price floor, as a two-decimal string.
 *
 * Prices are exact (`real`); the source's `float(...)` parser and its
 * `:.2f` formatter are passed in as the functions `parse` and `format2`,
 * about which nothing is assumed.
 */
module RowTransform {
  import opened Wrappers

  const ProductName := "Product Name"
  const LowPrice := "TCG Low Price"
  const MarketPrice := "TCG Market Price"
  const MarketplacePrice := "TCG Marketplace Price"

  /**
   * One field of a record as the CSV reader delivers it: the field's text,
   * or Missing for a column that a short row does not reach (the reader
   * fills those with None).
   */
  datatype Cell = Text(text: string) | Missing

  /** A record: column name to field, as one row of a CSV dict reader. */
  type Record = map<string, Cell>

  /** Why one record could not be transformed. */
  datatype RowError =
      /** The low price is not a number; carries the row number and the product name. */
    | MalformedLowPrice(rowNum: int, name: Cell)
      /** The record has no such column at all (a `KeyError` in the source). */
    | MissingKey(key: string)

  /** Parsing a field: a missing field fails just as unparsable text does. */
  function ParseCell(c: Cell, parse: string -> Option<real>): Option<real>
  {
    match c
    case Text(s) => parse(s)
    case Missing => None
  }

  /** The marketplace price for a low price: never below the floor (main.py:27-30). */
  function Clamp(low: real, floor: real): (price: real)
    ensures price >= low && price >= floor
    ensures price == low || price == floor
  {
    if low >= floor then low else floor
  }

  /**
   * `process_row`: parse the low price; on failure report the row number and
   * the product name; on success set the marketplace price to the formatted
   * clamped price and leave every other field as it was.
   */
  function ProcessRow(row: Record, floor: real, rowNum: int,
                      parse: string -> Option<real>, format2: real -> string): (r: Result<Record, RowError>)
    // it succeeds exactly when the low price is there and parses
    ensures r.Success? <==> LowPrice in row && ParseCell(row[LowPrice], parse).Some?
    // the marketplace price becomes max(low, floor), formatted
    ensures r.Success? ==>
      var low := ParseCell(row[LowPrice], parse).value;
      && MarketplacePrice in r.value
      && r.value[MarketplacePrice] == Text(format2(if low >= floor then low else floor))
    // no other field changes, and no other column appears or disappears
    ensures r.Success? ==>
      && r.value.Keys == row.Keys + {MarketplacePrice}
      && forall k :: k in row && k != MarketplacePrice ==> r.value[k] == row[k]
    // a field a short row does not reach is malformed, like text that does not parse
    ensures LowPrice in row && row[LowPrice] == Missing && ProductName in row ==>
      r == Failure(MalformedLowPrice(rowNum, row[ProductName]))
    // a low price that is there but does not parse names the row and the product
    ensures LowPrice in row && ParseCell(row[LowPrice], parse).None? ==>
      r == Failure(if ProductName in row then MalformedLowPrice(rowNum, row[ProductName])
                   else MissingKey(ProductName))
    // a record without the low-price column fails before anything else
    ensures LowPrice !in row ==> r == Failure(MissingKey(LowPrice))
  {
    if LowPrice !in row then
      Failure(MissingKey(LowPrice))
    else
      match ParseCell(row[LowPrice], parse)
      case None =>
        if ProductName in row then Failure(MalformedLowPrice(rowNum, row[ProductName]))
        else Failure(MissingKey(ProductName))
      case Some(low) =>
        Success(row[MarketplacePrice := Text(format2(Clamp(low, floor)))])
  }

  /** A card listing with the four columns of the input format. */
  function Listing(name: string, low: string): Record
  {
    map[ProductName := Text(name), LowPrice := Text(low),
        MarketPrice := Text("0.60"), MarketplacePrice := Text("")]
  }

  /** A low price under the floor is raised to the floor; one above it is kept. */
  lemma ClampScenarios(parse: string -> Option<real>, format2: real -> string)
    requires parse("0.50") == Some(0.5) && parse("2.50") == Some(2.5)
    ensures ProcessRow(Listing("Bolt", "0.50"), 1.0, 2, parse, format2)
         == Success(Listing("Bolt", "0.50")[MarketplacePrice := Text(format2(1.0))])
    ensures ProcessRow(Listing("Bolt", "2.50"), 1.0, 2, parse, format2)
         == Success(Listing("Bolt", "2.50")[MarketplacePrice := Text(format2(2.5))])
  {
  }
}
