/**
 * Coordinate cleaning and row validation (app.py lines 65-71): each latitude
 * and longitude cell is read as a number after its decimal commas become
 * points; rows missing either coordinate are dropped.
 */
module Coordinates {
  import opened Wrappers
  import opened Text
  import opened Seqs

  /** A data row: one cell per column, `None` where the table holds no value. */
  type Row = seq<Option<string>>

  /**
   * `pd.to_numeric(text, errors='coerce')` on one value: a number, or `None`
   * for text it cannot read. Which texts it reads is not part of the model.
   */
  type Parser = string -> Option<real>

  /** The cell of `row` in column `j`; a short row reads as missing past its end. */
  function Cell(row: Row, j: nat): Option<string> {
    if j < |row| then row[j] else None
  }

  /** Lines 67-68 on one cell: every `,` becomes `.`, then the text is parsed. */
  function CleanCoordinate(parse: Parser, cell: Option<string>): (v: Option<real>)
    ensures cell.None? ==> v.None?
  {
    match cell
    case None => None
    case Some(text) => parse(ReplaceChar(text, ',', '.'))
  }

  /** A cell written with decimal commas reads as the same cell written with points. */
  lemma DecimalCommaReadAsPoint(parse: Parser, text: string)
    ensures CleanCoordinate(parse, Some(text)) == CleanCoordinate(parse, Some(ReplaceChar(text, ',', '.')))
  {
    var once := ReplaceChar(text, ',', '.');
    assert ReplaceChar(once, ',', '.') == once;
  }

  /** The parser sees the cell with each comma turned into a point and nothing else changed, so never a comma. */
  lemma ParserSeesNoComma(parse: Parser, text: string)
    ensures exists t ::
      && |t| == |text|
      && (forall i :: 0 <= i < |text| ==> t[i] == if text[i] == ',' then '.' else text[i])
      && ',' !in t
      && CleanCoordinate(parse, Some(text)) == parse(t)
  {
    var t := ReplaceChar(text, ',', '.');
    assert ',' !in t && |t| == |text| && CleanCoordinate(parse, Some(text)) == parse(t);
  }

  lemma LocaleDecimalExample(parse: Parser)
    ensures CleanCoordinate(parse, Some("45,1234")) == parse("45.1234")
  {
    assert ReplaceChar("45,1234", ',', '.') == "45.1234";
  }

  /** A validated row: its cells as read, and the two coordinates cleaned from them. */
  datatype Spot = Spot(cells: Row, lat: real, lon: real)

  predicate HasCoordinates(parse: Parser, latCol: nat, lonCol: nat, row: Row) {
    CleanCoordinate(parse, Cell(row, latCol)).Some? && CleanCoordinate(parse, Cell(row, lonCol)).Some?
  }

  function CoordinatePredicate(parse: Parser, latCol: nat, lonCol: nat): Row -> bool {
    row => HasCoordinates(parse, latCol, lonCol, row)
  }

  function Cells(spots: seq<Spot>): (rows: seq<Row>)
    ensures |rows| == |spots|
    ensures forall i :: 0 <= i < |spots| ==> rows[i] == spots[i].cells
  {
    if spots == [] then [] else [spots[0].cells] + Cells(spots[1..])
  }

  /**
   * Line 71, `df.dropna(subset=['lat', 'lon'])`: exactly the rows with both
   * coordinates, in their order and unchanged, each with those coordinates.
   */
  function Validate(parse: Parser, rows: seq<Row>, latCol: nat, lonCol: nat): (spots: seq<Spot>)
    ensures Cells(spots) == Filter(rows, CoordinatePredicate(parse, latCol, lonCol))
    ensures forall i :: 0 <= i < |spots| ==>
      && CleanCoordinate(parse, Cell(spots[i].cells, latCol)) == Some(spots[i].lat)
      && CleanCoordinate(parse, Cell(spots[i].cells, lonCol)) == Some(spots[i].lon)
  {
    if rows == [] then []
    else
      var rest := Validate(parse, rows[1..], latCol, lonCol);
      match (CleanCoordinate(parse, Cell(rows[0], latCol)), CleanCoordinate(parse, Cell(rows[0], lonCol)))
      case (Some(lat), Some(lon)) =>
        var spots := [Spot(rows[0], lat, lon)] + rest;
        assert spots[1..] == rest;
        spots
      case _ => rest
  }
}
