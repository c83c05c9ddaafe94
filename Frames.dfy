/**
 * The data frame `df` of app.py as the script changes it in place: its
 * headers are normalised (line 59), numeric `lat` and `lon` columns are added
 * (lines 67-68), and the rows missing either are dropped (line 71).
 */
module Frames {
  import opened Wrappers
  import opened Seqs
  import opened Schema
  import opened Coordinates

  /** `df['lat'] = ...; df['lon'] = ...` add a column only where none of that name exists. */
  function WithCoordinateColumns(cs: seq<string>): (r: seq<string>)
    ensures |r| >= |cs| && r[..|cs|] == cs
    ensures forall k :: |cs| <= k < |r| ==> r[k] == "lat" || r[k] == "lon"
    ensures "lat" in r && "lon" in r
    ensures |r| == |cs| + (if "lat" in cs then 0 else 1) + (if "lon" in cs then 0 else 1)
    ensures "lat" !in cs ==> r[|cs|] == "lat"
    ensures "lon" !in cs ==> r[|r| - 1] == "lon"
  {
    var withLat := if "lat" in cs then cs else cs + ["lat"];
    if "lon" in withLat then withLat else withLat + ["lon"]
  }

  /** Column `j` of every row, read as a coordinate. */
  function CleanColumn(parse: Parser, rows: seq<Row>, j: nat): (col: seq<Option<real>>)
    ensures |col| == |rows|
    ensures forall i :: 0 <= i < |rows| ==> col[i] == CleanCoordinate(parse, Cell(rows[i], j))
  {
    seq(|rows|, i requires 0 <= i < |rows| => CleanCoordinate(parse, Cell(rows[i], j)))
  }

  /** Cleaning a column row by row: dropping the first row first drops its cleaned cell. */
  lemma CleanColumnTail(parse: Parser, rows: seq<Row>, j: nat)
    requires rows != []
    ensures CleanColumn(parse, rows, j) == [CleanCoordinate(parse, Cell(rows[0], j))] + CleanColumn(parse, rows[1..], j)
  {
    assert CleanColumn(parse, rows, j)[1..] == CleanColumn(parse, rows[1..], j);
  }

  /** Row `i` is complete, and `x` is it with its two coordinates. */
  ghost predicate KeptAt(rows: seq<Row>, lat: seq<Option<real>>, lon: seq<Option<real>>, i: nat, x: Spot) {
    && i < |rows| && i < |lat| && i < |lon|
    && lat[i] == Some(x.lat) && lon[i] == Some(x.lon) && rows[i] == x.cells
  }

  /** The rows whose two coordinates are both present, with those coordinates. */
  function KeepComplete(rows: seq<Row>, lat: seq<Option<real>>, lon: seq<Option<real>>): (spots: seq<Spot>)
    requires |lat| == |rows| && |lon| == |rows|
    decreases |rows|
  {
    if rows == [] then []
    else
      var rest := KeepComplete(rows[1..], lat[1..], lon[1..]);
      if lat[0].Some? && lon[0].Some? then [Spot(rows[0], lat[0].value, lon[0].value)] + rest else rest
  }

  /** `dropna` keeps exactly the complete rows, each with its two coordinates. */
  lemma {:induction false} KeepCompleteMembers(rows: seq<Row>, lat: seq<Option<real>>, lon: seq<Option<real>>, x: Spot)
    requires |lat| == |rows| && |lon| == |rows|
    ensures x in KeepComplete(rows, lat, lon) <==> exists i: nat :: KeptAt(rows, lat, lon, i, x)
    decreases |rows|
  {
    if rows != [] {
      KeepCompleteMembers(rows[1..], lat[1..], lon[1..], x);
      if exists i: nat :: KeptAt(rows, lat, lon, i, x) {
        var i: nat :| KeptAt(rows, lat, lon, i, x);
        if i > 0 {
          assert KeptAt(rows[1..], lat[1..], lon[1..], i - 1, x);
        }
      }
      if exists i: nat :: KeptAt(rows[1..], lat[1..], lon[1..], i, x) {
        var i: nat :| KeptAt(rows[1..], lat[1..], lon[1..], i, x);
        assert KeptAt(rows, lat, lon, i + 1, x);
      }
      if lat[0].Some? && lon[0].Some? && x == Spot(rows[0], lat[0].value, lon[0].value) {
        assert KeptAt(rows, lat, lon, 0, x);
      }
    }
  }

  /** Dropping incomplete rows from freshly cleaned columns is the validation of line 71. */
  lemma {:induction false} KeepCompleteIsValidate(parse: Parser, rows: seq<Row>, latCol: nat, lonCol: nat)
    ensures KeepComplete(rows, CleanColumn(parse, rows, latCol), CleanColumn(parse, rows, lonCol))
         == Validate(parse, rows, latCol, lonCol)
    decreases |rows|
  {
    if rows != [] {
      CleanColumnTail(parse, rows, latCol);
      CleanColumnTail(parse, rows, lonCol);
      KeepCompleteIsValidate(parse, rows[1..], latCol, lonCol);
    }
  }

  class DataFrame {
    var columns: seq<string>
    var rows: seq<Row>
    /** The numeric `lat` and `lon` columns, meaningful once `hasCoordinates` holds. */
    var lat: seq<Option<real>>
    var lon: seq<Option<real>>
    var hasCoordinates: bool

    ghost predicate Valid()
      reads this
    {
      hasCoordinates ==> |lat| == |rows| && |lon| == |rows|
    }

    /** Every row has both coordinates. */
    ghost predicate Complete()
      reads this
    {
      hasCoordinates && |lat| == |rows| && |lon| == |rows| &&
      forall i :: 0 <= i < |rows| ==> lat[i].Some? && lon[i].Some?
    }

    /** The rows of a complete frame with their coordinates. */
    function Spots(): seq<Spot>
      reads this
      requires Complete()
    {
      var cells, lats, lons := rows, lat, lon;
      seq(|cells|, i requires 0 <= i < |cells| => Spot(cells[i], lats[i].value, lons[i].value))
    }

    /** Line 58: the table as read, with no numeric coordinate columns. */
    constructor (headers: seq<string>, cells: seq<Row>)
      ensures Valid() && columns == headers && rows == cells && !hasCoordinates
    {
      columns, rows := headers, cells;
      lat, lon := [], [];
      hasCoordinates := false;
    }

    /** Line 59: `df.columns = df.columns.str.strip().str.lower()`. */
    method NormalizeColumns()
      requires Valid()
      modifies this
      ensures Valid()
      ensures columns == NormalizeHeaders(old(columns))
      ensures rows == old(rows) && lat == old(lat) && lon == old(lon) && hasCoordinates == old(hasCoordinates)
    {
      columns := NormalizeHeaders(columns);
    }

    /** Lines 67-68: the numeric `lat` and `lon` columns, cleaned from columns `latCol` and `lonCol`. */
    method AddCoordinates(parse: Parser, latCol: nat, lonCol: nat)
      requires Valid()
      modifies this
      ensures Valid() && hasCoordinates
      ensures columns == WithCoordinateColumns(old(columns))
      ensures rows == old(rows)
      ensures lat == CleanColumn(parse, rows, latCol) && lon == CleanColumn(parse, rows, lonCol)
    {
      columns := WithCoordinateColumns(columns);
      lat := CleanColumn(parse, rows, latCol);
      lon := CleanColumn(parse, rows, lonCol);
      hasCoordinates := true;
    }

    /**
     * Line 71: `df = df.dropna(subset=['lat', 'lon'])`. Without the two
     * numeric columns pandas raises, which `ok == false` reports.
     */
    method DropMissingCoordinates() returns (ok: bool)
      requires Valid()
      modifies this
      ensures Valid()
      ensures ok == old(hasCoordinates)
      ensures columns == old(columns) && hasCoordinates == old(hasCoordinates)
      ensures !ok ==> rows == old(rows) && lat == old(lat) && lon == old(lon)
      ensures ok ==> Complete() && Spots() == KeepComplete(old(rows), old(lat), old(lon))
    {
      if !hasCoordinates {
        return false;
      }
      var kept := KeepComplete(rows, lat, lon);
      rows := Cells(kept);
      lat := seq(|kept|, i requires 0 <= i < |kept| => Some(kept[i].lat));
      lon := seq(|kept|, i requires 0 <= i < |kept| => Some(kept[i].lon));
      assert Complete();
      assert forall i :: 0 <= i < |kept| ==> Spots()[i] == kept[i];
      ok := true;
    }
  }
}
