/**
 * The clean-and-filter run of app.py lines 56-96, from the parsed table to
 * the rows the page shows, or to the error message of lines 137-138.
 */
module Pipeline {
  import opened Wrappers
  import opened Order
  import opened Seqs
  import opened Schema
  import opened Coordinates
  import opened Filters
  import opened Frames

  /** What the display code receives. Without a tags column there is no universe and no selection. */
  datatype View = View(
    columns: Columns,
    spots: seq<Spot>,
    universe: seq<string>,
    selected: seq<string>,
    shown: seq<Spot>)

  /** The view for this table, query and set of toggled tags. */
  ghost predicate Describes(headers: seq<string>, rows: seq<Row>, parse: Parser, query: string,
                            toggled: set<string>, v: View)
  {
    var c := v.columns;
    && WellResolved(NormalizeHeaders(headers), c)
    && Cells(v.spots) == Filter(rows, CoordinatePredicate(parse, c.lat, c.lon))
    && (forall i :: 0 <= i < |v.spots| ==>
          && CleanCoordinate(parse, Cell(v.spots[i].cells, c.lat)) == Some(v.spots[i].lat)
          && CleanCoordinate(parse, Cell(v.spots[i].cells, c.lon)) == Some(v.spots[i].lon))
    && v.universe == (if c.tags.Some? then TagUniverse(v.spots, c.tags.value) else [])
    && (forall t :: t in v.selected <==> t in v.universe && t in toggled)
    && StrictlySorted(v.selected)
    && v.shown == Filter(v.spots, QueryPredicate(c.name, query, c.tags, v.selected))
  }

  /** The table once its columns are resolved and its rows validated. */
  datatype Loaded = Loaded(columns: Columns, spots: seq<Spot>)

  /**
   * Lines 58-76 on the data frame: normalise the headers, add the numeric
   * coordinate columns, drop the rows missing either, then look up the other
   * columns among the headers as they are now.
   */
  method Load(headers: seq<string>, rows: seq<Row>, parse: Parser) returns (loaded: Result<Loaded, SchemaError>)
    ensures loaded.Failure? <==>
      NoMatch(NormalizeHeaders(headers), LatitudeRule) || NoMatch(NormalizeHeaders(headers), LongitudeRule)
    ensures loaded.Success? ==>
      && ResolveColumns(NormalizeHeaders(headers)) == Success(loaded.value.columns)
      && loaded.value.spots == Validate(parse, rows, loaded.value.columns.lat, loaded.value.columns.lon)
  {
    var df := new DataFrame(headers, rows);
    df.NormalizeColumns();
    var hs := df.columns;
    var latCol := FirstMatch(df.columns, LatitudeRule);
    var lonCol := FirstMatch(df.columns, LongitudeRule);
    if latCol.Some? && lonCol.Some? {
      df.AddCoordinates(parse, latCol.value, lonCol.value);
    }
    var ok := df.DropMissingCoordinates();
    if !ok {
      return Failure(MissingCoordinateColumn);
    }
    KeepCompleteIsValidate(parse, rows, latCol.value, lonCol.value);
    var spots := df.Spots();

    var cs := df.columns;
    LookupAfterCoordinates(hs);
    var c := Columns(latCol.value, lonCol.value,
                     FirstMatchOr(cs, NameRule, 0), FirstMatchOr(cs, AddressRule, 1),
                     FirstMatch(cs, LinkRule), FirstMatch(cs, TagsRule));
    assert ResolveColumns(hs) == Success(c);
    loaded := Success(Loaded(c, spots));
  }

  /**
   * The lookups of lines 73-76 run on the headers with `lat` and `lon` added
   * and still find what they would on the normalised headers alone.
   */
  lemma LookupAfterCoordinates(hs: seq<string>)
    requires FirstMatch(hs, LatitudeRule).Some? && FirstMatch(hs, LongitudeRule).Some?
    ensures var cs := WithCoordinateColumns(hs);
      && 1 < |cs|
      && ResolveColumns(hs) == Success(Columns(
           FirstMatch(hs, LatitudeRule).value, FirstMatch(hs, LongitudeRule).value,
           FirstMatchOr(cs, NameRule, 0), FirstMatchOr(cs, AddressRule, 1),
           FirstMatch(cs, LinkRule), FirstMatch(cs, TagsRule)))
  {
    var cs := WithCoordinateColumns(hs);
    assert cs == hs + cs[|hs|..];
    AddedCoordinateColumnsUnseen(hs, cs[|hs|..]);
  }

  /**
   * Lines 58-96. The table fails exactly when a coordinate column is missing;
   * otherwise the shown rows are the validated rows that pass both the search
   * and the tag filter, in table order, and the universe does not depend on
   * the query.
   */
  method Run(headers: seq<string>, rows: seq<Row>, parse: Parser, query: string, toggled: set<string>)
    returns (outcome: Result<View, SchemaError>)
    ensures outcome.Failure? <==>
      NoMatch(NormalizeHeaders(headers), LatitudeRule) || NoMatch(NormalizeHeaders(headers), LongitudeRule)
    ensures outcome.Success? ==> ResolveColumns(NormalizeHeaders(headers)) == Success(outcome.value.columns)
    ensures outcome.Success? ==> Describes(headers, rows, parse, query, toggled, outcome.value)
  {
    var loaded := Load(headers, rows, parse);
    if loaded.Failure? {
      return Failure(loaded.error);
    }
    var c, spots := loaded.value.columns, loaded.value.spots;
    assert WellResolved(NormalizeHeaders(headers), c);
    var v := ApplyFilters(c, spots, query, toggled);
    outcome := Success(v);
  }

  /**
   * Lines 83-96 on the validated rows: the search, the tag universe, the
   * selected tags and the tag filter.
   */
  method ApplyFilters(c: Columns, spots: seq<Spot>, query: string, toggled: set<string>) returns (v: View)
    ensures v.columns == c && v.spots == spots
    ensures v.universe == (if c.tags.Some? then TagUniverse(spots, c.tags.value) else [])
    ensures forall t :: t in v.selected <==> t in v.universe && t in toggled
    ensures StrictlySorted(v.selected)
    ensures v.shown == Filter(spots, QueryPredicate(c.name, query, c.tags, v.selected))
  {
    var shown := Search(spots, c.name, query);
    var universe: seq<string> := [];
    var selected: seq<string> := [];
    if c.tags.Some? {
      universe := TagUniverse(spots, c.tags.value);
      selected := SelectTags(universe, toggled);
      if selected != [] {
        shown := TagStage(shown, c.tags, selected);
      }
    }
    SearchThenTags(spots, c.name, query, c.tags, selected);
    v := View(c, spots, universe, selected, shown);
  }

  /**
   * A table with no latitude header, or none for longitude, fails to resolve
   * and meets the failure condition of `Run`, so it ends in the error branch,
   * whatever its rows.
   */
  lemma NoCoordinateColumnsNoSpots(headers: seq<string>)
    requires
      || (forall i :: 0 <= i < |headers| ==> NormalizeHeader(headers[i]) != "latitude" && NormalizeHeader(headers[i]) != "lat")
      || (forall i :: 0 <= i < |headers| ==> NormalizeHeader(headers[i]) != "longitude" && NormalizeHeader(headers[i]) != "lon")
    ensures NoMatch(NormalizeHeaders(headers), LatitudeRule) || NoMatch(NormalizeHeaders(headers), LongitudeRule)
    ensures ResolveColumns(NormalizeHeaders(headers)) == Failure(MissingCoordinateColumn)
  {
    if forall i :: 0 <= i < |headers| ==> NormalizeHeader(headers[i]) != "latitude" && NormalizeHeader(headers[i]) != "lat" {
      NoLatitudeHeader(headers);
    } else {
      NoLongitudeHeader(headers);
    }
  }

  lemma NoLatitudeHeader(headers: seq<string>)
    requires forall i :: 0 <= i < |headers| ==> NormalizeHeader(headers[i]) != "latitude" && NormalizeHeader(headers[i]) != "lat"
    ensures NoMatch(NormalizeHeaders(headers), LatitudeRule)
  {
    var hs := NormalizeHeaders(headers);
    forall k | 0 <= k < |hs| ensures hs[k] != "latitude" && hs[k] != "lat" {
      assert hs[k] == NormalizeHeader(headers[k]);
    }
    NoLatitudeHeaderUnmatched(hs);
  }

  lemma NoLongitudeHeader(headers: seq<string>)
    requires forall i :: 0 <= i < |headers| ==> NormalizeHeader(headers[i]) != "longitude" && NormalizeHeader(headers[i]) != "lon"
    ensures NoMatch(NormalizeHeaders(headers), LongitudeRule)
  {
    var hs := NormalizeHeaders(headers);
    forall k | 0 <= k < |hs| ensures hs[k] != "longitude" && hs[k] != "lon" {
      assert hs[k] == NormalizeHeader(headers[k]);
    }
    NoLongitudeHeaderUnmatched(hs);
  }

  lemma NoLatitudeHeaderUnmatched(hs: seq<string>)
    requires forall k :: 0 <= k < |hs| ==> hs[k] != "latitude" && hs[k] != "lat"
    ensures NoMatch(hs, LatitudeRule)
  {
  }

  lemma NoLongitudeHeaderUnmatched(hs: seq<string>)
    requires forall k :: 0 <= k < |hs| ==> hs[k] != "longitude" && hs[k] != "lon"
    ensures NoMatch(hs, LongitudeRule)
  {
  }
}
