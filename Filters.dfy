/**
 * The search box, the tag universe, the tag toggles and the tag filter
 * (app.py lines 83 and 88-96), over the validated rows.
 */
module Filters {
  import opened Wrappers
  import opened Text
  import opened Seqs
  import opened Order
  import opened Coordinates

  /**
   * Line 83, `df[c_name].str.contains(query, case=False, na=False)`, read as a
   * literal substring test after lower-casing both sides.
   */
  predicate NameMatches(s: Spot, nameCol: nat, query: string) {
    match Cell(s.cells, nameCol)
    case None => false
    case Some(name) => Contains(Lower(name), Lower(query))
  }

  /** The search ignores the letter case of the query. */
  lemma NameMatchesIgnoresCase(s: Spot, nameCol: nat, q1: string, q2: string)
    requires Lower(q1) == Lower(q2)
    ensures NameMatches(s, nameCol, q1) <==> NameMatches(s, nameCol, q2)
  {
  }

  /** A row found by a query is found by every part of it: typing more never brings rows back. */
  lemma NameMatchesNarrowing(s: Spot, nameCol: nat, query: string, part: string)
    requires NameMatches(s, nameCol, query) && Contains(Lower(query), Lower(part))
    ensures NameMatches(s, nameCol, part)
  {
    ContainsTransitive(Lower(Cell(s.cells, nameCol).value), Lower(query), Lower(part));
  }

  /** An empty query keeps every row, a missing name included. */
  predicate SearchKeeps(s: Spot, nameCol: nat, query: string) {
    query == [] || NameMatches(s, nameCol, query)
  }

  function SearchPredicate(nameCol: nat, query: string): Spot -> bool {
    s => SearchKeeps(s, nameCol, query)
  }

  /** Line 83: `df[mask] if search_query else df`. */
  function Search(spots: seq<Spot>, nameCol: nat, query: string): (r: seq<Spot>)
    ensures query == [] ==> r == spots
    ensures r == Filter(spots, SearchPredicate(nameCol, query))
    ensures forall x :: x in r <==> x in spots && SearchKeeps(x, nameCol, query)
    ensures query != [] ==> forall i :: 0 <= i < |r| ==> Cell(r[i].cells, nameCol).Some?
  {
    if query == [] then
      FilterKeepsAll(spots, SearchPredicate(nameCol, query));
      spots
    else
      Filter(spots, SearchPredicate(nameCol, query))
  }

  /** `[t.strip() for t in str(v).split(',')]`: the tags of one cell, empty ones included. */
  function Tokens(v: string): seq<string> {
    var parts := Split(v, ',');
    seq(|parts|, i requires 0 <= i < |parts| => Strip(parts[i]))
  }

  /**
   * A cell with `n` commas yields `n + 1` tags, and every tag is trimmed and
   * comma-free.
   */
  lemma TokensWellFormed(v: string)
    ensures |Tokens(v)| == multiset(v)[','] + 1
    ensures forall k :: 0 <= k < |Tokens(v)| ==> ',' !in Tokens(v)[k]
    ensures forall k :: 0 <= k < |Tokens(v)| ==>
      Tokens(v)[k] == [] || (!IsSpace(Tokens(v)[k][0]) && !IsSpace(Tokens(v)[k][|Tokens(v)[k]| - 1]))
  {
    var parts := Split(v, ',');
    SplitCount(v, ',');
    forall k | 0 <= k < |parts| ensures ',' !in Strip(parts[k]) {
      StripKeepsOut(parts[k], ',');
    }
  }

  /** The tags of a row; a missing tags cell has none. */
  function CellTokens(s: Spot, tagsCol: nat): seq<string> {
    match Cell(s.cells, tagsCol)
    case None => []
    case Some(v) => Tokens(v)
  }

  /** The tags of the present cells, all rows together, in row order. */
  function AllTokens(spots: seq<Spot>, tagsCol: nat): seq<string> {
    Flatten(seq(|spots|, i requires 0 <= i < |spots| => CellTokens(spots[i], tagsCol)))
  }

  lemma AllTokensMembers(spots: seq<Spot>, tagsCol: nat, t: string)
    ensures t in AllTokens(spots, tagsCol) <==> exists i :: 0 <= i < |spots| && t in CellTokens(spots[i], tagsCol)
  {
    var cells := seq(|spots|, i requires 0 <= i < |spots| => CellTokens(spots[i], tagsCol));
    FlattenMembers(cells, t);
    assert forall i :: 0 <= i < |spots| ==> cells[i] == CellTokens(spots[i], tagsCol);
  }

  /**
   * Line 88: `sorted(set(tokens of df[col_tags].dropna()))`, over the
   * validated rows, not the searched ones: sorted, without duplicates, and
   * holding exactly the tags of the present cells.
   */
  function TagUniverse(spots: seq<Spot>, tagsCol: nat): (u: seq<string>)
    ensures StrictlySorted(u)
    ensures forall t :: t in u <==> exists i :: 0 <= i < |spots| && t in CellTokens(spots[i], tagsCol)
  {
    assert forall t :: t in AllTokens(spots, tagsCol) <==> exists i :: 0 <= i < |spots| && t in CellTokens(spots[i], tagsCol) by {
      forall t ensures t in AllTokens(spots, tagsCol) <==> exists i :: 0 <= i < |spots| && t in CellTokens(spots[i], tagsCol) {
        AllTokensMembers(spots, tagsCol, t);
      }
    }
    SortedSet(AllTokens(spots, tagsCol))
  }

  /** The tag universe is the only strictly sorted listing of those tags. */
  lemma TagUniverseIsTheListing(spots: seq<Spot>, tagsCol: nat, listing: seq<string>)
    requires StrictlySorted(listing)
    requires forall t :: t in listing <==> exists i :: 0 <= i < |spots| && t in CellTokens(spots[i], tagsCol)
    ensures listing == TagUniverse(spots, tagsCol)
  {
    SortedListingUnique(listing, TagUniverse(spots, tagsCol));
  }

  /** Whatever the query, every tag of a row it keeps has a toggle. */
  lemma UniverseCoversSearch(spots: seq<Spot>, nameCol: nat, query: string, tagsCol: nat, x: Spot, t: string)
    requires x in Search(spots, nameCol, query) && t in CellTokens(x, tagsCol)
    ensures t in TagUniverse(spots, tagsCol)
  {
    var i :| 0 <= i < |spots| && spots[i] == x;
  }

  function Toggled(toggled: set<string>): string -> bool {
    t => t in toggled
  }

  /**
   * Lines 90-94: the toggled tags, collected in universe order. A subset of
   * the universe, and strictly sorted when the universe is.
   */
  method SelectTags(universe: seq<string>, toggled: set<string>) returns (selected: seq<string>)
    ensures selected == Filter(universe, Toggled(toggled))
    ensures forall t :: t in selected <==> t in universe && t in toggled
    ensures StrictlySorted(universe) ==> StrictlySorted(selected)
  {
    selected := [];
    for i := 0 to |universe|
      invariant selected == Filter(universe[..i], Toggled(toggled))
    {
      assert universe[..i + 1] == universe[..i] + [universe[i]];
      FilterAppend(universe[..i], [universe[i]], Toggled(toggled));
      assert Filter([universe[i]], Toggled(toggled)) == if universe[i] in toggled then [universe[i]] else [];
      if universe[i] in toggled {
        selected := selected + [universe[i]];
      }
    }
    assert universe[..|universe|] == universe;
    if StrictlySorted(universe) {
      FilterStrictlySorted(universe, Toggled(toggled));
    }
  }

  /**
   * The lambda of line 96: a row is kept when one of its stripped tags is
   * selected; a missing tags cell is never kept.
   */
  predicate TagMatches(s: Spot, tagsCol: nat, selected: seq<string>) {
    exists t :: t in CellTokens(s, tagsCol) && t in selected
  }

  /** A row passes a union of selections exactly when it passes one of them, so toggling more tags never hides a row. */
  lemma TagMatchesUnion(s: Spot, tagsCol: nat, a: seq<string>, b: seq<string>)
    ensures TagMatches(s, tagsCol, a + b) <==> TagMatches(s, tagsCol, a) || TagMatches(s, tagsCol, b)
  {
    if TagMatches(s, tagsCol, a + b) {
      var t :| t in CellTokens(s, tagsCol) && t in a + b;
      assert t in a || t in b;
    }
    if TagMatches(s, tagsCol, a) {
      var t :| t in CellTokens(s, tagsCol) && t in a;
      assert t in a + b;
    }
    if TagMatches(s, tagsCol, b) {
      var t :| t in CellTokens(s, tagsCol) && t in b;
      assert t in a + b;
    }
  }

  /** A row without a tags cell matches no selection. */
  lemma TagMatchesNeedsCell(s: Spot, tagsCol: nat, selected: seq<string>)
    requires Cell(s.cells, tagsCol).None?
    ensures !TagMatches(s, tagsCol, selected)
  {
  }

  /** No tags column or no selection keeps every row. */
  predicate TagKeeps(s: Spot, tagsCol: Option<nat>, selected: seq<string>) {
    tagsCol.None? || selected == [] || TagMatches(s, tagsCol.value, selected)
  }

  function TagPredicate(tagsCol: Option<nat>, selected: seq<string>): Spot -> bool {
    s => TagKeeps(s, tagsCol, selected)
  }

  /** Lines 87 and 95-96: the tag filter, applied when there is a tags column and a selection. */
  function TagStage(spots: seq<Spot>, tagsCol: Option<nat>, selected: seq<string>): (r: seq<Spot>)
    ensures tagsCol.None? || selected == [] ==> r == spots
    ensures r == Filter(spots, TagPredicate(tagsCol, selected))
    ensures forall x :: x in r <==> x in spots && TagKeeps(x, tagsCol, selected)
    ensures tagsCol.Some? && selected != [] ==> forall i :: 0 <= i < |r| ==> Cell(r[i].cells, tagsCol.value).Some?
  {
    if tagsCol.None? || selected == [] then
      FilterKeepsAll(spots, TagPredicate(tagsCol, selected));
      spots
    else
      Filter(spots, TagPredicate(tagsCol, selected))
  }

  /** What the page shows: the rows that pass both the search and the tag filter. */
  predicate QueryKeeps(s: Spot, nameCol: nat, query: string, tagsCol: Option<nat>, selected: seq<string>) {
    SearchKeeps(s, nameCol, query) && TagKeeps(s, tagsCol, selected)
  }

  function QueryPredicate(nameCol: nat, query: string, tagsCol: Option<nat>, selected: seq<string>): Spot -> bool {
    s => QueryKeeps(s, nameCol, query, tagsCol, selected)
  }

  /** Search, then the tag filter, is one order-preserving filter on the conjunction. */
  lemma SearchThenTags(spots: seq<Spot>, nameCol: nat, query: string, tagsCol: Option<nat>, selected: seq<string>)
    ensures TagStage(Search(spots, nameCol, query), tagsCol, selected)
         == Filter(spots, QueryPredicate(nameCol, query, tagsCol, selected))
  {
    FilterConjunction(spots, SearchPredicate(nameCol, query), TagPredicate(tagsCol, selected),
                      QueryPredicate(nameCol, query, tagsCol, selected));
  }

  /** The two stages can run in either order. */
  lemma StagesCommute(spots: seq<Spot>, nameCol: nat, query: string, tagsCol: Option<nat>, selected: seq<string>)
    ensures TagStage(Search(spots, nameCol, query), tagsCol, selected)
         == Search(TagStage(spots, tagsCol, selected), nameCol, query)
  {
    FilterCommute(spots, SearchPredicate(nameCol, query), TagPredicate(tagsCol, selected));
  }

  /** Running the same query again on its own result changes nothing. */
  lemma QueryIdempotent(spots: seq<Spot>, nameCol: nat, query: string, tagsCol: Option<nat>, selected: seq<string>)
    ensures var once := TagStage(Search(spots, nameCol, query), tagsCol, selected);
            TagStage(Search(once, nameCol, query), tagsCol, selected) == once
  {
    var p := QueryPredicate(nameCol, query, tagsCol, selected);
    var once := TagStage(Search(spots, nameCol, query), tagsCol, selected);
    SearchThenTags(spots, nameCol, query, tagsCol, selected);
    SearchThenTags(once, nameCol, query, tagsCol, selected);
    FilterIdempotent(spots, p);
  }
}
