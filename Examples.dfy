/** Worked cases of the pipeline's behaviour, stated on concrete rows. */
module Examples {
  import opened Wrappers
  import opened Text
  import opened Schema
  import opened Coordinates
  import opened Seqs
  import opened Filters

  lemma OneTag(v: string)
    requires ',' !in v && (v == [] || (!IsSpace(v[0]) && !IsSpace(v[|v| - 1])))
    ensures Tokens(v) == [v]
  {
    SplitNoSeparator(v, ',');
    StripTrimmed(v);
  }

  lemma TwoTags(a: string, b: string)
    requires a == "beach" && b == "forest"
    ensures Tokens(a) == [a] && Tokens(b) == [b]
  {
    OneTag(a);
    OneTag(b);
  }

  /** A row tagged only "beach" passes a selection of "beach" and "lake"; one tagged "forest" does not. */
  lemma TagFilterIsOr(beach: Spot, forest: Spot, selected: seq<string>)
    requires beach.cells == [Some("A"), Some("beach")] && forest.cells == [Some("B"), Some("forest")]
    requires selected == ["beach", "lake"]
    ensures TagStage([beach, forest], Some(1), selected) == [beach]
  {
    TwoTags(beach.cells[1].value, forest.cells[1].value);
    assert CellTokens(beach, 1) == ["beach"] && CellTokens(forest, 1) == ["forest"];
    TwoRows(beach, forest, selected);
  }

  lemma TwoRows(beach: Spot, forest: Spot, selected: seq<string>)
    requires CellTokens(beach, 1) == ["beach"] && CellTokens(forest, 1) == ["forest"]
    requires selected == ["beach", "lake"]
    ensures TagStage([beach, forest], Some(1), selected) == [beach]
  {
    assert "beach" in CellTokens(beach, 1) && "beach" in selected;
    assert TagMatches(beach, 1, selected);
    assert "forest" != "beach" && "forest" != "lake";
    assert !TagMatches(forest, 1, selected);
    var s := [beach, forest];
    assert s[1..] == [forest];
    assert s[1..][1..] == [];
    assert Filter(s, TagPredicate(Some(1), selected)) == [beach];
  }

  /** The search is case-insensitive: "Le Grand Café" is found by "grand". */
  lemma SearchIgnoresCase()
    ensures NameMatches(Spot([Some("Le Grand Café")], 0.0, 0.0), 0, "grand")
  {
    var low := Lower("Le Grand Café");
    assert low == "le grand café";
    assert Lower("grand") == "grand";
    assert OccursAt(low, "grand", 3);
  }

  /** Headers are matched after trimming and lower-casing. */
  lemma HeaderNormalisationExample(h: string)
    requires h == "Latitude"
    ensures NormalizeHeader(" " + h + " ") == "latitude"
  {
    NormalizeIgnoresPadding(" ", h, " ");
    LatitudeNormalised(h);
  }

  lemma LatitudeNormalised(h: string)
    requires h == "Latitude"
    ensures NormalizeHeader(h) == "latitude"
  {
    StripTrimmed(h);
    LatitudeLower(h);
  }

  lemma LatitudeLower(h: string)
    requires h == "Latitude"
    ensures Lower(h) == "latitude"
  {
    LowerCons(h);
    LowerUnchanged(h[1..]);
  }
}
