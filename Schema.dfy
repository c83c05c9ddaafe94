/**
 * Header normalisation and column resolution (app.py lines 59, 62-63, 73-76).
 * A column is identified by its index in the header row.
 */
module Schema {
  import opened Wrappers
  import opened Text

  /** Line 59: a header is trimmed, then lower-cased. */
  function NormalizeHeader(h: string): (r: string)
    ensures forall i :: 0 <= i < |r| ==> !('A' <= r[i] <= 'Z')
    ensures r == [] || (!IsSpace(r[0]) && !IsSpace(r[|r| - 1]))
  {
    Lower(Strip(h))
  }

  function NormalizeHeaders(hs: seq<string>): seq<string> {
    seq(|hs|, i requires 0 <= i < |hs| => NormalizeHeader(hs[i]))
  }

  /** Whitespace around a header does not change how it normalises. */
  lemma NormalizeIgnoresPadding(pre: string, h: string, post: string)
    requires AllSpace(pre) && AllSpace(post)
    ensures NormalizeHeader(pre + h + post) == NormalizeHeader(h)
  {
    StripIgnoresPadding(pre, h, post);
  }

  /** Headers that differ only in letter case normalise alike. */
  lemma NormalizeIgnoresCase(a: string, b: string)
    requires Lower(a) == Lower(b)
    ensures NormalizeHeader(a) == NormalizeHeader(b)
  {
    LowerStripCommute(a);
    LowerStripCommute(b);
  }

  /** A normalised header is its own normal form. */
  lemma NormalizeIdempotent(h: string)
    ensures NormalizeHeader(NormalizeHeader(h)) == NormalizeHeader(h)
  {
    var n := NormalizeHeader(h);
    LowerStripCommute(h);
    assert n == Strip(Lower(h));
    assert StripsAt(n, n, 0) by {
      assert n[..0] == [] && n[|n|..] == [];
    }
    StripUnique(n, n, Strip(n));
    LowerIdempotent(Strip(h));
  }

  /** How a column is recognised from its normalised header. */
  datatype Rule =
    | OneOf(aliases: seq<string>)     // the header is one of the aliases
    | MentionsAny(words: seq<string>) // the header contains one of the words

  predicate Matches(rule: Rule, h: string) {
    match rule
    case OneOf(aliases) => h in aliases
    case MentionsAny(words) => exists k :: 0 <= k < |words| && Contains(h, words[k])
  }

  const LatitudeRule := OneOf(["latitude", "lat"])
  const LongitudeRule := OneOf(["longitude", "lon"])
  const NameRule := OneOf(["name", "nom"])
  const AddressRule := OneOf(["address", "adresse"])
  const LinkRule := MentionsAny(["map", "lien", "geo"])
  const TagsRule := OneOf(["tags"])

  /** Column `i` is the first, in column order, whose header satisfies `rule`. */
  predicate IsFirstMatch(hs: seq<string>, rule: Rule, i: nat) {
    i < |hs| && Matches(rule, hs[i]) && forall k :: 0 <= k < i ==> !Matches(rule, hs[k])
  }

  predicate NoMatch(hs: seq<string>, rule: Rule) {
    forall k :: 0 <= k < |hs| ==> !Matches(rule, hs[k])
  }

  /** `next((c for c in columns if <rule>), None)`. */
  function FirstMatch(hs: seq<string>, rule: Rule): (r: Option<nat>)
    ensures r.Some? ==> IsFirstMatch(hs, rule, r.value)
    ensures r.None? <==> NoMatch(hs, rule)
  {
    if hs == [] then None
    else if Matches(rule, hs[0]) then Some(0)
    else
      match FirstMatch(hs[1..], rule)
      case None => None
      case Some(i) => Some(i + 1)
  }

  /**
   * `next((c for c in columns if <rule>), columns[fallback])`. Python evaluates
   * the default before the search, so `fallback` must be a column whichever
   * way the search ends.
   */
  function FirstMatchOr(hs: seq<string>, rule: Rule, fallback: nat): (i: nat)
    requires fallback < |hs|
    ensures i < |hs|
    ensures IsFirstMatch(hs, rule, i) || (NoMatch(hs, rule) && i == fallback)
  {
    match FirstMatch(hs, rule)
    case Some(i) => i
    case None => fallback
  }

  /** Columns appended after the header row that `rule` does not accept are never chosen. */
  lemma {:induction false} FirstMatchIgnoresAppended(hs: seq<string>, extra: seq<string>, rule: Rule)
    requires forall k :: 0 <= k < |extra| ==> !Matches(rule, extra[k])
    ensures FirstMatch(hs + extra, rule) == FirstMatch(hs, rule)
    decreases |hs|
  {
    if hs == [] {
      assert hs + extra == extra;
      assert NoMatch(extra, rule);
    } else {
      assert (hs + extra)[1..] == hs[1..] + extra;
      FirstMatchIgnoresAppended(hs[1..], extra, rule);
    }
  }

  /** The error of the pipeline: a coordinate column is missing, so `dropna` on them raises. */
  datatype SchemaError = MissingCoordinateColumn

  /** The resolved columns: indices into the header row. */
  datatype Columns = Columns(lat: nat, lon: nat, name: nat, address: nat, link: Option<nat>, tags: Option<nat>)

  predicate ResolvedOptional(hs: seq<string>, rule: Rule, c: Option<nat>) {
    match c
    case None => NoMatch(hs, rule)
    case Some(i) => IsFirstMatch(hs, rule, i)
  }

  predicate ResolvedWithFallback(hs: seq<string>, rule: Rule, c: nat, fallback: nat) {
    IsFirstMatch(hs, rule, c) || (NoMatch(hs, rule) && c == fallback)
  }

  /** Every column is the first one its rule accepts; name and address fall back to columns 0 and 1. */
  predicate WellResolved(hs: seq<string>, c: Columns) {
    && IsFirstMatch(hs, LatitudeRule, c.lat)
    && IsFirstMatch(hs, LongitudeRule, c.lon)
    && ResolvedWithFallback(hs, NameRule, c.name, 0)
    && ResolvedWithFallback(hs, AddressRule, c.address, 1)
    && ResolvedOptional(hs, LinkRule, c.link)
    && ResolvedOptional(hs, TagsRule, c.tags)
  }

  /**
   * Lines 62-63 and 73-76 over normalised headers. Without a latitude or a
   * longitude column the `dropna` of line 71 raises: that is the error.
   */
  function ResolveColumns(hs: seq<string>): (r: Result<Columns, SchemaError>)
    ensures r.Failure? <==> NoMatch(hs, LatitudeRule) || NoMatch(hs, LongitudeRule)
    ensures r.Success? ==> WellResolved(hs, r.value)
  {
    var lat := FirstMatch(hs, LatitudeRule);
    var lon := FirstMatch(hs, LongitudeRule);
    if lat.None? || lon.None? then Failure(MissingCoordinateColumn)
    else
      assert lat.value != lon.value;
      Success(Columns(lat.value, lon.value,
                      FirstMatchOr(hs, NameRule, 0), FirstMatchOr(hs, AddressRule, 1),
                      FirstMatch(hs, LinkRule), FirstMatch(hs, TagsRule)))
  }

  /**
   * Lines 67-68 append the columns `lat` and `lon` (when absent) before the
   * lookups of lines 73-76 run; those lookups come out as on the header row.
   */
  lemma AddedCoordinateColumnsUnseen(hs: seq<string>, extra: seq<string>)
    requires forall k :: 0 <= k < |extra| ==> extra[k] == "lat" || extra[k] == "lon"
    ensures FirstMatch(hs + extra, NameRule) == FirstMatch(hs, NameRule)
    ensures FirstMatch(hs + extra, AddressRule) == FirstMatch(hs, AddressRule)
    ensures FirstMatch(hs + extra, LinkRule) == FirstMatch(hs, LinkRule)
    ensures FirstMatch(hs + extra, TagsRule) == FirstMatch(hs, TagsRule)
  {
    forall k | 0 <= k < |extra|
      ensures !Matches(NameRule, extra[k]) && !Matches(AddressRule, extra[k])
      ensures !Matches(LinkRule, extra[k]) && !Matches(TagsRule, extra[k])
    {
      CoordinateHeaderUnmatched(extra[k]);
    }
    FirstMatchIgnoresAppended(hs, extra, NameRule);
    FirstMatchIgnoresAppended(hs, extra, AddressRule);
    FirstMatchIgnoresAppended(hs, extra, LinkRule);
    FirstMatchIgnoresAppended(hs, extra, TagsRule);
  }

  /** Neither added header is mistaken for a name, address, link or tags column. */
  lemma CoordinateHeaderUnmatched(x: string)
    requires x == "lat" || x == "lon"
    ensures !Matches(NameRule, x) && !Matches(AddressRule, x)
    ensures !Matches(LinkRule, x) && !Matches(TagsRule, x)
  {
    assert x[0] == 'l' && x[1] != 'i';
    NotContainsOther(x, "map");
    NotContainsOther(x, "geo");
    NotContainsOther(x, "lien");
  }

  /** Column resolution does not depend on the letter case of the headers. */
  lemma ResolutionIgnoresCase(h1: seq<string>, h2: seq<string>)
    requires |h1| == |h2|
    requires forall i :: 0 <= i < |h1| ==> Lower(h1[i]) == Lower(h2[i])
    ensures ResolveColumns(NormalizeHeaders(h1)) == ResolveColumns(NormalizeHeaders(h2))
  {
    forall i | 0 <= i < |h1| ensures NormalizeHeader(h1[i]) == NormalizeHeader(h2[i]) {
      NormalizeIgnoresCase(h1[i], h2[i]);
    }
    assert NormalizeHeaders(h1) == NormalizeHeaders(h2);
  }

  /** Column resolution does not depend on whitespace around the headers. */
  lemma ResolutionIgnoresPadding(hs: seq<string>, padded: seq<string>, pre: seq<string>, post: seq<string>)
    requires |padded| == |hs| == |pre| == |post|
    requires forall i :: 0 <= i < |hs| ==> AllSpace(pre[i]) && AllSpace(post[i]) && padded[i] == pre[i] + hs[i] + post[i]
    ensures ResolveColumns(NormalizeHeaders(padded)) == ResolveColumns(NormalizeHeaders(hs))
  {
    forall i | 0 <= i < |hs| ensures NormalizeHeader(padded[i]) == NormalizeHeader(hs[i]) {
      NormalizeIgnoresPadding(pre[i], hs[i], post[i]);
    }
    assert NormalizeHeaders(padded) == NormalizeHeaders(hs);
  }
}
