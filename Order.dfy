/**
 * Python's ordering of strings (code point by code point, a proper prefix
 * first) and `sorted(set(xs))`, the strictly increasing listing of a collection.
 */
module Order {
  import opened Seqs

  /** Python's `a < b` on strings. */
  predicate Less(a: string, b: string)
    decreases |a|
  {
    if a == [] then b != []
    else if b == [] then false
    else if a[0] != b[0] then a[0] < b[0]
    else Less(a[1..], b[1..])
  }

  lemma {:induction false} LessIrreflexive(a: string)
    ensures !Less(a, a)
    decreases |a|
  {
    if a != [] {
      LessIrreflexive(a[1..]);
    }
  }

  lemma {:induction false} LessTransitive(a: string, b: string, c: string)
    requires Less(a, b) && Less(b, c)
    ensures Less(a, c)
    decreases |a|
  {
    if a != [] && b != [] && c != [] && a[0] == b[0] == c[0] {
      LessTransitive(a[1..], b[1..], c[1..]);
    }
  }

  lemma {:induction false} LessTotal(a: string, b: string)
    requires a != b
    ensures Less(a, b) || Less(b, a)
    decreases |a|
  {
    if a != [] && b != [] && a[0] == b[0] {
      assert a == [a[0]] + a[1..] && b == [b[0]] + b[1..];
      LessTotal(a[1..], b[1..]);
    }
  }

  predicate StrictlySorted(s: seq<string>) {
    forall i, j :: 0 <= i < j < |s| ==> Less(s[i], s[j])
  }

  /** A strictly sorted sequence lists each of its elements once. */
  lemma StrictlySortedDistinct(s: seq<string>)
    requires StrictlySorted(s)
    ensures forall i, j :: 0 <= i < j < |s| ==> s[i] != s[j]
  {
    forall i, j | 0 <= i < j < |s| ensures s[i] != s[j] {
      LessIrreflexive(s[i]);
    }
  }

  /** Adds `t` to a strictly sorted sequence, at its place, unless it is already there. */
  function Insert(s: seq<string>, t: string): (r: seq<string>)
    requires StrictlySorted(s)
    ensures StrictlySorted(r)
    ensures forall x :: x in r <==> x in s || x == t
  {
    if s == [] then [t]
    else if t == s[0] then s
    else if Less(t, s[0]) then
      assert forall j :: 0 <= j < |s| ==> Less(t, s[j]) by {
        forall j | 0 < j < |s| ensures Less(t, s[j]) { LessTransitive(t, s[0], s[j]); }
      }
      [t] + s
    else
      LessTotal(t, s[0]);
      var rest := Insert(s[1..], t);
      assert forall x :: x in rest ==> Less(s[0], x);
      [s[0]] + rest
  }

  /** Python's `sorted(list(set(xs)))` on strings. */
  function SortedSet(xs: seq<string>): (r: seq<string>)
    ensures StrictlySorted(r)
    ensures forall x :: x in r <==> x in xs
  {
    if xs == [] then [] else Insert(SortedSet(xs[1..]), xs[0])
  }

  lemma {:induction false} LessAsymmetric(a: string, b: string)
    requires Less(a, b)
    ensures !Less(b, a)
    decreases |a|
  {
    if a != [] && b != [] && a[0] == b[0] {
      LessAsymmetric(a[1..], b[1..]);
    }
  }

  lemma InTail(a: seq<string>, b: seq<string>, x: string)
    requires StrictlySorted(a) && StrictlySorted(b) && a != [] && b != [] && a[0] == b[0]
    requires forall y :: y in a <==> y in b
    requires x in a[1..]
    ensures x in b[1..]
  {
    StrictlySortedDistinct(a);
    var j :| 0 <= j < |a[1..]| && a[1..][j] == x;
    assert a[j + 1] == x && x != a[0];
    assert x in b;
    var k :| 0 <= k < |b| && b[k] == x;
    assert k != 0;
    assert b[1..][k - 1] == x;
  }

  /** Two strictly sorted sequences with the same elements are equal. */
  lemma {:induction false} SortedListingUnique(a: seq<string>, b: seq<string>)
    requires StrictlySorted(a) && StrictlySorted(b)
    requires forall x :: x in a <==> x in b
    ensures a == b
    decreases |a|
  {
    if a != [] {
      assert a[0] in b;
    }
    if b != [] {
      assert b[0] in a;
    }
    if a != [] && b != [] {
      var i :| 0 <= i < |b| && b[i] == a[0];
      var j :| 0 <= j < |a| && a[j] == b[0];
      if i > 0 {
        LessAsymmetric(b[0], a[0]);
      }
      assert a[0] == b[0];
      forall x ensures x in a[1..] <==> x in b[1..] {
        if x in a[1..] { InTail(a, b, x); }
        if x in b[1..] { InTail(b, a, x); }
      }
      SortedListingUnique(a[1..], b[1..]);
    }
  }

  /** Selecting from a strictly sorted sequence keeps it strictly sorted. */
  lemma {:induction false} FilterStrictlySorted(s: seq<string>, p: string -> bool)
    requires StrictlySorted(s)
    ensures StrictlySorted(Filter(s, p))
    decreases |s|
  {
    if s != [] {
      FilterStrictlySorted(s[1..], p);
      var rest := Filter(s[1..], p);
      assert forall x :: x in rest ==> Less(s[0], x);
    }
  }
}
