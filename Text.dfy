/**
 * The operations on Python `str` values that the pipeline uses: `strip()`,
 * `lower()`, `replace(',', '.')`, `split(',')` and the substring test `w in c`.
 */
module Text {

  /** Python's `str.isspace`, restricted to the Latin-1 range. */
  predicate IsSpace(c: char) {
    c == ' ' || ('\t' <= c <= '\r') || ('\U{1C}' <= c <= '\U{1F}') || c == '\U{85}' || c == '\U{A0}'
  }

  predicate AllSpace(t: string) {
    forall k :: 0 <= k < |t| ==> IsSpace(t[k])
  }

  /** The length of the longest all-whitespace prefix of `s`. */
  function LeadingSpaces(s: string): (n: nat)
    ensures n <= |s| && AllSpace(s[..n])
    ensures n < |s| ==> !IsSpace(s[n])
  {
    if s != [] && IsSpace(s[0]) then 1 + LeadingSpaces(s[1..]) else 0
  }

  /** The length of the longest all-whitespace suffix of `s`. */
  function TrailingSpaces(s: string): (n: nat)
    ensures n <= |s| && AllSpace(s[|s| - n..])
    ensures n < |s| ==> !IsSpace(s[|s| - n - 1])
  {
    if s != [] && IsSpace(s[|s| - 1]) then 1 + TrailingSpaces(s[..|s| - 1]) else 0
  }

  /** `r` sits in `s` at offset `i` with only whitespace before and after it. */
  ghost predicate StripsAt(s: string, r: string, i: nat) {
    && i + |r| <= |s|
    && r == s[i..i + |r|]
    && AllSpace(s[..i])
    && AllSpace(s[i + |r|..])
  }

  /**
   * `r` is what `s.strip()` gives: a slice of `s` that neither starts nor ends
   * with whitespace, with only whitespace on either side of it.
   */
  ghost predicate IsStripOf(s: string, r: string) {
    && (r == [] || (!IsSpace(r[0]) && !IsSpace(r[|r| - 1])))
    && exists i: nat :: StripsAt(s, r, i)
  }

  /** Python's `str.strip()`. */
  function Strip(s: string): (r: string)
    ensures IsStripOf(s, r)
  {
    var lead := LeadingSpaces(s);
    var rest := s[lead..];
    var trail := TrailingSpaces(rest);
    var r := rest[..|rest| - trail];
    assert r == s[lead..lead + |r|];
    assert s[lead + |r|..] == rest[|rest| - trail..];
    assert StripsAt(s, r, lead);
    r
  }

  lemma AllSpacePrefix(s: string, n: nat)
    requires n <= |s| && AllSpace(s[..n])
    ensures forall k :: 0 <= k < n ==> IsSpace(s[k])
  {
    assert forall k :: 0 <= k < n ==> s[..n][k] == s[k];
  }

  lemma AllSpaceSuffix(s: string, n: nat)
    requires n <= |s| && AllSpace(s[n..])
    ensures forall k :: n <= k < |s| ==> IsSpace(s[k])
  {
    assert forall k :: n <= k < |s| ==> s[n..][k - n] == s[k];
  }

  lemma StripStart(s: string, r: string, i: nat)
    requires StripsAt(s, r, i) && r != [] && !IsSpace(r[0])
    ensures i == LeadingSpaces(s)
  {
    var n := LeadingSpaces(s);
    AllSpacePrefix(s, n);
    AllSpacePrefix(s, i);
    assert s[i] == r[0];
  }

  lemma StripEnd(s: string, r: string, i: nat)
    requires StripsAt(s, r, i) && r != [] && !IsSpace(r[|r| - 1])
    ensures i + |r| == |s| - TrailingSpaces(s)
  {
    var n := |s| - TrailingSpaces(s);
    AllSpaceSuffix(s, n);
    AllSpaceSuffix(s, i + |r|);
    assert s[i + |r| - 1] == r[|r| - 1];
  }

  lemma BlankSliceStartsBlank(s: string, r: string, i: nat)
    requires StripsAt(s, r, i) && r != []
    requires forall k :: 0 <= k < |s| ==> IsSpace(s[k])
    ensures IsSpace(r[0])
  {
    assert r[0] == s[i];
  }

  /** In an all-whitespace string, the only trimmed slice is the empty one. */
  lemma StripOfBlank(s: string, r: string, i: nat)
    requires StripsAt(s, r, i) && (r == [] || !IsSpace(r[0]))
    requires exists j: nat :: StripsAt(s, [], j)
    ensures r == []
  {
    var j: nat :| StripsAt(s, [], j);
    AllSpacePrefix(s, j);
    AllSpaceSuffix(s, j);
    if r != [] {
      BlankSliceStartsBlank(s, r, i);
    }
  }

  /** There is only one way to strip a string. */
  lemma StripUnique(s: string, r1: string, r2: string)
    requires IsStripOf(s, r1) && IsStripOf(s, r2)
    ensures r1 == r2
  {
    var i1: nat :| StripsAt(s, r1, i1);
    var i2: nat :| StripsAt(s, r2, i2);
    if r1 == [] {
      StripOfBlank(s, r2, i2);
    } else if r2 == [] {
      StripOfBlank(s, r1, i1);
    } else {
      StripStart(s, r1, i1);
      StripStart(s, r2, i2);
      StripEnd(s, r1, i1);
      StripEnd(s, r2, i2);
    }
  }

  lemma AllSpaceConcat(a: string, b: string)
    requires AllSpace(a) && AllSpace(b)
    ensures AllSpace(a + b)
  {
    assert forall k :: 0 <= k < |a + b| ==> (a + b)[k] == if k < |a| then a[k] else b[k - |a|];
  }

  lemma StripsAtPadded(pre: string, h: string, post: string, r: string, i: nat)
    requires AllSpace(pre) && AllSpace(post) && StripsAt(h, r, i)
    ensures StripsAt(pre + h + post, r, |pre| + i)
  {
    var s := pre + h + post;
    var j := |pre| + i;
    assert s[..j] == pre + h[..i];
    assert s[j + |r|..] == h[i + |r|..] + post;
    assert s[j..j + |r|] == h[i..i + |r|];
    AllSpaceConcat(pre, h[..i]);
    AllSpaceConcat(h[i + |r|..], post);
  }

  /** Whitespace around a string does not change what it strips to. */
  lemma StripIgnoresPadding(pre: string, h: string, post: string)
    requires AllSpace(pre) && AllSpace(post)
    ensures Strip(pre + h + post) == Strip(h)
  {
    var r := Strip(h);
    var i: nat :| StripsAt(h, r, i);
    StripsAtPadded(pre, h, post, r, i);
    StripUnique(pre + h + post, r, Strip(pre + h + post));
  }

  /** A string with no whitespace at either end strips to itself. */
  lemma StripTrimmed(s: string)
    requires s == [] || (!IsSpace(s[0]) && !IsSpace(s[|s| - 1]))
    ensures Strip(s) == s
  {
    assert StripsAt(s, s, 0) by {
      assert s[..0] == [] && s[|s|..] == [];
    }
    StripUnique(s, s, Strip(s));
  }

  /** Stripping only removes characters: a character absent from `s` is absent from its strip. */
  lemma StripKeepsOut(s: string, c: char)
    requires c !in s
    ensures c !in Strip(s)
  {
    var r := Strip(s);
    var i: nat :| StripsAt(s, r, i);
    assert forall k :: 0 <= k < |r| ==> r[k] == s[i + k];
  }

  /** Python's `str.lower()` on one character, for the ASCII letters. */
  function LowerChar(c: char): char {
    if 'A' <= c <= 'Z' then (c as int + 32) as char else c
  }

  /** Python's `str.lower()`, for the ASCII letters. */
  function Lower(s: string): (r: string)
    ensures |r| == |s|
    ensures forall i :: 0 <= i < |r| ==> !('A' <= r[i] <= 'Z')
    ensures forall i :: 0 <= i < |s| && !('A' <= s[i] <= 'Z') ==> r[i] == s[i]
    ensures forall i :: 0 <= i < |s| && 'A' <= s[i] <= 'Z' ==> r[i] == (s[i] as int + 32) as char
  {
    seq(|s|, i requires 0 <= i < |s| => LowerChar(s[i]))
  }

  lemma LowerIdempotent(s: string)
    ensures Lower(Lower(s)) == Lower(s)
  {
    assert forall i :: 0 <= i < |s| ==> LowerChar(Lower(s)[i]) == Lower(s)[i];
  }

  lemma LowerSlice(s: string, i: nat, j: nat)
    requires i <= j <= |s|
    ensures Lower(s)[i..j] == Lower(s[i..j])
  {
  }

  lemma LowerCons(s: string)
    requires s != []
    ensures Lower(s) == [LowerChar(s[0])] + Lower(s[1..])
  {
    assert forall i :: 0 <= i < |s| ==> Lower(s)[i] == ([LowerChar(s[0])] + Lower(s[1..]))[i];
  }

  /** A string with no upper-case letter is its own lower case. */
  lemma LowerUnchanged(s: string)
    requires forall i :: 0 <= i < |s| ==> !('A' <= s[i] <= 'Z')
    ensures Lower(s) == s
  {
    assert forall i :: 0 <= i < |s| ==> Lower(s)[i] == s[i];
  }

  lemma AllSpaceLower(t: string)
    ensures AllSpace(Lower(t)) <==> AllSpace(t)
  {
    assert forall k :: 0 <= k < |t| ==> (IsSpace(Lower(t)[k]) <==> IsSpace(t[k]));
  }

  lemma StripsAtLower(s: string, r: string, i: nat)
    requires StripsAt(s, r, i)
    ensures StripsAt(Lower(s), Lower(r), i)
  {
    var ls := Lower(s);
    LowerSlice(s, 0, i);
    LowerSlice(s, i, i + |r|);
    LowerSlice(s, i + |r|, |s|);
    assert s[..i] == s[0..i] && ls[..i] == ls[0..i];
    assert s[i + |r|..] == s[i + |r|..|s|] && ls[i + |r|..] == ls[i + |r|..|s|];
    AllSpaceLower(s[..i]);
    AllSpaceLower(s[i + |r|..]);
  }

  lemma StripOfLower(s: string, r: string)
    requires IsStripOf(s, r)
    ensures IsStripOf(Lower(s), Lower(r))
  {
    var i: nat :| StripsAt(s, r, i);
    StripsAtLower(s, r, i);
  }

  /** Stripping and lower-casing commute. */
  lemma LowerStripCommute(s: string)
    ensures Lower(Strip(s)) == Strip(Lower(s))
  {
    StripOfLower(s, Strip(s));
    StripUnique(Lower(s), Lower(Strip(s)), Strip(Lower(s)));
  }

  /** Python's `s.replace(target, replacement)` for single characters. */
  function ReplaceChar(s: string, target: char, replacement: char): (r: string)
    ensures |r| == |s|
    ensures forall i :: 0 <= i < |s| ==> r[i] == if s[i] == target then replacement else s[i]
    ensures target != replacement ==> target !in r
  {
    if s == [] then []
    else [if s[0] == target then replacement else s[0]] + ReplaceChar(s[1..], target, replacement)
  }

  /** `needle` occurs in `hay` starting at index `i`. */
  ghost predicate OccursAt(hay: string, needle: string, i: nat) {
    i + |needle| <= |hay| && hay[i..i + |needle|] == needle
  }

  /** Python's `needle in hay` on strings. */
  function Contains(hay: string, needle: string): (b: bool)
    ensures b <==> exists i: nat :: OccursAt(hay, needle, i)
    decreases |hay|
  {
    if |needle| > |hay| then false
    else if hay[..|needle|] == needle then
      assert OccursAt(hay, needle, 0);
      true
    else
      var b := Contains(hay[1..], needle);
      assert forall i: nat :: OccursAt(hay[1..], needle, i) <==> OccursAt(hay, needle, i + 1);
      assert !OccursAt(hay, needle, 0);
      assert b ==> exists i: nat :: OccursAt(hay, needle, i) by {
        if b {
          var j: nat :| OccursAt(hay[1..], needle, j);
          assert OccursAt(hay, needle, j + 1);
        }
      }
      assert (exists i: nat :: OccursAt(hay, needle, i)) ==> b by {
        if exists i: nat :: OccursAt(hay, needle, i) {
          var i: nat :| OccursAt(hay, needle, i);
          assert OccursAt(hay[1..], needle, i - 1);
        }
      }
      b
  }

  /** A string contains no other string of its own length or longer. */
  lemma NotContainsOther(hay: string, needle: string)
    requires |hay| <= |needle| && hay != needle
    ensures !Contains(hay, needle)
  {
    assert forall i: nat :: OccursAt(hay, needle, i) ==> i == 0 && hay[i..i + |needle|] == hay;
  }

  /** A string containing `mid` contains everything `mid` contains. */
  lemma ContainsTransitive(hay: string, mid: string, needle: string)
    requires Contains(hay, mid) && Contains(mid, needle)
    ensures Contains(hay, needle)
  {
    var i: nat :| OccursAt(hay, mid, i);
    var j: nat :| OccursAt(mid, needle, j);
    assert forall k :: 0 <= k < |mid| ==> hay[i + k] == mid[k];
    assert forall k :: 0 <= k < |needle| ==> mid[j + k] == needle[k];
    assert hay[i + j..i + j + |needle|] == needle;
    assert OccursAt(hay, needle, i + j);
  }

  /** Python's `s.split(sep)` with one separator character. */
  function Split(s: string, sep: char): (parts: seq<string>)
    ensures |parts| >= 1
    ensures forall k :: 0 <= k < |parts| ==> sep !in parts[k]
    ensures Join(parts, sep) == s
  {
    if s == [] then [[]]
    else
      var rest := Split(s[1..], sep);
      if s[0] == sep then
        [[]] + rest
      else
        assert [s[0]] + Join(rest, sep) == s;
        [[s[0]] + rest[0]] + rest[1..]
  }

  /** There is one more part than there are separators. */
  lemma {:induction false} SplitCount(s: string, sep: char)
    ensures |Split(s, sep)| == multiset(s)[sep] + 1
    decreases |s|
  {
    if s != [] {
      SplitCount(s[1..], sep);
      assert s == [s[0]] + s[1..];
    }
  }

  /** Python's `sep.join(parts)`. */
  function Join(parts: seq<string>, sep: char): string
    requires |parts| >= 1
  {
    if |parts| == 1 then parts[0] else parts[0] + [sep] + Join(parts[1..], sep)
  }

  lemma {:induction false} SplitPrefix(x: string, y: string, sep: char)
    requires sep !in x
    ensures Split(x + y, sep) == [x + Split(y, sep)[0]] + Split(y, sep)[1..]
    decreases |x|
  {
    if x != [] {
      var parts := Split(y, sep);
      assert (x + y)[1..] == x[1..] + y;
      assert (x + y)[0] == x[0] != sep;
      SplitPrefix(x[1..], y, sep);
      var rest := Split(x[1..] + y, sep);
      assert rest[0] == x[1..] + parts[0] && rest[1..] == parts[1..];
      assert [x[0]] + rest[0] == x + parts[0];
    } else {
      var parts := Split(y, sep);
      assert x + y == y;
      assert [] + parts[0] == parts[0];
      assert [parts[0]] + parts[1..] == parts;
    }
  }

  /** Splitting a join of separator-free parts gives the parts back. */
  lemma {:induction false} SplitJoin(parts: seq<string>, sep: char)
    requires |parts| >= 1
    requires forall k :: 0 <= k < |parts| ==> sep !in parts[k]
    ensures Split(Join(parts, sep), sep) == parts
    decreases |parts|
  {
    if |parts| == 1 {
      SplitPrefix(parts[0], [], sep);
      assert parts[0] + [] == parts[0];
    } else {
      var tail := Join(parts[1..], sep);
      SplitJoin(parts[1..], sep);
      assert Split([sep] + tail, sep) == [[]] + Split(tail, sep) by {
        assert ([sep] + tail)[1..] == tail;
      }
      assert parts[0] + [sep] + tail == parts[0] + ([sep] + tail);
      SplitPrefix(parts[0], [sep] + tail, sep);
      assert parts[0] + [] == parts[0];
      assert [parts[0]] + parts[1..] == parts;
    }
  }

  /** A string without the separator splits into itself. */
  lemma SplitNoSeparator(s: string, sep: char)
    requires sep !in s
    ensures Split(s, sep) == [s]
  {
    SplitJoin([s], sep);
  }
}
