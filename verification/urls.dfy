/** URL normalisation and Udemy slug extraction (botcode.py:85, 95-97,
    140-141, 324).

    The source normalises with `re.sub(r'[?#].*$', '', u)`. In Python's
    `re`, `.` does not match a line break and `$` matches at the end of
    the string or just before a final line break, so the pattern matches
    at the first `?` or `#` that is followed by no line break other than a
    final one, and the match stops at that final line break. The model
    spells out exactly that, and proves the familiar reading ("cut at the
    first `?` or `#`") for URLs without line breaks. */
module Urls {

  import opened Wrappers
  import opened Text

  /** `$` holds at position `q`: the end, or just before a final line break. */
  predicate AtEnd(s: string, q: nat) {
    q == |s| || (q + 1 == |s| && s[q] == '\n')
  }

  predicate IsCutChar(c: char) {
    c == '?' || c == '#'
  }

  /** `[?#].*$` matches at index `p`. */
  predicate CutMatchesAt(s: string, p: nat)
    requires p < |s|
  {
    IsCutChar(s[p]) && AtEnd(s, IndexFrom(s, '\n', p + 1))
  }

  /** The leftmost index at or after `i` where the pattern matches. */
  function FirstCut(s: string, i: nat): (r: Option<nat>)
    requires i <= |s|
    ensures r.Some? ==> i <= r.value < |s| && CutMatchesAt(s, r.value)
    ensures r.Some? ==> forall k :: i <= k < r.value ==> !CutMatchesAt(s, k)
    ensures r.None? ==> forall k :: i <= k < |s| ==> !CutMatchesAt(s, k)
    decreases |s| - i
  {
    if i == |s| then None
    else if CutMatchesAt(s, i) then Some(i)
    else FirstCut(s, i + 1)
  }

  predicate NoLineBreak(s: string) {
    '\n' !in s
  }

  /** `re.sub(r'[?#].*$', '', s)`: the single match (a second one cannot
      follow, since the first runs to the end) is deleted. */
  function NormalizeUrl(s: string): (r: string)
    ensures |r| <= |s|
    ensures (forall k :: 0 <= k < |s| ==> !IsCutChar(s[k])) ==> r == s
    ensures NoLineBreak(s) ==> StartsWith(s, r)
    ensures NoLineBreak(s) ==> forall k :: 0 <= k < |r| ==> !IsCutChar(r[k])
    ensures NoLineBreak(s) && |r| < |s| ==> IsCutChar(s[|r|])
  {
    match FirstCut(s, 0)
    case None =>
      assert NoLineBreak(s) ==> forall k :: 0 <= k < |s| ==> !IsCutChar(s[k]) by {
        if NoLineBreak(s) {
          forall k | 0 <= k < |s| ensures !IsCutChar(s[k]) {
            assert !CutMatchesAt(s, k);
            assert IndexFrom(s, '\n', k + 1) == |s|;
          }
        }
      }
      s
    case Some(p) =>
      var q := IndexFrom(s, '\n', p + 1);
      var r := s[..p] + s[q..];
      if NoLineBreak(s) then
        assert q == |s|;
        assert r == s[..p];
        assert forall k :: 0 <= k < p ==> !IsCutChar(s[k]) by {
          forall k | 0 <= k < p ensures !IsCutChar(s[k]) {
            assert !CutMatchesAt(s, k);
            assert IndexFrom(s, '\n', k + 1) == |s|;
          }
        }
        r
      else r
  }

  /** Normalising a URL without line breaks twice is the same as once. */
  lemma NormalizeIdempotent(s: string)
    requires NoLineBreak(s)
    ensures NormalizeUrl(NormalizeUrl(s)) == NormalizeUrl(s)
  {
  }

  /** Appending a query string or fragment to a URL without `?`, `#` or
      line breaks does not change its normalisation. */
  lemma NormalizeDropsQuery(base: string, rest: string)
    requires NoLineBreak(base + rest)
    requires forall k :: 0 <= k < |base| ==> !IsCutChar(base[k])
    requires rest != [] && IsCutChar(rest[0])
    ensures NormalizeUrl(base + rest) == base
  {
    var s := base + rest;
    var r := NormalizeUrl(s);
    assert s[|base|] == rest[0];
    assert r == s[..|r|] == base;
  }

  /** The guard in the source is not idempotent across line breaks:
      "x?\n#y" normalises to "x?\n", which normalises to "x\n". */
  lemma NormalizeNotIdempotentAcrossLines()
    ensures NormalizeUrl("x?\n#y") == "x?\n"
    ensures NormalizeUrl("x?\n") == "x\n"
  {
    var s := "x?\n#y";
    assert IndexFrom(s, '\n', 4) == 5;
    assert !CutMatchesAt(s, 0);
    assert IndexFrom(s, '\n', 2) == 2;
    assert !CutMatchesAt(s, 1);
    assert CutMatchesAt(s, 3);
    assert FirstCut(s, 0) == Some(3);
    assert s[..3] + s[5..] == "x?\n";
    var t := "x?\n";
    assert IndexFrom(t, '\n', 2) == 2;
    assert CutMatchesAt(t, 1);
    assert FirstCut(t, 0) == Some(1);
    assert t[..1] + t[2..] == "x\n";
  }

  // ---------------------------------------------------------------------
  // `re.search(r'/course/([^/?]+)', u)` (botcode.py:97)

  const CourseMarker := "/course/"

  predicate IsSlugChar(c: char) {
    c != '/' && c != '?'
  }

  /** The end of the run of slug characters starting at `i`. */
  function SlugEnd(s: string, i: nat): (e: nat)
    requires i <= |s|
    ensures i <= e <= |s|
    ensures forall k :: i <= k < e ==> IsSlugChar(s[k])
    ensures e < |s| ==> !IsSlugChar(s[e])
    decreases |s| - i
  {
    if i == |s| || !IsSlugChar(s[i]) then i else SlugEnd(s, i + 1)
  }

  /** The pattern matches at `i`: the marker, then at least one slug char. */
  predicate SlugMatchesAt(s: string, i: nat) {
    OccursAt(s, CourseMarker, i) && i + |CourseMarker| < |s| && IsSlugChar(s[i + |CourseMarker|])
  }

  function FirstSlugMatch(s: string, i: nat): (r: Option<nat>)
    requires i <= |s|
    ensures r.Some? ==> i <= r.value < |s| && SlugMatchesAt(s, r.value)
    ensures r.Some? ==> forall k :: i <= k < r.value ==> !SlugMatchesAt(s, k)
    ensures r.None? ==> forall k :: i <= k <= |s| ==> !SlugMatchesAt(s, k)
    decreases |s| - i
  {
    if i == |s| then None
    else if SlugMatchesAt(s, i) then Some(i)
    else FirstSlugMatch(s, i + 1)
  }

  /** `slug` is group 1 of the match at `i`: the maximal run of slug
      characters after the marker, and no match starts earlier. */
  predicate LeftmostSlugAt(s: string, i: nat, slug: string) {
    && SlugMatchesAt(s, i)
    && (forall k :: 0 <= k < i ==> !SlugMatchesAt(s, k))
    && OccursAt(s, slug, i + |CourseMarker|)
    && (i + |CourseMarker| + |slug| == |s| || !IsSlugChar(s[i + |CourseMarker| + |slug|]))
  }

  /** Group 1 of the leftmost match: a non-empty run without `/` or `?`
      that follows "/course/" in `s` and is maximal. */
  function CourseSlug(s: string): (r: Option<string>)
    ensures r.Some? ==> r.value != [] && Contains(s, CourseMarker + r.value)
    ensures r.Some? ==> exists i :: LeftmostSlugAt(s, i, r.value)
    ensures r.Some? ==> forall k :: 0 <= k < |r.value| ==> IsSlugChar(r.value[k])
    ensures r.None? <==> forall k :: 0 <= k <= |s| ==> !SlugMatchesAt(s, k)
  {
    match FirstSlugMatch(s, 0)
    case None => None
    case Some(i) =>
      var j := i + |CourseMarker|;
      var e := SlugEnd(s, j);
      assert s[i..e] == s[i..j] + s[j..e];
      assert OccursAt(s, CourseMarker + s[j..e], i);
      assert LeftmostSlugAt(s, i, s[j..e]);
      Some(s[j..e])
  }

  /** A slug is a substring of the URL it was taken from. */
  lemma SlugInUrl(s: string)
    requires CourseSlug(s).Some?
    ensures Contains(s, CourseSlug(s).value)
  {
    var slug := CourseSlug(s).value;
    var m := CourseMarker + slug;
    assert OccursAt(m, slug, |CourseMarker|);
    ContainsTrans(s, m, slug);
  }
}
