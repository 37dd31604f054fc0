/** Candidate extraction from the aggregator's listing page,
    `UdemyScraper.scrape_couponami` (botcode.py:218-442).

    The page is given already parsed: its anchors in document order, with
    the parts of their surroundings the extraction looks at, and the
    anchors inside each element whose class marks it as a course card. */
module Extract {

  import opened Wrappers
  import opened Text
  import opened Urls

  /** The site every relative link and image path is resolved against;
      the configured page URL does not mention discudemy.com, so the
      discudemy branches of the source are never taken. */
  const SiteBase := "https://www.couponami.com"
  const SourceTag := "couponami"

  /** An `<img>`: its `src` and lazy-load attributes, "" when absent. */
  datatype Img = Img(src: string, dataSrc: string, dataLazySrc: string, dataOriginal: string, dataUrl: string)

  /** What the extraction reads of an enclosing element: the stripped text
      of its first h1-h6 descendant, its first `<img>` descendant, its
      `title` attribute ("" when absent) and its stripped text. */
  datatype Elem = Elem(heading: Option<string>, firstImg: Option<Img>, titleAttr: string, text: string)

  /** An `<a>` element: `href` ("" when absent), stripped link text, `title`
      attribute, first `<img>` inside it, parent and grandparent element. */
  datatype Anchor = Anchor(href: string, text: string, titleAttr: string, ownImg: Option<Img>,
                           parent: Option<Elem>, grandparent: Option<Elem>)

  /** A parsed page: all anchors in document order, and for each course
      card container the anchors inside it. */
  datatype Page = Page(anchors: seq<Anchor>, containers: seq<seq<Anchor>>)

  /** Details scraped from a course page (`get_course_details`). */
  datatype Details = Details(language: Option<string>, publisher: Option<string>, rate: Option<string>,
                             enroll: Option<string>, price: Option<string>)

  const NoDetails := Details(None, None, None, None, None)

  /** One scraped course; `udemyUrl` is filled in later by the bot. */
  datatype Course = Course(title: string, couponLink: string, thumbnail: Option<string>, source: string,
                           details: Details, udemyUrl: Option<string>)

  // ---------------------------------------------------------------------
  // Which anchors become candidates (botcode.py:236-296)

  const Categories := [
    "marketing", "development", "design", "business", "it-software", "personal-development",
    "photography", "music", "teaching", "academic", "graphic-design", "3d-model", "ethical-hacking",
    "after-effects", "network-security", "python", "data-science", "web-development",
    "mobile-development", "cloud", "devops", "cybersecurity", "ai", "machine-learning", "blockchain",
    "game-development", "ui-ux", "video-editing", "animation", "writing", "finance", "health",
    "fitness", "language", "programming", "database", "software-engineering", "testing", "automation"]

  /** Skip-list of the container stage (botcode.py:261). */
  const ContainerSkips := [
    "#", "javascript:", "mailto:", "tel:", "/tag/", "/category/", "/author/", "/page/", "/search",
    "/about", "/contact", "/privacy", "/terms"]

  /** Skip-list of the pattern stage (botcode.py:281). */
  const PatternSkips := [
    "/tag/", "/category/", "/author/", "/page/", "/search", "/about", "/contact", "/privacy", "/terms",
    "/login", "/register", "/wp-", "/static/", "/assets/", "/css/", "/js/", "/img/", "/images/"]

  predicate ContainsAny(s: string, tokens: seq<string>) {
    exists k :: 0 <= k < |tokens| && Contains(s, tokens[k])
  }

  /** Stage 1: the href contains "/<category>/". */
  predicate IsCategoryHref(h: string) {
    exists k :: 0 <= k < |Categories| && Contains(h, "/" + Categories[k] + "/")
  }

  /** Stage 2: a direct coupon link. */
  predicate IsGoHref(h: string) {
    Contains(h, "/go/")
  }

  /** Stage 3 acceptance of an anchor found inside a course card. */
  predicate ContainerAccepts(a: Anchor) {
    && a.href != ""
    && (StartsWith(a.href, "/") || Contains(a.href, "couponami.com") || Contains(a.href, "discudemy.com"))
    && !ContainsAny(Lower(a.href), ContainerSkips)
  }

  /** `re.match(r'^/[^/]+/[^/]+', h)`, decided by scanning. */
  predicate TwoSegments(h: string) {
    |h| > 0 && h[0] == '/' &&
    var e := IndexFrom(h, '/', 1);
    e > 1 && e + 1 < |h| && h[e + 1] != '/'
  }

  /** A path "/a/b" with non-empty segments free of '/' begins the href. */
  predicate TwoSegmentPrefix(h: string, a: string, b: string) {
    && a != [] && b != []
    && (forall k :: 0 <= k < |a| ==> a[k] != '/')
    && (forall k :: 0 <= k < |b| ==> b[k] != '/')
    && StartsWith(h, "/" + a + "/" + b)
  }

  /** The scan decides exactly the regular expression's language. */
  lemma TwoSegmentsCorrect(h: string)
    ensures TwoSegments(h) <==> exists a, b :: TwoSegmentPrefix(h, a, b)
  {
    if TwoSegments(h) {
      var e := IndexFrom(h, '/', 1);
      var a := h[1..e];
      var b := h[e + 1..e + 2];
      assert h[..|"/" + a + "/" + b|] == "/" + a + "/" + b;
      assert TwoSegmentPrefix(h, a, b);
    }
    if exists a, b :: TwoSegmentPrefix(h, a, b) {
      var a, b :| TwoSegmentPrefix(h, a, b);
      var p := "/" + a + "/" + b;
      assert h[..|p|] == p;
      assert forall k :: 1 <= k <= |a| ==> h[k] == p[k] == a[k - 1];
      assert h[|a| + 1] == p[|a| + 1] == '/';
      assert h[|a| + 2] == p[|a| + 2] == b[0];
      IndexFromAt(h, '/', 1, |a| + 1);
    }
  }


  /** Stage 4 acceptance: a two-segment path off the skip-list whose
      parent element holds an image or a heading. */
  predicate PatternAccepts(a: Anchor) {
    && a.href != ""
    && TwoSegments(a.href)
    && !ContainsAny(Lower(a.href), PatternSkips)
    && a.parent.Some?
    && (a.parent.value.firstImg.Some? || a.parent.value.heading.Some?)
  }

  function Filter(links: seq<Anchor>, keep: Anchor -> bool): (r: seq<Anchor>)
    ensures forall a :: a in r <==> a in links && keep(a)
  {
    if links == [] then []
    else if keep(links[0]) then [links[0]] + Filter(links[1..], keep)
    else Filter(links[1..], keep)
  }

  function Flatten(groups: seq<seq<Anchor>>): (r: seq<Anchor>)
    ensures forall a :: a in r <==> exists g :: 0 <= g < |groups| && a in groups[g]
  {
    if groups == [] then []
    else
      var rest := Flatten(groups[1..]);
      assert forall g :: 1 <= g < |groups| ==> groups[g] == groups[1..][g - 1];
      groups[0] + rest
  }

  function Hrefs(links: seq<Anchor>): set<string> {
    set a | a in links :: a.href
  }

  /** Stages 3 and 4: appends every accepted anchor whose href has not been
      collected yet, remembering each href it adds. */
  function AddNew(links: seq<Anchor>, seen: set<string>, accept: Anchor -> bool): (r: seq<Anchor>)
    ensures forall a :: a in r ==> a in links && accept(a) && a.href !in seen
    ensures forall i, j :: 0 <= i < j < |r| ==> r[i].href != r[j].href
    ensures forall a :: a in links && accept(a) && a.href !in seen ==> a.href in Hrefs(r)
  {
    if links == [] then []
    else if accept(links[0]) && links[0].href !in seen then
      var rest := AddNew(links[1..], seen + {links[0].href}, accept);
      assert forall a :: a in rest ==> a.href != links[0].href;
      [links[0]] + rest
    else
      AddNew(links[1..], seen, accept)
  }

  /** `course_links` in the order the four stages collect them. */
  function CandidateLinks(page: Page): (r: seq<Anchor>)
    ensures forall a :: a in r ==> a in page.anchors || a in Flatten(page.containers)
    ensures forall a :: a in r ==> IsCategoryHref(a.href) || IsGoHref(a.href) || ContainerAccepts(a) || PatternAccepts(a)
    ensures forall a :: a in page.anchors && (IsCategoryHref(a.href) || IsGoHref(a.href)) ==> a in r
    ensures forall a :: a in page.anchors && PatternAccepts(a) ==> a.href in Hrefs(r)
    ensures forall a :: a in Flatten(page.containers) && ContainerAccepts(a) ==> a.href in Hrefs(r)
  {
    var byCategory := Filter(page.anchors, (a: Anchor) => IsCategoryHref(a.href));
    var byGo := Filter(page.anchors, (a: Anchor) => IsGoHref(a.href));
    var found := byCategory + byGo;
    var byContainer := AddNew(Flatten(page.containers), Hrefs(found), ContainerAccepts);
    var found' := found + byContainer;
    var byPattern := AddNew(page.anchors, Hrefs(found'), PatternAccepts);
    assert forall a :: a in found ==> a.href in Hrefs(found');
    assert forall h :: h in Hrefs(byContainer) ==> h in Hrefs(found');
    found' + byPattern
  }

  // ---------------------------------------------------------------------
  // Absolute URL (botcode.py:313-322)

  /** The absolute course URL of a stripped href, if it has one. */
  function AbsoluteUrl(href: string): (r: Option<string>)
    ensures r.Some? <==> StartsWith(href, "/") || StartsWith(href, "http://") || StartsWith(href, "https://")
    ensures r.Some? && StartsWith(href, "/") ==> r.value == SiteBase + href
    ensures r.Some? && !StartsWith(href, "/") ==> r.value == href
    ensures r.Some? ==> UrlShape(r.value)
  {
    if StartsWith(href, "/") then
      assert (SiteBase + href)[..|SiteBase| + 1] == SiteBase + href[..1];
      Some(SiteBase + href)
    else if StartsWith(href, "http://") || StartsWith(href, "https://") then Some(href)
    else None
  }

  /** The two shapes an emitted course URL can have. */
  predicate UrlShape(url: string) {
    || StartsWith(url, SiteBase + "/")
    || StartsWith(url, "http://") || StartsWith(url, "https://")
  }

  // ---------------------------------------------------------------------
  // Parent-text cleanup (botcode.py:350-352)

  /** `$` followed by a digit or a comma at `k`: where a price starts. */
  predicate DollarAmountAt(s: string, k: nat) {
    k + 1 < |s| && s[k] == '$' && (IsDigit(s[k + 1]) || s[k + 1] == ',')
  }

  /** No price starts anywhere in `s`. */
  predicate PriceFree(s: string) {
    forall k :: 0 <= k < |s| ==> !DollarAmountAt(s, k)
  }

  /** `\$[\d,]+.*?$` matches at `p`: the dollar amount, then anything up to
      where `$` holds without crossing a line break. */
  predicate PriceMatchesAt(s: string, p: nat)
    requires p < |s|
  {
    DollarAmountAt(s, p) && AtEnd(s, IndexFrom(s, '\n', p + 1))
  }

  function FirstPrice(s: string, i: nat): (r: Option<nat>)
    requires i <= |s|
    ensures r.Some? ==> i <= r.value < |s| && PriceMatchesAt(s, r.value)
    ensures r.Some? ==> forall k :: i <= k < r.value ==> !PriceMatchesAt(s, k)
    ensures r.None? ==> forall k :: i <= k < |s| ==> !PriceMatchesAt(s, k)
    decreases |s| - i
  {
    if i == |s| then None
    else if PriceMatchesAt(s, i) then Some(i)
    else FirstPrice(s, i + 1)
  }

  /** On a single line every dollar amount matches the price pattern. */
  lemma DollarIsPrice(s: string, k: nat)
    requires NoLineBreak(s) && k < |s|
    ensures DollarAmountAt(s, k) ==> PriceMatchesAt(s, k)
  {
    if k + 1 < |s| {
      var e := IndexFrom(s, '\n', k + 1);
      if e < |s| {
        assert s[e] in s;
      }
    }
  }

  /** A single line with no price match before `p` has no price in its
      first `p` characters. */
  lemma PriceFreeBefore(s: string, p: nat)
    requires NoLineBreak(s) && p <= |s|
    requires forall k :: 0 <= k < p ==> !PriceMatchesAt(s, k)
    ensures PriceFree(s[..p])
  {
    var t := s[..p];
    forall k | 0 <= k < |t| ensures !DollarAmountAt(t, k) {
      if k + 1 < |t| {
        assert t[k] == s[k] && t[k + 1] == s[k + 1];
      }
      DollarIsPrice(s, k);
    }
  }

  /** `re.sub(r'\$[\d,]+.*?$', '', s)`: deletes from the first price that
      reaches the end of the text (or its final line break); a text without
      one is unchanged, and on a single line no price is left. */
  function CutPrice(s: string): (r: string)
    ensures |r| <= |s|
    ensures NoLineBreak(s) ==> StartsWith(s, r)
    ensures NoLineBreak(s) && |r| < |s| ==> s[|r|] == '$'
    ensures FirstPrice(s, 0).None? ==> r == s
    ensures NoLineBreak(s) && FirstPrice(s, 0).Some? ==> r == s[..FirstPrice(s, 0).value]
    ensures NoLineBreak(s) ==> PriceFree(r)
  {
    match FirstPrice(s, 0)
    case None =>
      NoPriceMatchFree(s);
      s
    case Some(p) =>
      var q := IndexFrom(s, '\n', p + 1);
      FirstPriceCut(s, p);
      s[..p] + s[q..]
  }

  lemma NoPriceMatchFree(s: string)
    requires FirstPrice(s, 0).None?
    ensures NoLineBreak(s) ==> PriceFree(s)
  {
    if NoLineBreak(s) {
      PriceFreeBefore(s, |s|);
      assert s[..|s|] == s;
    }
  }

  /** On a single line, the first price match runs to the end. */
  lemma FirstPriceCut(s: string, p: nat)
    requires FirstPrice(s, 0) == Some(p)
    ensures NoLineBreak(s) ==> s[..p] + s[IndexFrom(s, '\n', p + 1)..] == s[..p] && PriceFree(s[..p])
  {
    if NoLineBreak(s) {
      var q := IndexFrom(s, '\n', p + 1);
      IndexFromMissing(s, '\n', p + 1);
      PriceFreeBefore(s, p);
      assert s[..p] + s[q..] == s[..p];
    }
  }

  /** `s` begins with `w` at `i`, ignoring ASCII case. */
  predicate WordAt(s: string, i: nat, w: string) {
    i + |w| <= |s| && forall k :: 0 <= k < |w| ==> LowerChar(s[i + k]) == w[k]
  }

  /** The end of `(views?|enrolls?|students?)` matched at `i`, if any. */
  function CountWordEnd(s: string, i: nat): (r: Option<nat>)
    ensures r.Some? ==> i < r.value <= |s|
  {
    var stem :=
      if WordAt(s, i, "view") then "view"
      else if WordAt(s, i, "enroll") then "enroll"
      else if WordAt(s, i, "student") then "student"
      else "";
    if stem == "" then None
    else
      var e := i + |stem|;
      Some(if e < |s| && LowerChar(s[e]) == 's' then e + 1 else e)
  }

  function DigitEnd(s: string, i: nat): (e: nat)
    requires i <= |s|
    ensures i <= e <= |s|
    ensures forall k :: i <= k < e ==> IsDigit(s[k])
    ensures e < |s| ==> !IsDigit(s[e])
    decreases |s| - i
  {
    if i == |s| || !IsDigit(s[i]) then i else DigitEnd(s, i + 1)
  }

  function SpaceEnd(s: string, i: nat): (e: nat)
    requires i <= |s|
    ensures i <= e <= |s|
    ensures forall k :: i <= k < e ==> IsSpace(s[k])
    ensures e < |s| ==> !IsSpace(s[e])
    decreases |s| - i
  {
    if i == |s| || !IsSpace(s[i]) then i else SpaceEnd(s, i + 1)
  }

  /** The end of a `\d+\s*(views?|enrolls?|students?)` match at `i`. */
  function CountMatchEnd(s: string, i: nat): (r: Option<nat>)
    requires i < |s|
    ensures r.Some? ==> i < r.value <= |s|
    ensures r.Some? ==> IsDigit(s[i])
  {
    if !IsDigit(s[i]) then None
    else CountWordEnd(s, SpaceEnd(s, DigitEnd(s, i)))
  }

  /** `re.sub(r'\d+\s*(views?|enrolls?|students?)', '', s, flags=re.I)`
      on the text from index `i` on; a text with no match is unchanged. */
  function RemoveCounts(s: string, i: nat): (r: string)
    requires i <= |s|
    ensures |r| <= |s| - i
    decreases |s| - i
  {
    if i == |s| then []
    else match CountMatchEnd(s, i)
      case Some(e) => RemoveCounts(s, e)
      case None => [s[i]] + RemoveCounts(s, i + 1)
  }

  /** A text with no count phrase from `i` on is kept as it is. */
  lemma {:induction false} RemoveCountsNoMatch(s: string, i: nat)
    requires i <= |s|
    requires forall k :: i <= k < |s| ==> CountMatchEnd(s, k).None?
    ensures RemoveCounts(s, i) == s[i..]
    decreases |s| - i
  {
    if i < |s| {
      RemoveCountsNoMatch(s, i + 1);
      RemoveCountsKeep(s, i);
      assert s[i..] == [s[i]] + s[i + 1..];
    }
  }

  /** Leftmost, non-overlapping replacement: the text before the first
      match is kept as it is, the match is dropped, and the scan resumes
      after it. */
  lemma {:induction false} RemoveCountsLeftmost(s: string, i: nat, m: nat)
    requires i <= m < |s| && CountMatchEnd(s, m).Some?
    requires forall k :: i <= k < m ==> CountMatchEnd(s, k).None?
    ensures RemoveCounts(s, i) == s[i..m] + RemoveCounts(s, CountMatchEnd(s, m).value)
    decreases m - i
  {
    var tail := RemoveCounts(s, CountMatchEnd(s, m).value);
    if i < m {
      RemoveCountsLeftmost(s, i + 1, m);
      RemoveCountsKeep(s, i);
      SliceCons(s, i, m);
      ConsAssoc(s[i], s[i + 1..m], tail);
    } else {
      RemoveCountsDrop(s, m);
      assert s[i..m] + tail == tail;
    }
  }

  lemma ConsAssoc(c: char, a: string, b: string)
    ensures [c] + (a + b) == ([c] + a) + b
  {
  }

  /** A match is dropped and the scan resumes after it. */
  lemma RemoveCountsDrop(s: string, m: nat)
    requires m < |s| && CountMatchEnd(s, m).Some?
    ensures RemoveCounts(s, m) == RemoveCounts(s, CountMatchEnd(s, m).value)
  {
  }

  lemma SliceCons(s: string, i: nat, m: nat)
    requires i < m <= |s|
    ensures s[i..m] == [s[i]] + s[i + 1..m]
  {
  }

  /** A character that starts no match is kept. */
  lemma RemoveCountsKeep(s: string, i: nat)
    requires i < |s| && CountMatchEnd(s, i).None?
    ensures RemoveCounts(s, i) == [s[i]] + RemoveCounts(s, i + 1)
  {
  }

  /** Removing count phrases never makes a price: every removed phrase
      starts with a digit, so a kept `$` is followed by what followed it. */
  lemma {:induction false} RemoveCountsPriceFree(s: string, i: nat)
    requires i <= |s| && PriceFree(s)
    ensures PriceFree(RemoveCounts(s, i))
    decreases |s| - i
  {
    if i < |s| {
      match CountMatchEnd(s, i)
      case Some(e) =>
        RemoveCountsPriceFree(s, e);
      case None =>
        RemoveCountsPriceFree(s, i + 1);
        KeepPriceFree(s, i);
    }
  }

  /** The step for a kept character. */
  lemma KeepPriceFree(s: string, i: nat)
    requires i < |s| && PriceFree(s) && CountMatchEnd(s, i).None?
    requires PriceFree(RemoveCounts(s, i + 1))
    ensures PriceFree(RemoveCounts(s, i))
  {
    RemoveCountsKeep(s, i);
    KeptDollarSafe(s, i);
    ConsPriceFree(s[i], RemoveCounts(s, i + 1));
  }

  /** A kept `$` is not followed by a digit or comma: a count phrase
      right after it would start with a digit, making a price in `s`. */
  lemma KeptDollarSafe(s: string, i: nat)
    requires i < |s| && PriceFree(s)
    ensures var rest := RemoveCounts(s, i + 1);
            rest != [] && s[i] == '$' ==> !IsDigit(rest[0]) && rest[0] != ','
  {
    if i + 1 < |s| {
      assert !DollarAmountAt(s, i);
      if CountMatchEnd(s, i + 1).None? {
        RemoveCountsKeep(s, i + 1);
      }
    }
  }

  /** Putting a character in front of a price-free text makes no price
      unless it is a `$` before a digit or comma. */
  lemma ConsPriceFree(c: char, rest: string)
    requires PriceFree(rest)
    requires rest != [] && c == '$' ==> !IsDigit(rest[0]) && rest[0] != ','
    ensures PriceFree([c] + rest)
  {
    var r := [c] + rest;
    forall k | 0 <= k < |r| ensures !DollarAmountAt(r, k) {
      if k > 0 {
        assert r[k] == rest[k - 1];
        if k + 1 < |r| {
          assert r[k + 1] == rest[k];
        }
        assert !DollarAmountAt(rest, k - 1);
      }
    }
  }

  /** Every whitespace character of `s` is a plain space. */
  predicate BlankSpacesOnly(s: string) {
    forall k :: 0 <= k < |s| && IsSpace(s[k]) ==> s[k] == ' '
  }

  /** No two spaces in a row. */
  predicate NoDoubleSpace(s: string) {
    forall k :: 0 <= k < |s| - 1 ==> !(s[k] == ' ' && s[k + 1] == ' ')
  }

  /** `re.sub(r'\s+', ' ', s)`: every whitespace run becomes one space. */
  function CollapseSpaces(s: string): (r: string)
    ensures BlankSpacesOnly(r) && NoDoubleSpace(r)
    ensures |r| <= |s|
    ensures s != [] ==> r != [] && (IsSpace(r[0]) <==> IsSpace(s[0]))
    ensures s != [] && !IsSpace(s[0]) ==> r[0] == s[0]
    decreases |s|
  {
    if s == [] then []
    else if IsSpace(s[0]) then
      var e := SpaceEnd(s, 0);
      var rest := CollapseSpaces(s[e..]);
      assert e < |s| ==> !IsSpace(s[e..][0]);
      var r := [' '] + rest;
      assert forall k :: 1 <= k < |r| ==> r[k] == rest[k - 1];
      r
    else
      var rest := CollapseSpaces(s[1..]);
      var r := [s[0]] + rest;
      assert forall k :: 1 <= k < |r| ==> r[k] == rest[k - 1];
      r
  }

  /** A slice of a price-free text is price-free. */
  lemma PriceFreeSlice(s: string, a: nat, b: nat)
    requires a <= b <= |s| && PriceFree(s)
    ensures PriceFree(s[a..b])
  {
    var t := s[a..b];
    forall k | 0 <= k < |t| ensures !DollarAmountAt(t, k) {
      assert t[k] == s[a + k];
      if k + 1 < |t| {
        assert t[k + 1] == s[a + k + 1];
      }
      assert !DollarAmountAt(s, a + k);
    }
  }

  /** Collapsing whitespace never makes a price: a `$` is followed by a
      space or by the character that followed it. */
  lemma {:induction false} CollapsePriceFree(s: string)
    requires PriceFree(s)
    ensures PriceFree(CollapseSpaces(s))
    decreases |s|
  {
    if s != [] {
      var r := CollapseSpaces(s);
      if IsSpace(s[0]) {
        var e := SpaceEnd(s, 0);
        PriceFreeSlice(s, e, |s|);
        assert s[e..|s|] == s[e..];
        CollapsePriceFree(s[e..]);
        var rest := CollapseSpaces(s[e..]);
        forall k | 0 <= k < |r| ensures !DollarAmountAt(r, k) {
          if k > 0 {
            assert r[k] == rest[k - 1];
            if k + 1 < |r| {
              assert r[k + 1] == rest[k];
            }
            assert !DollarAmountAt(rest, k - 1);
          }
        }
      } else {
        PriceFreeSlice(s, 1, |s|);
        assert s[1..|s|] == s[1..];
        CollapsePriceFree(s[1..]);
        var rest := CollapseSpaces(s[1..]);
        forall k | 0 <= k < |r| ensures !DollarAmountAt(r, k) {
          if k == 0 {
            if 1 < |r| {
              assert |s| > 1 && s[1..][0] == s[1] && !DollarAmountAt(s, 0);
            }
          } else {
            assert r[k] == rest[k - 1];
            if k + 1 < |r| {
              assert r[k + 1] == rest[k];
            }
            assert !DollarAmountAt(rest, k - 1);
          }
        }
      }
    }
  }

  /** Whitespace in `s` is single spaces between other characters. */
  predicate TidySpacing(s: string) {
    && BlankSpacesOnly(s)
    && NoDoubleSpace(s)
    && (s == [] || (!IsSpace(s[0]) && !IsSpace(s[|s| - 1])))
  }

  /** The cleanup applied to a parent's text used as a title: on a single
      line no price is left; a text with neither a price nor a count
      phrase only has its whitespace tidied. */
  function CleanParentText(s: string): (r: string)
    ensures TidySpacing(r) && NoLineBreak(r)
    ensures |r| <= |s|
    ensures NoLineBreak(s) ==> forall k :: 0 <= k < |r| ==> !PriceMatchesAt(r, k)
    ensures FirstPrice(s, 0).None? && (forall k :: 0 <= k < |s| ==> CountMatchEnd(s, k).None?) ==>
              r == Strip(CollapseSpaces(s))
  {
    var c := CollapseSpaces(RemoveCounts(CutPrice(s), 0));
    var r := Strip(c);
    StripKeepsSpacing(c);
    BlankHasNoLineBreak(r);
    CleanedPriceFree(s);
    CleanedUnchanged(s);
    r
  }

  /** With neither a price nor a count phrase, the first two steps change
      nothing. */
  lemma CleanedUnchanged(s: string)
    ensures FirstPrice(s, 0).None? && (forall k :: 0 <= k < |s| ==> CountMatchEnd(s, k).None?) ==>
              RemoveCounts(CutPrice(s), 0) == s
  {
    if FirstPrice(s, 0).None? && forall k :: 0 <= k < |s| ==> CountMatchEnd(s, k).None? {
      RemoveCountsNoMatch(s, 0);
    }
  }

  /** Whitespace that is all plain spaces holds no line break. */
  lemma BlankHasNoLineBreak(r: string)
    requires BlankSpacesOnly(r)
    ensures NoLineBreak(r)
  {
    if '\n' in r {
      var k :| 0 <= k < |r| && r[k] == '\n';
      assert IsSpace(r[k]);
    }
  }

  /** The three cleanup steps leave a single-line text without a price. */
  lemma CleanedPriceFree(s: string)
    ensures NoLineBreak(s) ==> PriceFree(Strip(CollapseSpaces(RemoveCounts(CutPrice(s), 0))))
  {
    if NoLineBreak(s) {
      var t := CutPrice(s);
      var u := RemoveCounts(t, 0);
      RemoveCountsPriceFree(t, 0);
      CollapsePriceFree(u);
      StripPriceFree(CollapseSpaces(u));
    }
  }

  lemma StripPriceFree(c: string)
    requires PriceFree(c)
    ensures PriceFree(Strip(c))
  {
    var t := Strip(c);
    var a := StripSlice(c);
    PriceFreeSlice(c, a, a + |t|);
    PriceFreeSame(c[a..a + |t|], t);
  }

  lemma PriceFreeSame(x: string, y: string)
    requires PriceFree(x) && x == y
    ensures PriceFree(y)
  {
  }

  lemma SliceKeepsSpacing(c: string, a: nat, b: nat)
    requires a <= b <= |c|
    requires BlankSpacesOnly(c) && NoDoubleSpace(c)
    ensures BlankSpacesOnly(c[a..b]) && NoDoubleSpace(c[a..b])
  {
    var t := c[a..b];
    assert forall k :: 0 <= k < |t| ==> t[k] == c[a + k];
  }

  /** `.strip()` of a collapsed text keeps its spacing tidy. */
  lemma StripKeepsSpacing(c: string)
    requires BlankSpacesOnly(c) && NoDoubleSpace(c)
    ensures TidySpacing(Strip(c))
  {
    var l := TrimLeft(c);
    var r := TrimRight(l);
    SliceKeepsSpacing(c, |c| - |l|, |c|);
    SliceKeepsSpacing(l, 0, |r|);
  }

  // ---------------------------------------------------------------------
  // Title fallback chain (botcode.py:332-365)

  /** `link.get('title', '') or parent.get('title', '')` */
  function AttrTitle(a: Anchor, parent: Elem): string {
    if a.titleAttr != "" then a.titleAttr else parent.titleAttr
  }

  /** The step taken inside the parent when the link text is too short. */
  function ParentTitle(a: Anchor, parent: Elem): string {
    match parent.heading
    case Some(h) => h
    case None =>
      var t := AttrTitle(a, parent);
      if |t| < 5 then
        (if parent.text != "" then CleanParentText(parent.text) else parent.text)
      else t
  }

  /** The title of a candidate: link text, else the parent's heading, title
      attributes or cleaned text, else the grandparent's heading. Each step
      is taken only while the title so far is shorter than 5 characters. */
  function ResolveTitle(a: Anchor): (r: string)
    ensures |a.text| >= 5 ==> r == a.text
    ensures |a.text| < 5 && a.parent.None? ==> r == a.text
    ensures (&& |a.text| < 5 && a.parent.Some? && a.parent.value.heading.Some?
             && |a.parent.value.heading.value| >= 5) ==> r == a.parent.value.heading.value
  {
    var t1 := a.text;
    var t2 := if |t1| < 5 && a.parent.Some? then ParentTitle(a, a.parent.value) else t1;
    if |t2| < 5 && a.parent.Some? && a.grandparent.Some? && a.grandparent.value.heading.Some?
    then a.grandparent.value.heading.value
    else t2
  }

  /** The later steps of the chain: the title attributes, then the cleaned
      parent text, then the grandparent's heading, each reached only when
      the steps before it gave fewer than 5 characters. */
  lemma ResolveTitleFallbacks(a: Anchor)
    requires |a.text| < 5 && a.parent.Some?
    ensures var p := a.parent.value;
            p.heading.None? && |AttrTitle(a, p)| >= 5 ==> ResolveTitle(a) == AttrTitle(a, p)
    ensures var p := a.parent.value;
            (&& p.heading.None? && |AttrTitle(a, p)| < 5
             && |CleanParentText(p.text)| >= 5) ==> ResolveTitle(a) == CleanParentText(p.text)
    ensures (&& |ParentTitle(a, a.parent.value)| < 5
             && a.grandparent.Some? && a.grandparent.value.heading.Some?)
              ==> ResolveTitle(a) == a.grandparent.value.heading.value
    ensures (&& |ParentTitle(a, a.parent.value)| < 5
             && !(a.grandparent.Some? && a.grandparent.value.heading.Some?))
              ==> ResolveTitle(a) == ParentTitle(a, a.parent.value)
  {
  }

  // ---------------------------------------------------------------------
  // Thumbnail (botcode.py:372-411)

  /** The first non-empty of the image's source attributes. */
  function ImgSource(img: Img): string {
    if img.src != "" then img.src
    else if img.dataSrc != "" then img.dataSrc
    else if img.dataLazySrc != "" then img.dataLazySrc
    else if img.dataOriginal != "" then img.dataOriginal
    else img.dataUrl
  }

  /** The image a candidate's thumbnail comes from: inside the link, else
      in the parent, else in the grandparent, else the parent's first image
      found again by `find_all` (which adds nothing to the earlier step). */
  function PickImg(a: Anchor): Option<Img> {
    if a.ownImg.Some? then a.ownImg
    else if a.parent.Some? && a.parent.value.firstImg.Some? then a.parent.value.firstImg
    else if a.parent.Some? && a.grandparent.Some? && a.grandparent.value.firstImg.Some? then a.grandparent.value.firstImg
    else if a.parent.Some? then a.parent.value.firstImg
    else None
  }

  /** Query dropped and made absolute against the site. */
  function CleanThumbnail(src: string): (r: string)
    ensures '?' !in r
    ensures StartsWith(r, "http")
    ensures exists pre :: r == pre + Before(src, '?')
  {
    var u := Before(src, '?');
    assert '?' !in SiteBase;
    if StartsWith(u, "/") then
      assert (SiteBase + u)[..4] == "http";
      SiteBase + u
    else if !StartsWith(u, "http") then
      assert (SiteBase + "/" + u)[..4] == "http";
      assert SiteBase + "/" + u == (SiteBase + "/") + u;
      SiteBase + "/" + u
    else
      assert u == [] + u;
      u
  }

  function Thumbnail(a: Anchor): (r: Option<string>)
    ensures r.Some? ==> '?' !in r.value && StartsWith(r.value, "http")
    ensures r.Some? <==> PickImg(a).Some? && ImgSource(PickImg(a).value) != ""
  {
    match PickImg(a)
    case None => None
    case Some(img) =>
      var src := ImgSource(img);
      if src != "" then Some(CleanThumbnail(src)) else None
  }

  predicate ThumbnailShape(t: Option<string>) {
    t.Some? ==> '?' !in t.value && StartsWith(t.value, "http")
  }

  // ---------------------------------------------------------------------
  // The per-link loop (botcode.py:300-434)

  /** What every emitted course satisfies on its own. */
  predicate WellFormed(c: Course) {
    && |c.title| >= 5
    && UrlShape(c.couponLink)
    && ThumbnailShape(c.thumbnail)
    && c.source == SourceTag
    && c.udemyUrl.None?
  }

  /** `url` is the absolute URL of one of the links. */
  predicate FromLinks(url: string, links: seq<Anchor>) {
    exists k :: 0 <= k < |links| && LinkUrl(links[k]) == Some(url)
  }

  /** The absolute URL of a link's stripped href. */
  function LinkUrl(a: Anchor): Option<string> {
    AbsoluteUrl(Strip(a.href))
  }

  /** The course a link yields once its URL is known to be new: none when
      its title is shorter than 5 characters; details are fetched for
      every URL that is not a direct coupon link. */
  function LinkCourse(a: Anchor, url: string, detailsOf: string -> Details): (r: Option<Course>)
    requires LinkUrl(a) == Some(url)
    ensures r.Some? ==> WellFormed(r.value) && r.value.couponLink == url
    ensures r.Some? <==> |ResolveTitle(a)| >= 5
    ensures r.Some? ==> r.value.title == ResolveTitle(a)
  {
    var title := ResolveTitle(a);
    if |title| < 5 then None
    else Some(Course(title, url, Thumbnail(a), SourceTag, if IsGoHref(url) then NoDetails else detailsOf(url), None))
  }

  /** What every emitted course satisfies: it is well formed, its URL comes
      from one of the links, and its normalised URL was not seen before. */
  predicate Emitted(c: Course, links: seq<Anchor>, seen: set<string>) {
    WellFormed(c) && FromLinks(c.couponLink, links) && NormalizeUrl(c.couponLink) !in seen
  }

  /** No two courses share a normalised URL. */
  predicate DistinctUrls(r: seq<Course>) {
    forall i, j :: 0 <= i < j < |r| ==> NormalizeUrl(r[i].couponLink) != NormalizeUrl(r[j].couponLink)
  }

  /** Every course of `r` is emitted for `links` past `seen`. */
  predicate AllEmitted(r: seq<Course>, links: seq<Anchor>, seen: set<string>)
    decreases |r|
  {
    r == [] || (Emitted(r[0], links, seen) && AllEmitted(r[1..], links, seen))
  }

  /** The normalised URLs seen once link `a` has been looked at. */
  function SeenAfter(a: Anchor, seen: set<string>): (r: set<string>)
    ensures seen <= r
    ensures LinkUrl(a).Some? ==> r == seen + {NormalizeUrl(LinkUrl(a).value)}
    ensures LinkUrl(a).None? ==> r == seen
  {
    match LinkUrl(a)
    case None => seen
    case Some(url) => seen + {NormalizeUrl(url)}
  }

  /** The course link `a` contributes, given the URLs seen before it. */
  function Produced(a: Anchor, seen: set<string>, detailsOf: string -> Details): (r: Option<Course>)
    ensures r.Some? ==> WellFormed(r.value) && LinkUrl(a) == Some(r.value.couponLink)
    ensures r.Some? ==> NormalizeUrl(r.value.couponLink) !in seen
    ensures r.Some? <==> (&& LinkUrl(a).Some? && NormalizeUrl(LinkUrl(a).value) !in seen
                          && |ResolveTitle(a)| >= 5)
    ensures r.Some? ==> r.value.title == ResolveTitle(a)
  {
    match LinkUrl(a)
    case None => None
    case Some(url) => if NormalizeUrl(url) in seen then None else LinkCourse(a, url, detailsOf)
  }

  /** Emits a course for every link with a usable URL whose normalised form
      has not been seen and whose title has at least 5 characters; the
      normalised URL counts as seen even when the title is rejected. */
  function Emit(links: seq<Anchor>, seen: set<string>, detailsOf: string -> Details): (r: seq<Course>)
    ensures |r| <= |links|
    ensures AllEmitted(r, links, seen)
  {
    if links == [] then []
    else
      var tail := Emit(links[1..], SeenAfter(links[0], seen), detailsOf);
      EmittedTail(links, SeenAfter(links[0], seen), seen, tail);
      match Produced(links[0], seen, detailsOf)
      case None => tail
      case Some(c) =>
        assert Emitted(c, links, seen);
        assert ([c] + tail)[1..] == tail;
        [c] + tail
  }

  /** The courses emitted for the rest of the links, with more URLs seen,
      are emitted for the whole list. */
  lemma {:induction false} EmittedTail(links: seq<Anchor>, seen': set<string>, seen: set<string>, r: seq<Course>)
    requires links != [] && seen <= seen'
    requires AllEmitted(r, links[1..], seen')
    ensures AllEmitted(r, links, seen)
    decreases |r|
  {
    if r != [] {
      var k :| 0 <= k < |links[1..]| && LinkUrl(links[1..][k]) == Some(r[0].couponLink);
      assert links[k + 1] == links[1..][k];
      EmittedTail(links, seen', seen, r[1..]);
    }
  }

  /** Every emitted course is well formed and its URL is unseen. */
  lemma {:induction false} AllEmittedElements(r: seq<Course>, links: seq<Anchor>, seen: set<string>)
    requires AllEmitted(r, links, seen)
    ensures forall i :: 0 <= i < |r| ==> Emitted(r[i], links, seen)
    decreases |r|
  {
    if r != [] {
      AllEmittedElements(r[1..], links, seen);
      forall i | 1 <= i < |r| ensures Emitted(r[i], links, seen) {
        assert r[i] == r[1..][i - 1];
      }
    }
  }

  /** Emitted courses have pairwise distinct normalised URLs. */
  lemma {:induction false} EmitDistinct(links: seq<Anchor>, seen: set<string>, detailsOf: string -> Details)
    ensures DistinctUrls(Emit(links, seen, detailsOf))
    decreases |links|
  {
    if links != [] {
      var seen' := SeenAfter(links[0], seen);
      var tail := Emit(links[1..], seen', detailsOf);
      EmitDistinct(links[1..], seen', detailsOf);
      match Produced(links[0], seen, detailsOf)
      case None =>
      case Some(c) =>
        var r := [c] + tail;
        assert r == Emit(links, seen, detailsOf);
        AllEmittedElements(tail, links[1..], seen');
        forall i, j | 0 <= i < j < |r|
          ensures NormalizeUrl(r[i].couponLink) != NormalizeUrl(r[j].couponLink)
        {
          assert r[j] == tail[j - 1];
          if i == 0 {
            assert Emitted(tail[j - 1], links[1..], seen');
          } else {
            assert r[i] == tail[i - 1];
          }
        }
    }
  }

  /** No link before index `k` has a URL normalising to `n`. */
  predicate FirstWithKey(links: seq<Anchor>, k: nat, n: string)
    requires k <= |links|
  {
    forall j :: 0 <= j < k ==> LinkUrl(links[j]).None? || NormalizeUrl(LinkUrl(links[j]).value) != n
  }

  /** Some course of `r` has this URL and title. */
  predicate HasCourse(r: seq<Course>, url: string, title: string) {
    exists i :: 0 <= i < |r| && r[i].couponLink == url && r[i].title == title
  }

  /** Completeness: a link whose URL is the first with its normalised form,
      not seen before, and whose title has at least 5 characters, yields a
      course with that URL and that title. */
  lemma {:induction false} EmitCovers(links: seq<Anchor>, seen: set<string>, detailsOf: string -> Details, k: nat, url: string)
    requires k < |links| && LinkUrl(links[k]) == Some(url)
    requires NormalizeUrl(url) !in seen && FirstWithKey(links, k, NormalizeUrl(url))
    requires |ResolveTitle(links[k])| >= 5
    ensures HasCourse(Emit(links, seen, detailsOf), url, ResolveTitle(links[k]))
    decreases k, 1
  {
    if k == 0 {
      EmitCoversHead(links, seen, detailsOf, url);
    } else {
      EmitCoversLater(links, seen, detailsOf, k, url);
    }
  }

  /** The inductive step of `EmitCovers`: the course comes from the rest
      of the links. */
  lemma {:induction false} EmitCoversLater(links: seq<Anchor>, seen: set<string>, detailsOf: string -> Details, k: nat, url: string)
    requires 0 < k < |links| && LinkUrl(links[k]) == Some(url)
    requires NormalizeUrl(url) !in seen && FirstWithKey(links, k, NormalizeUrl(url))
    requires |ResolveTitle(links[k])| >= 5
    ensures HasCourse(Emit(links, seen, detailsOf), url, ResolveTitle(links[k]))
    decreases k, 0
  {
    var rest := links[1..];
    var seen' := SeenAfter(links[0], seen);
    FirstWithKeyTail(links, seen, k, url);
    assert rest[k - 1] == links[k];
    EmitCovers(rest, seen', detailsOf, k - 1, url);
    EmitKeepsTail(links, seen, detailsOf, url, ResolveTitle(links[k]));
  }

  /** A course emitted for the rest of the links is emitted for all. */
  lemma EmitKeepsTail(links: seq<Anchor>, seen: set<string>, detailsOf: string -> Details, url: string, title: string)
    requires links != []
    requires HasCourse(Emit(links[1..], SeenAfter(links[0], seen), detailsOf), url, title)
    ensures HasCourse(Emit(links, seen, detailsOf), url, title)
  {
    EmitUnfold(links, seen, detailsOf);
    var p := Produced(links[0], seen, detailsOf);
    if p.Some? {
      HasCourseCons(p.value, Emit(links[1..], SeenAfter(links[0], seen), detailsOf), url, title);
    }
  }

  lemma HasCourseCons(c: Course, tail: seq<Course>, url: string, title: string)
    requires HasCourse(tail, url, title)
    ensures HasCourse([c] + tail, url, title)
  {
    var i :| 0 <= i < |tail| && tail[i].couponLink == url && tail[i].title == title;
    assert ([c] + tail)[i + 1] == tail[i];
  }

  /** The first link, when it yields a course, yields the first one. */
  lemma EmitCoversHead(links: seq<Anchor>, seen: set<string>, detailsOf: string -> Details, url: string)
    requires links != [] && LinkUrl(links[0]) == Some(url)
    requires NormalizeUrl(url) !in seen && |ResolveTitle(links[0])| >= 5
    ensures HasCourse(Emit(links, seen, detailsOf), url, ResolveTitle(links[0]))
  {
    EmitUnfold(links, seen, detailsOf);
    var c := Produced(links[0], seen, detailsOf).value;
    var tail := Emit(links[1..], SeenAfter(links[0], seen), detailsOf);
    assert ([c] + tail)[0] == c;
  }

  /** One step of `Emit`. */
  lemma EmitUnfold(links: seq<Anchor>, seen: set<string>, detailsOf: string -> Details)
    requires links != []
    ensures Produced(links[0], seen, detailsOf).None? ==>
              Emit(links, seen, detailsOf) == Emit(links[1..], SeenAfter(links[0], seen), detailsOf)
    ensures Produced(links[0], seen, detailsOf).Some? ==>
              Emit(links, seen, detailsOf) == [Produced(links[0], seen, detailsOf).value] + Emit(links[1..], SeenAfter(links[0], seen), detailsOf)
  {
  }

  /** The conditions of `EmitCovers` carry over to the rest of the links. */
  lemma FirstWithKeyTail(links: seq<Anchor>, seen: set<string>, k: nat, url: string)
    requires 0 < k < |links|
    requires NormalizeUrl(url) !in seen && FirstWithKey(links, k, NormalizeUrl(url))
    ensures NormalizeUrl(url) !in SeenAfter(links[0], seen)
    ensures FirstWithKey(links[1..], k - 1, NormalizeUrl(url))
  {
    assert LinkUrl(links[0]).None? || NormalizeUrl(LinkUrl(links[0]).value) != NormalizeUrl(url);
    forall j | 0 <= j < k - 1
      ensures LinkUrl(links[1..][j]).None? || NormalizeUrl(LinkUrl(links[1..][j]).value) != NormalizeUrl(url)
    {
      assert links[1..][j] == links[j + 1];
    }
  }

  /** `scrape_couponami`: a page that could not be fetched yields nothing. */
  function ScrapeCouponami(page: Option<Page>, detailsOf: string -> Details): (r: seq<Course>)
    ensures page.None? ==> r == []
    ensures forall i :: 0 <= i < |r| ==> WellFormed(r[i])
    ensures DistinctUrls(r)
    ensures page.Some? ==> forall i :: 0 <= i < |r| ==> FromLinks(r[i].couponLink, CandidateLinks(page.value))
  {
    match page
    case None => []
    case Some(p) =>
      var r := Emit(CandidateLinks(p), {}, detailsOf);
      EmitDistinct(CandidateLinks(p), {}, detailsOf);
      AllEmittedElements(r, CandidateLinks(p), {});
      r
  }
}
