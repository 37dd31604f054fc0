/** Following a coupon link to the Udemy course URL,
    `UdemyScraper.get_udemy_course_info` (botcode.py:523-626).

    Fetching is an oracle from a URL to what the landing page offers (or
    `None` when the request fails, which the source turns into `{}`). The
    model also records which URLs were fetched, so that the depth of the
    redirect chain can be stated. */
module Resolver {

  import opened Wrappers
  import opened Text
  import Extract

  const UdemyHost := "udemy.com"

  /** A fetched page: the URL after redirects, the `href` of every anchor
      that has one (document order), and the `onclick` attribute ("" when
      absent) of every `<button>` followed by every anchor whose class
      mentions button, btn, get or course. */
  datatype Landing = Landing(finalUrl: string, hrefs: seq<string>, onclicks: seq<string>)

  /** The Udemy URL found, if any, and the URLs requested on the way. */
  datatype Resolution = Resolution(udemyUrl: Option<string>, fetched: seq<string>)

  /** Makes a Udemy href absolute: site-relative paths get the Udemy
      origin, scheme-less hosts get "https://". */
  function FixUdemyHref(h: string): (r: string)
    ensures exists pre :: r == pre + h
    ensures Contains(h, UdemyHost) ==> Contains(r, UdemyHost)
    ensures StartsWith(r, "http")
  {
    if StartsWith(h, "/") then
      assert ("https://www.udemy.com" + h)[..4] == "http";
      assert Contains(h, UdemyHost) ==> Contains("https://www.udemy.com" + h, UdemyHost) by {
        if Contains(h, UdemyHost) { ContainsAppendLeft("https://www.udemy.com", h, UdemyHost); }
      }
      "https://www.udemy.com" + h
    else if !StartsWith(h, "http") then
      assert ("https://" + h)[..4] == "http";
      assert Contains(h, UdemyHost) ==> Contains("https://" + h, UdemyHost) by {
        if Contains(h, UdemyHost) { ContainsAppendLeft("https://", h, UdemyHost); }
      }
      "https://" + h
    else
      assert h == [] + h;
      h
  }

  /** The first Udemy href in document order, made absolute. */
  function UdemyHref(hrefs: seq<string>): (r: Option<string>)
    ensures r.Some? <==> exists i :: 0 <= i < |hrefs| && Contains(hrefs[i], UdemyHost)
    ensures r.Some? ==> exists i :: && 0 <= i < |hrefs| && Contains(hrefs[i], UdemyHost)
                                    && r.value == FixUdemyHref(hrefs[i])
                                    && forall j :: 0 <= j < i ==> !Contains(hrefs[j], UdemyHost)
    ensures r.Some? ==> Contains(r.value, UdemyHost)
  {
    match FirstContaining(hrefs, UdemyHost)
    case None => None
    case Some(h) => Some(FixUdemyHref(h))
  }

  // ---------------------------------------------------------------------
  // `re.search(r'https?://[^\s\'"]*udemy\.com[^\s\'"]*', onclick)`

  predicate IsUrlChar(c: char) {
    !IsSpace(c) && c != '\'' && c != '"'
  }

  /** The end of the run of URL characters starting at `i`. */
  function UrlRunEnd(o: string, i: nat): (e: nat)
    requires i <= |o|
    ensures i <= e <= |o|
    ensures forall k :: i <= k < e ==> IsUrlChar(o[k])
    ensures e < |o| ==> !IsUrlChar(o[e])
    decreases |o| - i
  {
    if i == |o| || !IsUrlChar(o[i]) then i else UrlRunEnd(o, i + 1)
  }

  /** The end of `https?://` at `p`. When "https://" is there the `s?`
      must take the "s", since "http" followed by "s" cannot go on with
      "://". */
  function SchemeEnd(o: string, p: nat): (r: Option<nat>)
    ensures r.Some? ==> p < r.value <= |o|
  {
    if OccursAt(o, "https://", p) then Some(p + 8)
    else if OccursAt(o, "http://", p) then Some(p + 7)
    else None
  }

  /** The pattern matches at `p`: a scheme, then a run of URL characters
      holding "udemy.com" (which has no space or quote in it, so greedy
      backtracking finds it exactly when it occurs in the run). */
  predicate OnclickMatchesAt(o: string, p: nat) {
    && SchemeEnd(o, p).Some?
    && Contains(o[SchemeEnd(o, p).value..UrlRunEnd(o, SchemeEnd(o, p).value)], UdemyHost)
  }

  function FirstOnclickMatch(o: string, i: nat): (r: Option<nat>)
    requires i <= |o|
    ensures r.Some? ==> i <= r.value < |o| && OnclickMatchesAt(o, r.value)
    ensures r.Some? ==> forall k :: i <= k < r.value ==> !OnclickMatchesAt(o, k)
    ensures r.None? ==> forall k :: i <= k < |o| ==> !OnclickMatchesAt(o, k)
    decreases |o| - i
  {
    if i == |o| then None
    else if OnclickMatchesAt(o, i) then Some(i)
    else FirstOnclickMatch(o, i + 1)
  }

  /** The text a match at `p` covers: from the scheme to the end of the
      run, since the trailing `[^\s'"]*` is greedy. */
  function MatchText(o: string, p: nat): (m: string)
    requires OnclickMatchesAt(o, p)
    ensures StartsWith(m, "http://") || StartsWith(m, "https://")
    ensures Contains(m, UdemyHost)
    ensures forall k :: 0 <= k < |m| ==> !IsSpace(m[k])
    ensures Contains(o, m)
  {
    var s := SchemeEnd(o, p).value;
    var e := UrlRunEnd(o, s);
    MatchTextFacts(o, p, s, e);
    o[p..e]
  }

  lemma MatchTextFacts(o: string, p: nat, s: nat, e: nat)
    requires OnclickMatchesAt(o, p) && s == SchemeEnd(o, p).value && e == UrlRunEnd(o, s)
    ensures StartsWith(o[p..e], "http://") || StartsWith(o[p..e], "https://")
    ensures Contains(o[p..e], UdemyHost)
    ensures forall k :: 0 <= k < |o[p..e]| ==> !IsSpace(o[p..e][k])
    ensures Contains(o, o[p..e])
  {
    var m := o[p..e];
    assert m[..s - p] == o[p..s];
    assert OccursAt(m, o[s..e], s - p);
    ContainsTrans(m, o[s..e], UdemyHost);
    forall k | 0 <= k < |m| ensures !IsSpace(m[k]) {
      assert m[k] == o[p + k];
      if k < s - p {
        assert o[p..s][k] == m[k];
      }
    }
    assert OccursAt(o, m, p);
  }

  /** `re.search` on one onclick string: the leftmost match's text. */
  function OnclickUrl(o: string): (r: Option<string>)
    ensures r.None? <==> forall p :: 0 <= p < |o| ==> !OnclickMatchesAt(o, p)
    ensures r.Some? ==> exists p :: && 0 <= p < |o| && OnclickMatchesAt(o, p) && r.value == MatchText(o, p)
                                    && forall k :: 0 <= k < p ==> !OnclickMatchesAt(o, k)
    ensures r.Some? ==> Contains(r.value, UdemyHost)
  {
    match FirstOnclickMatch(o, 0)
    case None => None
    case Some(p) => Some(MatchText(o, p))
  }

  /** The first button whose onclick yields a match. */
  function OnclickUdemy(onclicks: seq<string>): (r: Option<string>)
    ensures r.Some? <==> exists i :: 0 <= i < |onclicks| && OnclickUrl(onclicks[i]).Some?
    ensures r.Some? ==> exists i :: && 0 <= i < |onclicks| && OnclickUrl(onclicks[i]) == r
                                    && forall j :: 0 <= j < i ==> OnclickUrl(onclicks[j]).None?
    ensures r.Some? ==> Contains(r.value, UdemyHost)
  {
    if onclicks == [] then None
    else if OnclickUrl(onclicks[0]).Some? then OnclickUrl(onclicks[0])
    else
      var r := OnclickUdemy(onclicks[1..]);
      OnclickUdemyTail(onclicks, r);
      r
  }

  lemma OnclickUdemyTail(onclicks: seq<string>, r: Option<string>)
    requires onclicks != [] && OnclickUrl(onclicks[0]).None?
    requires r.Some? <==> exists i :: 0 <= i < |onclicks[1..]| && OnclickUrl(onclicks[1..][i]).Some?
    requires r.Some? ==> exists i :: && 0 <= i < |onclicks[1..]| && OnclickUrl(onclicks[1..][i]) == r
                                     && forall j :: 0 <= j < i ==> OnclickUrl(onclicks[1..][j]).None?
    ensures r.Some? <==> exists i :: 0 <= i < |onclicks| && OnclickUrl(onclicks[i]).Some?
    ensures r.Some? ==> exists i :: && 0 <= i < |onclicks| && OnclickUrl(onclicks[i]) == r
                                    && forall j :: 0 <= j < i ==> OnclickUrl(onclicks[j]).None?
  {
    if r.Some? {
      var i :| && 0 <= i < |onclicks[1..]| && OnclickUrl(onclicks[1..][i]) == r
               && forall j :: 0 <= j < i ==> OnclickUrl(onclicks[1..][j]).None?;
      ShiftAll(onclicks, o => OnclickUrl(o).None?, i);
      assert onclicks[i + 1] == onclicks[1..][i];
    } else {
      ShiftAll(onclicks, o => OnclickUrl(o).None?, |onclicks| - 1);
    }
  }

  /** A property of the head and of the first `n` elements of the tail
      holds for the first `n + 1` elements. */
  lemma ShiftAll(xs: seq<string>, good: string -> bool, n: nat)
    requires xs != [] && good(xs[0]) && n <= |xs| - 1
    requires forall j :: 0 <= j < n ==> good(xs[1..][j])
    ensures forall j :: 0 <= j < n + 1 ==> good(xs[j])
  {
    forall j | 0 <= j < n + 1 ensures good(xs[j]) {
      if j > 0 { assert xs[j] == xs[1..][j - 1]; }
    }
  }

  // ---------------------------------------------------------------------
  // The two branches

  /** What a `/go/` link's landing page yields, in order of preference:
      a redirect that ended on Udemy, the first Udemy href, the first
      onclick URL. */
  function GoHop(p: Landing): (r: Option<string>)
    ensures Contains(p.finalUrl, UdemyHost) ==> r == Some(p.finalUrl)
    ensures !Contains(p.finalUrl, UdemyHost) ==> (UdemyHref(p.hrefs).Some? ==> r == UdemyHref(p.hrefs))
    ensures (!Contains(p.finalUrl, UdemyHost) && UdemyHref(p.hrefs).None?) ==> r == OnclickUdemy(p.onclicks)
    ensures r.Some? ==> Contains(r.value, UdemyHost)
  {
    if Contains(p.finalUrl, UdemyHost) then Some(p.finalUrl)
    else if UdemyHref(p.hrefs).Some? then UdemyHref(p.hrefs)
    else OnclickUdemy(p.onclicks)
  }

  /** The `/go/` link a course page points at, made absolute. */
  function GoLink(p: Landing): (r: Option<string>)
    ensures r.Some? ==> Extract.IsGoHref(r.value)
    ensures r.Some? <==> exists i :: 0 <= i < |p.hrefs| && Extract.IsGoHref(p.hrefs[i])
    ensures r.Some? ==> exists i :: && 0 <= i < |p.hrefs| && Extract.IsGoHref(p.hrefs[i])
                                    && (forall j :: 0 <= j < i ==> !Extract.IsGoHref(p.hrefs[j]))
                                    && r.value == (if StartsWith(p.hrefs[i], "/") then Extract.SiteBase + p.hrefs[i]
                                                   else p.hrefs[i])
  {
    match FirstContaining(p.hrefs, "/go/")
    case None => None
    case Some(g) =>
      if StartsWith(g, "/") then
        ContainsAppendLeft(Extract.SiteBase, g, "/go/");
        Some(Extract.SiteBase + g)
      else Some(g)
  }

  /** `get_udemy_course_info(link, depth)`. */
  function Resolve(fetch: string -> Option<Landing>, link: string, depth: int): (r: Resolution)
    ensures depth > 3 ==> r == Resolution(None, [])
    ensures link == "" ==> r == Resolution(None, [])
    ensures r.fetched != [] ==> r.fetched[0] == link
    ensures |r.fetched| <= 2
    ensures Extract.IsGoHref(link) ==> |r.fetched| <= 1
    ensures |r.fetched| == 2 ==> Extract.IsGoHref(r.fetched[1])
    ensures r.udemyUrl.Some? ==> Contains(r.udemyUrl.value, UdemyHost)
    ensures depth <= 3 && link != "" && fetch(link).None? ==> r == Resolution(None, [link])
    ensures depth <= 3 && link != "" && Extract.IsGoHref(link) && fetch(link).Some? ==>
              r.udemyUrl == GoHop(fetch(link).value)
    ensures && depth <= 3 && link != "" && !Extract.IsGoHref(link) && fetch(link).Some?
            && GoLink(fetch(link).value).None? ==>
              r.udemyUrl == UdemyHref(fetch(link).value.hrefs)
    decreases if depth > 3 then 0 else 4 - depth
  {
    if depth > 3 || link == "" then Resolution(None, [])
    else if Extract.IsGoHref(link) then
      match fetch(link)
      case None => Resolution(None, [link])
      case Some(p) => Resolution(GoHop(p), [link])
    else
      match fetch(link)
      case None => Resolution(None, [link])
      case Some(p) =>
        match GoLink(p)
        case Some(go) =>
          var sub := Resolve(fetch, go, depth + 1);
          Resolution(sub.udemyUrl, [link] + sub.fetched)
        case None => Resolution(UdemyHref(p.hrefs), [link])
  }

  /** A course page that points at a `/go/` link resolves to whatever that
      link's landing page yields, unless the depth limit is reached. */
  lemma CoursePageFollowsGo(fetch: string -> Option<Landing>, link: string, depth: int, p: Landing, q: Landing)
    requires depth <= 2 && link != "" && !Extract.IsGoHref(link)
    requires fetch(link) == Some(p) && GoLink(p).Some? && fetch(GoLink(p).value) == Some(q)
    ensures Resolve(fetch, link, depth) == Resolution(GoHop(q), [link, GoLink(p).value])
  {
  }

  /** A course page hands over to its `/go/` link: what that link resolves
      to one level deeper is the answer, after one more request. */
  lemma CoursePageHops(fetch: string -> Option<Landing>, link: string, depth: int, p: Landing)
    requires depth <= 3 && link != "" && !Extract.IsGoHref(link)
    requires fetch(link) == Some(p) && GoLink(p).Some?
    ensures Resolve(fetch, link, depth).udemyUrl == Resolve(fetch, GoLink(p).value, depth + 1).udemyUrl
    ensures Resolve(fetch, link, depth).fetched == [link] + Resolve(fetch, GoLink(p).value, depth + 1).fetched
  {
  }

  /** At depth 3 the hop to the `/go/` link is cut off and nothing is
      found, even when the `/go/` page would redirect to Udemy. */
  lemma DepthThreeCutsHop(fetch: string -> Option<Landing>, link: string, p: Landing)
    requires link != "" && !Extract.IsGoHref(link)
    requires fetch(link) == Some(p) && GoLink(p).Some?
    ensures Resolve(fetch, link, 3) == Resolution(None, [link])
  {
  }

  /** The first Udemy link wins even when a later one carries a coupon. */
  lemma CouponLinkNotPreferred()
    ensures GoHop(Landing("https://www.couponami.com/go/x",
                          ["https://www.udemy.com/course/x/", "https://www.udemy.com/course/x/?couponCode=FREE"],
                          [])) == Some("https://www.udemy.com/course/x/")
  {
    var h := "https://www.udemy.com/course/x/";
    var hs := [h, "https://www.udemy.com/course/x/?couponCode=FREE"];
    LacksHost("https://www.couponami.com/go/x");
    FirstUdemyKept(h, hs);
  }

  /** A text without a `y` cannot contain the Udemy host. */
  lemma LacksHost(f: string)
    requires 'y' !in f
    ensures !Contains(f, UdemyHost)
  {
    assert UdemyHost[4] == 'y';
    if Contains(f, UdemyHost) { ContainsCharOf(f, UdemyHost, 'y'); }
  }

  lemma FirstUdemyKept(h: string, hs: seq<string>)
    requires h == "https://www.udemy.com/course/x/" && hs != [] && hs[0] == h
    ensures UdemyHref(hs) == Some(h)
  {
    assert OccursAt(h, UdemyHost, 12);
    assert Contains(hs[0], UdemyHost);
    assert FirstContaining(hs, UdemyHost) == Some(h);
    assert StartsWith(h, "http") by { assert h[..4] == "http"; }
    assert !StartsWith(h, "/") by { assert h[0] == 'h'; }
  }
}
