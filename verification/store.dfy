/** The duplicate store, `CourseDatabase` (botcode.py:47-171).

    The SQLite table is modelled as the sequence of its rows in insertion
    order, together with a flag saying whether the database can be reached
    at all. `LIKE 'p%'` is modelled as "starts with p" and `LIKE '%p%'` as
    "contains p". */
module Store {

  import opened Wrappers
  import opened Text
  import opened Urls

  /** One row of `posted_courses`; `id` and `posted_at` are not modelled. */
  datatype Record = Record(title: string, couponLink: string, udemyUrl: Option<string>, source: Option<string>)

  /** The table, and whether connecting and querying succeed. */
  datatype Db = Db(records: seq<Record>, available: bool)

  /** Python truthiness of an optional string argument. */
  predicate Truthy(o: Option<string>) {
    o.Some? && o.value != ""
  }

  // ---------------------------------------------------------------------
  // Title normalisation: re.sub(r'[^\w\s]', '', t.lower().strip())

  predicate IsTitleChar(c: char) {
    IsWordChar(c) || IsSpace(c)
  }

  /** Deletes every character that is neither a word character nor whitespace. */
  function KeepTitleChars(s: string): (r: string)
    ensures |r| <= |s|
    ensures forall k :: 0 <= k < |r| ==> IsTitleChar(r[k])
    ensures forall c :: c in r <==> c in s && IsTitleChar(c)
    ensures (forall k :: 0 <= k < |s| ==> IsTitleChar(s[k])) ==> r == s
  {
    if s == [] then []
    else
      var rest := KeepTitleChars(s[1..]);
      assert forall c :: c in s <==> c == s[0] || c in s[1..];
      if IsTitleChar(s[0]) then [s[0]] + rest else rest
  }

  /** The comparison key of a course title: lower-cased, stripped, and
      reduced to word characters and whitespace. */
  function TitleKey(t: string): (r: string)
    ensures |r| <= |t|
    ensures forall k :: 0 <= k < |r| ==> IsTitleChar(r[k]) && !IsUpper(r[k])
    ensures forall c :: c in r <==> c in Strip(Lower(t)) && IsTitleChar(c)
    ensures (forall k :: 0 <= k < |Strip(Lower(t))| ==> IsTitleChar(Strip(Lower(t))[k])) ==> r == Strip(Lower(t))
  {
    var l := Lower(t);
    var s := Strip(l);
    var r := KeepTitleChars(s);
    forall k | 0 <= k < |r| ensures !IsUpper(r[k]) {
      assert r[k] in r;
      assert r[k] in s;
      assert r[k] in l;
    }
    r
  }

  /** Two title keys denote the same course: equal, or one contains the
      other where the CONTAINED key is longer than 20 (botcode.py:119-121). */
  predicate TitlesMatch(key: string, postedKey: string) {
    || key == postedKey
    || (|key| > 20 && Contains(postedKey, key))
    || (|postedKey| > 20 && Contains(key, postedKey))
  }

  lemma TitlesMatchSymmetric(a: string, b: string)
    ensures TitlesMatch(a, b) <==> TitlesMatch(b, a)
  {
  }

  /** The containment rule is guarded by the length of the contained key,
      not of the longer one: a 12-character key inside a 29-character key
      does not match. */
  lemma ShortContainedTitleDoesNotMatch()
    ensures Contains("introduction to python course", "introduction")
    ensures !TitlesMatch("introduction", "introduction to python course")
    ensures !TitlesMatch("introduction to python course", "introduction")
  {
    assert OccursAt("introduction to python course", "introduction", 0);
  }

  // ---------------------------------------------------------------------
  // The three duplicate checks

  /** The text the `LIKE` pattern of the link query starts with: the
      normalised link, or "None" when the link is empty (`f'{None}%'`). */
  function LinkPattern(link: string): string {
    if link == "" then "None" else NormalizeUrl(link)
  }

  /** `coupon_link = link OR coupon_link LIKE 'pattern%'` holds of a row. */
  predicate LinkRowMatches(rec: Record, link: string) {
    rec.couponLink == link || StartsWith(rec.couponLink, LinkPattern(link))
  }

  predicate LinkKnown(records: seq<Record>, link: string) {
    exists i :: 0 <= i < |records| && LinkRowMatches(records[i], link)
  }

  /** `udemy_url LIKE '%slug%'` holds of a row (NULL never matches). */
  predicate SlugRowMatches(rec: Record, slug: string) {
    rec.udemyUrl.Some? && Contains(rec.udemyUrl.value, slug)
  }

  predicate SlugKnown(records: seq<Record>, slug: string) {
    exists i :: 0 <= i < |records| && SlugRowMatches(records[i], slug)
  }

  /** The course slug of a Udemy URL, taken after normalisation. */
  function SlugOf(udemy: string): Option<string> {
    CourseSlug(NormalizeUrl(udemy))
  }

  /** A stored title that is non-empty and matches the key. */
  predicate TitleRowMatches(rec: Record, key: string) {
    rec.title != "" && TitlesMatch(key, TitleKey(rec.title))
  }

  /** The loop over `SELECT course_title`, returning at the first match. */
  function TitleScan(records: seq<Record>, key: string): (r: bool)
    ensures r <==> exists i :: 0 <= i < |records| && TitleRowMatches(records[i], key)
  {
    if records == [] then false
    else if TitleRowMatches(records[0], key) then true
    else
      var tail := records[1..];
      var r := TitleScan(tail, key);
      if r then
        var j :| 0 <= j < |tail| && TitleRowMatches(tail[j], key);
        assert records[j + 1] == tail[j];
        r
      else
        assert forall i :: 1 <= i < |records| ==> records[i] == tail[i - 1];
        r
  }

  /** Check 1 (botcode.py:83-90). */
  predicate LinkHit(records: seq<Record>, link: string) {
    link != "" && LinkKnown(records, link)
  }

  /** Check 2 (botcode.py:92-104). */
  predicate SlugHit(records: seq<Record>, udemy: Option<string>) {
    Truthy(udemy) && SlugOf(udemy.value).Some? && SlugKnown(records, SlugOf(udemy.value).value)
  }

  /** Check 3 (botcode.py:106-122), stated over all stored rows. */
  predicate TitleHit(records: seq<Record>, title: Option<string>) {
    && Truthy(title)
    && |TitleKey(title.value)| > 10
    && exists i :: 0 <= i < |records| && TitleRowMatches(records[i], TitleKey(title.value))
  }

  datatype Check = ByLink | BySlug | ByTitle

  /** The check that reports the duplicate (the one logged), running the
      three checks in order and stopping at the first hit; a store that
      cannot be reached reports nothing. */
  function DuplicateBy(db: Db, link: string, udemy: Option<string>, title: Option<string>): (r: Option<Check>)
    ensures r == Some(ByLink) <==> db.available && LinkHit(db.records, link)
    ensures r == Some(BySlug) <==> db.available && !LinkHit(db.records, link) && SlugHit(db.records, udemy)
    ensures r == Some(ByTitle) <==> db.available && !LinkHit(db.records, link) && !SlugHit(db.records, udemy)
                                    && TitleHit(db.records, title)
  {
    if !db.available then None
    else if link != "" && LinkKnown(db.records, link) then Some(ByLink)
    else if Truthy(udemy) && SlugOf(udemy.value).Some? && SlugKnown(db.records, SlugOf(udemy.value).value) then Some(BySlug)
    else if Truthy(title) && |TitleKey(title.value)| > 10 && TitleScan(db.records, TitleKey(title.value)) then Some(ByTitle)
    else None
  }

  /** `is_posted`: true exactly when one of the three checks hits on a
      reachable store; any store error yields false. */
  function IsPosted(db: Db, link: string, udemy: Option<string>, title: Option<string>): (r: bool)
    ensures !db.available ==> !r
    ensures r <==> db.available && (LinkHit(db.records, link) || SlugHit(db.records, udemy) || TitleHit(db.records, title))
  {
    DuplicateBy(db, link, udemy, title).Some?
  }

  // ---------------------------------------------------------------------
  // mark_posted

  /** The stored coupon link: `normalized_coupon or coupon_link`. */
  function StoredLink(link: string): (r: string)
    ensures link != "" && NormalizeUrl(link) != "" ==> r == NormalizeUrl(link)
    ensures StartsWith(r, LinkPattern(link)) || r == link
  {
    if link != "" && NormalizeUrl(link) != "" then NormalizeUrl(link) else link
  }

  /** The stored Udemy URL: `normalized_udemy or udemy_url`. */
  function StoredUdemy(udemy: Option<string>): (r: Option<string>)
    ensures r.None? <==> udemy.None?
    ensures Truthy(udemy) && NormalizeUrl(udemy.value) != "" ==> r == Some(NormalizeUrl(udemy.value))
  {
    match udemy
    case None => None
    case Some(u) => Some(if u != "" && NormalizeUrl(u) != "" then NormalizeUrl(u) else u)
  }

  /** `mark_posted`: appends one row unless a stored link already matches
      the link query; a store error leaves the table as it was. */
  function MarkPosted(db: Db, title: string, link: string, udemy: Option<string>, source: Option<string>): (db': Db)
    ensures db'.available == db.available
    ensures db.records <= db'.records
    ensures |db'.records| <= |db.records| + 1
    ensures |db'.records| == |db.records| + 1 <==> db.available && !LinkKnown(db.records, link)
    ensures |db'.records| == |db.records| + 1 ==>
              && db'.records[|db.records|].title == title
              && db'.records[|db.records|].couponLink == StoredLink(link)
              && db'.records[|db.records|].udemyUrl == StoredUdemy(udemy)
              && db'.records[|db.records|].source == source
  {
    if !db.available || LinkKnown(db.records, link) then db
    else db.(records := db.records + [Record(title, StoredLink(link), StoredUdemy(udemy), source)])
  }

  /** After marking, some stored link starts with the normalised link. */
  lemma MarkedLinkStored(db: Db, title: string, link: string, udemy: Option<string>, source: Option<string>)
    requires db.available && link != "" && NoLineBreak(link)
    ensures exists i :: 0 <= i < |MarkPosted(db, title, link, udemy, source).records|
                        && StartsWith(MarkPosted(db, title, link, udemy, source).records[i].couponLink, NormalizeUrl(link))
  {
    var db' := MarkPosted(db, title, link, udemy, source);
    var n := NormalizeUrl(link);
    if LinkKnown(db.records, link) {
      var i :| 0 <= i < |db.records| && LinkRowMatches(db.records[i], link);
      assert db'.records[i] == db.records[i];
    } else {
      var i := |db.records|;
      assert StartsWith(db'.records[i].couponLink, n);
    }
  }

  /** Any link whose normalisation is a prefix of the normalisation of a
      marked link is reported as posted afterwards; in particular every
      variant of the marked link with another query or fragment is. */
  lemma MarkedLinkKnown(db: Db, title: string, link: string, udemy: Option<string>, source: Option<string>,
                        link2: string, udemy2: Option<string>, title2: Option<string>)
    requires db.available && link != "" && NoLineBreak(link)
    requires link2 != "" && StartsWith(NormalizeUrl(link), NormalizeUrl(link2))
    ensures IsPosted(MarkPosted(db, title, link, udemy, source), link2, udemy2, title2)
  {
    var db' := MarkPosted(db, title, link, udemy, source);
    MarkedLinkStored(db, title, link, udemy, source);
    var i :| 0 <= i < |db'.records| && StartsWith(db'.records[i].couponLink, NormalizeUrl(link));
    StartsWithTrans(db'.records[i].couponLink, NormalizeUrl(link), NormalizeUrl(link2));
    assert LinkRowMatches(db'.records[i], link2);
    assert LinkHit(db'.records, link2);
  }

  /** A link that is a stored link plus a query string or fragment is
      reported as posted. */
  lemma QueryVariantKnown(db: Db, i: nat, rest: string, udemy: Option<string>, title: Option<string>)
    requires db.available && i < |db.records|
    requires NoLineBreak(db.records[i].couponLink + rest)
    requires forall k :: 0 <= k < |db.records[i].couponLink| ==> !IsCutChar(db.records[i].couponLink[k])
    requires rest != [] && IsCutChar(rest[0])
    ensures IsPosted(db, db.records[i].couponLink + rest, udemy, title)
  {
    var base := db.records[i].couponLink;
    NormalizeDropsQuery(base, rest);
    assert StartsWith(base, base);
    assert LinkRowMatches(db.records[i], base + rest);
  }

  /** Marking the same link twice stores it once. */
  lemma MarkPostedIdempotent(db: Db, title: string, link: string, udemy: Option<string>, source: Option<string>,
                             title2: string, udemy2: Option<string>, source2: Option<string>)
    ensures MarkPosted(MarkPosted(db, title, link, udemy, source), title2, link, udemy2, source2)
            == MarkPosted(db, title, link, udemy, source)
  {
    var db' := MarkPosted(db, title, link, udemy, source);
    if db.available && !LinkKnown(db.records, link) {
      var i := |db.records|;
      var stored := StoredLink(link);
      if link != "" && NormalizeUrl(link) != "" {
        assert StartsWith(stored, LinkPattern(link));
      } else if link != "" {
        assert LinkPattern(link) == "";
        assert StartsWith(stored, LinkPattern(link));
      }
      assert LinkRowMatches(db'.records[i], link);
    }
  }

  /** No two rows share a coupon link (the UNIQUE constraint). */
  predicate UniqueLinks(records: seq<Record>) {
    forall i, j :: 0 <= i < j < |records| ==> records[i].couponLink != records[j].couponLink
  }

  /** The pre-insert query rules out every row the UNIQUE constraint would
      reject, so the IntegrityError branch of `mark_posted` is unreachable. */
  lemma MarkPostedKeepsLinksUnique(db: Db, title: string, link: string, udemy: Option<string>, source: Option<string>)
    requires UniqueLinks(db.records)
    ensures UniqueLinks(MarkPosted(db, title, link, udemy, source).records)
  {
    var db' := MarkPosted(db, title, link, udemy, source);
    if db.available && !LinkKnown(db.records, link) {
      var n := |db.records|;
      var stored := StoredLink(link);
      forall i | 0 <= i < n
        ensures db.records[i].couponLink != stored
      {
        assert !LinkRowMatches(db.records[i], link);
        if link != "" && NormalizeUrl(link) != "" {
          assert StartsWith(stored, stored);
        } else if link != "" {
          assert StartsWith(db.records[i].couponLink, LinkPattern(link));
        }
      }
      forall i, j | 0 <= i < j < |db'.records|
        ensures db'.records[i].couponLink != db'.records[j].couponLink
      {
        if j == n {
          assert db'.records[i] == db.records[i];
        } else {
          assert db'.records[i] == db.records[i] && db'.records[j] == db.records[j];
        }
      }
    }
  }

  /** A course reaching the same Udemy course through another coupon link
      is reported as posted once the first one is marked. */
  lemma MarkedSlugKnown(db: Db, title: string, link: string, udemy: string, source: Option<string>,
                        link2: string, udemy2: string, title2: Option<string>)
    requires db.available && !LinkKnown(db.records, link)
    requires SlugOf(udemy).Some? && SlugOf(udemy2) == SlugOf(udemy)
    ensures IsPosted(MarkPosted(db, title, link, Some(udemy), source), link2, Some(udemy2), title2)
  {
    var db' := MarkPosted(db, title, link, Some(udemy), source);
    var slug := SlugOf(udemy).value;
    var n := NormalizeUrl(udemy);
    SlugInUrl(n);
    assert n != "" && udemy != "";
    assert db'.records[|db.records|].udemyUrl == Some(n);
    assert SlugRowMatches(db'.records[|db.records|], slug);
    assert NormalizeUrl(udemy2) != "";
    assert SlugHit(db'.records, Some(udemy2));
  }

  /** A course whose title matches a newly marked title is reported as
      posted, once its own key is longer than 10. */
  lemma MarkedTitleKnown(db: Db, title: string, link: string, udemy: Option<string>, source: Option<string>,
                         link2: string, udemy2: Option<string>, title2: string)
    requires db.available && !LinkKnown(db.records, link) && title != ""
    requires |TitleKey(title2)| > 10 && TitlesMatch(TitleKey(title2), TitleKey(title))
    ensures IsPosted(MarkPosted(db, title, link, udemy, source), link2, udemy2, Some(title2))
  {
    var db' := MarkPosted(db, title, link, udemy, source);
    assert TitleRowMatches(db'.records[|db.records|], TitleKey(title2));
  }

  /** Marking never makes a known course unknown. */
  lemma MarkPostedMonotone(db: Db, title: string, link: string, udemy: Option<string>, source: Option<string>,
                           link2: string, udemy2: Option<string>, title2: Option<string>)
    requires IsPosted(db, link2, udemy2, title2)
    ensures IsPosted(MarkPosted(db, title, link, udemy, source), link2, udemy2, title2)
  {
    var db' := MarkPosted(db, title, link, udemy, source);
    assert forall i :: 0 <= i < |db.records| ==> db'.records[i] == db.records[i];
    if LinkHit(db.records, link2) {
      var i :| 0 <= i < |db.records| && LinkRowMatches(db.records[i], link2);
      assert LinkRowMatches(db'.records[i], link2);
    } else if SlugHit(db.records, udemy2) {
      var i :| 0 <= i < |db.records| && SlugRowMatches(db.records[i], SlugOf(udemy2.value).value);
      assert SlugRowMatches(db'.records[i], SlugOf(udemy2.value).value);
    } else {
      var i :| 0 <= i < |db.records| && TitleRowMatches(db.records[i], TitleKey(title2.value));
      assert TitleRowMatches(db'.records[i], TitleKey(title2.value));
    }
  }

  // ---------------------------------------------------------------------
  // The link query matches prefixes

  /** As written, the link query accepts every stored link that merely
      starts with the normalised link, so a different course whose link is
      a prefix of a stored one counts as posted. */
  lemma PrefixLinkCollides()
    ensures NormalizeUrl("https://www.couponami.com/go/python") == "https://www.couponami.com/go/python"
    ensures IsPosted(Db([Record("Python Bootcamp", "https://www.couponami.com/go/python-bootcamp", None, None)], true),
                     "https://www.couponami.com/go/python", None, None)
  {
    var link := "https://www.couponami.com/go/python";
    var stored := "https://www.couponami.com/go/python-bootcamp";
    assert forall k :: 0 <= k < |link| ==> !IsCutChar(link[k]);
    assert NormalizeUrl(link) == link;
    assert LinkPattern(link) == link;
    assert stored[..|link|] == link;
    assert StartsWith(stored, LinkPattern(link));
    var db := Db([Record("Python Bootcamp", stored, None, None)], true);
    assert LinkRowMatches(db.records[0], link);
    assert LinkHit(db.records, link);
  }

  /** The evidently intended link test: the stored link is the link, or
      names the same page once both are normalised. */
  predicate SameLinkRow(rec: Record, link: string) {
    rec.couponLink == link || NormalizeUrl(rec.couponLink) == NormalizeUrl(link)
  }

  predicate SameLinkKnown(records: seq<Record>, link: string) {
    exists i :: 0 <= i < |records| && SameLinkRow(records[i], link)
  }

  /** `is_posted` with the corrected link test; the slug and title checks
      are unchanged. */
  function IsPostedExact(db: Db, link: string, udemy: Option<string>, title: Option<string>): (r: bool)
    ensures !db.available ==> !r
    ensures r && !SlugHit(db.records, udemy) && !TitleHit(db.records, title) ==>
              exists i :: 0 <= i < |db.records| && NormalizeUrl(db.records[i].couponLink) == NormalizeUrl(link)
  {
    db.available
    && ((link != "" && SameLinkKnown(db.records, link)) || SlugHit(db.records, udemy) || TitleHit(db.records, title))
  }

  /** The corrected test tells the prefix link apart from the stored one. */
  lemma ExactRejectsPrefix()
    ensures !IsPostedExact(Db([Record("Python Bootcamp", "https://www.couponami.com/go/python-bootcamp", None, None)], true),
                           "https://www.couponami.com/go/python", None, None)
  {
    var link := "https://www.couponami.com/go/python";
    var stored := "https://www.couponami.com/go/python-bootcamp";
    assert forall k :: 0 <= k < |link| ==> !IsCutChar(link[k]);
    assert forall k :: 0 <= k < |stored| ==> !IsCutChar(stored[k]);
    assert stored != link;
  }

  /** The corrected test still finds a stored link asked for with a query
      string or fragment. */
  lemma ExactKeepsQueryVariants(db: Db, i: nat, rest: string, udemy: Option<string>, title: Option<string>)
    requires db.available && i < |db.records|
    requires NoLineBreak(db.records[i].couponLink + rest)
    requires forall k :: 0 <= k < |db.records[i].couponLink| ==> !IsCutChar(db.records[i].couponLink[k])
    requires rest != [] && IsCutChar(rest[0])
    ensures IsPostedExact(db, db.records[i].couponLink + rest, udemy, title)
  {
    var base := db.records[i].couponLink;
    NormalizeDropsQuery(base, rest);
    assert SameLinkRow(db.records[i], base + rest);
  }

  /** Over stored links that are already normalised, as `mark_posted`
      writes them, the corrected test only ever narrows the one as written. */
  lemma ExactNarrowsLinkCheck(db: Db, link: string, udemy: Option<string>, title: Option<string>)
    requires forall i, k :: 0 <= i < |db.records| && 0 <= k < |db.records[i].couponLink| ==> !IsCutChar(db.records[i].couponLink[k])
    requires IsPostedExact(db, link, udemy, title)
    ensures IsPosted(db, link, udemy, title)
  {
    if link != "" && SameLinkKnown(db.records, link) {
      var i :| 0 <= i < |db.records| && SameLinkRow(db.records[i], link);
      var stored := db.records[i].couponLink;
      if stored != link {
        assert NormalizeUrl(stored) == stored;
        assert StartsWith(stored, LinkPattern(link));
      }
      assert LinkRowMatches(db.records[i], link);
    }
  }
}
