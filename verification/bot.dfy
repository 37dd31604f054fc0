/** One posting pass, `UdemyCoursesBot.process_courses`
    (botcode.py:755-871), and the `/test` command,
    `UdemyCoursesBot.handle_test_command` (botcode.py:873-985).

    The outside world is a set of oracles: fetching pages for the
    resolver, fetching a course page's details, and whether the k-th post
    attempt of the pass reaches the channel. */
module Bot {

  import opened Wrappers
  import opened Text
  import opened Store
  import opened Extract
  import opened Resolver

  /** The oracles a pass consults. */
  datatype World = World(fetch: string -> Option<Landing>, detailsOf: string -> Details, postOk: nat -> bool)

  /** What a pass did: the store afterwards, the courses posted (in order),
      and how many were skipped as duplicates or failed to post. */
  datatype PassReport = PassReport(db: Db, posted: seq<Course>, duplicates: nat, failed: nat)

  // ---------------------------------------------------------------------
  // Recording

  /** `mark_posted` for a course that has just been posted. */
  function Record1(db: Db, c: Course): Db {
    MarkPosted(db, c.title, c.couponLink, c.udemyUrl, Some(c.source))
  }

  /** The store after recording the courses one after another. */
  function MarkAll(db: Db, cs: seq<Course>): (r: Db)
    ensures r.available == db.available
    ensures db.records <= r.records
    ensures |r.records| <= |db.records| + |cs|
    decreases |cs|
  {
    if cs == [] then db
    else
      var r := MarkAll(Record1(db, cs[0]), cs[1..]);
      assert db.records <= Record1(db, cs[0]).records;
      r
  }

  /** A store that cannot be reached records nothing. */
  lemma {:induction false} MarkAllUnavailable(db: Db, cs: seq<Course>)
    requires !db.available
    ensures MarkAll(db, cs) == db
    decreases |cs|
  {
    if cs != [] {
      MarkAllUnavailable(Record1(db, cs[0]), cs[1..]);
    }
  }

  /** Recording a sequence in two parts is recording it in one go. */
  lemma {:induction false} MarkAllAppend(db: Db, xs: seq<Course>, ys: seq<Course>)
    ensures MarkAll(db, xs + ys) == MarkAll(MarkAll(db, xs), ys)
    decreases |xs|
  {
    if xs == [] {
      assert xs + ys == ys;
    } else {
      assert (xs + ys)[0] == xs[0];
      assert (xs + ys)[1..] == xs[1..] + ys;
      MarkAllAppend(Record1(db, xs[0]), xs[1..], ys);
    }
  }

  // ---------------------------------------------------------------------
  // Positions

  /** The positions of `marks` that are set, in increasing order. */
  function Hits(marks: seq<bool>): (r: seq<nat>)
    ensures forall j :: 0 <= j < |r| ==> r[j] < |marks| && marks[r[j]]
    ensures forall i :: 0 <= i < |marks| && marks[i] ==> i in r
    ensures forall j, j' :: 0 <= j < j' < |r| ==> r[j] < r[j']
    decreases |marks|
  {
    if marks == [] then []
    else
      var rest := Hits(marks[1..]);
      HitsConsSound(marks, rest);
      HitsConsComplete(marks, rest);
      HitsConsSorted(marks, rest);
      ConsHits(marks, rest)
  }

  /** The positions of a non-empty `marks`, given those of its tail. */
  function ConsHits(marks: seq<bool>, rest: seq<nat>): seq<nat>
    requires marks != []
  {
    (if marks[0] then [0] else []) + Shift(rest)
  }

  lemma HitsConsSound(marks: seq<bool>, rest: seq<nat>)
    requires marks != []
    requires forall j :: 0 <= j < |rest| ==> rest[j] < |marks[1..]| && marks[1..][rest[j]]
    ensures forall j :: 0 <= j < |ConsHits(marks, rest)| ==>
              ConsHits(marks, rest)[j] < |marks| && marks[ConsHits(marks, rest)[j]]
  {
    var head: seq<nat> := if marks[0] then [0] else [];
    var r := ConsHits(marks, rest);
    forall j | 0 <= j < |r| ensures r[j] < |marks| && marks[r[j]] {
      if j >= |head| {
        assert r[j] == Shift(rest)[j - |head|] == rest[j - |head|] + 1;
        assert marks[1..][rest[j - |head|]] == marks[r[j]];
      }
    }
  }

  lemma HitsConsComplete(marks: seq<bool>, rest: seq<nat>)
    requires marks != []
    requires forall i :: 0 <= i < |marks[1..]| && marks[1..][i] ==> i in rest
    ensures forall i :: 0 <= i < |marks| && marks[i] ==> i in ConsHits(marks, rest)
  {
    var head: seq<nat> := if marks[0] then [0] else [];
    var r := ConsHits(marks, rest);
    forall i | 0 <= i < |marks| && marks[i] ensures i in r {
      if i > 0 {
        assert marks[1..][i - 1] == marks[i];
        var j :| 0 <= j < |rest| && rest[j] == i - 1;
        assert r[|head| + j] == Shift(rest)[j] == i;
      }
    }
  }

  lemma HitsConsSorted(marks: seq<bool>, rest: seq<nat>)
    requires marks != []
    requires forall j, j' :: 0 <= j < j' < |rest| ==> rest[j] < rest[j']
    ensures forall j, j' :: 0 <= j < j' < |ConsHits(marks, rest)| ==> ConsHits(marks, rest)[j] < ConsHits(marks, rest)[j']
  {
    var head: seq<nat> := if marks[0] then [0] else [];
    var shifted := Shift(rest);
    var r := ConsHits(marks, rest);
    forall j, j' | 0 <= j < j' < |r| ensures r[j] < r[j'] {
      var a := j' - |head|;
      assert r[j'] == shifted[a] == rest[a] + 1;
      if j >= |head| {
        var c := j - |head|;
        assert r[j] == shifted[c] == rest[c] + 1;
        assert rest[c] < rest[a];
      } else {
        assert r[j] == 0;
      }
    }
  }

  /** Every position moved one place on. */
  function Shift(s: seq<nat>): (r: seq<nat>)
    ensures |r| == |s| && forall j :: 0 <= j < |s| ==> r[j] == s[j] + 1
  {
    seq(|s|, j requires 0 <= j < |s| => s[j] + 1)
  }

  /** Whether attempts `k`, `k + 1`, ..., `k + n - 1` succeed. */
  function Attempts(ok: nat -> bool, k: nat, n: nat): (r: seq<bool>)
    ensures |r| == n && forall i :: 0 <= i < n ==> r[i] == ok(k + i)
  {
    seq(n, i requires 0 <= i < n => ok(k + i))
  }

  /** `out` lists the elements of `src` at the positions `idx`, in order. */
  predicate PickedAt<T(==)>(out: seq<T>, src: seq<T>, idx: seq<nat>) {
    |out| == |idx| && forall j :: 0 <= j < |idx| ==> idx[j] < |src| && out[j] == src[idx[j]]
  }

  /** Keeping the head exactly when it is marked, and picking from the tail
      by the tail's marks, picks by all the marks. */
  lemma PickCons<T>(src: seq<T>, marks: seq<bool>, tailSrc: seq<T>, tailMarks: seq<bool>, rest: seq<T>, out: seq<T>)
    requires src != [] && |marks| == |src|
    requires tailSrc == src[1..] && tailMarks == marks[1..]
    requires PickedAt(rest, tailSrc, Hits(tailMarks))
    requires out == (if marks[0] then [src[0]] else []) + rest
    ensures PickedAt(out, src, Hits(marks))
  {
    HitsUnfold(marks);
    PickConsHits(src, marks, Hits(marks[1..]), rest, out);
  }

  lemma PickConsHits<T>(src: seq<T>, marks: seq<bool>, tail: seq<nat>, rest: seq<T>, out: seq<T>)
    requires src != [] && |marks| == |src|
    requires PickedAt(rest, src[1..], tail)
    requires out == (if marks[0] then [src[0]] else []) + rest
    ensures PickedAt(out, src, ConsHits(marks, tail))
  {
    PickedShift(rest, src, tail);
    if marks[0] {
      PickedFront(src, rest, Shift(tail));
    } else {
      assert out == rest && ConsHits(marks, tail) == Shift(tail);
    }
  }

  /** Picking from the tail is picking from the whole one place on. */
  lemma PickedShift<T>(out: seq<T>, src: seq<T>, idx: seq<nat>)
    requires src != [] && PickedAt(out, src[1..], idx)
    ensures PickedAt(out, src, Shift(idx))
  {
    forall j | 0 <= j < |idx| ensures Shift(idx)[j] < |src| && out[j] == src[Shift(idx)[j]] {
      assert src[1..][idx[j]] == src[idx[j] + 1];
    }
  }

  /** Picking the head first. */
  lemma PickedFront<T>(src: seq<T>, out: seq<T>, idx: seq<nat>)
    requires src != [] && PickedAt(out, src, idx)
    ensures PickedAt([src[0]] + out, src, [0] + idx)
  {
    var o := [src[0]] + out;
    var x := [0] + idx;
    forall j | 0 <= j < |x| ensures x[j] < |src| && o[j] == src[x[j]] {
      if j > 0 {
        assert x[j] == idx[j - 1] && o[j] == out[j - 1];
      }
    }
  }

  lemma HitsUnfold(marks: seq<bool>)
    requires marks != []
    ensures Hits(marks) == ConsHits(marks, Hits(marks[1..]))
  {
  }

  /** `f` applied to every element, in order. */
  function Each<A, B>(xs: seq<A>, f: A -> B): (r: seq<B>)
    ensures |r| == |xs| && forall i :: 0 <= i < |xs| ==> r[i] == f(xs[i])
  {
    seq(|xs|, i requires 0 <= i < |xs| => f(xs[i]))
  }

  // ---------------------------------------------------------------------
  // Preparing a course

  /** The Udemy URL the resolver finds for a course's coupon link; an empty
      link is not looked up. */
  function Lookup(fetch: string -> Option<Landing>, c: Course): (r: Option<string>)
    ensures c.couponLink == "" ==> r.None?
    ensures c.couponLink != "" ==> r == Resolve(fetch, c.couponLink, 0).udemyUrl
    ensures r.Some? ==> Contains(r.value, UdemyHost)
  {
    if c.couponLink == "" then None else Resolve(fetch, c.couponLink, 0).udemyUrl
  }

  /** Sets the Udemy URL when one was found; nothing else changes. */
  function WithUdemy(c: Course, u: Option<string>): (r: Course)
    ensures r == c.(udemyUrl := r.udemyUrl)
    ensures u.Some? ==> r.udemyUrl == u
    ensures u.None? ==> r == c
  {
    if u.Some? then c.(udemyUrl := u) else c
  }

  /** A course as the filter loop leaves it. */
  function Prepare(fetch: string -> Option<Landing>, c: Course): Course {
    WithUdemy(c, Lookup(fetch, c))
  }

  /** The filter test: not posted by link, by the resolved Udemy URL, or
      by title. */
  predicate IsNew(db: Db, fetch: string -> Option<Landing>, c: Course) {
    !IsPosted(db, c.couponLink, Lookup(fetch, c), Some(c.title))
  }

  /** A truthy new value replaces the old one: the result is one of the
      two, and it is truthy whenever either is. */
  function Prefer(found: Option<string>, prior: Option<string>): (r: Option<string>)
    ensures r == found || r == prior
    ensures Truthy(r) <==> Truthy(found) || Truthy(prior)
    ensures Truthy(found) ==> r == found
  {
    if Truthy(found) then found else prior
  }

  /** Fills in details for a course without a language, unless its link is
      a direct coupon link; only truthy fetched values are copied, and the
      price is left alone. */
  function Enrich(c: Course, detailsOf: string -> Details): (r: Course)
    ensures r.title == c.title && r.couponLink == c.couponLink && r.udemyUrl == c.udemyUrl
    ensures r.source == c.source && r.thumbnail == c.thumbnail
    ensures r.details.price == c.details.price
    ensures Truthy(c.details.language) || IsGoHref(c.couponLink) ==> r == c
    ensures !Truthy(c.details.language) && !IsGoHref(c.couponLink) ==>
              var d := detailsOf(c.couponLink);
              && (Truthy(d.language) ==> r.details.language == d.language)
              && (!Truthy(d.language) ==> r.details.language == c.details.language)
              && (Truthy(d.publisher) ==> r.details.publisher == d.publisher)
              && (!Truthy(d.publisher) ==> r.details.publisher == c.details.publisher)
              && (Truthy(d.rate) ==> r.details.rate == d.rate)
              && (!Truthy(d.rate) ==> r.details.rate == c.details.rate)
              && (Truthy(d.enroll) ==> r.details.enroll == d.enroll)
              && (!Truthy(d.enroll) ==> r.details.enroll == c.details.enroll)
  {
    if !Truthy(c.details.language) && !IsGoHref(c.couponLink) then
      var d := detailsOf(c.couponLink);
      c.(details := Details(Prefer(d.language, c.details.language), Prefer(d.publisher, c.details.publisher),
                            Prefer(d.rate, c.details.rate), Prefer(d.enroll, c.details.enroll), c.details.price))
    else c
  }

  /** Every course enriched. */
  function EnrichEach(cs: seq<Course>, detailsOf: string -> Details): (r: seq<Course>)
    ensures |r| == |cs|
    ensures forall i :: 0 <= i < |cs| ==> r[i] == Enrich(cs[i], detailsOf)
  {
    Each(cs, c => Enrich(c, detailsOf))
  }

  /** With one details oracle for the scrape and the posting loop, the
      second `get_course_details` call repeats the first: a course whose
      details came from its own link is left as it is. */
  lemma EnrichRepeatsScrape(c: Course, detailsOf: string -> Details)
    requires c.details == detailsOf(c.couponLink)
    ensures Enrich(c, detailsOf) == c
  {
  }

  // ---------------------------------------------------------------------
  // process_courses

  /** The courses the filter loop keeps, and how many it skipped. */
  datatype Split = Split(kept: seq<Course>, duplicates: nat)

  /** `c` is some course of `courses` that was new, as prepared. */
  predicate FromNew(c: Course, db: Db, fetch: string -> Option<Landing>, courses: seq<Course>) {
    exists j :: 0 <= j < |courses| && IsNew(db, fetch, courses[j]) && c == Prepare(fetch, courses[j])
  }

  /** `c` is the prepared form of a course of `courses` that passes `keep`. */
  predicate KeptFrom(c: Course, courses: seq<Course>, keep: Course -> bool, prep: Course -> Course) {
    exists j :: 0 <= j < |courses| && keep(courses[j]) && c == prep(courses[j])
  }

  /** A filter loop: keeps the prepared form of every course that passes
      `keep`, in order, and counts the others. */
  function FilterBy(courses: seq<Course>, keep: Course -> bool, prep: Course -> Course): (r: Split)
    ensures |r.kept| + r.duplicates == |courses|
    ensures forall i :: 0 <= i < |r.kept| ==> KeptFrom(r.kept[i], courses, keep, prep)
    ensures forall j :: 0 <= j < |courses| && keep(courses[j]) ==> prep(courses[j]) in r.kept
    ensures (forall j :: 0 <= j < |courses| ==> keep(courses[j])) ==> r.duplicates == 0
    decreases |courses|
  {
    if courses == [] then Split([], 0)
    else
      var rest := FilterBy(courses[1..], keep, prep);
      FilterTail(courses, keep, prep, rest.kept);
      if keep(courses[0]) then
        var r := Split([prep(courses[0])] + rest.kept, rest.duplicates);
        assert KeptFrom(r.kept[0], courses, keep, prep);
        assert forall i :: 1 <= i < |r.kept| ==> r.kept[i] == rest.kept[i - 1];
        r
      else
        Split(rest.kept, rest.duplicates + 1)
  }

  /** What the filter shows for the tail holds for the whole sequence. */
  lemma FilterTail(courses: seq<Course>, keep: Course -> bool, prep: Course -> Course, kept: seq<Course>)
    requires courses != []
    requires forall i :: 0 <= i < |kept| ==> KeptFrom(kept[i], courses[1..], keep, prep)
    requires forall j :: 0 <= j < |courses[1..]| && keep(courses[1..][j]) ==> prep(courses[1..][j]) in kept
    ensures forall i :: 0 <= i < |kept| ==> KeptFrom(kept[i], courses, keep, prep)
    ensures forall j :: 1 <= j < |courses| && keep(courses[j]) ==> prep(courses[j]) in kept
    ensures (forall j :: 0 <= j < |courses| ==> keep(courses[j])) ==> forall j :: 0 <= j < |courses[1..]| ==> keep(courses[1..][j])
  {
    forall i | 0 <= i < |kept| ensures KeptFrom(kept[i], courses, keep, prep) {
      var j :| 0 <= j < |courses[1..]| && keep(courses[1..][j]) && kept[i] == prep(courses[1..][j]);
      assert courses[j + 1] == courses[1..][j];
    }
    forall j | 1 <= j < |courses| && keep(courses[j]) ensures prep(courses[j]) in kept {
      assert courses[1..][j - 1] == courses[j];
    }
  }


  /** The filter keeps, in order, the prepared form of exactly the courses
      that pass: its j-th kept course comes from the j-th passing one. */
  lemma {:induction false} FilterByPicks(courses: seq<Course>, keep: Course -> bool, prep: Course -> Course)
    ensures PickedAt(FilterBy(courses, keep, prep).kept, Each(courses, prep), Hits(Each(courses, keep)))
    decreases |courses|
  {
    if courses != [] {
      var marks := Each(courses, keep);
      var all := Each(courses, prep);
      var tailMarks := Each(courses[1..], keep);
      var tailAll := Each(courses[1..], prep);
      assert marks[1..] == tailMarks;
      assert all[1..] == tailAll;
      FilterByPicks(courses[1..], keep, prep);
      var rest := FilterBy(courses[1..], keep, prep).kept;
      if keep(courses[0]) {
        PickCons(all, marks, tailAll, tailMarks, rest, [prep(courses[0])] + rest);
      } else {
        assert [] + rest == rest;
        PickCons(all, marks, tailAll, tailMarks, rest, rest);
      }
    }
  }

  /** Which of `courses` are new against `db`. */
  function NewMarks(db: Db, fetch: string -> Option<Landing>, courses: seq<Course>): (r: seq<bool>)
    ensures |r| == |courses| && forall i :: 0 <= i < |courses| ==> r[i] == IsNew(db, fetch, courses[i])
  {
    Each(courses, c => IsNew(db, fetch, c))
  }

  /** Every course as the filter loop prepares it. */
  function PrepareAll(fetch: string -> Option<Landing>, courses: seq<Course>): (r: seq<Course>)
    ensures |r| == |courses| && forall i :: 0 <= i < |courses| ==> r[i] == Prepare(fetch, courses[i])
  {
    Each(courses, c => Prepare(fetch, c))
  }

  /** The filter loop of `process_courses`: every course is checked
      against the store as it was when the pass started. */
  function FilterNew(db: Db, courses: seq<Course>, fetch: string -> Option<Landing>): (r: Split)
    ensures |r.kept| + r.duplicates == |courses|
    ensures forall i :: 0 <= i < |r.kept| ==> FromNew(r.kept[i], db, fetch, courses)
    ensures forall j :: 0 <= j < |courses| && IsNew(db, fetch, courses[j]) ==> Prepare(fetch, courses[j]) in r.kept
    ensures (forall j :: 0 <= j < |courses| ==> IsNew(db, fetch, courses[j])) ==> r.duplicates == 0
  {
    var keep := c => IsNew(db, fetch, c);
    var prep := c => Prepare(fetch, c);
    var r := FilterBy(courses, keep, prep);
    KeptAreNew(db, fetch, courses, keep, prep, r.kept);
    r
  }

  lemma KeptAreNew(db: Db, fetch: string -> Option<Landing>, courses: seq<Course>,
                   keep: Course -> bool, prep: Course -> Course, kept: seq<Course>)
    requires forall c :: keep(c) == IsNew(db, fetch, c)
    requires forall c :: prep(c) == Prepare(fetch, c)
    requires forall i :: 0 <= i < |kept| ==> KeptFrom(kept[i], courses, keep, prep)
    ensures forall i :: 0 <= i < |kept| ==> FromNew(kept[i], db, fetch, courses)
  {
    forall i | 0 <= i < |kept| ensures FromNew(kept[i], db, fetch, courses) {
      var j :| 0 <= j < |courses| && keep(courses[j]) && kept[i] == prep(courses[j]);
      assert IsNew(db, fetch, courses[j]) && kept[i] == Prepare(fetch, courses[j]);
    }
  }

  /** The j-th course the filter keeps is the j-th new course, prepared. */
  lemma FilterNewPicks(db: Db, courses: seq<Course>, fetch: string -> Option<Landing>)
    ensures PickedAt(FilterNew(db, courses, fetch).kept, PrepareAll(fetch, courses), Hits(NewMarks(db, fetch, courses)))
  {
    var keep := c => IsNew(db, fetch, c);
    var prep := c => Prepare(fetch, c);
    FilterByPicks(courses, keep, prep);
    assert Each(courses, keep) == NewMarks(db, fetch, courses);
    assert Each(courses, prep) == PrepareAll(fetch, courses);
  }

  /** `c` is the enriched form of one of `kept`. */
  predicate EnrichedFrom(c: Course, kept: seq<Course>, detailsOf: string -> Details) {
    exists j :: 0 <= j < |kept| && c == Enrich(kept[j], detailsOf)
  }

  /** The posting loop: attempt `k` is the k-th post of the pass; a course
      is recorded right after its post succeeds and never otherwise. */
  function PostAll(db: Db, kept: seq<Course>, w: World, k: nat): (r: PassReport)
    ensures |r.posted| + r.failed == |kept| && r.duplicates == 0
    ensures r.db == MarkAll(db, r.posted)
    ensures forall i :: 0 <= i < |r.posted| ==> EnrichedFrom(r.posted[i], kept, w.detailsOf)
    ensures (forall a :: k <= a < k + |kept| ==> w.postOk(a)) ==> |r.posted| == |kept|
    ensures (forall a :: k <= a < k + |kept| ==> !w.postOk(a)) ==> r.posted == [] && r.db == db
    decreases |kept|
  {
    if kept == [] then PassReport(db, [], 0, 0)
    else
      var c := Enrich(kept[0], w.detailsOf);
      if w.postOk(k) then
        var rest := PostAll(Record1(db, c), kept[1..], w, k + 1);
        var posted := [c] + rest.posted;
        assert posted[1..] == rest.posted;
        EnrichedTail(kept, w.detailsOf, rest.posted);
        assert EnrichedFrom(c, kept, w.detailsOf);
        assert forall i :: 1 <= i < |posted| ==> posted[i] == rest.posted[i - 1];
        PassReport(rest.db, posted, 0, rest.failed)
      else
        var rest := PostAll(db, kept[1..], w, k + 1);
        EnrichedTail(kept, w.detailsOf, rest.posted);
        PassReport(rest.db, rest.posted, 0, rest.failed + 1)
  }

  /** Exactly the courses whose attempt succeeds are posted, enriched, in
      their order: the j-th post is the kept course of the j-th successful
      attempt. */
  lemma {:induction false} PostAllPicks(db: Db, kept: seq<Course>, w: World, k: nat)
    ensures PickedAt(PostAll(db, kept, w, k).posted, EnrichEach(kept, w.detailsOf), Hits(Attempts(w.postOk, k, |kept|)))
    decreases |kept|
  {
    if kept != [] {
      var db' := if w.postOk(k) then Record1(db, Enrich(kept[0], w.detailsOf)) else db;
      PostAllPicks(db', kept[1..], w, k + 1);
      PostAllPicksStep(db, kept, w, k);
    } else {
      assert Attempts(w.postOk, k, 0) == [];
    }
  }

  /** The inductive step of `PostAllPicks`. */
  lemma PostAllPicksStep(db: Db, kept: seq<Course>, w: World, k: nat)
    requires kept != []
    requires var db' := if w.postOk(k) then Record1(db, Enrich(kept[0], w.detailsOf)) else db;
             PickedAt(PostAll(db', kept[1..], w, k + 1).posted, EnrichEach(kept[1..], w.detailsOf),
                      Hits(Attempts(w.postOk, k + 1, |kept| - 1)))
    ensures PickedAt(PostAll(db, kept, w, k).posted, EnrichEach(kept, w.detailsOf), Hits(Attempts(w.postOk, k, |kept|)))
  {
    var db' := if w.postOk(k) then Record1(db, Enrich(kept[0], w.detailsOf)) else db;
    EnrichEachTail(kept, w.detailsOf);
    AttemptsTail(w.postOk, k, |kept|);
    PostAllStep(db, kept, w, k);
    PickCons(EnrichEach(kept, w.detailsOf), Attempts(w.postOk, k, |kept|),
             EnrichEach(kept[1..], w.detailsOf), Attempts(w.postOk, k + 1, |kept| - 1),
             PostAll(db', kept[1..], w, k + 1).posted, PostAll(db, kept, w, k).posted);
  }

  /** One step of the posting loop. */
  lemma PostAllStep(db: Db, kept: seq<Course>, w: World, k: nat)
    requires kept != []
    ensures var c := Enrich(kept[0], w.detailsOf);
            var db' := if w.postOk(k) then Record1(db, c) else db;
            PostAll(db, kept, w, k).posted == (if w.postOk(k) then [c] else []) + PostAll(db', kept[1..], w, k + 1).posted
  {
    if !w.postOk(k) {
      var rest := PostAll(db, kept[1..], w, k + 1).posted;
      assert [] + rest == rest;
    }
  }

  lemma EnrichEachTail(kept: seq<Course>, detailsOf: string -> Details)
    requires kept != []
    ensures EnrichEach(kept, detailsOf)[1..] == EnrichEach(kept[1..], detailsOf)
  {
  }

  lemma AttemptsTail(ok: nat -> bool, k: nat, n: nat)
    requires n > 0
    ensures Attempts(ok, k, n)[1..] == Attempts(ok, k + 1, n - 1)
  {
  }

  lemma EnrichedTail(kept: seq<Course>, detailsOf: string -> Details, posted: seq<Course>)
    requires kept != []
    requires forall i :: 0 <= i < |posted| ==> EnrichedFrom(posted[i], kept[1..], detailsOf)
    ensures forall i :: 0 <= i < |posted| ==> EnrichedFrom(posted[i], kept, detailsOf)
  {
    forall i | 0 <= i < |posted| ensures EnrichedFrom(posted[i], kept, detailsOf) {
      var j :| 0 <= j < |kept[1..]| && posted[i] == Enrich(kept[1..][j], detailsOf);
      assert kept[j + 1] == kept[1..][j];
    }
  }

  /** `process_courses`: filter every scraped course against the store,
      then post the new ones and record each successful post. */
  function ProcessCourses(db: Db, courses: seq<Course>, w: World): (r: PassReport)
    ensures courses == [] ==> r == PassReport(db, [], 0, 0)
    ensures |r.posted| + r.failed + r.duplicates == |courses|
    ensures r.db == MarkAll(db, r.posted)
  {
    if courses == [] then PassReport(db, [], 0, 0)
    else
      var s := FilterNew(db, courses, w.fetch);
      if s.kept == [] then PassReport(db, [], s.duplicates, 0)
      else
        var p := PostAll(db, s.kept, w, 0);
        PassReport(p.db, p.posted, s.duplicates, p.failed)
  }

  /** `c` is the enriched, prepared form of a course of `courses` that was
      new against `db`. */
  predicate PostedFromNew(c: Course, db: Db, courses: seq<Course>, w: World) {
    exists j :: 0 <= j < |courses| && IsNew(db, w.fetch, courses[j]) && c == Enrich(Prepare(w.fetch, courses[j]), w.detailsOf)
  }

  /** Every course a pass posts was new against the store as it stood when
      the pass began. */
  lemma PostedWereNew(db: Db, courses: seq<Course>, w: World)
    ensures forall c :: c in ProcessCourses(db, courses, w).posted ==> PostedFromNew(c, db, courses, w)
  {
    if courses != [] {
      var s := FilterNew(db, courses, w.fetch);
      if s.kept != [] {
        var r := ProcessCourses(db, courses, w);
        var p := PostAll(db, s.kept, w, 0);
        assert r.posted == p.posted;
        forall c | c in r.posted ensures PostedFromNew(c, db, courses, w) {
          var i :| 0 <= i < |r.posted| && r.posted[i] == c;
          assert EnrichedFrom(r.posted[i], s.kept, w.detailsOf);
          var m :| 0 <= m < |s.kept| && r.posted[i] == Enrich(s.kept[m], w.detailsOf);
          assert FromNew(s.kept[m], db, w.fetch, courses);
          var j :| 0 <= j < |courses| && IsNew(db, w.fetch, courses[j]) && s.kept[m] == Prepare(w.fetch, courses[j]);
          assert c == Enrich(Prepare(w.fetch, courses[j]), w.detailsOf);
        }
      }
    }
  }

  /** Which courses a pass posts: the p-th new course (against the store
      at the start of the pass) gets the p-th post attempt, and the posts
      are, in order, the new courses whose attempt succeeded, prepared and
      enriched. */
  lemma ProcessCoursesPicks(db: Db, courses: seq<Course>, w: World)
    ensures var news := Hits(NewMarks(db, w.fetch, courses));
            var sent := Hits(Attempts(w.postOk, 0, |news|));
            && |ProcessCourses(db, courses, w).posted| == |sent|
            && forall j :: 0 <= j < |sent| ==>
                 && sent[j] < |news|
                 && ProcessCourses(db, courses, w).posted[j]
                    == Enrich(Prepare(w.fetch, courses[news[sent[j]]]), w.detailsOf)
  {
    var news := Hits(NewMarks(db, w.fetch, courses));
    var s := FilterNew(db, courses, w.fetch);
    FilterNewPicks(db, courses, w.fetch);
    var sent := Hits(Attempts(w.postOk, 0, |news|));
    var r := ProcessCourses(db, courses, w);
    if s.kept == [] {
      assert Attempts(w.postOk, 0, 0) == [];
    } else {
      PostAllPicks(db, s.kept, w, 0);
      PickedTwice(r.posted, s.kept, courses, news, sent, w);
    }
  }

  /** Composing the two picks: the posts picked from the kept courses,
      which are themselves picked from the scraped ones. */
  lemma PickedTwice(posted: seq<Course>, kept: seq<Course>, courses: seq<Course>,
                    news: seq<nat>, sent: seq<nat>, w: World)
    requires PickedAt(kept, PrepareAll(w.fetch, courses), news)
    requires PickedAt(posted, EnrichEach(kept, w.detailsOf), sent)
    ensures forall j :: 0 <= j < |sent| ==>
              && sent[j] < |news|
              && posted[j] == Enrich(Prepare(w.fetch, courses[news[sent[j]]]), w.detailsOf)
  {
    forall j | 0 <= j < |sent|
      ensures sent[j] < |news| && posted[j] == Enrich(Prepare(w.fetch, courses[news[sent[j]]]), w.detailsOf)
    {
      assert posted[j] == EnrichEach(kept, w.detailsOf)[sent[j]] == Enrich(kept[sent[j]], w.detailsOf);
      assert kept[sent[j]] == PrepareAll(w.fetch, courses)[news[sent[j]]];
    }
  }

  /** A course that was new when the pass began, and whose post attempt
      succeeds, is posted. */
  lemma NewAndSentIsPosted(db: Db, courses: seq<Course>, w: World)
    ensures var news := Hits(NewMarks(db, w.fetch, courses));
            forall p :: 0 <= p < |news| && w.postOk(p) ==>
              Enrich(Prepare(w.fetch, courses[news[p]]), w.detailsOf) in ProcessCourses(db, courses, w).posted
  {
    var news := Hits(NewMarks(db, w.fetch, courses));
    var sent := Hits(Attempts(w.postOk, 0, |news|));
    ProcessCoursesPicks(db, courses, w);
    forall p | 0 <= p < |news| && w.postOk(p)
      ensures Enrich(Prepare(w.fetch, courses[news[p]]), w.detailsOf) in ProcessCourses(db, courses, w).posted
    {
      assert Attempts(w.postOk, 0, |news|)[p];
      var j :| 0 <= j < |sent| && sent[j] == p;
      assert ProcessCourses(db, courses, w).posted[j] == Enrich(Prepare(w.fetch, courses[news[p]]), w.detailsOf);
    }
  }

  /** When every post fails, or the store cannot be reached, the store is
      left as it was. */
  lemma NothingRecordedWithoutPost(db: Db, courses: seq<Course>, w: World)
    requires (forall a :: w.postOk(a) == false) || !db.available
    ensures ProcessCourses(db, courses, w).db == db
  {
    var r := ProcessCourses(db, courses, w);
    if !db.available {
      MarkAllUnavailable(db, r.posted);
    }
  }

  // ---------------------------------------------------------------------
  // Duplicates inside one pass

  /** An empty store knows no course. */
  lemma EmptyStoreKnowsNothing(available: bool, link: string, udemy: Option<string>, title: Option<string>)
    ensures !IsPosted(Db([], available), link, udemy, title)
  {
  }

  /** As written, the filter checks every course against the store as it
      stood before the pass, so two listings of one course under different
      coupon links are both posted: after the first is recorded, the store
      already reports the second as posted, by title. */
  lemma {:induction false} PassPostsTitleTwin(c1: Course, c2: Course, w: World)
    requires c1.title == c2.title && |TitleKey(c1.title)| > 10
    requires forall a :: w.postOk(a)
    ensures |ProcessCourses(Db([], true), [c1, c2], w).posted| == 2
    ensures IsPosted(Record1(Db([], true), ProcessCourses(Db([], true), [c1, c2], w).posted[0]),
                     c2.couponLink, Lookup(w.fetch, c2), Some(c2.title))
  {
    var db := Db([], true);
    var courses := [c1, c2];
    TwinsBothKept(c1, c2, w);
    var r := ProcessCourses(db, courses, w);
    assert |r.posted| == 2;
    PostedWereNew(db, courses, w);
    assert PostedFromNew(r.posted[0], db, courses, w);
    var first := r.posted[0];
    assert first.title == c1.title;
    assert c1.title != "";
    MarkedTitleKnown(db, first.title, first.couponLink, first.udemyUrl, Some(first.source),
                     c2.couponLink, Lookup(w.fetch, c2), c2.title);
  }

  /** On an empty store both listings pass the filter, and both keep the
      shared title. */
  lemma TwinsBothKept(c1: Course, c2: Course, w: World)
    requires c1.title == c2.title
    ensures |FilterNew(Db([], true), [c1, c2], w.fetch).kept| == 2
    ensures FilterNew(Db([], true), [c1, c2], w.fetch).kept[0].title == c1.title
    ensures FilterNew(Db([], true), [c1, c2], w.fetch).kept[1].title == c1.title
  {
    var db := Db([], true);
    var courses := [c1, c2];
    EmptyStoreKnowsNothing(true, c1.couponLink, Lookup(w.fetch, c1), Some(c1.title));
    EmptyStoreKnowsNothing(true, c2.couponLink, Lookup(w.fetch, c2), Some(c2.title));
    assert forall j :: 0 <= j < |courses| ==> IsNew(db, w.fetch, courses[j]);
    var s := FilterNew(db, courses, w.fetch);
    assert FromNew(s.kept[0], db, w.fetch, courses);
    assert FromNew(s.kept[1], db, w.fetch, courses);
  }

  /** `posted` could be recorded one after another from `db` with no course
      already known to the store at the moment it was posted. */
  predicate NoRepeats(db: Db, posted: seq<Course>)
    decreases |posted|
  {
    || posted == []
    || (&& !IsPosted(db, posted[0].couponLink, posted[0].udemyUrl, Some(posted[0].title))
        && NoRepeats(Record1(db, posted[0]), posted[1..]))
  }

  /** The posting loop with the evidently intended re-check: a course the
      store reports as posted by the time its turn comes is skipped as a
      duplicate. */
  function PostAllRechecked(db: Db, kept: seq<Course>, w: World, k: nat): (r: PassReport)
    ensures |r.posted| + r.failed + r.duplicates == |kept|
    ensures r.db == MarkAll(db, r.posted)
    ensures NoRepeats(db, r.posted)
    ensures forall i :: 0 <= i < |r.posted| ==> EnrichedFrom(r.posted[i], kept, w.detailsOf)
    decreases |kept|
  {
    if kept == [] then PassReport(db, [], 0, 0)
    else
      var c := Enrich(kept[0], w.detailsOf);
      if IsPosted(db, c.couponLink, c.udemyUrl, Some(c.title)) then
        var rest := PostAllRechecked(db, kept[1..], w, k);
        EnrichedTail(kept, w.detailsOf, rest.posted);
        PassReport(rest.db, rest.posted, rest.duplicates + 1, rest.failed)
      else if w.postOk(k) then
        var rest := PostAllRechecked(Record1(db, c), kept[1..], w, k + 1);
        var posted := [c] + rest.posted;
        assert posted[1..] == rest.posted;
        EnrichedTail(kept, w.detailsOf, rest.posted);
        assert EnrichedFrom(c, kept, w.detailsOf);
        assert forall i :: 1 <= i < |posted| ==> posted[i] == rest.posted[i - 1];
        PassReport(rest.db, posted, rest.duplicates, rest.failed)
      else
        var rest := PostAllRechecked(db, kept[1..], w, k + 1);
        EnrichedTail(kept, w.detailsOf, rest.posted);
        PassReport(rest.db, rest.posted, rest.duplicates, rest.failed + 1)
  }

  /** `process_courses` with the re-check before each post. */
  function ProcessCoursesRechecked(db: Db, courses: seq<Course>, w: World): (r: PassReport)
    ensures courses == [] ==> r == PassReport(db, [], 0, 0)
    ensures |r.posted| + r.failed + r.duplicates == |courses|
    ensures r.db == MarkAll(db, r.posted)
    ensures NoRepeats(db, r.posted)
  {
    if courses == [] then PassReport(db, [], 0, 0)
    else
      var s := FilterNew(db, courses, w.fetch);
      var p := PostAllRechecked(db, s.kept, w, 0);
      PassReport(p.db, p.posted, s.duplicates + p.duplicates, p.failed)
  }

  /** With the re-check, the second listing of a course is not posted. */
  lemma {:induction false} RecheckedSkipsTitleTwin(c1: Course, c2: Course, w: World)
    requires c1.title == c2.title && |TitleKey(c1.title)| > 10
    requires forall a :: w.postOk(a)
    ensures |ProcessCoursesRechecked(Db([], true), [c1, c2], w).posted| == 1
  {
    TwinsBothKept(c1, c2, w);
    RecheckedPair(FilterNew(Db([], true), [c1, c2], w.fetch).kept, w);
  }

  /** Two kept courses with one title: the first is posted, the second is
      then found by title and skipped. */
  lemma RecheckedPair(kept: seq<Course>, w: World)
    requires |kept| == 2 && kept[0].title == kept[1].title && |TitleKey(kept[0].title)| > 10
    requires forall a :: w.postOk(a)
    ensures |PostAllRechecked(Db([], true), kept, w, 0).posted| == 1
  {
    var db := Db([], true);
    var a := Enrich(kept[0], w.detailsOf);
    var b := Enrich(kept[1], w.detailsOf);
    EmptyStoreKnowsNothing(true, a.couponLink, a.udemyUrl, Some(a.title));
    assert a.title != "";
    MarkedTitleKnown(db, a.title, a.couponLink, a.udemyUrl, Some(a.source), b.couponLink, b.udemyUrl, b.title);
    assert kept[1..][0] == kept[1];
    RecheckedSkipsKnown(Record1(db, a), kept[1..], w, 1);
  }

  /** A single course already known to the store is not posted again. */
  lemma RecheckedSkipsKnown(db: Db, kept: seq<Course>, w: World, k: nat)
    requires |kept| == 1
    requires IsPosted(db, Enrich(kept[0], w.detailsOf).couponLink, Enrich(kept[0], w.detailsOf).udemyUrl,
                      Some(Enrich(kept[0], w.detailsOf).title))
    ensures PostAllRechecked(db, kept, w, k).posted == []
  {
    assert kept[1..] == [];
  }

  // ---------------------------------------------------------------------
  // /test N

  /** A numeral as Python's `int()` accepts it: digits, with single
      underscores allowed between two digits (ASCII digits only). */
  predicate Numeral(s: string)
    decreases |s|
  {
    && s != [] && IsDigit(s[0])
    && (|s| == 1 || Numeral(s[1..]) || (s[1] == '_' && Numeral(s[2..])))
  }

  function DigitValue(c: char): nat
    requires IsDigit(c)
  {
    c as int - '0' as int
  }

  /** The digits of `s`, in order, without anything else. */
  function DigitsOf(s: string): (r: string)
    ensures forall k :: 0 <= k < |r| ==> IsDigit(r[k])
  {
    if s == [] then []
    else if IsDigit(s[|s| - 1]) then DigitsOf(s[..|s| - 1]) + [s[|s| - 1]]
    else DigitsOf(s[..|s| - 1])
  }

  /** The base-ten value of a string of digits. */
  function DecimalValue(s: string): nat
    requires forall k :: 0 <= k < |s| ==> IsDigit(s[k])
  {
    if s == [] then 0 else DecimalValue(s[..|s| - 1]) * 10 + DigitValue(s[|s| - 1])
  }

  /** The value of a numeral: its digits, underscores skipped. */
  function NumeralValue(s: string): nat {
    DecimalValue(DigitsOf(s))
  }

  /** `int(s)` on a string: surrounding whitespace, an optional sign and a
      numeral; anything else is a ValueError (None). */
  function ParsePyInt(s: string): Option<int> {
    ParseSigned(Strip(s))
  }

  /** An optional sign followed by a numeral. */
  function ParseSigned(t: string): Option<int> {
    if t == [] then None
    else if t[0] == '-' then
      match ParseNumeral(t[1..])
      case None => None
      case Some(n) => Some(-(n as int))
    else if t[0] == '+' then
      match ParseNumeral(t[1..])
      case None => None
      case Some(n) => Some(n as int)
    else
      match ParseNumeral(t)
      case None => None
      case Some(n) => Some(n as int)
  }

  function ParseNumeral(b: string): Option<nat> {
    if Numeral(b) then Some(NumeralValue(b)) else None
  }

  function DigitChar(d: nat): (c: char)
    requires d < 10
    ensures IsDigit(c) && DigitValue(c) == d
  {
    ('0' as int + d) as char
  }

  /** The decimal numeral of `n`, without sign or underscores. */
  function ShowNat(n: nat): (r: string)
    ensures r != [] && forall k :: 0 <= k < |r| ==> IsDigit(r[k])
    decreases n
  {
    if n < 10 then [DigitChar(n)] else ShowNat(n / 10) + [DigitChar(n % 10)]
  }

  function ShowInt(i: int): string {
    if i < 0 then "-" + ShowNat(-i) else ShowNat(i)
  }

  /** A non-empty run of digits is a numeral and is its own digits. */
  lemma {:induction false} AllDigitsNumeral(s: string)
    requires s != [] && forall k :: 0 <= k < |s| ==> IsDigit(s[k])
    ensures Numeral(s) && DigitsOf(s) == s
    decreases |s|
  {
    if |s| > 1 {
      AllDigitsNumeral(s[1..]);
    }
    AllDigitsKept(s);
  }

  lemma {:induction false} AllDigitsKept(s: string)
    requires forall k :: 0 <= k < |s| ==> IsDigit(s[k])
    ensures DigitsOf(s) == s
    decreases |s|
  {
    if s != [] {
      AllDigitsKept(s[..|s| - 1]);
      assert s == s[..|s| - 1] + [s[|s| - 1]];
    }
  }

  /** Reading a numeral back gives the number it shows. */
  lemma {:induction false} ShowNatValue(n: nat)
    ensures DecimalValue(ShowNat(n)) == n
    decreases n
  {
    if n >= 10 {
      ShowNatValue(n / 10);
      var s := ShowNat(n);
      assert s[..|s| - 1] == ShowNat(n / 10);
    }
  }

  /** `int()` inverts the decimal rendering of every integer. */
  lemma ParseShowInt(i: int)
    ensures ParsePyInt(ShowInt(i)) == Some(i)
  {
    var m: nat := if i < 0 then -i else i;
    ShowNatValue(m);
    AllDigitsNumeral(ShowNat(m));
    if i < 0 {
      ParseNegative(ShowNat(m));
    } else {
      ParsePlain(ShowNat(m));
    }
  }

  lemma ParsePlain(d: string)
    requires Numeral(d) && IsDigit(d[|d| - 1])
    ensures ParsePyInt(d) == Some(NumeralValue(d) as int)
  {
    assert IsDigit(d[0]);
    StripUnchanged(d);
    UnsignedParse(d);
  }

  lemma UnsignedParse(d: string)
    requires Numeral(d)
    ensures ParseSigned(d) == Some(NumeralValue(d) as int)
  {
    assert IsDigit(d[0]);
  }

  lemma StripUnchanged(s: string)
    requires s != [] && !IsSpace(s[0]) && !IsSpace(s[|s| - 1])
    ensures Strip(s) == s
  {
  }

  lemma ParseNegative(d: string)
    requires Numeral(d) && IsDigit(d[|d| - 1])
    ensures ParsePyInt("-" + d) == Some(-(NumeralValue(d) as int))
  {
    var s := "-" + d;
    assert s[0] == '-' && s[|s| - 1] == d[|d| - 1];
    StripUnchanged(s);
    assert s[1..] == d;
    assert ParseSigned(s) == Some(-(NumeralValue(d) as int));
  }

  const DefaultCount := 10
  const MaxCount := 50

  /** The number of courses `/test` posts: the first argument read by
      `int()` and clamped to [1, 50]; 10 when there is no argument or it
      is not a number. */
  function CourseCount(args: seq<string>): (r: nat)
    ensures 1 <= r <= MaxCount
    ensures args == [] ==> r == DefaultCount
    ensures args != [] && ParsePyInt(args[0]).None? ==> r == DefaultCount
    ensures args != [] && ParsePyInt(args[0]).Some? ==>
              r == (if ParsePyInt(args[0]).value < 1 then 1
                    else if ParsePyInt(args[0]).value > MaxCount then MaxCount
                    else ParsePyInt(args[0]).value)
  {
    if args == [] then DefaultCount
    else match ParsePyInt(args[0])
      case None => DefaultCount
      case Some(n) => if n < 1 then 1 else if n > MaxCount then MaxCount else n
  }

  /** `/test` with a number in range posts that many courses. */
  lemma CountInRange(n: int)
    requires 1 <= n <= MaxCount
    ensures CourseCount([ShowInt(n)]) == n
  {
    ParseShowInt(n);
  }

  /** A course as `/test` posts it: details first, then the Udemy URL,
      looked up only when the course has none yet. */
  function PrepareForTest(c: Course, w: World): (r: Course)
    ensures r.title == c.title && r.couponLink == c.couponLink && r.source == c.source
  {
    var e := Enrich(c, w.detailsOf);
    if e.couponLink != "" && !Truthy(e.udemyUrl) then WithUdemy(e, Lookup(w.fetch, e)) else e
  }

  /** The courses of `cs` whose coupon link is not empty. */
  function WithLinks(cs: seq<Course>): (r: seq<Course>)
    ensures forall c :: c in r <==> c in cs && c.couponLink != ""
  {
    if cs == [] then []
    else if cs[0].couponLink != "" then [cs[0]] + WithLinks(cs[1..])
    else WithLinks(cs[1..])
  }

  /** The recording step of `/test`: only when the link is not empty and
      not already known to the link check. */
  function TestRecord(db: Db, c: Course): Db {
    if c.couponLink != "" && !IsPosted(db, c.couponLink, None, None) then Record1(db, c) else db
  }

  /** The `is_posted` guard of `/test` repeats the re-check `mark_posted`
      makes itself, so it changes nothing for a non-empty link. */
  lemma TestGuardRedundant(db: Db, c: Course)
    requires c.couponLink != ""
    ensures TestRecord(db, c) == Record1(db, c)
  {
  }

  /** The chosen courses, each prepared for posting. */
  function PrepareEach(cs: seq<Course>, w: World): (r: seq<Course>)
    ensures |r| == |cs|
    ensures forall i :: 0 <= i < |cs| ==> r[i] == PrepareForTest(cs[i], w)
  {
    if cs == [] then [] else [PrepareForTest(cs[0], w)] + PrepareEach(cs[1..], w)
  }

  /** The `/test` posting loop over prepared courses, without any
      duplicate check. */
  function TestPost(db: Db, cs: seq<Course>, postOk: nat -> bool, k: nat): (r: PassReport)
    ensures |r.posted| + r.failed == |cs| && r.duplicates == 0
    ensures r.db == MarkAll(db, WithLinks(r.posted))
    ensures forall c :: c in r.posted ==> c in cs
    ensures (forall a :: k <= a < k + |cs| ==> postOk(a)) ==> r.posted == cs
    decreases |cs|
  {
    if cs == [] then PassReport(db, [], 0, 0)
    else
      var c := cs[0];
      var rest := TestPost(if postOk(k) then TestRecord(db, c) else db, cs[1..], postOk, k + 1);
      assert forall x :: x in rest.posted ==> x in cs by {
        forall x | x in rest.posted ensures x in cs {
          assert x in cs[1..];
        }
      }
      if postOk(k) then
        TestRecordStep(db, c, rest.posted);
        assert (forall a :: k <= a < k + |cs| ==> postOk(a)) ==> [c] + rest.posted == cs by {
          if forall a :: k <= a < k + |cs| ==> postOk(a) {
            assert forall a :: k + 1 <= a < k + 1 + |cs[1..]| ==> postOk(a);
            assert [cs[0]] + cs[1..] == cs;
          }
        }
        PassReport(rest.db, [c] + rest.posted, 0, rest.failed)
      else
        PassReport(rest.db, rest.posted, 0, rest.failed + 1)
  }

  /** The courses `/test` posts are, in order, those whose attempt
      succeeds. */
  lemma {:induction false} TestPostPicks(db: Db, cs: seq<Course>, postOk: nat -> bool, k: nat)
    ensures PickedAt(TestPost(db, cs, postOk, k).posted, cs, Hits(Attempts(postOk, k, |cs|)))
    decreases |cs|
  {
    if cs != [] {
      var marks := Attempts(postOk, k, |cs|);
      var tailMarks := Attempts(postOk, k + 1, |cs| - 1);
      AttemptsTail(postOk, k, |cs|);
      var db' := if postOk(k) then TestRecord(db, cs[0]) else db;
      TestPostPicks(db', cs[1..], postOk, k + 1);
      var rest := TestPost(db', cs[1..], postOk, k + 1);
      if postOk(k) {
        PickCons(cs, marks, cs[1..], tailMarks, rest.posted, [cs[0]] + rest.posted);
      } else {
        assert [] + rest.posted == rest.posted;
        PickCons(cs, marks, cs[1..], tailMarks, rest.posted, rest.posted);
      }
    }
  }

  /** Recording one posted course and then the rest is recording the
      linked courses of the whole sequence. */
  lemma TestRecordStep(db: Db, c: Course, rest: seq<Course>)
    ensures MarkAll(TestRecord(db, c), WithLinks(rest)) == MarkAll(db, WithLinks([c] + rest))
  {
    assert ([c] + rest)[1..] == rest;
    if c.couponLink != "" {
      TestGuardRedundant(db, c);
      assert ([c] + WithLinks(rest))[1..] == WithLinks(rest);
    }
  }

  /** `handle_test_command`: post the first N scraped courses, N from the
      arguments, whether or not they were posted before. */
  function TestCommand(db: Db, courses: seq<Course>, args: seq<string>, w: World): (r: PassReport)
    ensures |r.posted| <= CourseCount(args) && |r.posted| <= |courses|
    ensures r.db == MarkAll(db, WithLinks(r.posted))
    ensures forall c :: c in r.posted ==>
              exists j :: 0 <= j < |courses| && j < CourseCount(args) && c == PrepareForTest(courses[j], w)
    ensures (forall a :: w.postOk(a)) ==>
              && |r.posted| == (if |courses| < CourseCount(args) then |courses| else CourseCount(args))
              && forall i :: 0 <= i < |r.posted| ==> r.posted[i] == PrepareForTest(courses[i], w)
  {
    var n := CourseCount(args);
    if courses == [] then PassReport(db, [], 0, 0)
    else
      var m := if |courses| < n then |courses| else n;
      var prepared := PrepareEach(courses[..m], w);
      var r := TestPost(db, prepared, w.postOk, 0);
      TestChosen(courses, m, w, prepared, r.posted);
      r
  }

  /** What the posting loop shows about the prepared first `m` courses
      holds of the scraped courses themselves. */
  lemma TestChosen(courses: seq<Course>, m: nat, w: World, prepared: seq<Course>, posted: seq<Course>)
    requires m <= |courses| && prepared == PrepareEach(courses[..m], w)
    requires forall c :: c in posted ==> c in prepared
    requires (forall a :: 0 <= a < |prepared| ==> w.postOk(a)) ==> posted == prepared
    ensures forall c :: c in posted ==> exists j :: 0 <= j < |courses| && j < m && c == PrepareForTest(courses[j], w)
    ensures (forall a :: w.postOk(a)) ==>
              |posted| == m && forall i :: 0 <= i < |posted| ==> posted[i] == PrepareForTest(courses[i], w)
  {
    var chosen := courses[..m];
    forall c | c in posted ensures exists j :: 0 <= j < |courses| && j < m && c == PrepareForTest(courses[j], w) {
      var j :| 0 <= j < |prepared| && prepared[j] == c;
      assert chosen[j] == courses[j];
    }
    if forall a :: w.postOk(a) {
      forall i | 0 <= i < |posted| ensures posted[i] == PrepareForTest(courses[i], w) {
        assert chosen[i] == courses[i];
      }
    }
  }

  /** `/test N` posts, in order, those of the first N courses whose
      attempt succeeds, each prepared for posting, and records each one
      that has a coupon link. */
  lemma TestCommandPicks(db: Db, courses: seq<Course>, args: seq<string>, w: World)
    ensures var n := if |courses| < CourseCount(args) then |courses| else CourseCount(args);
            var sent := Hits(Attempts(w.postOk, 0, n));
            && |TestCommand(db, courses, args, w).posted| == |sent|
            && forall j :: 0 <= j < |sent| ==>
                 sent[j] < n && TestCommand(db, courses, args, w).posted[j] == PrepareForTest(courses[sent[j]], w)
  {
    var n := if |courses| < CourseCount(args) then |courses| else CourseCount(args);
    var sent := Hits(Attempts(w.postOk, 0, n));
    if courses == [] {
      assert Attempts(w.postOk, 0, 0) == [];
    } else {
      var chosen := courses[..n];
      var prepared := PrepareEach(chosen, w);
      TestPostPicks(db, prepared, w.postOk, 0);
      var r := TestCommand(db, courses, args, w);
      assert r == TestPost(db, prepared, w.postOk, 0);
      forall j | 0 <= j < |sent| ensures sent[j] < n && r.posted[j] == PrepareForTest(courses[sent[j]], w) {
        assert r.posted[j] == prepared[sent[j]];
        assert chosen[sent[j]] == courses[sent[j]];
      }
    }
  }
}
