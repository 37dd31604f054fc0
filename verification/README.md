# Udemy coupon bot: a Dafny model of its core

The bot scrapes free-coupon Udemy courses from `https://www.couponami.com/all`.
It follows each coupon link to the Udemy course page and posts every new
course to a Telegram channel. A SQLite table records what has been posted,
so that a course is not announced twice.

This project models that core as pure functions over immutable data:

- **The duplicate store** (`Store`, `CourseDatabase`). The table is a sequence of rows plus an
  `available` flag that stands for "the database can be reached". `is_posted` runs
  its three checks in order:
  - the coupon link, compared after URL normalisation;
  - the Udemy course slug;
  - the normalised title.

  `mark_posted` re-checks the link and stores normalised URLs.
- **URL normalisation and slugs** (`Urls`). These model `re.sub(r'[?#].*$', '', …)` and
  `re.search(r'/course/([^/?]+)', …)` exactly, including Python's newline behaviour of `.` and `$`.
- **The listing scraper** (`Extract`, `scrape_couponami`). The parsed page is given as anchors
  and course containers, and the model keeps the four ways candidate links are gathered.
  - Each link is made absolute and de-duplicated by normalised URL.
  - The title fallbacks are kept, including the price and view-count clean-up of parent text.
  - So is the thumbnail search.
  - The course-page details come from an oracle.
- **The Udemy URL resolver** (`Resolver`, `get_udemy_course_info`). Page fetches are an oracle
  `string -> Option<Landing>`. The recursion depth bound is kept.
- **The message** (`Message`, `format_course_message`). This covers `html.escape` and its inverse,
  the detail lines, and the link and footer.
- **One posting pass and the `/test` command** (`Bot`). These cover `process_courses` and
  `handle_test_command`. Whether the k-th post reaches the channel is an oracle `nat -> bool`.

## Model

| member | source | states |
|---|---|---|
| Urls.NormalizeUrl | botcode.py:85 | for a one-line URL, the result is the URL cut just before its first `?` or `#`: a prefix free of both, and a URL without them is unchanged |
| Urls.NormalizeIdempotent | botcode.py:140-148 | normalising a stored (already normalised) one-line URL again changes nothing |
| Urls.NormalizeDropsQuery | botcode.py:84-85 | any query string or fragment appended to a clean URL is removed again |
| Urls.NormalizeNotIdempotentAcrossLines | botcode.py:85 | with a line break in the URL, `$` matches before the newline, so one pass of the substitution does not reach a fixed point |
| Urls.CourseSlug | botcode.py:97-99 | the slug is the leftmost non-empty run of characters other than `/` and `?` after `/course/`; there is none exactly when no position matches |
| Urls.SlugInUrl | botcode.py:97-101 | the slug that is searched for occurs in the Udemy URL it came from |
| Store.TitleKey | botcode.py:109 | the key holds exactly the word and space characters of the lower-cased, stripped title and nothing else, with no upper-case letter; a title of only such characters is its own stripped lower-case form |
| Store.TitlesMatchSymmetric | botcode.py:117-119 | the title similarity rule does not depend on which title was stored first |
| Store.ShortContainedTitleDoesNotMatch | botcode.py:117-119 | containment counts only when the contained key itself is longer than 20 characters: "introduction" inside a 29-character key is no match |
| Store.TitleScan | botcode.py:112-120 | the loop over stored titles returns true exactly when some non-empty stored title matches the key |
| Store.DuplicateBy | botcode.py:81-124 | the checks run in the order link, slug, title; each reports only when the earlier ones did not, and an unreachable store reports nothing |
| Store.IsPosted | botcode.py:75-133 | true exactly when the store is reachable and the link, slug or title check hits; any store error reads as "not posted" |
| Store.StoredLink | botcode.py:140-158 | the stored link is the normalised link, or the raw link when normalising leaves nothing; either way the next link query finds it |
| Store.MarkPosted | botcode.py:135-171 | appends exactly one row, holding the given title, normalised URLs and source, exactly when the store is reachable and no stored link matches the link query; otherwise nothing changes |
| Store.MarkedLinkStored | botcode.py:146-158 | after marking, some stored link starts with the normalised link |
| Store.MarkedLinkKnown | botcode.py:83-90 | after marking, the course is reported posted by link, and so is every link whose normalisation is a prefix of the marked one |
| Store.QueryVariantKnown | botcode.py:83-90 | a stored link asked for again with a query string or fragment is reported as posted |
| Store.MarkPostedIdempotent | botcode.py:146-151 | marking the same link twice stores it once |
| Store.MarkPostedKeepsLinksUnique | botcode.py:146-163 | the pre-insert query keeps coupon links unique, so the integrity-error branch is never taken |
| Store.MarkedSlugKnown | botcode.py:92-104 | after marking a course with a Udemy URL, another URL with the same course slug is reported as posted |
| Store.MarkedTitleKnown | botcode.py:106-122 | after marking, a title whose key is longer than 10 characters and matches the marked title's key is reported as posted |
| Store.MarkPostedMonotone | botcode.py:135-171 | marking never makes a posted course unposted |
| Store.PrefixLinkCollides | botcode.py:86-87 | as written, a different course whose link is a prefix of a stored link counts as posted |
| Store.IsPostedExact | botcode.py:83-90 | the corrected check: a hit that is neither by slug nor by title needs a stored link with the same normalisation |
| Store.ExactRejectsPrefix | botcode.py:86-87 | the corrected check does not confuse the prefix link with the stored one |
| Store.ExactKeepsQueryVariants | botcode.py:83-90 | the corrected check still finds a stored link asked for with a query string or fragment |
| Store.ExactNarrowsLinkCheck | botcode.py:83-90 | over normalised stored links, anything the corrected check reports, the check as written reports too |
| Extract.TwoSegmentsCorrect | botcode.py:276 | the hand-written test agrees with `re.match(r'^/[^/]+/[^/]+', href)` |
| Extract.Filter | botcode.py:232-237 | a `find_all` selection keeps exactly the anchors that satisfy its test |
| Extract.AddNew | botcode.py:248-289 | containers and pattern links add only accepted anchors with hrefs not seen before, never the same href twice, and every accepted new href is added |
| Extract.CandidateLinks | botcode.py:230-291 | every candidate comes from the page and passes one of the four tests; every category or `/go/` anchor is a candidate, and the href of every accepted container or pattern anchor is present |
| Extract.AbsoluteUrl | botcode.py:306-321 | a root-relative href gets the site prefix, an http(s) href is kept, and anything else is skipped |
| Extract.CutPrice | botcode.py:350 | text with no `$` followed by a digit or comma is unchanged; on one line the text is cut just before the first such `$`, and what is left holds none |
| Extract.RemoveCountsLeftmost | botcode.py:351 | count phrases are removed leftmost first and without overlap: the text before the first match of digits, optional blanks and a count word (view, enroll or student, with an optional `s`) is kept, the match is dropped and the scan resumes after it |
| Extract.RemoveCountsNoMatch | botcode.py:351 | a text without a count phrase is left unchanged |
| Extract.RemoveCountsPriceFree | botcode.py:350-351 | removing count phrases after the price never creates a new `$` amount |
| Extract.CleanParentText | botcode.py:347-352 | the cleaned parent text has single blanks only, none at either end and no line break; from one-line text no price match is left; text with neither a price nor a count phrase only has its whitespace collapsed and stripped |
| Extract.ResolveTitle | botcode.py:331-341 | a link text of at least 5 characters is the title; with no parent the short text is kept; a parent heading of at least 5 characters replaces it |
| Extract.ResolveTitleFallbacks | botcode.py:342-361 | without a parent heading, the link's or parent's title attribute is used when it has at least 5 characters, else the cleaned parent text when that has at least 5; when the parent step still gives fewer than 5, a grandparent heading replaces it, and otherwise the parent step's result stands |
| Extract.Thumbnail | botcode.py:368-411 | a thumbnail is present exactly when an image with a non-empty source is found; it has no query part and is absolute |
| Extract.CleanThumbnail | botcode.py:398-411 | the source is cut at its first `?` and made absolute by prefixing only |
| Extract.LinkCourse | botcode.py:363-431 | a course is produced exactly when the resolved title has at least 5 characters; it carries that title and the URL |
| Extract.Produced | botcode.py:323-366 | a link yields a course exactly when its URL is accepted, its normalised form is new and its title is long enough |
| Extract.Emit | botcode.py:293-436 | every emitted course is well formed and built from one of the links, and its normalised URL was not already seen |
| Extract.EmitDistinct | botcode.py:323-329 | no two emitted courses share a normalised coupon URL |
| Extract.EmitCovers | botcode.py:293-431 | completeness: the first link with a given new normalised URL and a long enough title yields a course with that URL and title |
| Extract.ScrapeCouponami | botcode.py:213-442 | a failed page fetch gives no courses; otherwise every course is well formed, comes from a candidate link, and no two share a normalised URL |
| Resolver.FixUdemyHref | botcode.py:568-573 | an href is completed only by a prefix, keeps `udemy.com` and starts with `http` |
| Resolver.UdemyHref | botcode.py:557-575 | there is a result exactly when some href contains `udemy.com`, and it is the completed first one, coupon or not |
| Resolver.OnclickUrl | botcode.py:581-586 | there is a match exactly when the onclick regex matches somewhere; the result is the leftmost match, starts with a scheme, contains `udemy.com` and holds no whitespace |
| Resolver.OnclickUdemy | botcode.py:578-586 | the first onclick handler with a match supplies the URL |
| Resolver.GoHop | botcode.py:537-586 | the preference order is final redirect URL, then page links, then onclick handlers; every answer contains `udemy.com` |
| Resolver.GoLink | botcode.py:598-607 | present exactly when some href contains `/go/`; then it is the first such href in document order, with `https://www.couponami.com` put in front of it exactly when it starts with `/` |
| Resolver.Resolve | botcode.py:523-626 | depth above 3 or an empty link gives nothing; a failed fetch gives nothing; a `/go/` link resolves to the redirect, link or onclick answer of its page; a course page without a `/go/` link gives its first Udemy link; at most two pages are fetched, the second only by following a `/go/` link; any URL found contains `udemy.com` |
| Resolver.CoursePageHops | botcode.py:597-609 | a course page with a `/go/` link gives the answer for that link one level deeper, after fetching the page itself |
| Resolver.CoursePageFollowsGo | botcode.py:597-609 | a course page with a `/go/` link is resolved by following that link one level deeper |
| Resolver.DepthThreeCutsHop | botcode.py:526-528 | at depth 3 the `/go/` hop is cut off by the depth bound |
| Resolver.CouponLinkNotPreferred | botcode.py:558-575 | a Udemy link without a coupon that comes first wins over a later one with a coupon |
| Message.HtmlEscape | botcode.py:657 | escaped text holds no `<`, `>`, `"` or `'`, and text without markup characters is unchanged |
| Message.EscapeRoundTrip | botcode.py:657 | escaping loses nothing: unescaping gives the original text back |
| Message.DetailLine | botcode.py:669-676 | a detail line appears only for a truthy value and is then the label, the escaped value and a line break |
| Message.FormatCourseMessage | botcode.py:650-688 | the message opens with the bold title and details heading, closes with the link line and footer, and in between holds exactly the detail lines in the order language, publisher, rate, enroll |
| Message.LinkShown | botcode.py:680-683 | the link line shows a truthy Udemy URL, unescaped, and otherwise the coupon link |
| Message.TitleRoundTrip | botcode.py:657-665 | the course title can be read back exactly from the bold span of the message |
| Message.NoDetailsMessage | botcode.py:667-678 | a course without details shows nothing between the heading and the link |
| Message.DetailsShown | botcode.py:669-676 | each truthy detail (language, publisher, rate, enroll) appears in the message, escaped, after its label and on its own line |
| Bot.MarkAll | botcode.py:839-847 | recording posted courses one after another only adds rows, at most one per course |
| Bot.MarkAllUnavailable | botcode.py:164-165 | an unreachable store records nothing |
| Bot.MarkAllAppend | botcode.py:817-847 | recording in two parts is recording in one go |
| Bot.Lookup | botcode.py:786-795 | an empty coupon link is not looked up; otherwise the answer is the resolver's for that link from depth 0, and a found URL contains `udemy.com` |
| Bot.Enrich | botcode.py:822-833 | a course with a language or a `/go/` link is unchanged; otherwise each of language, publisher, rate and enroll takes the fetched value when it is truthy and keeps the old one when not; price, title, links and thumbnail are always kept |
| Bot.EnrichRepeatsScrape | botcode.py:822-833 | a course whose details were scraped from its own link is left unchanged by the second details fetch |
| Bot.FilterBy | botcode.py:782-805 | the filter keeps the prepared form of every course that passes its test and of nothing else; kept plus counted is the number of courses |
| Bot.FilterNew | botcode.py:778-805 | every kept course was new against the store at the start of the pass, every new course is kept, kept plus skipped is the number scraped, and nothing is skipped when all are new |
| Bot.FilterByPicks | botcode.py:782-805 | the kept list is, in scraped order, the prepared form of exactly the courses that pass the test |
| Bot.FilterNewPicks | botcode.py:778-805 | the new courses are kept in scraped order: the j-th kept course is the prepared form of the j-th course that was new |
| Bot.PostAll | botcode.py:813-859 | posted plus failed is the number of new courses; the store ends as the posted courses recorded in order; each posted course is the enriched form of a new one; when all posts succeed all are posted, and when all fail the store is unchanged |
| Bot.PostAllPicks | botcode.py:817-851 | the i-th new course is posted (and so recorded) exactly when attempt k + i succeeds: the posted list is the enriched new courses at the successful attempts, in order |
| Bot.ProcessCourses | botcode.py:755-871 | an empty scrape changes nothing; posted, failed and skipped add up to the number scraped; the store ends as the posted courses recorded in order |
| Bot.PostedWereNew | botcode.py:782-846 | every posted course is the enriched, resolved form of a scraped course that was new when the pass began |
| Bot.ProcessCoursesPicks | botcode.py:782-846 | the j-th posted course is the enriched, resolved form of the scraped course that was new in the position of the j-th successful attempt; there are as many posted courses as successful attempts among the new ones |
| Bot.NewAndSentIsPosted | botcode.py:803-846 | the converse of Bot.PostedWereNew: a course that was new and whose post attempt succeeds is posted |
| Bot.NothingRecordedWithoutPost | botcode.py:839-855 | when no post succeeds, or the store is unreachable, the pass leaves the store as it was |
| Bot.PassPostsTitleTwin | botcode.py:782-846 | as written, two listings of one course (same long title, any links) are both posted, although the second is already reported as posted once the first is recorded |
| Bot.ProcessCoursesRechecked | botcode.py:797-846 | the corrected pass re-checks each course against the current store before posting, so no course is posted that the store already reports |
| Bot.RecheckedSkipsTitleTwin | botcode.py:797-846 | with the re-check, only one of the two listings is posted |
| Bot.ShowNatValue | botcode.py:888 | the decimal numeral of a number has that value |
| Bot.ParseShowInt | botcode.py:888 | `int()` reads back the decimal rendering of every integer, negative ones included |
| Bot.CourseCount | botcode.py:884-894 | the count is 10 without an argument or for a non-number; otherwise the parsed value clamped to [1, 50] |
| Bot.CountInRange | botcode.py:886-892 | an argument from 1 to 50 is used as given |
| Bot.TestGuardRedundant | botcode.py:962-968 | for a non-empty link, the `is_posted` guard before marking repeats the re-check of `mark_posted` and changes nothing |
| Bot.TestPost | botcode.py:924-980 | there is no duplicate check: posted plus failed is the number chosen, the store ends as the posted courses with a link recorded in order, only chosen courses are posted, and when every post succeeds every chosen course is posted, in order |
| Bot.TestPostPicks | botcode.py:956-973 | the i-th chosen course is posted exactly when attempt k + i succeeds: the posted list is the chosen courses at the successful attempts, in order |
| Bot.TestCommand | botcode.py:873-985 | only the first N scraped courses are considered, each with details and Udemy URL filled in; when every post succeeds, exactly the first min(N, scraped) are posted, in order, whether or not they were posted before |
| Bot.TestCommandPicks | botcode.py:873-985 | of the first min(N, scraped) courses, the i-th is posted exactly when attempt i succeeds, in order, with details and Udemy URL filled in |

## Left out

- Network, HTML parsing and BeautifulSoup. The listing page is an abstract `Page` of anchors and containers, and a failed fetch is `None`. Each resolver fetch is an oracle.
- `get_course_details` (botcode.py:445-521) is an oracle from course URL to `Details`. Its regular expressions are not modelled. Because the oracle is a pure function of the URL, the second call in the posting loops (botcode.py:823-833 and 933-944) returns the same answer as the scrape-time call (botcode.py:414-416), so enriching a scraped course changes nothing (Bot.EnrichRepeatsScrape). A fetch that fails while scraping and succeeds later is not modelled.
- Telegram: sending the photo or text, the text fallback after a failed photo, `test_connection`, and deleting the command message. Post success is an oracle indexed by attempt number.
- Sleeps, the scheduler, logging, timestamps (`posted_at`), `init_db`, `get_recent_courses`, `scrape_all` (it only forwards `scrape_couponami`), `/test_scrape`, `/test_sample` and `main`.
- The `discudemy.com` branches are dead code. `COUPONAMI_URL` is a constant without that host, so only the couponami prefix is modelled.
- Only ASCII letters, digits and `_` count as `\w`. `lower()` is modelled for ASCII only, and `int()` accepts ASCII digits only.
- The title clean-up (botcode.py:350-351) treats only ASCII digits as `\d` in `\$[\d,]+` and `\d+\s*(...)`, and `re.I` folds ASCII letters only.
- SQL `LIKE` is modelled as a case-sensitive prefix or substring test. Its case-insensitivity and its `_` and `%` wildcards inside the pattern are left out.
- A store error is all or nothing (`available`). A failure in the middle of a query is not modelled separately.
- Exceptions in the posting loop are folded into "post failed". An exception inside a `try` that aborts a whole pass is not modelled.
- A thumbnail whose source attribute is empty is modelled as absent. The source stores `''` in that case; both are falsy where they are used.
- Extract.CleanParentText: it does not promise that no count phrase is left, because one `re.sub` pass can leave one (`3 4views students` becomes `3 students`). It promises no price only for one-line text, since `.*?$` stops at the first line break.
- Extract.ScrapeCouponami: its contract states soundness and de-duplication. Completeness is stated separately by Extract.EmitCovers over the candidate links.
- Where the prose description and the code differ, the code is modelled:
  - The resolver returns the first Udemy link, with or without a coupon (Resolver.CouponLinkNotPreferred).
  - Title containment is guarded by the length of the contained key (Store.ShortContainedTitleDoesNotMatch).
  - Nothing prevents two passes from overlapping: there is no lock to model.

## Findings

| source | as written | input that shows it | evidently intended | confidence | as-written member | corrected member |
|---|---|---|---|---|---|---|
| botcode.py:86-87 | the link query uses `LIKE 'normalised%'`, so any stored link that starts with the normalised link matches | stored `https://www.couponami.com/go/python-bootcamp`, new link `https://www.couponami.com/go/python`: the new course is reported as posted and never announced | match only a stored link that normalises to the same URL | medium, not executed | Store.PrefixLinkCollides | Store.IsPostedExact |
| botcode.py:782-846 | every course is checked against the store as it stood before the pass | two scraped listings of one course with the same title longer than 10 characters after normalisation, and different coupon links: both are posted in one pass | each course is announced once; re-check against the current store before posting | medium, not executed | Bot.PassPostsTitleTwin | Bot.ProcessCoursesRechecked |

Bot.ProcessCourses and Store.IsPosted remain the model of the code as written. The corrected members stand beside them, each with its property proved.
