/** The Telegram message for a course,
    `TelegramChannelPoster.format_course_message` (botcode.py:650-688). */
module Message {

  import opened Wrappers
  import opened Text
  import opened Extract
  import opened Store

  // ---------------------------------------------------------------------
  // `html.escape(s)` with its default `quote=True`

  function EscapeChar(c: char): (r: string)
    ensures r != []
  {
    if c == '&' then "&amp;"
    else if c == '<' then "&lt;"
    else if c == '>' then "&gt;"
    else if c == '"' then "&quot;"
    else if c == '\'' then "&#x27;"
    else [c]
  }

  /** Characters that `html.escape` replaces by an entity. */
  predicate IsMarkup(c: char) {
    c == '&' || c == '<' || c == '>' || c == '"' || c == '\''
  }

  /** `html.escape(s)`: the result holds no tag or quote character. */
  function HtmlEscape(s: string): (r: string)
    ensures forall k :: 0 <= k < |r| ==> r[k] != '<' && r[k] != '>' && r[k] != '"' && r[k] != '\''
    ensures (forall k :: 0 <= k < |s| ==> !IsMarkup(s[k])) ==> r == s
    ensures |r| >= |s|
  {
    if s == [] then []
    else
      var head := EscapeChar(s[0]);
      var rest := HtmlEscape(s[1..]);
      assert forall k :: |head| <= k < |head + rest| ==> (head + rest)[k] == rest[k - |head|];
      head + rest
  }

  /** The inverse of `HtmlEscape`: decodes the five entities it writes and
      leaves every other character alone. */
  function HtmlUnescape(s: string): (r: string)
    decreases |s|
  {
    if s == [] then []
    else if StartsWith(s, "&amp;") then "&" + HtmlUnescape(s[5..])
    else if StartsWith(s, "&lt;") then "<" + HtmlUnescape(s[4..])
    else if StartsWith(s, "&gt;") then ">" + HtmlUnescape(s[4..])
    else if StartsWith(s, "&quot;") then "\"" + HtmlUnescape(s[6..])
    else if StartsWith(s, "&#x27;") then "'" + HtmlUnescape(s[6..])
    else [s[0]] + HtmlUnescape(s[1..])
  }

  /** Escaping loses nothing: unescaping gives the original text back. */
  lemma {:induction false} EscapeRoundTrip(s: string)
    ensures HtmlUnescape(HtmlEscape(s)) == s
    decreases |s|
  {
    if s != [] {
      EscapeRoundTrip(s[1..]);
      UnescapeStep(s[0], HtmlEscape(s[1..]));
      assert s == [s[0]] + s[1..];
    }
  }

  /** Unescaping undoes the escape of one character. */
  lemma UnescapeStep(c: char, rest: string)
    ensures HtmlUnescape(EscapeChar(c) + rest) == [c] + HtmlUnescape(rest)
  {
    var e := EscapeChar(c);
    var t := e + rest;
    assert t[..|e|] == e;
    assert t[|e|..] == rest;
    if c == '&' {
      assert StartsWith(t, "&amp;");
    } else if c == '<' {
      assert !StartsWith(t, "&amp;") by { assert t[1] == 'l'; }
      assert StartsWith(t, "&lt;");
    } else if c == '>' {
      assert !StartsWith(t, "&amp;") && !StartsWith(t, "&lt;") by { assert t[1] == 'g'; }
      assert StartsWith(t, "&gt;");
    } else if c == '"' {
      assert !StartsWith(t, "&amp;") && !StartsWith(t, "&lt;") && !StartsWith(t, "&gt;") by { assert t[1] == 'q'; }
      assert StartsWith(t, "&quot;");
    } else if c == '\'' {
      assert !StartsWith(t, "&amp;") && !StartsWith(t, "&lt;") && !StartsWith(t, "&gt;")
          && !StartsWith(t, "&quot;") by { assert t[1] == '#'; }
      assert StartsWith(t, "&#x27;");
    } else {
      assert t[0] == c != '&';
      assert !StartsWith(t, "&amp;") && !StartsWith(t, "&lt;") && !StartsWith(t, "&gt;")
          && !StartsWith(t, "&quot;") && !StartsWith(t, "&#x27;");
    }
  }

  // ---------------------------------------------------------------------
  // The message

  /** The link a post points at: the Udemy URL when known, else the coupon
      link; neither is escaped. The shown link is empty only when the
      coupon link is. */
  function ShownLink(c: Course): (r: string)
    ensures Some(r) == c.udemyUrl || r == c.couponLink
    ensures r == "" ==> c.couponLink == ""
    ensures Truthy(c.udemyUrl) ==> r == c.udemyUrl.value
  {
    if Truthy(c.udemyUrl) then c.udemyUrl.value else c.couponLink
  }

  const TitleOpen := "\U{1F393} <b>"
  const TitleClose := "</b>\n\n"
  const DetailsHead := "\U{1F4CB} <b>Course Details:</b>\n"
  const LinkLabel := "\U{1F517} <b>Get Course:</b> "
  const Footer := "\n\U{23F0} <i>Limited time offer! Enroll now before it expires.</i>\n\n#DIU #Udemy #FreeCourse"

  /** One detail line, present only when the value is truthy. */
  function DetailLine(lead: string, value: Option<string>): (r: string)
    ensures !Truthy(value) ==> r == []
    ensures Truthy(value) ==> |r| > |lead| && StartsWith(r, lead) && r[|r| - 1] == '\n'
    ensures Truthy(value) ==> r == lead + HtmlEscape(value.value) + "\n"
  {
    if Truthy(value) then lead + HtmlEscape(value.value) + "\n" else []
  }

  const LanguageLabel := "\U{1F310} <b>Language:</b> "
  const PublisherLabel := "\U{1F464} <b>Publisher:</b> "
  const RateLabel := "\U{2B50} <b>Rate:</b> "
  const EnrollLabel := "\U{1F465} <b>Enroll:</b> "

  function DetailLines(d: Details): string {
    DetailLine(LanguageLabel, d.language) + DetailLine(PublisherLabel, d.publisher)
    + DetailLine(RateLabel, d.rate) + DetailLine(EnrollLabel, d.enroll)
  }

  /** The bold escaped title and the details heading. */
  function Header(title: string): string {
    TitleOpen + HtmlEscape(title) + TitleClose + DetailsHead
  }

  /** The link line and the fixed footer. */
  function LinkSection(c: Course): string {
    "\n" + LinkLabel + ShownLink(c) + "\n" + Footer
  }

  /** `format_course_message(course)`: the escaped title in bold, the
      truthy details, the link, and the fixed footer. The price is not
      shown. */
  function FormatCourseMessage(c: Course): (r: string)
    ensures StartsWith(r, Header(c.title))
    ensures EndsWith(r, LinkSection(c))
    ensures |Header(c.title)| + |LinkSection(c)| <= |r|
    ensures r[|Header(c.title)|..|r| - |LinkSection(c)|] == DetailLines(c.details)
  {
    var h := Header(c.title);
    var r := h + DetailLines(c.details) + LinkSection(c);
    assert r[..|h|] == h;
    assert r[|r| - |LinkSection(c)|..] == LinkSection(c);
    assert r[|h|..|r| - |LinkSection(c)|] == DetailLines(c.details);
    r
  }

  /** `s.endswith(p)` */
  predicate EndsWith(s: string, p: string) {
    |p| <= |s| && s[|s| - |p|..] == p
  }

  /** Reads the course title back out of a message: the text between the
      opening `<b>` and the next tag, unescaped. */
  function TitleOf(m: string): (r: Option<string>) {
    if StartsWith(m, TitleOpen) then Some(HtmlUnescape(m[|TitleOpen|..IndexFrom(m, '<', |TitleOpen|)]))
    else None
  }

  /** The title survives formatting: escaping keeps it free of '<', so the
      bold span ends exactly where it does. */
  lemma {:induction false} TitleRoundTrip(c: Course)
    ensures TitleOf(FormatCourseMessage(c)) == Some(c.title)
  {
    var e := HtmlEscape(c.title);
    assert Header(c.title) == TitleOpen + e + (TitleClose + DetailsHead);
    BoldSpan(FormatCourseMessage(c), e, TitleClose + DetailsHead);
    EscapeRoundTrip(c.title);
  }

  /** A text free of '<' between the opening tag and a tag is read back
      exactly. */
  lemma BoldSpan(m: string, e: string, rest: string)
    requires StartsWith(m, TitleOpen + e + rest) && rest != [] && rest[0] == '<'
    requires forall k :: 0 <= k < |e| ==> e[k] != '<'
    ensures StartsWith(m, TitleOpen)
    ensures m[|TitleOpen|..IndexFrom(m, '<', |TitleOpen|)] == e
  {
    var n := |TitleOpen|;
    StartsWithParts(m, TitleOpen, e, rest);
    forall k | n <= k < n + |e| ensures m[k] != '<' {
      assert m[k] == m[n..n + |e|][k - n] == e[k - n];
    }
    IndexFromAt(m, '<', n, n + |e|);
  }

  /** The pieces of a prefix made of three parts. */
  lemma StartsWithParts(m: string, a: string, b: string, c: string)
    requires StartsWith(m, a + b + c) && c != []
    ensures StartsWith(m, a)
    ensures m[|a|..|a| + |b|] == b
    ensures m[|a| + |b|] == c[0]
  {
    var p := a + b + c;
    assert m[..|p|] == p;
    assert m[..|a|] == p[..|a|] == a;
    assert m[|a|..|a| + |b|] == p[|a|..|a| + |b|] == b;
    assert m[|a| + |b|] == p[|a| + |b|] == c[0];
  }


  /** A course without details shows nothing between the details heading
      and the link. */
  lemma NoDetailsMessage(c: Course)
    requires c.details == NoDetails
    ensures FormatCourseMessage(c) == Header(c.title) + LinkSection(c)
  {
  }

  /** Every truthy detail appears, escaped, on its own line, in the order
      language, publisher, rate, enroll. */
  lemma DetailsShown(c: Course)
    ensures var d := c.details;
            Truthy(d.language) ==>
              Contains(FormatCourseMessage(c), LanguageLabel + HtmlEscape(d.language.value) + "\n")
    ensures var d := c.details;
            Truthy(d.publisher) ==>
              Contains(FormatCourseMessage(c), PublisherLabel + HtmlEscape(d.publisher.value) + "\n")
    ensures var d := c.details;
            Truthy(d.rate) ==> Contains(FormatCourseMessage(c), RateLabel + HtmlEscape(d.rate.value) + "\n")
    ensures var d := c.details;
            Truthy(d.enroll) ==> Contains(FormatCourseMessage(c), EnrollLabel + HtmlEscape(d.enroll.value) + "\n")
  {
    var d := c.details;
    FourParts(DetailLine(LanguageLabel, d.language), DetailLine(PublisherLabel, d.publisher),
              DetailLine(RateLabel, d.rate), DetailLine(EnrollLabel, d.enroll));
    var m := FormatCourseMessage(c);
    ContainsMiddle(Header(c.title), DetailLines(d), LinkSection(c));
    ContainsTrans(m, DetailLines(d), DetailLine(LanguageLabel, d.language));
    ContainsTrans(m, DetailLines(d), DetailLine(PublisherLabel, d.publisher));
    ContainsTrans(m, DetailLines(d), DetailLine(RateLabel, d.rate));
    ContainsTrans(m, DetailLines(d), DetailLine(EnrollLabel, d.enroll));
  }

  /** Each of four concatenated parts is a substring of the whole. */
  lemma FourParts(a: string, b: string, c: string, d: string)
    ensures var s := a + b + c + d; Contains(s, a) && Contains(s, b) && Contains(s, c) && Contains(s, d)
  {
    var s := a + b + c + d;
    assert s == [] + a + (b + c + d);
    ContainsMiddle([], a, b + c + d);
    assert s == a + b + (c + d);
    ContainsMiddle(a, b, c + d);
    ContainsMiddle(a + b, c, d);
    assert s == a + b + c + d + [];
    ContainsMiddle(a + b + c, d, []);
  }

  /** The link line shows the Udemy URL when it is known and the coupon
      link otherwise, unescaped. */
  lemma LinkShown(c: Course)
    ensures Truthy(c.udemyUrl) ==> Contains(FormatCourseMessage(c), LinkLabel + c.udemyUrl.value + "\n")
    ensures !Truthy(c.udemyUrl) ==> Contains(FormatCourseMessage(c), LinkLabel + c.couponLink + "\n")
  {
    var line := LinkLabel + ShownLink(c) + "\n";
    assert LinkSection(c) == "\n" + line + Footer;
    ContainsMiddle("\n", line, Footer);
    ContainsAppendLeft(Header(c.title) + DetailLines(c.details), LinkSection(c), line);
  }
}
