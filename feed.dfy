/**
  The entry-mapping loop of `fetch_news` (news_chatbot.py, lines 139-165):
  each RSS entry, a record of optional fields as the feed parser delivers
  it, becomes an article with a title, a link, a summary and a publication
  date, reformatted to `YYYY-MM-DD HH:MM` when the entry carries a valid
  structured time.
*/
module Feed {
  import opened Options
  import opened Text

  /** The first six fields of the parser's structured time. */
  datatype TimeFields = TimeFields(year: int, month: int, day: int, hour: int, minute: int, second: int)

  /** A feed entry: every key may be absent. */
  datatype FeedEntry = FeedEntry(
    title: Option<string>,
    link: Option<string>,
    summary: Option<string>,
    description: Option<string>,
    published: Option<string>,
    publishedParsed: Option<TimeFields>)

  /** The article dictionary `fetch_news` builds. */
  datatype Article = Article(title: string, link: string, summary: string, published: string)

  const NoTitle := "(제목 없음)"

  predicate IsLeapYear(y: int) {
    y % 4 == 0 && (y % 100 != 0 || y % 400 == 0)
  }

  function DaysInMonth(y: int, m: int): int
    requires 1 <= m <= 12
  {
    if m == 2 then (if IsLeapYear(y) then 29 else 28)
    else if m == 4 || m == 6 || m == 9 || m == 11 then 30
    else 31
  }

  /** The fields Python's `datetime(...)` constructor accepts; any other raises `ValueError`. */
  predicate ValidDateTime(t: TimeFields) {
    && 1 <= t.year <= 9999
    && 1 <= t.month <= 12
    && 1 <= t.day <= DaysInMonth(t.year, t.month)
    && 0 <= t.hour < 24
    && 0 <= t.minute < 60
    && 0 <= t.second < 60
  }

  /** `strftime("%Y-%m-%d %H:%M")`; the seconds are dropped. */
  function FormatDateTime(t: TimeFields): (r: string)
    requires ValidDateTime(t)
    ensures |r| == 16
    ensures r[4] == '-' && r[7] == '-' && r[10] == ' ' && r[13] == ':'
  {
    ZeroPadWidth(t.year, 4);
    ZeroPadWidth(t.month, 2);
    ZeroPadWidth(t.day, 2);
    ZeroPadWidth(t.hour, 2);
    ZeroPadWidth(t.minute, 2);
    DateLayout(ZeroPad(t.year, 4), ZeroPad(t.month, 2), ZeroPad(t.day, 2), ZeroPad(t.hour, 2), ZeroPad(t.minute, 2));
    ZeroPad(t.year, 4) + "-" + ZeroPad(t.month, 2) + "-" + ZeroPad(t.day, 2)
      + " " + ZeroPad(t.hour, 2) + ":" + ZeroPad(t.minute, 2)
  }

  /** The date an article shows: reformatted when possible, the raw string otherwise. */
  function PublishedText(e: FeedEntry): (shown: string)
    ensures e.published.GetOr("") == "" ==> shown == ""
    ensures shown == e.published.GetOr("") || |shown| == 16
  {
    var published := e.published.GetOr("");
    if published != "" && e.publishedParsed.Some? && ValidDateTime(e.publishedParsed.value) then
      FormatDateTime(e.publishedParsed.value)
    else published
  }

  /** One iteration of the loop: the article built from one entry. */
  function NormalizeEntry(e: FeedEntry): (a: Article)
    ensures e.title.None? ==> a.title == NoTitle
    ensures e.title.Some? ==> a.title == e.title.value
    ensures a.link == e.link.GetOr("")
    ensures a.summary == "" <==> e.summary.GetOr("") == "" && e.description.GetOr("") == ""
    ensures e.summary.GetOr("") != "" ==> a.summary == e.summary.value
    ensures e.summary.GetOr("") == "" ==> a.summary == e.description.GetOr("")
    ensures a.published == PublishedText(e)
  {
    var summary := e.summary.GetOr("");
    Article(
      e.title.GetOr(NoTitle),
      e.link.GetOr(""),
      if summary != "" then summary else e.description.GetOr(""),
      PublishedText(e))
  }

  /** `for entry in feed.entries[:max_results]`, appending one article per entry. */
  method NormalizeEntries(entries: seq<FeedEntry>, maxResults: int := 10) returns (articles: seq<Article>)
    ensures |articles| == |PyTake(entries, maxResults)|
    ensures 0 <= maxResults ==> |articles| == Min(maxResults, |entries|)
    ensures forall i :: 0 <= i < |articles| ==> articles[i] == NormalizeEntry(entries[i])
  {
    var taken := PyTake(entries, maxResults);
    articles := [];
    for i := 0 to |taken|
      invariant |articles| == i
      invariant forall j :: 0 <= j < i ==> articles[j] == NormalizeEntry(entries[j])
    {
      articles := articles + [NormalizeEntry(taken[i])];
    }
  }

  // ----- The publication date -----

  /**
    The date is reformatted exactly when the raw string is non-empty and the
    structured time is one `datetime` accepts; otherwise the raw string is
    kept, including when it is absent (then "").
  */
  lemma PublishedRule(e: FeedEntry)
    ensures var raw := e.published.GetOr("");
      if raw != "" && e.publishedParsed.Some? && ValidDateTime(e.publishedParsed.value) then
        NormalizeEntry(e).published == FormatDateTime(e.publishedParsed.value)
        && |NormalizeEntry(e).published| == 16
      else NormalizeEntry(e).published == raw
  {
    var raw := e.published.GetOr("");
    if raw != "" && e.publishedParsed.Some? && ValidDateTime(e.publishedParsed.value) {
      FormattedFields(e.publishedParsed.value);
    }
  }

  function Pow10(w: nat): nat {
    if w == 0 then 1 else 10 * Pow10(w - 1)
  }

  lemma {:induction false} DecimalWidth(n: nat, w: nat)
    requires 1 <= w && n < Pow10(w)
    ensures |NatToDecimal(n)| <= w
    decreases w
  {
    if n >= 10 {
      assert w >= 2;
      DecimalWidth(n / 10, w - 1);
    }
  }

  function Zeros(k: nat): (r: string)
    ensures |r| == k
    ensures forall i :: 0 <= i < k ==> r[i] == '0'
  {
    seq(k, _ => '0')
  }

  lemma {:induction false} ZerosParse(k: nat)
    ensures ParseDecimal(Zeros(k)) == 0
    decreases k
  {
    if k > 0 {
      assert Zeros(k)[..k - 1] == Zeros(k - 1);
      ZerosParse(k - 1);
    }
  }

  /** Leading zeros do not change the value of a digit string. */
  lemma {:induction false} LeadingZerosParse(k: nat, d: string)
    requires forall i :: 0 <= i < |d| ==> IsDigit(d[i])
    ensures forall i :: 0 <= i < k + |d| ==> IsDigit((Zeros(k) + d)[i])
    ensures ParseDecimal(Zeros(k) + d) == ParseDecimal(d)
    decreases |d|
  {
    if d == [] {
      assert Zeros(k) + d == Zeros(k);
      ZerosParse(k);
    } else {
      var zd := Zeros(k) + d;
      assert zd[..|zd| - 1] == Zeros(k) + d[..|d| - 1];
      LeadingZerosParse(k, d[..|d| - 1]);
    }
  }

  /** A zero-padded field reads back as the number it renders. */
  lemma ZeroPadParse(n: nat, width: nat)
    ensures ParseDecimal(ZeroPad(n, width)) == n
  {
    var d := NatToDecimal(n);
    DecimalRoundTrip(n);
    if |d| < width {
      assert ZeroPad(n, width) == Zeros(width - |d|) + d;
      LeadingZerosParse(width - |d|, d);
    }
  }

  lemma ZeroPadWidth(n: nat, width: nat)
    requires 1 <= width && n < Pow10(width)
    ensures |ZeroPad(n, width)| == width
  {
    DecimalWidth(n, width);
  }

  /**
    The reformatted date is sixteen characters with its separators at fixed
    places, and each field reads back as the year, month, day, hour and
    minute of the structured time.
  */
  lemma FormattedFields(t: TimeFields)
    requires ValidDateTime(t)
    ensures var r := FormatDateTime(t);
      && |r| == 16
      && r[4] == '-' && r[7] == '-' && r[10] == ' ' && r[13] == ':'
      && ParseDecimal(r[0..4]) == t.year
      && ParseDecimal(r[5..7]) == t.month
      && ParseDecimal(r[8..10]) == t.day
      && ParseDecimal(r[11..13]) == t.hour
      && ParseDecimal(r[14..16]) == t.minute
  {
    ZeroPadWidth(t.year, 4);
    ZeroPadWidth(t.month, 2);
    ZeroPadWidth(t.day, 2);
    ZeroPadWidth(t.hour, 2);
    ZeroPadWidth(t.minute, 2);
    ZeroPadParse(t.year, 4);
    ZeroPadParse(t.month, 2);
    ZeroPadParse(t.day, 2);
    ZeroPadParse(t.hour, 2);
    ZeroPadParse(t.minute, 2);
    DateLayout(ZeroPad(t.year, 4), ZeroPad(t.month, 2), ZeroPad(t.day, 2), ZeroPad(t.hour, 2), ZeroPad(t.minute, 2));
  }

  /** Where the five fields and the four separators of `YYYY-MM-DD HH:MM` sit. */
  lemma DateLayout(y: string, mo: string, d: string, h: string, mi: string)
    requires |y| == 4 && |mo| == 2 && |d| == 2 && |h| == 2 && |mi| == 2
    ensures var r := y + "-" + mo + "-" + d + " " + h + ":" + mi;
      && |r| == 16
      && r[4] == '-' && r[7] == '-' && r[10] == ' ' && r[13] == ':'
      && r[0..4] == y && r[5..7] == mo && r[8..10] == d && r[11..13] == h && r[14..16] == mi
  {
  }

  /** Distinct structured times (up to the second) give distinct reformatted dates. */
  lemma FormatInjective(s: TimeFields, t: TimeFields)
    requires ValidDateTime(s) && ValidDateTime(t)
    requires FormatDateTime(s) == FormatDateTime(t)
    ensures s.year == t.year && s.month == t.month && s.day == t.day
    ensures s.hour == t.hour && s.minute == t.minute
  {
    FormattedFields(s);
    FormattedFields(t);
  }
}
