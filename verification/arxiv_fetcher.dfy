/** Fetching from arXiv (ml_subscriber/core/arxiv_fetcher.py). The HTTP
    request, the XML parser and the clock are outside the model: the fetcher
    receives the outcome of the request as a `Response` holding the Atom
    entries already read from the feed, the current time in seconds, and the
    ISO-8601 date parser as a function. */
module ArxivFetcher {
  import opened Wrappers
  import opened Text
  import opened Seqs
  import opened Models

  const SecondsPerDay: int := 86400

  /** The metadata of every arXiv article: its source tag. */
  const ArxivTag: map<string, MetaValue> := map["source" := MStr("arxiv")]

  /** A `<link>` element: its `title` and `href` attributes, if present. */
  datatype Link = Link(title: Option<string>, href: Option<string>)

  /** An Atom `<entry>` as the parser sees it: the text of the first
      element of each kind (`None` when the element is missing or has no
      text), the text of each author's `<name>`, and every `<link>`. */
  datatype Entry = Entry(
    title: Option<string>,
    id: Option<string>,
    summary: Option<string>,
    published: Option<string>,
    authorNames: seq<Option<string>>,
    links: seq<Link>)

  /** What the HTTP request produced: a request error (connection failure
      or error status), a body that is not well-formed XML, or the feed's
      entries in document order. */
  datatype Response = RequestError | Malformed | Feed(entries: seq<Entry>)

  /** The outcome of `datetime.fromisoformat` on a date with "Z" replaced by
      "+00:00": not a date (ValueError), a date without a time zone, or a
      time-zone-aware instant in seconds since the epoch. */
  datatype ParsedDate = Invalid | Naive | Aware(seconds: int)

  /** The exception that escapes `fetch_articles`. */
  datatype Crash = XmlParseError | NaiveAwareComparison

  /** `_required_text`: the stripped text, or nothing when it is missing. */
  function RequiredText(text: Option<string>): (r: Option<string>)
    ensures r.None? <==> text.None?
    ensures r.Some? ==> r.value == Strip(text.value)
  {
    match text
    case None => None
    case Some(t) => Some(Strip(t))
  }

  /** `_optional_text` and `_extract_published_date`: the stripped text, or
      the empty text when it is missing. */
  function OptionalText(text: Option<string>): (r: string)
    ensures text.None? ==> r == ""
    ensures text.Some? ==> r == Strip(text.value)
  {
    match text
    case None => ""
    case Some(t) => Strip(t)
  }

  /** Normalising the stripped text is normalising the raw text. */
  lemma NormalizedRequired(text: Option<string>)
    requires text.Some?
    ensures NormalizeWhitespace(RequiredText(text).value) == NormalizeWhitespace(text.value)
  {
    NormalizeIgnoresOuterSpace(text.value);
  }

  lemma NormalizedOptional(text: Option<string>)
    ensures NormalizeWhitespace(OptionalText(text)) == NormalizeWhitespace(text.GetOr(""))
  {
    if text.Some? {
      NormalizeIgnoresOuterSpace(text.value);
    }
  }

  /** `_extract_authors`: each author's name text, unstripped, skipping
      authors whose name is missing or empty. */
  function ExtractAuthors(names: seq<Option<string>>): (r: seq<string>)
    ensures |r| <= |names|
    ensures forall k :: 0 <= k < |r| ==> r[k] != "" && Some(r[k]) in names
    decreases |names|
  {
    if |names| == 0 then []
    else
      var rest := ExtractAuthors(names[1..]);
      assert forall k :: 0 <= k < |rest| ==> Some(rest[k]) in names by {
        forall k | 0 <= k < |rest| ensures Some(rest[k]) in names {
          var j :| 0 <= j < |names[1..]| && names[1..][j] == Some(rest[k]);
          assert names[j + 1] == Some(rest[k]);
        }
      }
      match names[0]
      case Some(n) =>
        if n != "" then [n] + rest else rest
      case None => rest
  }

  /** Authors are read in document order: the names of two runs of authors
      are the names of the first run followed by those of the second. */
  lemma {:induction false} ExtractAuthorsAppend(xs: seq<Option<string>>, ys: seq<Option<string>>)
    ensures ExtractAuthors(xs + ys) == ExtractAuthors(xs) + ExtractAuthors(ys)
    decreases |xs|
  {
    if |xs| == 0 {
      assert xs + ys == ys;
    } else {
      assert (xs + ys)[0] == xs[0];
      assert (xs + ys)[1..] == xs[1..] + ys;
      ExtractAuthorsAppend(xs[1..], ys);
    }
  }

  /** When every author has a non-empty name, all of them are kept, in
      order and unchanged. */
  lemma {:induction false} ExtractAuthorsAllNamed(names: seq<Option<string>>)
    requires forall k :: 0 <= k < |names| ==> names[k].Some? && names[k].value != ""
    ensures |ExtractAuthors(names)| == |names|
    ensures forall k :: 0 <= k < |names| ==> ExtractAuthors(names)[k] == names[k].value
    decreases |names|
  {
    if |names| > 0 {
      ExtractAuthorsAllNamed(names[1..]);
    }
  }

  predicate IsPdf(l: Link) {
    l.title == Some("pdf")
  }

  /** `_extract_pdf_link`: the `href` of the first link titled "pdf" (the
      empty text when that link has no or an empty `href`); the empty text
      when no link is titled "pdf". Later "pdf" links are never consulted. */
  function ExtractPdfLink(links: seq<Link>): (r: string)
    ensures (forall k :: 0 <= k < |links| ==> !IsPdf(links[k])) ==> r == ""
    ensures forall k :: 0 <= k < |links| && IsPdf(links[k])
                        && (forall j :: 0 <= j < k ==> !IsPdf(links[j]))
                        ==> r == links[k].href.GetOr("")
    decreases |links|
  {
    if |links| == 0 then ""
    else if IsPdf(links[0]) then links[0].href.GetOr("")
    else
      var r := ExtractPdfLink(links[1..]);
      assert forall k :: 1 <= k < |links| ==> links[1..][k - 1] == links[k];
      r
  }

  /** `_parse_entry`: an entry without a title or an id is skipped;
      otherwise the title and summary are whitespace-normalised, the id
      (the article's page) and the publication date are stripped, and the
      article is tagged as coming from arXiv. */
  function ParseEntry(e: Entry): (r: Option<Article>)
    ensures r.None? <==> e.title.None? || e.id.None?
    ensures r.Some? ==> r.value.link == Strip(e.id.value)
    ensures r.Some? ==> r.value.title == NormalizeWhitespace(e.title.value)
    ensures r.Some? ==> r.value.summary == NormalizeWhitespace(e.summary.GetOr(""))
    ensures r.Some? ==> r.value.publishedDate == OptionalText(e.published)
    ensures r.Some? ==> r.value.authors == ExtractAuthors(e.authorNames)
    ensures r.Some? ==> r.value.pdfLink == ExtractPdfLink(e.links)
    ensures r.Some? ==> r.value.metadata == ArxivTag
  {
    var title := RequiredText(e.title);
    var link := RequiredText(e.id);
    if title.None? || link.None? then None
    else
      var summary := OptionalText(e.summary);
      NormalizedRequired(e.title);
      NormalizedOptional(e.summary);
      Some(Article(
        NormalizeWhitespace(title.value),
        ExtractAuthors(e.authorNames),
        NormalizeWhitespace(summary),
        link.value,
        OptionalText(e.published),
        ExtractPdfLink(e.links),
        ArxivTag))
  }

  /** A parsed title or summary is in normal form and keeps every
      non-whitespace character of the feed's text, in order; it is empty
      exactly when the feed's text is blank. */
  lemma ParsedTextIsNormalized(e: Entry)
    requires ParseEntry(e).Some?
    ensures Normalized(ParseEntry(e).value.title)
    ensures NonSpace(ParseEntry(e).value.title) == NonSpace(e.title.value)
    ensures ParseEntry(e).value.title == "" <==> IsBlank(e.title.value)
    ensures Normalized(ParseEntry(e).value.summary)
    ensures NonSpace(ParseEntry(e).value.summary) == NonSpace(e.summary.GetOr(""))
  {
    NormalizeWhitespaceSpec(e.title.value);
    NormalizeWhitespaceSpec(e.summary.GetOr(""));
  }

  /** `_parse_xml`: the articles of the entries that parse, in document
      order, each tagged as coming from arXiv. */
  function ParseEntries(entries: seq<Entry>): (r: seq<Article>)
    ensures |r| <= |entries|
    ensures forall a :: a in r ==> a.metadata == ArxivTag
  {
    var r := FilterMap(entries, ParseEntry);
    FilterMapSources(entries, ParseEntry);
    r
  }

  /** Parsing distributes over the entries of a feed. */
  lemma ParseEntriesAppend(xs: seq<Entry>, ys: seq<Entry>)
    ensures ParseEntries(xs + ys) == ParseEntries(xs) + ParseEntries(ys)
  {
    FilterMapAppend(xs, ys, ParseEntry);
  }

  predicate Complete(e: Entry) {
    e.title.Some? && e.id.Some?
  }

  /** Exactly the entries with a title and an id become articles, each the
      parse of its own entry. */
  lemma ParseEntriesKeepsComplete(entries: seq<Entry>)
    ensures |ParseEntries(entries)| == |Filter(entries, Complete)|
    ensures forall k :: 0 <= k < |ParseEntries(entries)| ==>
              ParseEntry(Filter(entries, Complete)[k]) == Some(ParseEntries(entries)[k])
  {
    FilterMapOfFilter(entries, ParseEntry, Complete);
  }

  /** The cut-off instant: `days` days before `now`. */
  function Cutoff(now: int, days: int): int {
    now - days * SecondsPerDay
  }

  /** An article survives the date filter when its date is present, parses
      to an aware instant, and is not before the cut-off. */
  predicate Recent(a: Article, cutoff: int, parse: string -> ParsedDate) {
    a.publishedDate != "" && parse(a.publishedDate).Aware? && parse(a.publishedDate).seconds >= cutoff
  }

  function RecentAfter(cutoff: int, parse: string -> ParsedDate): Article -> bool {
    a => Recent(a, cutoff, parse)
  }

  /** Comparing a time-zone-less date with the aware cut-off raises a
      TypeError, which the filter does not catch. */
  predicate Crashes(a: Article, parse: string -> ParsedDate) {
    a.publishedDate != "" && parse(a.publishedDate).Naive?
  }

  /** Some article of the list carries a date without a time zone. */
  predicate AnyCrash(articles: seq<Article>, parse: string -> ParsedDate) {
    exists k :: 0 <= k < |articles| && Crashes(articles[k], parse)
  }

  /** `_filter_by_date`: keeps, in order, the articles published at or
      after the cut-off; articles without a date or with an unparseable one
      are skipped. A date without a time zone stops the whole call. */
  method FilterByDate(articles: seq<Article>, days: int, now: int, parse: string -> ParsedDate)
    returns (r: Result<seq<Article>, Crash>)
    ensures r.Failure? <==> AnyCrash(articles, parse)
    ensures r.Failure? ==> r.error == NaiveAwareComparison
    ensures r.Success? ==> r.value == Filter(articles, RecentAfter(Cutoff(now, days), parse))
  {
    var cutoff := Cutoff(now, days);
    var keep := RecentAfter(cutoff, parse);
    var filtered := [];
    var i := 0;
    while i < |articles|
      invariant 0 <= i <= |articles|
      invariant filtered == Filter(articles[..i], keep)
      invariant forall k :: 0 <= k < i ==> !Crashes(articles[k], parse)
    {
      var a := articles[i];
      assert articles[..i + 1] == articles[..i] + [a];
      FilterAppend(articles[..i], [a], keep);
      if a.publishedDate != "" {
        var parsed := parse(a.publishedDate);
        if parsed.Naive? {
          return Failure(NaiveAwareComparison);
        }
        if parsed.Aware? && parsed.seconds >= cutoff {
          filtered := filtered + [a];
        }
      }
      i := i + 1;
    }
    assert articles[..i] == articles;
    return Success(filtered);
  }

  /** The date filter never reorders or invents articles, and keeps exactly
      the recent ones. */
  lemma FilterByDateSpec(articles: seq<Article>, cutoff: int, parse: string -> ParsedDate)
    ensures Subsequence(Filter(articles, RecentAfter(cutoff, parse)), articles)
    ensures forall a :: a in Filter(articles, RecentAfter(cutoff, parse))
                        <==> a in articles && Recent(a, cutoff, parse)
  {
    FilterSpec(articles, RecentAfter(cutoff, parse));
  }

  /** `fetch_articles`: a request error yields no articles; a malformed
      feed raises; otherwise the feed's articles, date-filtered when a
      number of days is given. */
  method FetchArticles(response: Response, days: Option<int>, now: int, parse: string -> ParsedDate)
    returns (r: Result<seq<Article>, Crash>)
    ensures response.RequestError? ==> r == Success([])
    ensures response.Malformed? ==> r == Failure(XmlParseError)
    ensures response.Feed? && days.None? ==> r == Success(ParseEntries(response.entries))
    ensures response.Feed? && days.Some? && r.Success? ==>
              r.value == Filter(ParseEntries(response.entries), RecentAfter(Cutoff(now, days.value), parse))
    ensures response.Feed? && days.Some? ==>
              (r.Failure? <==> exists a :: a in ParseEntries(response.entries) && Crashes(a, parse))
    ensures response.Feed? && r.Failure? ==> r.error == NaiveAwareComparison
  {
    match response
    case RequestError =>
      return Success([]);
    case Malformed =>
      return Failure(XmlParseError);
    case Feed(entries) =>
      var articles := ParseEntries(entries);
      if days.None? {
        return Success(articles);
      }
      r := FilterByDate(articles, days.value, now, parse);
  }
}
