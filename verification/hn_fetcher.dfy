/** Fetching top stories from Hacker News (ml_subscriber/core/hn_fetcher.py).
    The HTTP requests, the clock and `time.strftime`/`time.gmtime` are
    outside the model: the fetcher receives the top-stories list (or nothing
    when that request fails), a function giving each item's JSON object (or
    nothing when its request fails or the item is `null`), the current time,
    and the UTC date formatter. */
module HnFetcher {
  import opened Wrappers
  import opened Text
  import opened Seqs
  import opened Models

  const SecondsPerDay: int := 24 * 60 * 60
  const DefaultMaxAgeDays: int := 7
  const DiscussionPrefix: string := "https://news.ycombinator.com/item?id="
  const NoTitle: string := "(no title)"
  const DefaultSummary: string := "Hacker News story"
  const UnknownAuthor: string := "Unknown"

  /** The fields of a Hacker News item the fetcher reads; each is `None`
      when the key is absent. */
  datatype Item = Item(
    kind: Option<string>,
    title: Option<string>,
    text: Option<string>,
    url: Option<string>,
    author: Option<string>,
    time: Option<int>,
    score: Option<int>,
    descendants: Option<int>)

  /** `HackerNewsFetcher(max_item_age_days)`: the age limit in seconds. */
  datatype Fetcher = Fetcher(maxItemAgeSeconds: int)

  function NewFetcher(maxItemAgeDays: int := DefaultMaxAgeDays): (f: Fetcher)
    ensures maxItemAgeDays > 0 <==> f.maxItemAgeSeconds > 0
    ensures f.maxItemAgeSeconds == maxItemAgeDays * 86400
  {
    Fetcher(maxItemAgeDays * SecondsPerDay)
  }

  /** `value or default` for a JSON string field: absent and empty both give
      the default. */
  function OrDefault(value: Option<string>, fallback: string): string {
    if value.Some? && value.value != "" then value.value else fallback
  }

  /** The item's discussion page, used when a story has no URL. */
  function DiscussionUrl(itemId: int): (u: string)
    ensures StartsWith(u, DiscussionPrefix)
    ensures ParseInt(u[|DiscussionPrefix|..]) == Some(itemId)
  {
    var u := DiscussionPrefix + IntToString(itemId);
    IntToStringRoundTrip(itemId);
    assert u[..|DiscussionPrefix|] == DiscussionPrefix;
    assert u[|DiscussionPrefix|..] == IntToString(itemId);
    u
  }

  /** Different items have different discussion pages. */
  lemma DiscussionUrlInjective(a: int, b: int)
    requires DiscussionUrl(a) == DiscussionUrl(b)
    ensures a == b
  {
  }

  /** `_fetch_story`: only items of type "story" become articles. A
      missing or empty title, text, URL or author is replaced by its
      default ("(no title)", "Hacker News story", the item's discussion page,
      "Unknown"), so none of them is ever empty; the URL is also the
      article's link and its `hn_url`; a missing or zero time leaves the
      publication date empty, and any other time is formatted as UTC. */
  function FetchStory(itemId: int, data: Option<Item>, formatUtc: int -> string): (r: Option<Article>)
    ensures r.None? <==> data.None? || data.value.kind != Some("story")
    ensures r.Some? ==> r.value == StoryArticle(itemId, data.value, formatUtc)
  {
    if data.None? || data.value.kind != Some("story") then None
    else Some(StoryArticle(itemId, data.value, formatUtc))
  }

  /** The article `_fetch_story` builds from a story's fields. */
  function StoryArticle(itemId: int, d: Item, formatUtc: int -> string): (a: Article)
    ensures d.title.Some? && d.title.value != "" ==> a.title == d.title.value
    ensures d.title.None? || d.title.value == "" ==> a.title == NoTitle
    ensures d.text.Some? && d.text.value != "" ==> a.summary == d.text.value
    ensures d.text.None? || d.text.value == "" ==> a.summary == DefaultSummary
    ensures d.url.Some? && d.url.value != "" ==> a.link == d.url.value
    ensures d.url.None? || d.url.value == "" ==> a.link == DiscussionUrl(itemId)
    ensures d.author.Some? && d.author.value != "" ==> a.authors == [d.author.value]
    ensures d.author.None? || d.author.value == "" ==> a.authors == [UnknownAuthor]
    ensures a.title != "" && a.summary != "" && a.link != "" && |a.authors| == 1 && a.authors[0] != ""
    ensures a.pdfLink == ""
    ensures d.time.GetOr(0) == 0 ==> a.publishedDate == ""
    ensures d.time.GetOr(0) != 0 ==> a.publishedDate == formatUtc(d.time.value)
    ensures a.metadata == StoryMetadata(itemId, d.score.GetOr(0), d.descendants.GetOr(0), d.time.GetOr(0), a.link)
    ensures HnMetadata(a.metadata)
  {
    var url := OrDefault(d.url, DiscussionUrl(itemId));
    var timestamp := d.time.GetOr(0);
    var published := if timestamp != 0 then formatUtc(timestamp) else "";
    var author := OrDefault(d.author, UnknownAuthor);
    Article(
      OrDefault(d.title, NoTitle),
      [author],
      OrDefault(d.text, DefaultSummary),
      url,
      published,
      "",
      StoryMetadata(itemId, d.score.GetOr(0), d.descendants.GetOr(0), timestamp, url))
  }

  /** The metadata `_fetch_story` attaches: the source tag and the item's
      id, score, comment count, timestamp and URL. */
  function StoryMetadata(itemId: int, score: int, descendants: int, timestamp: int, url: string)
    : (m: map<string, MetaValue>)
    ensures HnMetadata(m)
    ensures m["hn_id"] == MInt(itemId) && m["hn_score"] == MInt(score)
    ensures m["hn_descendants"] == MInt(descendants)
    ensures m["hn_timestamp"] == MInt(timestamp) && m["hn_url"] == MStr(url)
  {
    map[
      "source" := MStr("hn"),
      "hn_id" := MInt(itemId),
      "hn_score" := MInt(score),
      "hn_descendants" := MInt(descendants),
      "hn_timestamp" := MInt(timestamp),
      "hn_url" := MStr(url)]
  }

  /** The metadata every Hacker News article carries. */
  predicate HnMetadata(m: map<string, MetaValue>) {
    && "source" in m && m["source"] == MStr("hn")
    && "hn_id" in m && m["hn_id"].MInt?
    && "hn_score" in m && m["hn_score"].MInt?
    && "hn_descendants" in m && m["hn_descendants"].MInt?
    && "hn_timestamp" in m && m["hn_timestamp"].MInt?
    && "hn_url" in m && m["hn_url"].MStr?
  }

  function Timestamp(a: Article): int {
    if "hn_timestamp" in a.metadata && a.metadata["hn_timestamp"].MInt? then a.metadata["hn_timestamp"].num else 0
  }

  /** The age check of `fetch_articles`: a story is dropped when an age
      limit is configured, its timestamp is known (non-zero) and it is
      strictly older than the limit. */
  predicate TooOld(f: Fetcher, a: Article, now: real) {
    f.maxItemAgeSeconds > 0 && Timestamp(a) != 0
    && now - (Timestamp(a) as real) > (f.maxItemAgeSeconds as real)
  }

  /** The article one id contributes: its story, unless the fetch failed,
      the item is not a story, or the story is too old. */
  function Kept(f: Fetcher, itemId: int, data: Option<Item>, now: real, formatUtc: int -> string): Option<Article> {
    match FetchStory(itemId, data, formatUtc)
    case Some(a) => if TooOld(f, a, now) then None else Some(a)
    case None => None
  }

  /** The per-id step of `fetch_articles` as a function of the id. */
  function StoryStep(f: Fetcher, items: int -> Option<Item>, now: real, formatUtc: int -> string): int -> Option<Article> {
    id => Kept(f, id, items(id), now, formatUtc)
  }

  /** The articles the fetcher would keep from these ids if there were no
      limit on their number: the stories that can be fetched and are not too
      old, in id order. */
  function Candidates(f: Fetcher, ids: seq<int>, items: int -> Option<Item>,
                      now: real, formatUtc: int -> string): seq<Article> {
    FilterMap(ids, StoryStep(f, items, now, formatUtc))
  }

  /** Every candidate is a story fetched for one of the ids, carries the
      Hacker News metadata and is not too old. */
  lemma CandidatesAreFreshStories(f: Fetcher, ids: seq<int>, items: int -> Option<Item>,
                                  now: real, formatUtc: int -> string)
    ensures forall a :: a in Candidates(f, ids, items, now, formatUtc) ==>
              !TooOld(f, a, now) && HnMetadata(a.metadata)
              && exists k :: 0 <= k < |ids| && FetchStory(ids[k], items(ids[k]), formatUtc) == Some(a)
  {
    var step := StoryStep(f, items, now, formatUtc);
    FilterMapSources(ids, step);
    forall a | a in Candidates(f, ids, items, now, formatUtc)
      ensures !TooOld(f, a, now) && HnMetadata(a.metadata)
      ensures exists k :: 0 <= k < |ids| && FetchStory(ids[k], items(ids[k]), formatUtc) == Some(a)
    {
      var k :| 0 <= k < |ids| && step(ids[k]) == Some(a);
      assert Kept(f, ids[k], items(ids[k]), now, formatUtc) == Some(a);
    }
  }

  /** Fetching each id's story, as a function of the id. */
  function FetchStep(items: int -> Option<Item>, formatUtc: int -> string): int -> Option<Article> {
    id => FetchStory(id, items(id), formatUtc)
  }

  /** The age check as a filter predicate. */
  function Fresh(f: Fetcher, now: real): Article -> bool {
    a => !TooOld(f, a, now)
  }

  /** The age filter over what the fetcher returns: the candidates are the
      fetched stories, in id order, with exactly the too-old ones removed. */
  lemma {:induction false} CandidatesAreFreshFetches(f: Fetcher, ids: seq<int>, items: int -> Option<Item>,
                                                     now: real, formatUtc: int -> string)
    ensures Candidates(f, ids, items, now, formatUtc)
            == Filter(FilterMap(ids, FetchStep(items, formatUtc)), Fresh(f, now))
    ensures forall a :: a in Candidates(f, ids, items, now, formatUtc)
              <==> a in FilterMap(ids, FetchStep(items, formatUtc)) && !TooOld(f, a, now)
    decreases |ids|
  {
    var fetch, young := FetchStep(items, formatUtc), Fresh(f, now);
    if |ids| > 0 {
      CandidatesAreFreshFetches(f, ids[1..], items, now, formatUtc);
      var rest := FilterMap(ids[1..], fetch);
      match fetch(ids[0])
      case Some(a) =>
        assert FilterMap(ids, fetch) == [a] + rest;
        assert ([a] + rest)[1..] == rest;
      case None =>
    }
    FilterSpec(FilterMap(ids, fetch), young);
  }

  /** Without an age limit (zero days, as `NewFetcher(0)` gives) no story
      is dropped for its age: the candidates are all fetched stories. */
  lemma NoAgeLimitKeepsEveryStory(f: Fetcher, ids: seq<int>, items: int -> Option<Item>,
                                  now: real, formatUtc: int -> string)
    requires f.maxItemAgeSeconds <= 0
    ensures Candidates(f, ids, items, now, formatUtc) == FilterMap(ids, FetchStep(items, formatUtc))
  {
  }

  /** A single fresh story among the ids is fetched as the article its
      fields describe, and nothing else is. */
  lemma OneFreshStory(f: Fetcher, itemId: int, items: int -> Option<Item>, now: real, formatUtc: int -> string)
    requires items(itemId).Some? && items(itemId).value.kind == Some("story")
    requires !TooOld(f, StoryArticle(itemId, items(itemId).value, formatUtc), now)
    ensures Candidates(f, [itemId], items, now, formatUtc) == [StoryArticle(itemId, items(itemId).value, formatUtc)]
  {
  }

  function NonNegative(n: int): nat {
    if n < 0 then 0 else n
  }

  /** The loop of `fetch_articles`: the ids are handled in turn by the
      per-id step until `maxResults` articles are collected; `requested`
      lists the ids handled, so no request is made once the limit is
      reached. */
  method CollectStories(ids: seq<int>, maxResults: int, step: int -> Option<Article>)
    returns (articles: seq<Article>, requested: seq<int>)
    ensures |requested| <= |ids| && requested == ids[..|requested|]
    ensures articles == FilterMap(requested, step)
    ensures |articles| <= NonNegative(maxResults)
    ensures |requested| < |ids| ==> |articles| == NonNegative(maxResults)
    ensures |requested| > 0 ==> |FilterMap(requested[..|requested| - 1], step)| < NonNegative(maxResults)
  {
    articles := [];
    requested := [];
    var i := 0;
    while i < |ids|
      invariant 0 <= i <= |ids|
      invariant requested == ids[..i]
      invariant articles == FilterMap(requested, step)
      invariant |articles| <= NonNegative(maxResults)
      invariant i > 0 ==> |FilterMap(requested[..i - 1], step)| < NonNegative(maxResults)
    {
      if |articles| >= maxResults {
        break;
      }
      var id := ids[i];
      FilterMapSnoc(ids, i, step);
      assert (requested + [id])[..i] == requested;
      requested := requested + [id];
      var kept := step(id);
      if kept.Some? {
        articles := articles + [kept.value];
      }
      i := i + 1;
    }
  }

  /** `fetch_articles`: takes the first `2 * max_results` top-story ids and
      walks them in order, fetching each story, skipping failed, non-story
      and too-old items, and stopping as soon as `max_results` articles are
      collected. The result is the leading `max_results` candidates;
      `requested` lists the item ids actually fetched. */
  method FetchArticles(f: Fetcher, maxResults: int, topStories: Option<seq<int>>,
                       items: int -> Option<Item>, now: real, formatUtc: int -> string)
    returns (articles: seq<Article>, requested: seq<int>)
    ensures topStories.None? ==> articles == [] && requested == []
    ensures |articles| <= NonNegative(maxResults)
    ensures topStories.Some? ==>
              var ids := PyPrefix(topStories.value, maxResults * 2);
              var all := Candidates(f, ids, items, now, formatUtc);
              && articles == all[..if |all| < NonNegative(maxResults) then |all| else NonNegative(maxResults)]
              && |requested| <= |ids| && requested == ids[..|requested|]
              && (|requested| < |ids| ==> |articles| == NonNegative(maxResults))
              && (|requested| > 0 ==>
                    |Candidates(f, requested[..|requested| - 1], items, now, formatUtc)| < NonNegative(maxResults))
  {
    if topStories.None? {
      return [], [];
    }
    var ids := PyPrefix(topStories.value, maxResults * 2);
    var step := StoryStep(f, items, now, formatUtc);
    articles, requested := CollectStories(ids, maxResults, step);
    FilterMapPrefix(ids, |requested|, step);
    assert |requested| == |ids| ==> requested == ids;
    if |requested| > 0 {
      var before := requested[..|requested| - 1];
      assert Candidates(f, before, items, now, formatUtc) == FilterMap(before, step);
    }
  }

  /** The age filter in its own words: a fetched story with a known
      timestamp, under a configured age limit, is kept exactly when it is at
      most the limit old; without a limit, or without a timestamp, it is
      always kept. */
  lemma AgeFilter(f: Fetcher, ids: seq<int>, items: int -> Option<Item>, now: real, formatUtc: int -> string,
                  a: Article)
    requires a in FilterMap(ids, FetchStep(items, formatUtc))
    ensures f.maxItemAgeSeconds > 0 && Timestamp(a) != 0 ==>
              (a in Candidates(f, ids, items, now, formatUtc)
               <==> now - (f.maxItemAgeSeconds as real) <= (Timestamp(a) as real))
    ensures f.maxItemAgeSeconds <= 0 || Timestamp(a) == 0 ==> a in Candidates(f, ids, items, now, formatUtc)
  {
    CandidatesAreFreshFetches(f, ids, items, now, formatUtc);
  }
}
