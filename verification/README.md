# LLM-NewsLetter core in Dafny

This project models the core of LLM-NewsLetter, a command-line tool with four parts:

- It fetches recent machine-learning papers from arXiv (the `cat:cs.LG` category), or top stories from Hacker News.
- It stores them and renders them as an HTML page.
- It sends them to a Telegram chat, or fans them out to every configured notification channel.
- It optionally translates text through DeepL.

The model is a set of pure functions and small methods over immutable values:

| module | file | models |
|---|---|---|
| `Wrappers` | `wrappers.dfy` | `Option` and `Result` |
| `Seqs` | `seqs.dfy` | order-preserving filtering, subsequences, Python's `s[:n]` slice |
| `Text` | `text.dfy` | Python's `str.isspace`, `strip`, `split()`, `" ".join`, `str(int)` |
| `Models` | `models.dfy` | the `Article` record and the shared authors line |
| `HtmlEscape` | `html_escape.dfy` | `html.escape` (with `quote=True`) and its inverse |
| `Notification` | `notification.dfy` | the Telegram notifier: heading choice, message layout, the POST it makes |
| `Translator` | `translator.dfy` | the DeepL and no-op translators and their factory |
| `Visualization` | `visualization.dfy` | the HTML page generator |
| `ArxivFetcher` | `arxiv_fetcher.dfy` | reading Atom entries into articles, and the day-window filter |
| `HnFetcher` | `hn_fetcher.dfy` | mapping Hacker News items to articles, and the bounded, age-filtered walk over top stories |
| `Dispatch` | `dispatch.dfy` | `main.py`: choosing channels, building the fetch request, limiting, broadcasting, and the `--fetch` / `--visualize` / `--notify` control flow |

The outside world becomes explicit inputs and outputs:

- **arXiv HTTP request and XML parsing.** The arXiv fetcher receives a `Response`: a request error, a body that is not well-formed XML, or the Atom entries already read from the feed. Each entry is given as the text of its elements and the attributes of its links.
- **`datetime.fromisoformat`.** The date parser is a function parameter. It returns `Invalid` for a `ValueError`, `Naive` for a date without a time zone, or `Aware(seconds)`.
- **Clocks.** `datetime.now` is a parameter `now` in whole seconds. `time.time()` is a `real` parameter.
- **Hacker News requests.**
  - The top-stories request is an `Option<seq<int>>`; `None` means the request failed.
  - Each item request is a function `int -> Option<Item>`; `None` means the request failed or the item is JSON `null`.
  - `time.strftime(..., time.gmtime(t))` is a function parameter `formatUtc`.
- **Telegram POST.** It is returned as a `Post` value: URL, chat id, text and parse mode. It is not performed.
- **DeepL service.** It is a function parameter from a `Request` to either the translated text or an error. The translator returns the service calls it made alongside its text.
- **Environment and arguments.** `os.environ` is an `Env` record and the parsed command line is an `Args` record.
- **JSON store.** It is a sequence of articles threaded through `Dispatch.Run`. What the fetcher returns for the request is an input `fetched`: the articles, or the exception the arXiv fetcher raises.
- **Webhook notifier.** Its constructor may reject a URL with `ValueError`; this is the predicate `accepts`.
- **Sends.** Every `notifier.send(articles)` call is recorded as a `Delivery`.

### Where the code, its tests and its callers disagree

The model follows the code in each case below.

- **Untagged article heading.** `tests/test_notification.py:21-35` builds an article with no metadata and expects the arXiv heading. `_infer_source` (`ml_subscriber/core/notification.py:56-59`) falls back to `"unknown"` for such an article, so the generic "New Articles" heading is sent. `Notification.UntaggedArticleGetsGenericHeading` states this. `Notification.SendPlainArxivArticle` states what the test expects, for an article that does carry the `arxiv` tag.
- **Page title.** `tests/test_visualization.py:38` and `:52` expect `<h1>ArXiv Articles</h1>`. `ml_subscriber/core/visualization.py:16-17` writes "ML/DL Articles", and so does the model.
- **Constructor arguments.** `main.py:13` imports a `WebhookNotifier` that `ml_subscriber/core/notification.py` does not define. `main.py:151-157` also passes `translator`, `style` and `message_format` to `TelegramNotifier`, which accepts only a bot token and a chat id. The model keeps `main.py`'s control flow and the Telegram notifier as written. The styles and message formats those arguments select have no code here and are not modelled.
- **Translator factory.** `main.py:123-134` calls `create_translator(deepl_api_key=...)` and `create_translator(use_free=...)`. The factory (`ml_subscriber/core/translator.py:72-85`) takes `api_key` and `target_lang`, and the model follows the factory. `tests/test_translator.py` imports a `GoogleFreeTranslator` that the module does not define.
- **Dates without a time zone.** An arXiv date without a time zone is compared with the aware cut-off in `_filter_by_date`, which raises a `TypeError`. Only `ValueError` is caught there (`ml_subscriber/core/arxiv_fetcher.py:76-82`), and only `RequestException` in `fetch_articles`. The model therefore returns `Failure(NaiveAwareComparison)` for the whole fetch rather than skipping the article.
- **`--fetch` with `--notify`.** The fetch step skips its own notification, and the notify step sends every stored article. So `--limit` has no effect on that path (`Dispatch.FetchAndNotifySendOnce`).
- **Reminder sends nothing to Telegram.** The "no articles" reminder calls `send([])`, and the Telegram notifier returns early on an empty list. So the reminder never posts to Telegram (`Dispatch.ReminderPostsNothingToTelegram`).

## Model

| member | source | states |
|---|---|---|
| `Text.StripEmptyIffBlank` | ml_subscriber/core/translator.py:50-51 | `strip()` gives the empty text exactly when the text is empty or all whitespace, so the translator's two tests `not text` / `not text.strip()` are one blankness test |
| `Text.SplitJoin` | ml_subscriber/core/arxiv_fetcher.py:132-134 | splitting a single-space join of whitespace-free, non-empty words gives back exactly those words |
| `Text.NormalizeWhitespaceSpec` | ml_subscriber/core/arxiv_fetcher.py:132-134 | collapsing whitespace yields text with no leading, trailing or doubled separator and no other whitespace, keeps every non-whitespace character in order, and is empty exactly for blank input |
| `Text.NormalizeWhitespaceIdempotent` | ml_subscriber/core/arxiv_fetcher.py:132-134 | collapsing whitespace twice is the same as once |
| `Text.NormalizeIgnoresOuterSpace` | ml_subscriber/core/arxiv_fetcher.py:145-152 | collapsing after `strip()` is the same as collapsing the raw text, so stripping before normalising changes nothing |
| `Text.IntToStringRoundTrip` | ml_subscriber/core/hn_fetcher.py:72 | the decimal text of an item id (with a minus sign when negative) reads back as the same integer |
| `Seqs.PyPrefix` | main.py:108 | `s[:n]` is a prefix of `s`, of length `min(n, len(s))` for `n >= 0` and of `max(len(s) + n, 0)` for negative `n` |
| `Seqs.FilterMapAppend` | ml_subscriber/core/hn_fetcher.py:33-54 | ids (or feed entries) are handled in order and independently: the articles of two runs are those of the first followed by those of the second |
| `Seqs.FilterMapSnoc` | ml_subscriber/core/hn_fetcher.py:37-54 | handling one more id appends at most that id's article, at the end |
| `Seqs.FilterMapPrefix` | ml_subscriber/core/hn_fetcher.py:33-35 | stopping early yields a prefix of what walking every id would yield |
| `Seqs.FilterMapSources` | ml_subscriber/core/arxiv_fetcher.py:176-179 | every article collected is the one produced for some input element |
| `Seqs.FilterMapOfFilter` | ml_subscriber/core/arxiv_fetcher.py:176-179 | when an element yields an article exactly if it satisfies a test, the articles line up one-to-one, in order, with the elements that pass the test |
| `Seqs.FilterSpec` | ml_subscriber/core/arxiv_fetcher.py:71-84 | an order-preserving filter keeps a subsequence holding exactly the elements that satisfy the predicate |
| `Models.AuthorsTextSpec` | ml_subscriber/core/notification.py:50 | the authors line is "Unknown" for no authors, the single name for one, and grows by ", " and the next name in order |
| `HtmlEscape.Escape` | ml_subscriber/core/notification.py:37-39 | escaped text contains none of `<`, `>`, `"`, `'`, is no shorter than the input, and text free of `& < > " '` is unchanged |
| `HtmlEscape.EscapeOpensEntities` | ml_subscriber/core/notification.py:37-39 | every `&` in escaped text opens one of the five entities `html.escape` produces |
| `HtmlEscape.UnescapeEscape` | ml_subscriber/core/notification.py:37-39 | unescaping escaped text gives back the original |
| `HtmlEscape.EscapeInjective` | ml_subscriber/core/notification.py:37-39 | different texts escape to different texts |
| `Notification.ApiUrl` | ml_subscriber/core/notification.py:20-22 | the endpoint is the Bot API prefix, the token, then `/sendMessage`, and the token can be read back from between them |
| `Notification.ApiUrlInjective` | ml_subscriber/core/notification.py:22 | different bot tokens give different Bot API endpoints |
| `Notification.HeadingSelection` | ml_subscriber/core/notification.py:56-66 | the Hacker News heading exactly when the first article's source is "hn", the arXiv heading exactly when it is "arxiv", the generic heading otherwise (empty list and missing tag included) |
| `Notification.Send` | ml_subscriber/core/notification.py:24-35 | nothing is posted exactly when the list is empty; otherwise one POST to the token's endpoint with the chat id, parse mode "HTML" and, as text, the formatted message: heading, blank line, then the article blocks |
| `Notification.PostedMessageReadsBack` | ml_subscriber/core/notification.py:24-81 | the posted text parses back to the heading and to every article's link, title and authors, in order, for links free of `"` |
| `Notification.MessageRoundTrip` | ml_subscriber/core/notification.py:41-54 | the message reads back as its heading followed by one block per article, in order, each with the article's link, title and authors line (titles and authors unescaped), provided links contain no `"` |
| `Notification.MessageLayout` | ml_subscriber/core/notification.py:45-47 | the message opens with the chosen heading and a blank line, and the article blocks fill the rest |
| `Notification.MessageIgnoresOtherFields` | ml_subscriber/core/notification.py:48-53 | articles that agree on title, authors and link (and on the first source tag) give the same message: summaries, dates, PDF links and other metadata never show |
| `Notification.BlocksAppend` | ml_subscriber/core/notification.py:48-53 | the block of an appended article is appended after the existing blocks |
| `Notification.MessageAppend` | ml_subscriber/core/notification.py:41-54 | appending an article to a non-empty list keeps the heading and earlier blocks and adds exactly its block at the end |
| `Notification.PlainBlock` | ml_subscriber/core/notification.py:49-53 | a title and authors line without characters to escape appear verbatim in the block |
| `Notification.SendPlainArxivArticle` | ml_subscriber/core/notification.py:24-81 | one arXiv-tagged article with plain title and authors gives exactly one POST to the token's endpoint carrying the chat id, the arXiv heading, a blank line, the linked bold title line and the italic authors line, in HTML mode |
| `Notification.UntaggedArticleGetsGenericHeading` | ml_subscriber/core/notification.py:56-66 | an article without a source tag gets the generic heading, not the arXiv one |
| `Translator.Translate` | ml_subscriber/core/translator.py:40-69 | no service call exactly for the no-op translator or blank text, and then the text comes back unchanged; otherwise exactly one call with the text and the target language, answering the service's text on success and the original text on a DeepL error |
| `Translator.CreateTranslator` | ml_subscriber/core/translator.py:72-85 | a DeepL translator exactly when the API key is present and non-empty, holding that key and the target language; the no-op translator otherwise |
| `Translator.TranslateDependsOnlyOnRequest` | ml_subscriber/core/translator.py:50-61 | two services that agree on the one request made give the same outcome |
| `Translator.NoKeyMeansIdentity` | ml_subscriber/core/translator.py:64-85 | without an API key, translation returns every text unchanged and calls nothing |
| `Translator.FailingServiceKeepsText` | ml_subscriber/core/translator.py:53-61 | a service that always fails never changes the text |
| `Visualization.GenerateHtml` | ml_subscriber/core/visualization.py:16-26 | the page opens with the "ML/DL Articles" header and ends with the closing tags |
| `Visualization.SectionsAppend` | ml_subscriber/core/visualization.py:18-25 | each article contributes its own section in list order: the sections of a concatenation are the concatenated sections |
| `Visualization.EmptyPage` | ml_subscriber/core/visualization.py:16-26 | with no articles the page is header and footer only, and contains no `<h2>` |
| `Visualization.NoReadMoreWithoutPdf` | ml_subscriber/core/visualization.py:16-26 | when no article has a PDF link (and no title, authors line or summary contains an apostrophe), no "Read More" paragraph for any link occurs anywhere in the page; with `Visualization.ArticleOnPage` the paragraph appears exactly for the articles that have a link |
| `Visualization.PageIgnoresOtherFields` | ml_subscriber/core/visualization.py:18-25 | only title, authors, summary and PDF link reach the page: articles differing elsewhere give the same page |
| `Visualization.ArticleOnPage` | ml_subscriber/core/visualization.py:18-25 | every article's title heading, authors line, summary paragraph and (with a PDF link) "Read More" paragraph occur in the page |
| `ArxivFetcher.RequiredText` | ml_subscriber/core/arxiv_fetcher.py:95-100 | missing text gives nothing; present text is stripped |
| `ArxivFetcher.OptionalText` | ml_subscriber/core/arxiv_fetcher.py:102-114 | missing text gives the empty text; present text is stripped |
| `ArxivFetcher.ExtractAuthors` | ml_subscriber/core/arxiv_fetcher.py:116-123 | at most one name per author, each non-empty and taken from the feed |
| `ArxivFetcher.ExtractAuthorsAppend` | ml_subscriber/core/arxiv_fetcher.py:116-123 | author names are read in document order |
| `ArxivFetcher.ExtractAuthorsAllNamed` | ml_subscriber/core/arxiv_fetcher.py:119-122 | when every author has a non-empty name, all names are kept unchanged and in order |
| `ArxivFetcher.ExtractPdfLink` | ml_subscriber/core/arxiv_fetcher.py:125-130 | the `href` of the first link titled "pdf" (empty when it has none), and the empty text when no link is titled "pdf" |
| `ArxivFetcher.ParseEntry` | ml_subscriber/core/arxiv_fetcher.py:136-162 | an entry is skipped exactly when its title or id is missing; otherwise the article holds the normalised title and summary, the stripped id as link, the stripped date, the authors, the PDF link and the arXiv source tag |
| `ArxivFetcher.ParsedTextIsNormalized` | ml_subscriber/core/arxiv_fetcher.py:150-152 | parsed titles and summaries are in normal form, keep every non-whitespace character of the feed in order, and a title is empty exactly when the feed's is blank |
| `ArxivFetcher.ParseEntries` | ml_subscriber/core/arxiv_fetcher.py:174-180 | at most one article per entry, every one tagged as coming from arXiv |
| `ArxivFetcher.ParseEntriesAppend` | ml_subscriber/core/arxiv_fetcher.py:176-179 | entries are parsed in document order, independently of each other |
| `ArxivFetcher.ParseEntriesKeepsComplete` | ml_subscriber/core/arxiv_fetcher.py:164-180 | exactly the entries with a title and an id become articles, each the parse of its own entry, in order |
| `ArxivFetcher.FilterByDate` | ml_subscriber/core/arxiv_fetcher.py:59-89 | fails exactly when some dated article parses to a zone-less date; otherwise keeps, in order, exactly the articles whose date parses to an instant at or after `now - days` days |
| `ArxivFetcher.FilterByDateSpec` | ml_subscriber/core/arxiv_fetcher.py:70-84 | the date filter keeps a subsequence of the articles holding exactly the recent ones |
| `ArxivFetcher.FetchArticles` | ml_subscriber/core/arxiv_fetcher.py:19-57 | a request error gives no articles; malformed XML raises the parse error; otherwise the parsed entries, date-filtered when a day window is given, failing with the naive/aware comparison error exactly when a parsed article has a zone-less date |
| `HnFetcher.NewFetcher` | ml_subscriber/core/hn_fetcher.py:18-19 | the age limit, 7 days by default, is the day count times 86400 seconds and is positive exactly when the day count is |
| `HnFetcher.DiscussionUrl` | ml_subscriber/core/hn_fetcher.py:72 | the fallback URL is the discussion-page prefix followed by text that reads back as the item id |
| `HnFetcher.DiscussionUrlInjective` | ml_subscriber/core/hn_fetcher.py:72 | different items get different discussion URLs |
| `HnFetcher.FetchStory` | ml_subscriber/core/hn_fetcher.py:58-94 | nothing exactly when the request fails or the item is not a story; otherwise the article built from the item's fields |
| `HnFetcher.StoryArticle` | ml_subscriber/core/hn_fetcher.py:68-94 | title, text, URL and author are the item's when present and non-empty, otherwise "(no title)", "Hacker News story", the discussion page and "Unknown"; the single author; no PDF link; an empty date for a missing or zero time and the UTC-formatted time otherwise; the metadata holds the id, score, comment count (0 when absent), timestamp and URL |
| `HnFetcher.OneFreshStory` | ml_subscriber/core/hn_fetcher.py:31-94 | an id list holding one fresh story yields exactly the article its fields describe |
| `HnFetcher.StoryMetadata` | ml_subscriber/core/hn_fetcher.py:77-84 | the metadata carries the "hn" source tag and the item's id, score, comment count, timestamp and URL under their keys |
| `HnFetcher.CandidatesAreFreshStories` | ml_subscriber/core/hn_fetcher.py:37-54 | every kept article is a story fetched for one of the ids, carries the Hacker News metadata and is not too old |
| `HnFetcher.CollectStories` | ml_subscriber/core/hn_fetcher.py:31-56 | ids are requested in order; each id is requested only while fewer than `max_results` articles are collected; the result is what the requested ids yield, at most `max_results`, and exactly `max_results` when the walk stops early |
| `HnFetcher.FetchArticles` | ml_subscriber/core/hn_fetcher.py:21-56 | a failed top-stories request gives nothing; otherwise the first `max_results` candidates among the first `2 * max_results` ids, requesting a prefix of those ids and no id once `max_results` articles are collected |
| `HnFetcher.CandidatesAreFreshFetches` | ml_subscriber/core/hn_fetcher.py:31-56 | the kept articles are the fetched stories, in id order, with exactly the too-old ones removed: an article is kept exactly when it is fetched and not too old |
| `HnFetcher.NoAgeLimitKeepsEveryStory` | ml_subscriber/core/hn_fetcher.py:18-52 | without an age limit (zero days) every fetched story is kept |
| `HnFetcher.AgeFilter` | ml_subscriber/core/hn_fetcher.py:41-54 | under a positive limit a fetched story with a known timestamp is kept exactly when it is at most the limit old; without a limit or a timestamp it is always kept |
| `Dispatch.GetWebhookUrl` | main.py:30-32 | a non-empty command-line URL wins over the environment's, and a URL is available exactly when either is non-empty |
| `Dispatch.ConfiguredNotifiers` | main.py:35-47 | "telegram" exactly when token and chat id are both non-empty, "webhook" exactly when a URL is given, nothing else, telegram first |
| `Dispatch.ResolveNotifiers` | main.py:50-56 | no channel for a missing choice, the configured channels for "all", the named channel alone otherwise |
| `Dispatch.BuildFetchRequest` | main.py:59-66 | the query is `cat:cs.LG` exactly for arXiv, the result count is always passed, and the day window only to arXiv and only when given |
| `Dispatch.LimitArticles` | main.py:106-113 | always a prefix of the articles: all without a limit, `min(limit, n)` for a non-negative limit, all but the last `-limit` for a negative one |
| `Dispatch.CreateNotifier` | main.py:137-175 | a Telegram notifier exactly when both credentials are non-empty, a webhook notifier exactly when a URL is given and accepted, none for any other kind |
| `Dispatch.SendNotification` | main.py:178-200 | one send of the articles to the created notifier, or none when no notifier can be created |
| `Dispatch.BroadcastAppend` | main.py:203-223 | broadcasting to two lists of channels is broadcasting to the first, then the second |
| `Dispatch.BroadcastOnePerChannel` | main.py:216-223 | when every channel can be created, exactly one send per channel, in order, each with the same articles |
| `Dispatch.BroadcastTargets` | main.py:216-223 | every send goes to a notifier created for one of the requested channels |
| `Dispatch.BroadcastIsFilterMap` | main.py:178-223 | a broadcast is the per-channel send mapped over the channels, dropping those without a notifier |
| `Dispatch.BroadcastReachesCreatable` | main.py:178-223 | every channel a notifier can be created for gets exactly one send of the articles, in order, and the other channels get none |
| `Dispatch.NotifyNoArticles` | main.py:76-95 | nothing when skipped; otherwise the broadcast of an empty article list to the resolved channels |
| `Dispatch.HandleFetch` | main.py:230-282 | nothing fetched leaves the store as it was and sends the reminder (unless skipped); otherwise the fetched articles replace the store and, unless skipped, the limited prefix is broadcast to the resolved channels |
| `Dispatch.HandleVisualize` | main.py:285-297 | a page exactly when the store is non-empty, and then the page of the stored articles |
| `Dispatch.HandleNotify` | main.py:300-325 | nothing without a channel choice or stored articles; otherwise all stored articles are broadcast to the resolved channels |
| `Dispatch.Run` | main.py:364-404 | nothing happens without `--fetch`, `--visualize` or `--notify`; with `--fetch` exactly the built fetch request; a fetch that raises ends the run with the store untouched, no page and no sends; the store changes only when something is fetched; with `--visualize` the page of the store the fetch left; the sends are the fetch step's followed by the notify step's |
| `Dispatch.FetchAndNotifySendOnce` | main.py:383-404 | with `--fetch --notify` the only sends are those of the notify step, carrying the whole store the fetch left |
| `Dispatch.FetchAloneSendsLimitedPrefix` | main.py:246-282 | with `--fetch` alone and articles fetched, `LimitArticles` of them goes exactly once to each resolved channel a notifier can be created for, in order, and nowhere else |
| `Dispatch.FetchNothingSendsReminder` | main.py:246-258 | with `--fetch` alone and nothing fetched, the store is untouched and an empty reminder goes exactly once to each resolved channel a notifier can be created for |
| `Dispatch.NotifySendsWholeStore` | main.py:300-325 | with `--notify` alone, a channel choice and a non-empty store, all stored articles go exactly once to each resolved channel a notifier can be created for |
| `Dispatch.ReminderPostsNothingToTelegram` | main.py:246-258 | with `--fetch` alone and nothing fetched, no Telegram POST results from the reminder |

## Left out

- HTTP itself, the XML parser, JSON decoding, `datetime.fromisoformat`, `time.gmtime`/`strftime` and the clocks are not modelled; they are inputs (see above).
- The arXiv request parameters (`start`, `sortBy`, `sortOrder`, the base URL) are not modelled, since they only shape the HTTP request. Sorting is the server's.
- The `timeout` of the Hacker News requests and all logging, `print` and `logger` calls are left out: they do not affect results.
- `ml_subscriber/core/storage.py` (JSON save and load) is not part of this model. The store is a sequence that a fetch overwrites. `ensure_dir`, `save_articles_to_json` and writing the page file are left out for the same reason.
- `parse_args`, `load_dotenv` and `get_fetcher_for_source` / `fetch_articles_for_args` are left out. The parsed arguments are the `Args` record. Which fetcher runs is recorded as the `FetchRequest` the run makes, and its answer is the input `fetched`.
- `get_translator` and the `translator`, `style` and `message_format` arguments threaded through `main.py` are left out, because the notifier shown accepts none of them.
- The webhook notifier and the free Google translator have no code in the modelled files. A webhook send is only recorded as a `Delivery`.
- A failed Telegram POST is caught and printed. The model returns the request and does not model delivery failure.
- `HnFetcher.FetchStory`: a JSON `null` for `time`, `score` or `descendants` is modelled like an absent key. The source stores `None` in the metadata, and the age filter then falls back to 0.
- `Dispatch.Run`: only the exceptions of the arXiv fetcher are modelled as a failed fetch. Other uncaught exceptions (a failing store or page write, a malformed top-stories answer that is not a list of ids) are not modelled.
- `HnFetcher.TooOld` compares on reals. Python's floating-point rounding of `time.time()` and of the timestamp is not modelled.
- `ArxivFetcher.Cutoff`: the overflow of `timedelta(days=...)` for huge day counts (an `OverflowError`) is not modelled.
- `Translator.Translate`: exceptions other than `DeepLException` propagate in the source. The model's service answers only text or a DeepL error.
- `Notification.SendPlainArxivArticle` is stated for any plain title and authors line, rather than for the exact strings of the notifier test.
- `Visualization.GenerateHtml`: its own contract states only the header and footer. Its content is stated by `Visualization.SectionsAppend`, `Visualization.ArticleOnPage`, `Visualization.NoReadMoreWithoutPdf` and `Visualization.EmptyPage`.
