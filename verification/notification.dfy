/** The Telegram notifier: renders articles into one HTML message and
    builds the `sendMessage` request for it. The HTTP POST itself is not
    modelled; `Send` yields the request that would be posted, or none. */
module Notification {

  import opened Wrappers
  import opened Text
  import opened Models
  import opened HtmlEscape

  const HnHeading: string := "\U{1F680} <b>Hacker News \U{70ED}\U{95E8}\U{8BA8}\U{8BBA}</b>"
  const ArxivHeading: string := "\U{2728} <b>New ML/DL Papers Found!</b> \U{2728}"
  const GenericHeading: string := "\U{1F4E2} <b>New Articles</b>"

  const ApiPrefix: string := "https://api.telegram.org/bot"
  const ApiSuffix: string := "/sendMessage"

  /** Pieces of one article block: the title line, then the authors line. */
  const LinkOpen: string := "\U{1F4C4} <b><a href=\""
  const LinkClose: string := "\">"
  const TitleClose: string := "</a></b>\n"
  const AuthorsOpen: string := "\U{1F464} <i>"
  const AuthorsClose: string := "</i>\n\n"

  /** A configured notifier: the bot token and the chat to post to. */
  datatype TelegramNotifier = TelegramNotifier(botToken: string, chatId: string)

  /** The JSON body of a `sendMessage` call. */
  datatype Payload = Payload(chatId: string, text: string, parseMode: string)

  /** One POST: endpoint and body. */
  datatype Post = Post(url: string, payload: Payload)

  /** The endpoint built in the constructor: the token sits between the
      fixed API prefix and the `/sendMessage` suffix, and can be read back
      from the URL. */
  function ApiUrl(botToken: string): (url: string)
    ensures StartsWith(url, ApiPrefix)
    ensures |url| == |ApiPrefix| + |botToken| + |ApiSuffix|
    ensures url[|url| - |ApiSuffix|..] == ApiSuffix
    ensures url[|ApiPrefix|..|url| - |ApiSuffix|] == botToken
  {
    var url := ApiPrefix + botToken + ApiSuffix;
    assert url[..|ApiPrefix|] == ApiPrefix;
    assert url[|url| - |ApiSuffix|..] == ApiSuffix;
    assert url[|ApiPrefix|..|url| - |ApiSuffix|] == botToken;
    url
  }

  /** Different tokens address different endpoints. */
  lemma ApiUrlInjective(t1: string, t2: string)
    requires ApiUrl(t1) == ApiUrl(t2)
    ensures t1 == t2
  {
  }

  /** `articles[0].metadata.get("source", "unknown")`, or "unknown" for an
      empty list. */
  function InferSource(articles: seq<Article>): MetaValue {
    if |articles| == 0 then MStr("unknown")
    else if "source" in articles[0].metadata then articles[0].metadata["source"]
    else MStr("unknown")
  }

  /** The heading for a source tag; anything but "hn" and "arxiv" (a
      non-string value included) gets the generic heading. */
  function HeadingForSource(source: MetaValue): string {
    if source == MStr("hn") then HnHeading
    else if source == MStr("arxiv") then ArxivHeading
    else GenericHeading
  }

  function Heading(articles: seq<Article>): string {
    HeadingForSource(InferSource(articles))
  }

  /** The Hacker News heading is chosen exactly when the first article is
      tagged "hn", the arXiv heading exactly when it is tagged "arxiv", and
      the generic one otherwise — including for an empty list and for an
      article without a source tag. */
  lemma HeadingSelection(articles: seq<Article>)
    ensures Heading(articles) == HnHeading <==>
      |articles| > 0 && "source" in articles[0].metadata && articles[0].metadata["source"] == MStr("hn")
    ensures Heading(articles) == ArxivHeading <==>
      |articles| > 0 && "source" in articles[0].metadata && articles[0].metadata["source"] == MStr("arxiv")
    ensures Heading(articles) == GenericHeading <==>
      !(|articles| > 0 && "source" in articles[0].metadata
        && articles[0].metadata["source"] in {MStr("hn"), MStr("arxiv")})
  {
    assert HnHeading[0] != ArxivHeading[0] && HnHeading[0] != GenericHeading[0]
      && ArxivHeading[0] != GenericHeading[0];
  }

  /** One article's block: a bold link whose target is the raw link and
      whose text is the escaped title, then the escaped authors line. */
  function ArticleBlock(a: Article): string {
    BlockText(a.link, Escape(a.title), Escape(AuthorsText(a.authors)))
  }

  /** The block layout around an already escaped title and authors line. */
  function BlockText(link: string, title: string, authors: string): string {
    LinkOpen + link + LinkClose + title + TitleClose + AuthorsOpen + authors + AuthorsClose
  }

  /** The blocks of all articles, in input order. */
  function Blocks(articles: seq<Article>): string
    decreases |articles|
  {
    if |articles| == 0 then "" else ArticleBlock(articles[0]) + Blocks(articles[1..])
  }

  /** `_format_message`: heading, a blank line, then one block per article. */
  function FormatMessage(articles: seq<Article>): string {
    Heading(articles) + "\n\n" + Blocks(articles)
  }

  /** `send`: nothing is posted for an empty list; otherwise one POST to the
      bot endpoint carrying the chat id, the formatted message and the HTML
      parse mode. */
  function Send(n: TelegramNotifier, articles: seq<Article>): (r: Option<Post>)
    ensures r.None? <==> |articles| == 0
    ensures r.Some? ==> r.value.url == ApiUrl(n.botToken)
    ensures r.Some? ==> r.value.payload.chatId == n.chatId && r.value.payload.parseMode == "HTML"
    ensures r.Some? ==> StartsWith(r.value.payload.text, Heading(articles) + "\n\n")
    ensures r.Some? ==> r.value.payload.text == FormatMessage(articles)
  {
    if |articles| == 0 then None
    else
      var msg := FormatMessage(articles);
      assert msg[..|Heading(articles) + "\n\n"|] == Heading(articles) + "\n\n";
      Some(Post(ApiUrl(n.botToken), Payload(n.chatId, msg, "HTML")))
  }

  /** What a reader of the chat sees of one article. */
  datatype RenderedBlock = RenderedBlock(link: string, title: string, authors: string)

  function Rendered(a: Article): RenderedBlock {
    RenderedBlock(a.link, a.title, AuthorsText(a.authors))
  }

  function RenderAll(articles: seq<Article>): (r: seq<RenderedBlock>)
    ensures |r| == |articles|
    ensures forall i :: 0 <= i < |r| ==> r[i] == Rendered(articles[i])
  {
    seq(|articles|, i requires 0 <= i < |articles| => Rendered(articles[i]))
  }

  /** Reads one field: the literal `open`, then the text up to (not
      including) the first `stop`; yields the text and what follows it. */
  function Field(s: string, open: string, stop: char): (r: Option<(string, string)>)
    ensures r.Some? ==> |r.value.1| <= |s| - |open|
  {
    if !StartsWith(s, open) then None
    else
      var t := s[|open|..];
      match IndexOf(t, stop)
      case None => None
      case Some(i) => Some((t[..i], t[i..]))
  }

  lemma FieldOf(open: string, x: string, stop: char, tail: string)
    requires stop !in x
    ensures Field(open + x + [stop] + tail, open, stop) == Some((x, [stop] + tail))
  {
    var s := open + x + [stop] + tail;
    assert s[..|open|] == open;
    var t := s[|open|..];
    assert t == x + [stop] + tail;
    IndexOfAfter(x, stop, tail);
    assert t[..|x|] == x;
    assert t[|x|..] == [stop] + tail;
  }

  /** Reads one block back from the front of `s`: the link runs up to the
      first quote, the escaped title and authors up to the first `<`. */
  function ParseBlock(s: string): (r: Option<(RenderedBlock, string)>)
    ensures r.Some? ==> |r.value.1| < |s|
  {
    match Field(s, LinkOpen, '"')
    case None => None
    case Some((link, s1)) => ParseTitle(link, s1)
  }

  function ParseTitle(link: string, s1: string): (r: Option<(RenderedBlock, string)>)
    ensures r.Some? ==> |r.value.1| < |s1|
  {
    match Field(s1, LinkClose, '<')
    case None => None
    case Some((title, s2)) => ParseAuthors(link, title, s2)
  }

  function ParseAuthors(link: string, title: string, s2: string): (r: Option<(RenderedBlock, string)>)
    ensures r.Some? ==> |r.value.1| < |s2|
  {
    match Field(s2, TitleClose + AuthorsOpen, '<')
    case None => None
    case Some((authors, s3)) =>
      if !StartsWith(s3, AuthorsClose) then None
      else Some((RenderedBlock(link, title, authors), s3[|AuthorsClose|..]))
  }

  /** Undoes the escaping of the title and the authors line. */
  function Decode(b: RenderedBlock): RenderedBlock {
    RenderedBlock(b.link, Unescape(b.title), Unescape(b.authors))
  }

  /** Reads consecutive blocks until the text is used up. */
  function ParseBlocks(s: string): Option<seq<RenderedBlock>>
    decreases |s|
  {
    if |s| == 0 then Some([])
    else match ParseBlock(s)
      case None => None
      case Some((b, rest)) =>
        match ParseBlocks(rest)
        case None => None
        case Some(bs) => Some([Decode(b)] + bs)
  }

  /** Reads a whole message back: which heading it carries, then its
      blocks. */
  function ParseMessage(m: string): Option<(string, seq<RenderedBlock>)> {
    match LeadingHeading(m)
    case None => None
    case Some(h) =>
      match ParseBlocks(m[|h| + 2..])
      case None => None
      case Some(bs) => Some((h, bs))
  }

  /** The heading a message opens with, followed by its blank line. */
  function LeadingHeading(m: string): (r: Option<string>)
    ensures r.Some? ==> |r.value| + 2 <= |m|
  {
    if StartsWith(m, HnHeading + "\n\n") then Some(HnHeading)
    else if StartsWith(m, ArxivHeading + "\n\n") then Some(ArxivHeading)
    else if StartsWith(m, GenericHeading + "\n\n") then Some(GenericHeading)
    else None
  }

  /** Escaped text never contains `<`. */
  lemma NoOpenTag(t: string)
    ensures '<' !in Escape(t)
  {
    var e := Escape(t);
    assert NoMarkup(e);
  }

  lemma ParseAuthorsText(link: string, et: string, ea: string, rest: string)
    requires '<' !in ea
    ensures ParseAuthors(link, et, TitleClose + AuthorsOpen + ea + AuthorsClose + rest)
            == Some((RenderedBlock(link, et, ea), rest))
  {
    var mid := TitleClose + AuthorsOpen;
    var s3 := AuthorsClose + rest;
    assert mid + ea + AuthorsClose + rest == mid + ea + ['<'] + s3[1..];
    FieldOf(mid, ea, '<', s3[1..]);
    assert s3 == ['<'] + s3[1..];
    assert s3[..|AuthorsClose|] == AuthorsClose;
    assert s3[|AuthorsClose|..] == rest;
  }

  lemma ParseTitleText(link: string, et: string, ea: string, rest: string)
    requires '<' !in et && '<' !in ea
    ensures ParseTitle(link, LinkClose + et + TitleClose + AuthorsOpen + ea + AuthorsClose + rest)
            == Some((RenderedBlock(link, et, ea), rest))
  {
    var s2 := TitleClose + AuthorsOpen + ea + AuthorsClose + rest;
    assert LinkClose + et + TitleClose + AuthorsOpen + ea + AuthorsClose + rest
      == LinkClose + et + ['<'] + s2[1..];
    FieldOf(LinkClose, et, '<', s2[1..]);
    assert s2 == ['<'] + s2[1..];
    ParseAuthorsText(link, et, ea, rest);
  }

  lemma ParseBlockText(link: string, et: string, ea: string, rest: string)
    requires '"' !in link && '<' !in et && '<' !in ea
    ensures ParseBlock(BlockText(link, et, ea) + rest) == Some((RenderedBlock(link, et, ea), rest))
  {
    var s1 := LinkClose + et + TitleClose + AuthorsOpen + ea + AuthorsClose + rest;
    assert BlockText(link, et, ea) + rest == LinkOpen + link + ['"'] + s1[1..];
    FieldOf(LinkOpen, link, '"', s1[1..]);
    assert s1 == ['"'] + s1[1..];
    ParseTitleText(link, et, ea, rest);
  }

  lemma ParseBlockOfArticle(a: Article, rest: string)
    requires '"' !in a.link
    ensures ParseBlock(ArticleBlock(a) + rest)
            == Some((RenderedBlock(a.link, Escape(a.title), Escape(AuthorsText(a.authors))), rest))
  {
    NoOpenTag(a.title);
    NoOpenTag(AuthorsText(a.authors));
    ParseBlockText(a.link, Escape(a.title), Escape(AuthorsText(a.authors)), rest);
  }

  lemma {:induction false} ParseBlocksOfArticles(articles: seq<Article>)
    requires forall i :: 0 <= i < |articles| ==> '"' !in articles[i].link
    ensures ParseBlocks(Blocks(articles)) == Some(RenderAll(articles))
    decreases |articles|
  {
    if |articles| > 0 {
      ParseBlocksOfArticles(articles[1..]);
      ParseBlocksCons(articles);
    }
  }

  lemma ParseBlocksCons(articles: seq<Article>)
    requires |articles| > 0 && '"' !in articles[0].link
    requires ParseBlocks(Blocks(articles[1..])) == Some(RenderAll(articles[1..]))
    ensures ParseBlocks(Blocks(articles)) == Some(RenderAll(articles))
  {
    var a := articles[0];
    var rest := Blocks(articles[1..]);
    var raw := RenderedBlock(a.link, Escape(a.title), Escape(AuthorsText(a.authors)));
    ParseBlockOfArticle(a, rest);
    ParseBlocksStep(Blocks(articles), raw, rest, RenderAll(articles[1..]));
    DecodeArticle(a);
    RenderAllCons(articles);
  }

  lemma RenderAllCons(articles: seq<Article>)
    requires |articles| > 0
    ensures RenderAll(articles) == [Rendered(articles[0])] + RenderAll(articles[1..])
  {
  }

  lemma DecodeArticle(a: Article)
    ensures Decode(RenderedBlock(a.link, Escape(a.title), Escape(AuthorsText(a.authors)))) == Rendered(a)
  {
    UnescapeEscape(a.title);
    UnescapeEscape(AuthorsText(a.authors));
  }

  lemma ParseBlocksStep(s: string, raw: RenderedBlock, rest: string, bs: seq<RenderedBlock>)
    requires ParseBlock(s) == Some((raw, rest))
    requires ParseBlocks(rest) == Some(bs)
    ensures ParseBlocks(s) == Some([Decode(raw)] + bs)
  {
  }

  /** The message can be read back: it names the heading chosen from the
      first article's source, then exactly one block per article in input
      order, with each article's link, unescaped title and authors line.
      Links are assumed free of `"`, since they are inserted unescaped
      into a double-quoted attribute. */
  lemma MessageRoundTrip(articles: seq<Article>)
    requires forall i :: 0 <= i < |articles| ==> '"' !in articles[i].link
    ensures ParseMessage(FormatMessage(articles)) == Some((Heading(articles), RenderAll(articles)))
  {
    MessageLayout(articles);
    ParseBlocksOfArticles(articles);
  }

  /** What is posted reads back as what was sent: the posted text parses
      to the heading and to each article's link, title and authors, in
      order. */
  lemma PostedMessageReadsBack(n: TelegramNotifier, articles: seq<Article>)
    requires |articles| > 0
    requires forall i :: 0 <= i < |articles| ==> '"' !in articles[i].link
    ensures ParseMessage(Send(n, articles).value.payload.text) == Some((Heading(articles), RenderAll(articles)))
  {
    MessageRoundTrip(articles);
  }

  /** The message opens with its heading and a blank line, and the blocks
      follow. */
  lemma MessageLayout(articles: seq<Article>)
    ensures var m := FormatMessage(articles);
      LeadingHeading(m) == Some(Heading(articles)) && m[|Heading(articles)| + 2..] == Blocks(articles)
  {
    var h := Heading(articles);
    var m := FormatMessage(articles);
    assert m == (h + "\n\n") + Blocks(articles);
    assert m[..|h + "\n\n"|] == h + "\n\n";
    assert m[|h| + 2..] == Blocks(articles);
    LeadingHeadingOf(h, m);
  }

  lemma LeadingHeadingOf(h: string, m: string)
    requires h == HnHeading || h == ArxivHeading || h == GenericHeading
    requires StartsWith(m, h + "\n\n")
    ensures LeadingHeading(m) == Some(h)
  {
    assert m[0] == h[0];
    assert HnHeading[0] != ArxivHeading[0] && HnHeading[0] != GenericHeading[0]
      && ArxivHeading[0] != GenericHeading[0];
    if h != HnHeading {
      assert (HnHeading + "\n\n")[0] == HnHeading[0];
      assert !StartsWith(m, HnHeading + "\n\n");
    }
    if h == GenericHeading {
      assert (ArxivHeading + "\n\n")[0] == ArxivHeading[0];
      assert !StartsWith(m, ArxivHeading + "\n\n");
    }
  }

  /** Summaries, dates, pdf links and all metadata besides the first
      article's source tag never influence the message. */
  lemma {:induction false} MessageIgnoresOtherFields(xs: seq<Article>, ys: seq<Article>)
    requires |xs| == |ys|
    requires forall i :: 0 <= i < |xs| ==>
      xs[i].title == ys[i].title && xs[i].authors == ys[i].authors && xs[i].link == ys[i].link
    requires InferSource(xs) == InferSource(ys)
    ensures FormatMessage(xs) == FormatMessage(ys)
  {
    BlocksIgnoreOtherFields(xs, ys);
  }

  lemma {:induction false} BlocksIgnoreOtherFields(xs: seq<Article>, ys: seq<Article>)
    requires |xs| == |ys|
    requires forall i :: 0 <= i < |xs| ==>
      xs[i].title == ys[i].title && xs[i].authors == ys[i].authors && xs[i].link == ys[i].link
    ensures Blocks(xs) == Blocks(ys)
    decreases |xs|
  {
    if |xs| > 0 {
      BlocksIgnoreOtherFields(xs[1..], ys[1..]);
    }
  }

  lemma {:induction false} BlocksAppend(xs: seq<Article>, a: Article)
    ensures Blocks(xs + [a]) == Blocks(xs) + ArticleBlock(a)
    decreases |xs|
  {
    if |xs| == 0 {
      assert xs + [a] == [a];
    } else {
      assert (xs + [a])[1..] == xs[1..] + [a];
      BlocksAppend(xs[1..], a);
    }
  }

  /** Appending an article to a non-empty list appends exactly its block
      to the message: the heading stays, and earlier blocks keep their
      order. */
  lemma MessageAppend(xs: seq<Article>, a: Article)
    requires |xs| > 0
    ensures FormatMessage(xs + [a]) == FormatMessage(xs) + ArticleBlock(a)
  {
    BlocksAppend(xs, a);
    assert (xs + [a])[0] == xs[0];
    var h := Heading(xs) + "\n\n";
    assert Heading(xs + [a]) == Heading(xs) by {
      assert InferSource(xs + [a]) == InferSource(xs);
    }
    assert h + (Blocks(xs) + ArticleBlock(a)) == (h + Blocks(xs)) + ArticleBlock(a);
  }

  /** A block whose title and author names contain no character that
      needs escaping shows them verbatim. */
  lemma PlainBlock(a: Article)
    requires forall i :: 0 <= i < |a.title| ==> !IsMarkup(a.title[i]) && a.title[i] != '&'
    requires var n := AuthorsText(a.authors);
             forall i :: 0 <= i < |n| ==> !IsMarkup(n[i]) && n[i] != '&'
    ensures ArticleBlock(a) == BlockText(a.link, a.title, AuthorsText(a.authors))
  {
  }

  /** The notifier test's situation in general: one arXiv-tagged article
      with plain title and author names yields a single request whose text
      is the arXiv heading followed by the verbatim block. */
  lemma SendPlainArxivArticle(n: TelegramNotifier, a: Article)
    requires "source" in a.metadata && a.metadata["source"] == MStr("arxiv")
    requires forall i :: 0 <= i < |a.title| ==> !IsMarkup(a.title[i]) && a.title[i] != '&'
    requires var m := AuthorsText(a.authors);
             forall i :: 0 <= i < |m| ==> !IsMarkup(m[i]) && m[i] != '&'
    ensures Send(n, [a]) == Some(Post(ApiUrl(n.botToken),
                                      Payload(n.chatId,
                                              ArxivHeading + "\n\n" + BlockText(a.link, a.title, AuthorsText(a.authors)),
                                              "HTML")))
  {
    PlainBlock(a);
    assert [a][0] == a && [a][1..] == [];
    assert Heading([a]) == ArxivHeading;
    assert Blocks([a]) == ArticleBlock(a);
    assert FormatMessage([a]) == ArxivHeading + "\n\n" + ArticleBlock(a);
  }

  /** The same article without a source tag, as the notifier test builds
      it, gets the generic heading rather than the arXiv one. */
  lemma UntaggedArticleGetsGenericHeading(a: Article)
    requires a.metadata == map[]
    ensures StartsWith(FormatMessage([a]), GenericHeading + "\n\n")
    ensures !StartsWith(FormatMessage([a]), ArxivHeading)
  {
    var m := FormatMessage([a]);
    assert m[..|GenericHeading + "\n\n"|] == GenericHeading + "\n\n";
    assert m[0] == GenericHeading[0] != ArxivHeading[0];
    assert |ArxivHeading| <= |m| ==> m[..|ArxivHeading|][0] == m[0];
  }
}
