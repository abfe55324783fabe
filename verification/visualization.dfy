/** The HTML page of fetched articles (ml_subscriber/core/visualization.py).
    Writing the page to a file is left to the caller: the model returns the
    page's text. */
module Visualization {
  import opened Text
  import opened Models

  const PageTitle: string := "ML/DL Articles"
  const PageOpen: string :=
    "<html><head><title>" + PageTitle + "</title></head><body>" + "<h1>" + PageTitle + "</h1>"
  const PageClose: string := "</body></html>"
  const Rule: string := "<hr>"

  /** `s` occurs in `t` starting at position `k`. */
  predicate OccursAt(s: string, t: string, k: int) {
    0 <= k <= |t| - |s| && t[k..k + |s|] == s
  }

  /** `s` occurs in `t` as a contiguous piece. */
  ghost predicate Infix(s: string, t: string) {
    exists k :: OccursAt(s, t, k)
  }

  function TitleHtml(a: Article): string {
    "<h2>" + a.title + "</h2>"
  }

  function AuthorsHtml(a: Article): string {
    "<p><strong>Authors:</strong> " + AuthorsText(a.authors) + "</p>"
  }

  function SummaryHtml(a: Article): string {
    "<p>" + a.summary + "</p>"
  }

  function ReadMoreHtml(pdfLink: string): string {
    "<p><a href='" + pdfLink + "'>Read More</a></p>"
  }

  /** One article's section: title, authors line, summary, a "Read More"
      link to the PDF when there is one, and a rule. Nothing is escaped. */
  function Section(a: Article): string {
    TitleHtml(a) + AuthorsHtml(a) + SummaryHtml(a)
    + (if a.pdfLink != "" then ReadMoreHtml(a.pdfLink) else "")
    + Rule
  }

  function Sections(articles: seq<Article>): string
    decreases |articles|
  {
    if |articles| == 0 then "" else Section(articles[0]) + Sections(articles[1..])
  }

  /** `generate_html`: the page header, one section per article in order,
      and the page footer. */
  function GenerateHtml(articles: seq<Article>): (html: string)
    ensures StartsWith(html, PageOpen)
    ensures |html| >= |PageOpen| + |PageClose| && html[|html| - |PageClose|..] == PageClose
  {
    var html := PageOpen + Sections(articles) + PageClose;
    assert html[..|PageOpen|] == PageOpen;
    assert html[|html| - |PageClose|..] == PageClose;
    html
  }

  /** The sections of a concatenation are the sections of each part, one
      after the other: each article contributes its section independently
      and in its place. */
  lemma {:induction false} SectionsAppend(xs: seq<Article>, ys: seq<Article>)
    ensures Sections(xs + ys) == Sections(xs) + Sections(ys)
    decreases |xs|
  {
    if |xs| == 0 {
      assert xs + ys == ys;
    } else {
      assert (xs + ys)[1..] == xs[1..] + ys;
      SectionsAppend(xs[1..], ys);
    }
  }

  /** With no articles the page is the header and footer alone, and it
      holds no article heading. */
  lemma EmptyPage()
    ensures GenerateHtml([]) == PageOpen + PageClose
    ensures !Infix("<h2>", GenerateHtml([]))
  {
    var page := GenerateHtml([]);
    Lacks('2', "<html><head><title>");
    Lacks('2', PageTitle);
    Lacks('2', "</title></head><body>");
    Lacks('2', "<h1>");
    Lacks('2', "</h1>");
    Lacks('2', PageClose);
    assert '2' !in page;
    MissingCharNotInfix("<h2>", page, 2);
  }

  /** A text lacking one of the characters of `s` does not contain `s`. */
  lemma MissingCharNotInfix(s: string, t: string, j: nat)
    requires j < |s| && s[j] !in t
    ensures !Infix(s, t)
  {
    forall k ensures !OccursAt(s, t, k) {
      if 0 <= k <= |t| - |s| {
        assert t[k..k + |s|][j] == t[k + j];
        assert t[k + j] in t;
      }
    }
  }

  /** A text none of whose characters is `c` does not contain `c`. */
  lemma Lacks(c: char, s: string)
    requires forall i :: 0 <= i < |s| ==> s[i] != c
    ensures c !in s
  {
  }

  /** The page holds a "Read More" paragraph only for an article with a PDF
      link: when no article has one (and no title, authors line or summary
      contains an apostrophe, the paragraph's attribute quote), no "Read
      More" paragraph for any link occurs anywhere in the page. */
  lemma NoReadMoreWithoutPdf(xs: seq<Article>)
    requires forall i :: 0 <= i < |xs| ==>
               xs[i].pdfLink == "" && '\'' !in xs[i].title
               && '\'' !in AuthorsText(xs[i].authors) && '\'' !in xs[i].summary
    ensures forall l :: !Infix(ReadMoreHtml(l), GenerateHtml(xs))
  {
    var page := GenerateHtml(xs);
    NoQuoteInPage(xs);
    forall l
      ensures !Infix(ReadMoreHtml(l), page)
    {
      assert ReadMoreHtml(l)[11] == '\'';
      MissingCharNotInfix(ReadMoreHtml(l), page, 11);
    }
  }

  lemma NoQuoteInPage(xs: seq<Article>)
    requires forall i :: 0 <= i < |xs| ==>
               xs[i].pdfLink == "" && '\'' !in xs[i].title
               && '\'' !in AuthorsText(xs[i].authors) && '\'' !in xs[i].summary
    ensures '\'' !in GenerateHtml(xs)
  {
    NoQuoteInSections(xs);
    PageFrameHasNoQuote();
    assert GenerateHtml(xs) == PageOpen + Sections(xs) + PageClose;
  }

  lemma PageFrameHasNoQuote()
    ensures '\'' !in PageOpen && '\'' !in PageClose
  {
  }

  lemma {:induction false} NoQuoteInSections(xs: seq<Article>)
    requires forall i :: 0 <= i < |xs| ==>
               xs[i].pdfLink == "" && '\'' !in xs[i].title
               && '\'' !in AuthorsText(xs[i].authors) && '\'' !in xs[i].summary
    ensures '\'' !in Sections(xs)
    decreases |xs|
  {
    if |xs| > 0 {
      assert forall i :: 0 <= i < |xs[1..]| ==> xs[1..][i] == xs[i + 1];
      NoQuoteInSections(xs[1..]);
      var a := xs[0];
      Lacks('\'', "<h2>");
      Lacks('\'', "</h2>");
      Lacks('\'', "<p><strong>Authors:</strong> ");
      Lacks('\'', "</p>");
      Lacks('\'', "<p>");
      Lacks('\'', Rule);
      assert Section(a) == TitleHtml(a) + AuthorsHtml(a) + SummaryHtml(a) + Rule;
    }
  }

  /** The page shows only title, authors, summary and PDF link: articles
      that differ in link, publication date or metadata alone give the same
      page. */
  lemma {:induction false} PageIgnoresOtherFields(xs: seq<Article>, ys: seq<Article>)
    requires |xs| == |ys|
    requires forall i :: 0 <= i < |xs| ==>
               xs[i].title == ys[i].title && xs[i].authors == ys[i].authors
               && xs[i].summary == ys[i].summary && xs[i].pdfLink == ys[i].pdfLink
    ensures GenerateHtml(xs) == GenerateHtml(ys)
  {
    SectionsIgnoreOtherFields(xs, ys);
  }

  lemma {:induction false} SectionsIgnoreOtherFields(xs: seq<Article>, ys: seq<Article>)
    requires |xs| == |ys|
    requires forall i :: 0 <= i < |xs| ==>
               xs[i].title == ys[i].title && xs[i].authors == ys[i].authors
               && xs[i].summary == ys[i].summary && xs[i].pdfLink == ys[i].pdfLink
    ensures Sections(xs) == Sections(ys)
    decreases |xs|
  {
    if |xs| > 0 {
      SectionsIgnoreOtherFields(xs[1..], ys[1..]);
    }
  }

  lemma InfixSelf(s: string)
    ensures Infix(s, s)
  {
    assert OccursAt(s, s, 0);
  }

  lemma InfixAppend(s: string, t: string, u: string)
    requires Infix(s, t)
    ensures Infix(s, t + u)
  {
    var k :| OccursAt(s, t, k);
    assert (t + u)[k..k + |s|] == t[k..k + |s|];
    assert OccursAt(s, t + u, k);
  }

  lemma InfixPrepend(s: string, p: string, t: string)
    requires Infix(s, t)
    ensures Infix(s, p + t)
  {
    var k :| OccursAt(s, t, k);
    assert (p + t)[|p| + k..|p| + k + |s|] == t[k..k + |s|];
    assert OccursAt(s, p + t, |p| + k);
  }

  lemma InfixTrans(s: string, t: string, u: string)
    requires Infix(s, t) && Infix(t, u)
    ensures Infix(s, u)
  {
    var j :| OccursAt(s, t, j);
    var k :| OccursAt(t, u, k);
    forall m | 0 <= m < |s|
      ensures u[k + j + m] == s[m]
    {
      assert s[m] == t[j..j + |s|][m] == t[j + m];
      assert t[j + m] == u[k..k + |t|][j + m] == u[k + j + m];
    }
    assert u[k + j..k + j + |s|] == s;
    assert OccursAt(s, u, k + j);
  }

  /** Each article's section occurs in the sections of the list. */
  lemma {:induction false} SectionInSections(xs: seq<Article>, i: nat)
    requires i < |xs|
    ensures Infix(Section(xs[i]), Sections(xs))
    decreases i
  {
    if i == 0 {
      InfixSelf(Section(xs[0]));
      InfixAppend(Section(xs[0]), Section(xs[0]), Sections(xs[1..]));
    } else {
      SectionInSections(xs[1..], i - 1);
      assert xs[1..][i - 1] == xs[i];
      InfixPrepend(Section(xs[i]), Section(xs[0]), Sections(xs[1..]));
    }
  }

  /** Every article of the list shows up on the page: its title heading,
      its authors line, its summary paragraph and, when it has a PDF link,
      the "Read More" paragraph all occur in the page text. */
  lemma ArticleOnPage(xs: seq<Article>, i: nat)
    requires i < |xs|
    ensures Infix(TitleHtml(xs[i]), GenerateHtml(xs))
    ensures Infix(AuthorsHtml(xs[i]), GenerateHtml(xs))
    ensures Infix(SummaryHtml(xs[i]), GenerateHtml(xs))
    ensures xs[i].pdfLink != "" ==> Infix(ReadMoreHtml(xs[i].pdfLink), GenerateHtml(xs))
  {
    var a := xs[i];
    var t, au, su, r := TitleHtml(a), AuthorsHtml(a), SummaryHtml(a), Rule;
    var e := if a.pdfLink != "" then ReadMoreHtml(a.pdfLink) else "";
    var page := GenerateHtml(xs);
    SectionInSections(xs, i);
    InfixPrepend(Section(a), PageOpen, Sections(xs));
    InfixAppend(Section(a), PageOpen + Sections(xs), PageClose);
    assert Infix(Section(a), page);
    // the title, then each later piece, inside the section
    InfixSelf(t);
    InfixAppend(t, t, au); InfixAppend(t, t + au, su); InfixAppend(t, t + au + su, e);
    InfixAppend(t, t + au + su + e, r);
    InfixTrans(t, Section(a), page);
    InfixSelf(au);
    InfixPrepend(au, t, au); InfixAppend(au, t + au, su); InfixAppend(au, t + au + su, e);
    InfixAppend(au, t + au + su + e, r);
    InfixTrans(au, Section(a), page);
    InfixSelf(su);
    InfixPrepend(su, t + au, su); InfixAppend(su, t + au + su, e);
    InfixAppend(su, t + au + su + e, r);
    InfixTrans(su, Section(a), page);
    if a.pdfLink != "" {
      InfixSelf(e);
      InfixPrepend(e, t + au + su, e);
      InfixAppend(e, t + au + su + e, r);
      InfixTrans(e, Section(a), page);
    }
  }
}
