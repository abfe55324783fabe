/** The record every component exchanges: one fetched article. */
module Models {

  import opened Text

  /** A metadata value: the program stores strings (`source`, `hn_url`)
      and integers (`hn_id`, `hn_score`, `hn_timestamp`, ...). */
  datatype MetaValue = MStr(str: string) | MInt(num: int)

  /** An article as fetched from arXiv or Hacker News. */
  datatype Article = Article(
    title: string,
    authors: seq<string>,
    summary: string,
    link: string,
    publishedDate: string,
    pdfLink: string,
    metadata: map<string, MetaValue>)

  /** The authors line shared by the chat message and the HTML page: the
      names joined by ", ", or "Unknown" when there are none. */
  function AuthorsText(authors: seq<string>): string {
    if |authors| == 0 then "Unknown" else Join(authors, ", ")
  }

  /** The authors line is "Unknown" for no authors, the name itself for one,
      and grows by ", " and the new name for each further author, so names
      appear in the given order. */
  lemma AuthorsTextSpec(authors: seq<string>, name: string)
    ensures AuthorsText([]) == "Unknown"
    ensures AuthorsText([name]) == name
    ensures |authors| > 0 ==> AuthorsText(authors + [name]) == AuthorsText(authors) + ", " + name
  {
    if |authors| > 0 {
      JoinAppend(authors, ", ", name);
    }
  }
}
