/** The list adapter: the articles it currently holds, the row it binds for a
    position, and how it compares with the detail screen. */
module NewsAdapter {
  import opened NewsModel
  import NewsDetails

  /** The three text views of one list row, and the article a tap on the row
      hands to the click listener. */
  datatype Row = Row(title: string, description: string, source: string, tapped: Article)

  /** The adapter's only state: its current list. */
  datatype State = State(articles: seq<Article>)

  /** The adapter the main screen starts with. */
  const Empty := State([])

  /** `updateArticles`: the new list replaces the old one wholesale, so
      `getItemCount` (`articles.size`) becomes its length. */
  function UpdateArticles(s: State, xs: seq<Article>): (s': State)
    ensures s'.articles == xs
    ensures |s'.articles| == |xs|
  {
    State(xs)
  }

  /** The labels of a row: each null field falls back to a fixed text. */
  function RowLabels(a: Article): (row: Row)
    ensures a.title.Some? ==> row.title == a.title.value
    ensures a.title.None? ==> row.title == "No title"
    ensures a.description.Some? ==> row.description == a.description.value
    ensures a.description.None? ==> row.description == "No description"
    ensures SourceName(a).Some? ==> row.source == SourceName(a).value
    ensures SourceName(a).None? ==> row.source == "Unknown source"
    ensures row.tapped == a
  {
    Row(a.title.GetOr("No title"), a.description.GetOr("No description"), SourceName(a).GetOr("Unknown source"), a)
  }

  /** `onBindViewHolder(holder, position)`: the list view only asks for
      positions below the item count. */
  function Bind(s: State, position: int): (row: Row)
    requires 0 <= position < |s.articles|
    ensures row.tapped == s.articles[position]
    ensures row == RowLabels(s.articles[position])
  {
    RowLabels(s.articles[position])
  }

  /** After an update the rows shown are exactly the new list's, position by
      position, whatever was shown before: the last update wins. */
  lemma LastUpdateWins(s: State, t: State, xs: seq<Article>, ys: seq<Article>, position: int)
    requires 0 <= position < |xs|
    ensures UpdateArticles(UpdateArticles(s, ys), xs) == UpdateArticles(t, xs)
    ensures 0 <= position < |UpdateArticles(s, xs).articles|
    ensures Bind(UpdateArticles(s, xs), position) == RowLabels(xs[position])
  {
  }

  /** A row and the detail screen of the same article agree on the title
      and on a present description; they disagree on a missing description,
      and the detail screen prefixes the source with "Source: ". */
  lemma RowAgainstDetails(a: Article)
    ensures RowLabels(a).title == NewsDetails.DisplayDetails(a).title
    ensures a.description.Some? ==> RowLabels(a).description == NewsDetails.DisplayDetails(a).description
    ensures a.description.None? ==> RowLabels(a).description != NewsDetails.DisplayDetails(a).description
    ensures SourceName(a).Some? ==> NewsDetails.DisplayDetails(a).source == "Source: " + RowLabels(a).source
    ensures SourceName(a).None? ==> NewsDetails.DisplayDetails(a).source != "Source: " + RowLabels(a).source
  {
  }
}
