/** The wire types of the news API as the app deserialises them. Every field
    the JSON may omit is an `Option`; the types have no behaviour. */
module NewsModel {
  import opened Wrappers

  /** Publisher metadata. */
  datatype Source = Source(id: Option<string>, name: Option<string>)

  /** One news item. `imageUrl` is the JSON field `urlToImage`. */
  datatype Article = Article(
    title: Option<string>,
    description: Option<string>,
    url: Option<string>,
    imageUrl: Option<string>,
    publishedAt: Option<string>,
    source: Option<Source>)

  /** The response envelope. The Kotlin declaration makes `articles` a
      non-null list of non-null articles, but the JSON decoder fills fields
      reflectively and can leave both the list and its entries null, which is
      why the repository reads it with `?.` and `filterNotNull`. */
  datatype NewsResponse = NewsResponse(
    status: string,
    totalResults: int,
    articles: Option<seq<Option<Article>>>)

  /** `article.source?.name`: null when either link of the chain is null. */
  function SourceName(a: Article): (n: Option<string>)
    ensures n.Some? <==> a.source.Some? && a.source.value.name.Some?
    ensures n.Some? ==> n.value == a.source.value.name.value
  {
    match a.source
    case None => None
    case Some(s) => s.name
  }
}
