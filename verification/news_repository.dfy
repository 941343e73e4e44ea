/** The repository's two fetch operations, from the outcome of the HTTP round
    trip to what the caller receives: a list of articles or a thrown
    `ApiException`. The round trip itself (client, interceptors, JSON
    decoding) is an input. */
module NewsRepository {
  import opened Wrappers
  import opened KotlinStd
  import opened NewsModel
  import NewsApiService

  const BaseUrl := "https://newsapi.org/v2/"

  /** What the round trip produced. `Fault` is any exception thrown before a
      response is in hand (connection, timeout, undecodable body) or while
      reading the error body; its message may be null. `Response` is an HTTP
      response: status code, status message, the decoded body (present on
      success) and the raw error body (present otherwise). */
  datatype Outcome =
    | Fault(cause: Option<string>)
    | Response(code: int, message: string, body: Option<NewsResponse>, errorBody: Option<string>)
  {
    /** Retrofit's `isSuccessful`: a 2xx status. */
    predicate IsSuccessful() {
      Response? && 200 <= code <= 299
    }
  }

  /** The exception the repository throws to its callers. */
  datatype ApiException = ApiException(code: int, message: string)

  /** An exception in flight inside the `try` block: the repository's own
      `ApiException`, or whatever the round trip threw. */
  datatype Thrown = Api(e: ApiException) | Other(message: Option<string>)

  /** `e.message` for a caught exception. For an `ApiException` this is the
      message it was constructed with. */
  function ThrownMessage(t: Thrown): Option<string> {
    match t
    case Api(e) => Some(e.message)
    case Other(m) => m
  }

  /** Which of the two operations is running; they differ only in wording. */
  datatype Call = Headlines | Search

  /** The marker the news API puts in its error body when the plan forbids
      requests from this origin. */
  const CorsMarker := "corsNotAllowed"

  const HeadlinesCorsMessage := "NewsAPI Developer plan only allows localhost requests. Upgrade plan or use alternative API."
  const SearchCorsMessage := "Search blocked by CORS policy"

  function CorsMessage(c: Call): string {
    match c
    case Headlines => HeadlinesCorsMessage
    case Search => SearchCorsMessage
  }

  function ErrorPrefix(c: Call): string {
    match c
    case Headlines => "API Error: "
    case Search => "Search error: "
  }

  /** The error body mentions the plan restriction. */
  predicate CorsBlocked(errorBody: Option<string>)
    ensures CorsBlocked(errorBody) <==> errorBody.Some? && exists i :: OccursAt(errorBody.value, CorsMarker, i)
  {
    match errorBody
    case None => false
    case Some(text) => ContainsIffOccurs(text, CorsMarker); Contains(text, CorsMarker)
  }

  /** `body?.articles?.filterNotNull() ?: emptyList()`. */
  function ArticlesOf(body: Option<NewsResponse>): (xs: seq<Article>)
    ensures body.None? || body.value.articles.None? ==> xs == []
    ensures body.Some? && body.value.articles.Some? ==> xs == FilterNotNull(body.value.articles.value)
  {
    match body
    case None => []
    case Some(b) => FilterNotNull(b.articles.GetOr([]))
  }

  /** The `try` block: return the articles of a 2xx response, otherwise
      throw an `ApiException` carrying the HTTP status. */
  function Attempt(c: Call, o: Outcome): (r: Result<seq<Article>, Thrown>)
    ensures r.Success? <==> o.IsSuccessful()
    ensures r.Success? ==> r.value == ArticlesOf(o.body)
    ensures o.Fault? ==> r == Failure(Other(o.cause))
    ensures o.Response? && !o.IsSuccessful() ==> r.Failure? && r.error.Api? && r.error.e.code == o.code
    ensures o.Response? && !o.IsSuccessful() && CorsBlocked(o.errorBody) ==>
      r == Failure(Api(ApiException(o.code, CorsMessage(c))))
    ensures o.Response? && !o.IsSuccessful() && !CorsBlocked(o.errorBody) ==>
      r == Failure(Api(ApiException(o.code, ErrorPrefix(c) + o.message)))
  {
    match o
    case Fault(m) => Failure(Other(m))
    case Response(code, message, body, errorBody) =>
      if o.IsSuccessful() then Success(ArticlesOf(body))
      else if CorsBlocked(errorBody) then Failure(Api(ApiException(code, CorsMessage(c))))
      else Failure(Api(ApiException(code, ErrorPrefix(c) + message)))
  }

  /** The `catch (e: Exception)` block: every exception, the repository's
      own included, is thrown again as `ApiException(0, e.message ?: "Unknown error")`. */
  function Rewrap(t: Thrown): (e: ApiException)
    ensures e.code == 0
    ensures ThrownMessage(t).Some? ==> e.message == ThrownMessage(t).value
    ensures ThrownMessage(t).None? ==> e.message == "Unknown error"
  {
    ApiException(0, ThrownMessage(t).GetOr("Unknown error"))
  }

  /** One operation as written: the `try` block under the catch-all. */
  function Fetch(c: Call, o: Outcome): (r: Result<seq<Article>, ApiException>)
    ensures r.Success? <==> o.IsSuccessful()
    ensures r.Success? ==> r.value == ArticlesOf(o.body)
    ensures r.Failure? ==> r.error.code == 0
    ensures o.Fault? ==> r == Failure(ApiException(0, o.cause.GetOr("Unknown error")))
    ensures o.Response? && !o.IsSuccessful() && CorsBlocked(o.errorBody) ==>
      r == Failure(ApiException(0, CorsMessage(c)))
    ensures o.Response? && !o.IsSuccessful() && !CorsBlocked(o.errorBody) ==>
      r == Failure(ApiException(0, ErrorPrefix(c) + o.message))
  {
    match Attempt(c, o)
    case Success(xs) => Success(xs)
    case Failure(t) => Failure(Rewrap(t))
  }

  /** `getTopHeadlines()`, given the outcome of its `top-headlines` request. */
  function GetTopHeadlines(o: Outcome): (r: Result<seq<Article>, ApiException>)
    ensures r.Success? <==> o.IsSuccessful()
    ensures r.Success? ==> r.value == ArticlesOf(o.body)
    ensures r.Failure? ==> r.error.code == 0
    ensures o.Fault? ==> r == Failure(ApiException(0, o.cause.GetOr("Unknown error")))
    ensures o.Response? && !o.IsSuccessful() && CorsBlocked(o.errorBody) ==>
      r == Failure(ApiException(0, HeadlinesCorsMessage))
    ensures o.Response? && !o.IsSuccessful() && !CorsBlocked(o.errorBody) ==>
      r == Failure(ApiException(0, "API Error: " + o.message))
  {
    Fetch(Headlines, o)
  }

  /** `searchNews(query)`, given the outcome of its `everything` request. The
      query shapes only the request, never the classification. */
  function SearchNews(o: Outcome): (r: Result<seq<Article>, ApiException>)
    ensures r.Success? <==> o.IsSuccessful()
    ensures r.Success? ==> r.value == ArticlesOf(o.body)
    ensures r.Failure? ==> r.error.code == 0
    ensures o.Fault? ==> r == Failure(ApiException(0, o.cause.GetOr("Unknown error")))
    ensures o.Response? && !o.IsSuccessful() && CorsBlocked(o.errorBody) ==>
      r == Failure(ApiException(0, SearchCorsMessage))
    ensures o.Response? && !o.IsSuccessful() && !CorsBlocked(o.errorBody) ==>
      r == Failure(ApiException(0, "Search error: " + o.message))
  {
    Fetch(Search, o)
  }

  /** With the repository's base URL the two calls go to the news API's
      `top-headlines` and `everything` endpoints, which are different. */
  lemma RequestAddresses(apiKey: string, query: string)
    ensures NewsApiService.Address(BaseUrl, NewsApiService.GetTopHeadlines(apiKey)) == "https://newsapi.org/v2/top-headlines"
    ensures NewsApiService.Address(BaseUrl, NewsApiService.SearchNews(query, apiKey)) == "https://newsapi.org/v2/everything"
    ensures NewsApiService.Address(BaseUrl, NewsApiService.GetTopHeadlines(apiKey))
         != NewsApiService.Address(BaseUrl, NewsApiService.SearchNews(query, apiKey))
  {
    assert BaseUrl + "top-headlines" == "https://newsapi.org/v2/top-headlines";
    assert BaseUrl + "everything" == "https://newsapi.org/v2/everything";
  }

  /** A 2xx response whose envelope lists `[A, null, B]` yields `[A, B]`, and
      one whose body or list is missing yields no articles rather than an
      error. */
  lemma SuccessfulResponses(a: Article, b: Article, code: int, message: string, status: string, total: int)
    requires 200 <= code <= 299
    ensures GetTopHeadlines(Response(code, message, Some(NewsResponse(status, total, Some([Some(a), None, Some(b)]))), None))
            == Success([a, b])
    ensures SearchNews(Response(code, message, None, None)) == Success([])
    ensures SearchNews(Response(code, message, Some(NewsResponse(status, total, None)), None)) == Success([])
  {
    var xs: seq<Option<Article>> := [Some(a), None, Some(b)];
    FilterNotNullAppend([Some(a)], [None, Some(b)]);
    FilterNotNullAppend([None], [Some(b)]);
    assert [Some(a)] + [None, Some(b)] == xs;
    assert [None] + [Some(b)] == [None, Some(b)];
    assert FilterNotNull([Some(a)]) == [a];
    assert FilterNotNull<Article>([None]) == [];
    assert FilterNotNull([Some(b)]) == [b];
    assert FilterNotNull(xs) == [a, b];
  }

  /** Keeping the articles of two consecutive stretches of the envelope is
      keeping them stretch by stretch: the server's order survives. */
  lemma ServerOrderKept(c: Call, code: int, message: string, status: string, total: int, xs: seq<Option<Article>>, ys: seq<Option<Article>>)
    requires 200 <= code <= 299
    ensures Fetch(c, Response(code, message, Some(NewsResponse(status, total, Some(xs + ys))), None))
            == Success(FilterNotNull(xs) + FilterNotNull(ys))
  {
    FilterNotNullAppend(xs, ys);
  }

  /** Two non-2xx responses that differ only in their status code reach the
      caller as the same exception: the status is not observable. */
  lemma StatusCodeNotObservable(c: Call, code1: int, code2: int, message: string, errorBody: Option<string>)
    requires !(200 <= code1 <= 299) && !(200 <= code2 <= 299)
    ensures Fetch(c, Response(code1, message, None, errorBody)) == Fetch(c, Response(code2, message, None, errorBody))
  {
  }

  // ---- The status-preserving variant ----

  /** The variant that lets the repository's own `ApiException` through
      (`catch (e: ApiException) { throw e }` ahead of the catch-all) and
      rewraps only foreign exceptions. */
  function FetchKeepingStatus(c: Call, o: Outcome): (r: Result<seq<Article>, ApiException>)
    ensures r.Success? <==> o.IsSuccessful()
    ensures r.Success? ==> r.value == ArticlesOf(o.body)
    ensures o.Fault? ==> r == Failure(ApiException(0, o.cause.GetOr("Unknown error")))
    ensures o.Response? && !o.IsSuccessful() ==> r.Failure? && r.error.code == o.code
  {
    match Attempt(c, o)
    case Success(xs) => Success(xs)
    case Failure(Api(e)) => Failure(e)
    case Failure(t) => Failure(Rewrap(t))
  }

  /** As written, a 401 reaches the caller with code 0, while the variant
      reports 401. */
  lemma UnauthorizedLosesStatus()
    ensures Fetch(Headlines, Response(401, "Unauthorized", None, None))
            == Failure(ApiException(0, "API Error: Unauthorized"))
    ensures FetchKeepingStatus(Headlines, Response(401, "Unauthorized", None, None))
            == Failure(ApiException(401, "API Error: Unauthorized"))
  {
    assert !CorsBlocked(None);
    assert "API Error: " + "Unauthorized" == "API Error: Unauthorized";
  }

  /** The two versions differ in the code alone: the success value and every
      message are the same. */
  lemma KeepingStatusChangesOnlyCode(c: Call, o: Outcome)
    ensures Fetch(c, o).Success? == FetchKeepingStatus(c, o).Success?
    ensures Fetch(c, o).Success? ==> Fetch(c, o).value == FetchKeepingStatus(c, o).value
    ensures Fetch(c, o).Failure? ==> Fetch(c, o).error.message == FetchKeepingStatus(c, o).error.message
  {
  }
}
