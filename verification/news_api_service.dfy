/** The two REST calls the app makes, as request records: an endpoint path
    relative to the base URL and the query parameters in declaration order. */
module NewsApiService {
  import opened Wrappers

  /** A GET request: endpoint path and `(name, value)` query parameters. */
  datatype Request = Request(endpoint: string, query: seq<(string, string)>)

  const DefaultCountry := "us"

  /** The value of the first query parameter called `name`, if any. */
  function Param(r: Request, name: string): (v: Option<string>)
    ensures v.Some? <==> exists i :: 0 <= i < |r.query| && r.query[i].0 == name
  {
    FirstValue(r.query, name)
  }

  function FirstValue(ps: seq<(string, string)>, name: string): (v: Option<string>)
    ensures v.Some? <==> exists i :: 0 <= i < |ps| && ps[i].0 == name
    ensures v.Some? ==> exists i :: 0 <= i < |ps| && ps[i] == (name, v.value)
  {
    if ps == [] then None
    else if ps[0].0 == name then Some(ps[0].1)
    else FirstValue(ps[1..], name)
  }

  /** `GET top-headlines?country=…&apiKey=…`; the app always relies on the
      default country. */
  function GetTopHeadlines(apiKey: string, country: string := DefaultCountry): (r: Request)
    ensures r.endpoint == "top-headlines" && |r.query| == 2
    ensures Param(r, "country") == Some(country)
    ensures Param(r, "apiKey") == Some(apiKey)
    ensures Param(r, "q") == None
  {
    var ps := [("country", country), ("apiKey", apiKey)];
    assert FirstValue(ps, "apiKey") == FirstValue(ps[1..], "apiKey");
    Request("top-headlines", ps)
  }

  /** `GET everything?q=…&apiKey=…`. The query is passed through as given:
      nothing here rejects an empty or blank one. */
  function SearchNews(query: string, apiKey: string): (r: Request)
    ensures r.endpoint == "everything" && |r.query| == 2
    ensures Param(r, "q") == Some(query)
    ensures Param(r, "apiKey") == Some(apiKey)
    ensures Param(r, "country") == None
  {
    var ps := [("q", query), ("apiKey", apiKey)];
    assert FirstValue(ps, "apiKey") == FirstValue(ps[1..], "apiKey");
    Request("everything", ps)
  }

  /** The address a request is sent to, before its query string. Retrofit
      only accepts a base URL ending in `/`, and resolves the relative
      endpoint path against it by appending. */
  function Address(baseUrl: string, r: Request): string
    requires |baseUrl| > 0 && baseUrl[|baseUrl| - 1] == '/'
  {
    baseUrl + r.endpoint
  }
}
