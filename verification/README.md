# KotlinNews in Dafny

A model of the decision logic of KotlinNews, an Android news reader built on
the newsapi.org REST API. The app is mostly screen wiring. This model lifts
out its few real decisions as pure functions over immutable datatypes and
proves what they promise:

- **Request construction** (`NewsApiService`): the two GET calls as records.
  Each record holds an endpoint path and its query parameters: `top-headlines`
  with `country` (default `"us"`) and `apiKey`, and `everything` with `q` and
  `apiKey`.
- **Response classification** (`NewsRepository`): `getTopHeadlines` and
  `searchNews` are functions. Each takes the outcome of the HTTP round trip
  and gives either a list of articles or an `ApiException(code, message)`.
  The model includes the catch-all that wraps every failure again, the
  repository's own exceptions included. So every failure reaches the caller
  with code 0. The HTTP status and the plan-restriction (`corsNotAllowed`)
  case survive only in the message text.
- **Detail screen** (`NewsDetails`): `formatDate`, the label fallbacks, the
  share intent, and what the "open" button does.
- **List adapter** (`NewsAdapter`): row labels, the item count, and the
  wholesale replacement of the list.
- **Main screen** (`MainActivity`): the search-box gate, the toasts and the
  refresh spinner of a load or a search, and the options menu with its
  dark-mode toggle.
- **Kotlin semantics** the app relies on (`KotlinStd`): string templates
  (`null` prints as `null`), `substring` throwing on a short string,
  `contains`, `filterNotNull`, `trim` and `Int.toString`.
- `Wrappers` holds `Option` (Kotlin nullability) and `Result` (return or
  throw). `NewsModel` mirrors `Article`, `Source` and `NewsResponse`.

Inputs the app takes from the platform are parameters:

- the outcome of the HTTP round trip;
- whether a browser can open a link;
- the whitespace classification `trim` uses;
- the framework's default menu handler;
- whether the system theme is dark;
- the API key.

The key is build configuration and never appears in the model.

The throws at NewsRepository.kt:111 and :113 pass the HTTP status as
`ApiException(response.code(), …)`, but the catch-all at :116-118 replaces
it with 0. So a plan restriction and any other non-2xx response both reach
the caller as `ApiException(0, …)`, and only the message tells them apart
(see Findings).

`ApiException`'s class is not part of this model. It is assumed to extend
`Exception`, so the catch-alls at NewsRepository.kt:116 and :139 catch it.
Its `message` is taken to be the message it was constructed with
(`NewsRepository.ThrownMessage`).

## Model

| member | source | states |
|---|---|---|
| NewsModel.SourceName | app/src/main/java/com/kiryusha/myapplication/NewsDetailsActivity.kt:58 | `source?.name` is present exactly when both the source and its name are, and then it is the name |
| NewsApiService.GetTopHeadlines | app/src/main/java/com/kiryusha/myapplication/service/NewsApiService.kt:9-13 | the headlines request targets `top-headlines`, its `country` is the given country (`"us"` by default), its `apiKey` is the configured key, and it has no `q` and no other parameter |
| NewsApiService.SearchNews | app/src/main/java/com/kiryusha/myapplication/service/NewsApiService.kt:15-19 | the search request targets `everything`, its `q` is the caller's query unchanged (an empty one included), its `apiKey` is the configured key, and it has no `country` and no other parameter |
| NewsRepository.RequestAddresses | app/src/main/java/com/kiryusha/myapplication/repository/NewsRepository.kt:78-80 | with the base URL `https://newsapi.org/v2/` the headlines call goes to `https://newsapi.org/v2/top-headlines` and the search call to `https://newsapi.org/v2/everything`, two different addresses |
| KotlinStd.FilterNotNull | app/src/main/java/com/kiryusha/myapplication/repository/NewsRepository.kt:96 | every article kept was present in the list, every present article is kept, and the result is never longer |
| KotlinStd.FilterNotNullAppend | app/src/main/java/com/kiryusha/myapplication/repository/NewsRepository.kt:128 | filtering two stretches of a list one after the other is filtering the whole list, so the order of the present entries is kept |
| KotlinStd.FilterNotNullAllPresent | app/src/main/java/com/kiryusha/myapplication/repository/NewsRepository.kt:96 | a list with no nulls comes through element for element |
| KotlinStd.ContainsIffOccurs | app/src/main/java/com/kiryusha/myapplication/repository/NewsRepository.kt:110 | the `contains` scan succeeds exactly when the marker occurs at some offset of the error body |
| NewsRepository.ArticlesOf | app/src/main/java/com/kiryusha/myapplication/repository/NewsRepository.kt:95-96 | a missing body or a missing article list gives an empty list; otherwise the list with its nulls removed |
| NewsRepository.Attempt | app/src/main/java/com/kiryusha/myapplication/repository/NewsRepository.kt:88-115 | the `try` block returns exactly on a 2xx response, with the body's non-null articles; a fault passes through with its own message; any other response throws an `ApiException` carrying the HTTP status and either the plan-restriction text (error body holds `corsNotAllowed`) or the prefix plus the status message |
| NewsRepository.CorsBlocked | app/src/main/java/com/kiryusha/myapplication/repository/NewsRepository.kt:110 | the plan-restriction branch is taken exactly when there is an error body and `corsNotAllowed` occurs somewhere in it |
| NewsRepository.Rewrap | app/src/main/java/com/kiryusha/myapplication/repository/NewsRepository.kt:116-119 | the catch-all throws code 0 with the caught exception's message, or "Unknown error" when that message is null |
| NewsRepository.Fetch | app/src/main/java/com/kiryusha/myapplication/repository/NewsRepository.kt:87-119 | success exactly on 2xx, with the body's non-null articles; every failure has code 0; the message is the fault's message, the plan-restriction text when the error body holds `corsNotAllowed`, or the prefix plus the status message |
| NewsRepository.GetTopHeadlines | app/src/main/java/com/kiryusha/myapplication/repository/NewsRepository.kt:87-119 | the same for headlines, with the "…only allows localhost requests…" text and the "API Error: " prefix |
| NewsRepository.SearchNews | app/src/main/java/com/kiryusha/myapplication/repository/NewsRepository.kt:122-142 | the same for search, with "Search blocked by CORS policy" and the "Search error: " prefix |
| NewsRepository.SuccessfulResponses | app/src/main/java/com/kiryusha/myapplication/repository/NewsRepository.kt:94-103 | a 2xx envelope listing `[A, null, B]` gives `[A, B]`; a missing body or missing list gives an empty result, not an error |
| NewsRepository.ServerOrderKept | app/src/main/java/com/kiryusha/myapplication/repository/NewsRepository.kt:127-130 | a successful result keeps the server's order: it is the filtered first stretch followed by the filtered second |
| NewsRepository.StatusCodeNotObservable | app/src/main/java/com/kiryusha/myapplication/repository/NewsRepository.kt:139-141 | two non-2xx responses that differ only in status code reach the caller as the same exception |
| NewsRepository.FetchKeepingStatus | app/src/main/java/com/kiryusha/myapplication/repository/NewsRepository.kt:110-118 | in the status-keeping variant, a non-2xx response fails with the HTTP status as its code; faults still get code 0 |
| NewsRepository.UnauthorizedLosesStatus | app/src/main/java/com/kiryusha/myapplication/repository/NewsRepository.kt:113-118 | a 401 reaches the caller as code 0 as written, and as 401 in the variant |
| NewsRepository.KeepingStatusChangesOnlyCode | app/src/main/java/com/kiryusha/myapplication/repository/NewsRepository.kt:116-118 | the two versions agree on success, on the articles and on every message |
| KotlinStd.Substring | app/src/main/java/com/kiryusha/myapplication/NewsDetailsActivity.kt:114 | `substring(start, end)` returns exactly when `0 <= start <= end <= length`, and then gives the characters at `start ..< end`; otherwise it throws |
| KotlinStd.Interpolate | app/src/main/java/com/kiryusha/myapplication/NewsDetailsActivity.kt:91 | a string template prints a present string as itself and a null as `null` |
| NewsDetails.FormatDate | app/src/main/java/com/kiryusha/myapplication/NewsDetailsActivity.kt:111-119 | null or shorter than ten characters gives "Unknown date"; otherwise the first ten characters; the output is always one of the two |
| NewsDetails.FormatDateReadsTenCharacters | app/src/main/java/com/kiryusha/myapplication/NewsDetailsActivity.kt:114 | only the first ten characters of a date matter, and a usable date differs in length from the fallback |
| NewsDetails.FormatIsoTimestamp | app/src/main/java/com/kiryusha/myapplication/NewsDetailsActivity.kt:114 | `2024-01-15T10:00:00Z` is shown as `2024-01-15` |
| NewsDetails.DisplayDetails | app/src/main/java/com/kiryusha/myapplication/NewsDetailsActivity.kt:56-59 | title or "No title"; description or "No description available"; "Source: " and the source name, or "Unknown" when the source or its name is null; "Published: " and the formatted date |
| NewsDetails.Share | app/src/main/java/com/kiryusha/myapplication/NewsDetailsActivity.kt:88-92 | the share intent is plain text with the title as subject; its body is the title, a blank line, then the url, with a null printed as `null` |
| NewsDetails.ShareTextHidesMissingTitle | app/src/main/java/com/kiryusha/myapplication/NewsDetailsActivity.kt:90-91 | a missing title and the title "null" share the same text but not the same subject |
| NewsDetails.OpenInBrowser | app/src/main/java/com/kiryusha/myapplication/NewsDetailsActivity.kt:100-109 | a null url gives "No URL available"; otherwise the url opens exactly when a browser is available; a toast is shown exactly when nothing opens |
| NewsAdapter.UpdateArticles | app/src/main/java/com/kiryusha/myapplication/adapters/NewsAdapter.kt:46-49 | after an update the list is the new one and `getItemCount` (`articles.size`, NewsAdapter.kt:44) is its length |
| NewsAdapter.RowLabels | app/src/main/java/com/kiryusha/myapplication/adapters/NewsAdapter.kt:25-42 | title or "No title"; description or "No description"; source name or "Unknown source", with no prefix; a tap hands over the bound article |
| NewsAdapter.Bind | app/src/main/java/com/kiryusha/myapplication/adapters/NewsAdapter.kt:25-26 | a position below the count shows the article at that position |
| NewsAdapter.LastUpdateWins | app/src/main/java/com/kiryusha/myapplication/adapters/NewsAdapter.kt:46-48 | the last update decides the rows, whatever was shown before |
| NewsAdapter.RowAgainstDetails | app/src/main/java/com/kiryusha/myapplication/adapters/NewsAdapter.kt:28-30 | a row and the detail screen agree on the title and on a present description; they differ on a missing description; the detail source is "Source: " plus the row's source only when the name is present |
| KotlinStd.Trim | app/src/main/java/com/kiryusha/myapplication/MainActivity.kt:77 | `trim` keeps a contiguous block of the text, drops only whitespace around it, and the block neither starts nor ends with whitespace |
| KotlinStd.TrimEmptyIffAllWhitespace | app/src/main/java/com/kiryusha/myapplication/MainActivity.kt:77-78 | the trimmed text is empty exactly when all of the text is whitespace |
| KotlinStd.TrimIdempotent | app/src/main/java/com/kiryusha/myapplication/MainActivity.kt:77 | trimming twice is trimming once |
| MainActivity.OnEditorAction | app/src/main/java/com/kiryusha/myapplication/MainActivity.kt:75-86 | the listener reports handled exactly for the search action, empty query included; it searches exactly for the search action with a non-blank text, and the query is the trimmed text |
| MainActivity.SubmittedQueryIsStable | app/src/main/java/com/kiryusha/myapplication/MainActivity.kt:77-80 | a submitted query is non-empty, has no whitespace at either end, and would be submitted again unchanged |
| KotlinStd.DecimalString | app/src/main/java/com/kiryusha/myapplication/MainActivity.kt:104 | a count renders as a non-empty run of decimal digits without a leading zero, and 0 as `0` |
| KotlinStd.DecimalStringRoundTrip | app/src/main/java/com/kiryusha/myapplication/MainActivity.kt:104 | the rendered count reads back as the same number |
| MainActivity.LoadNewsToast | app/src/main/java/com/kiryusha/myapplication/MainActivity.kt:101-110 | "No articles found" for an empty result; "Loaded N articles" otherwise; "Error loading news: " and the message, shown long, on failure |
| MainActivity.LoadedCountReadsBack | app/src/main/java/com/kiryusha/myapplication/MainActivity.kt:104 | the N in "Loaded N articles" reads back as the number of articles loaded |
| KotlinStd.DecimalStringInjective | app/src/main/java/com/kiryusha/myapplication/MainActivity.kt:104 | different article counts render differently, so different counts give different "Loaded N articles" toasts |
| MainActivity.SearchToast | app/src/main/java/com/kiryusha/myapplication/MainActivity.kt:127-134 | a search shows no toast exactly when it found something; "No results found for '<q>'" when empty; "Error searching news: " and the message on failure |
| MainActivity.RunLoad | app/src/main/java/com/kiryusha/myapplication/MainActivity.kt:92-113 | the spinner is on during the call and off afterwards on either path; the list is replaced on success and kept on failure; the dark-mode flag is untouched |
| MainActivity.LoadNews | app/src/main/java/com/kiryusha/myapplication/MainActivity.kt:89-115 | a headline load runs that cycle and ends with the load toast |
| MainActivity.PerformSearch | app/src/main/java/com/kiryusha/myapplication/MainActivity.kt:118-139 | a search runs that cycle and ends with the search toast, if any |
| MainActivity.Refresh | app/src/main/java/com/kiryusha/myapplication/MainActivity.kt:92-113 | from HTTP outcome to screen: the spinner is on during the call and off after; a 2xx shows the body's articles with the load toast for them; any failure keeps the old list; a transport fault shows "Error loading news: " and the fault's message or "Unknown error"; a restricted plan shows "Error loading news: " and the restriction text; any other non-2xx response shows "Error loading news: API Error: " and the status message; the dark-mode flag is untouched during and after |
| MainActivity.ScreenIgnoresStatusCode | app/src/main/java/com/kiryusha/myapplication/MainActivity.kt:107-110 | the main screen looks the same whether or not the repository keeps the HTTP status |
| MainActivity.OnOptionsItemSelected | app/src/main/java/com/kiryusha/myapplication/MainActivity.kt:155-170 | the dark-mode item flips the flag, checks the item to the new flag and applies the matching night mode; refresh starts a load; both are handled; other items go to the framework's handler |
| MainActivity.ToggleTwiceRestoresFlag | app/src/main/java/com/kiryusha/myapplication/MainActivity.kt:158-159 | within one screen, two dark-mode toggles restore the flag |
| MainActivity.NightModeFor | app/src/main/java/com/kiryusha/myapplication/MainActivity.kt:172-174 | the mode set is always an explicit one, never follow-system, and it is dark exactly when the flag is on, whatever the system theme |
| MainActivity.NewScreen | app/src/main/java/com/kiryusha/myapplication/MainActivity.kt:31 | a new main screen starts with the flag off, an empty list and no spinner, whatever the night mode |
| MainActivity.Launch | app/src/main/java/com/kiryusha/myapplication/MainActivity.kt:31 | at launch no night mode has been set, so the app follows the system theme, and the flag is off |
| MainActivity.ToggleDarkMode | app/src/main/java/com/kiryusha/myapplication/MainActivity.kt:155-176 | as written, the new night mode is the opposite of the old flag, and the re-created screen has its flag off |
| MainActivity.DarkModeNeverTurnsOff | app/src/main/java/com/kiryusha/myapplication/MainActivity.kt:158-175 | as written, a second toggle always lands on night mode again; after a toggle the check mark is off even when the screen is dark; on a dark system theme the first toggle after launch changes nothing on screen |
| MainActivity.NewScreenRestoring | app/src/main/java/com/kiryusha/myapplication/MainActivity.kt:31 | a re-created screen whose flag is read back from the theme it is drawn in |
| MainActivity.LaunchRestoring | app/src/main/java/com/kiryusha/myapplication/MainActivity.kt:31 | with the flag read from the theme, the launched app's check mark agrees with the theme on any device |
| MainActivity.RunSearch | app/src/main/java/com/kiryusha/myapplication/MainActivity.kt:118-139 | from HTTP outcome to screen for a search: the spinner is on during the call and off after; a 2xx shows the body's articles, and when there are none a short "No results found for '<q>'" toast with the query, otherwise no toast; any failure keeps the old list; a transport fault shows "Error searching news: " and the fault's message or "Unknown error"; a restricted plan shows "Error searching news: " and the restriction text; any other non-2xx response shows "Error searching news: Search error: " and the status message; the dark-mode flag is untouched during and after |
| MainActivity.ToggleDarkModeRestoring | app/src/main/java/com/kiryusha/myapplication/MainActivity.kt:158-175 | with the flag restored, a toggle keeps the check mark and the theme in agreement and always changes the theme on screen |
| MainActivity.ToggleRestoringTwice | app/src/main/java/com/kiryusha/myapplication/MainActivity.kt:158-160 | with the flag restored, two toggles bring back both the theme on screen and the flag |

## Findings

| source | as written | input that shows it | evidently intended | confidence | as-written member | corrected member |
|---|---|---|---|---|---|---|
| app/src/main/java/com/kiryusha/myapplication/repository/NewsRepository.kt:116-118 | `catch (e: Exception)` also catches the `ApiException(response.code(), …)` thrown at :111 and :113. It throws it again with code 0. | a 401 "Unauthorized" response with no error body gives `ApiException(0, "API Error: Unauthorized")` | the HTTP status passed at :111 and :113 reaches the caller, so the result is `ApiException(401, …)` | medium; not executed | NewsRepository.UnauthorizedLosesStatus | NewsRepository.FetchKeepingStatus |
| app/src/main/java/com/kiryusha/myapplication/MainActivity.kt:158-175 | the dark-mode flag is an instance field that starts at `false`. `recreate()` replaces the activity, so the new instance forgets that dark mode is on. | from launch (following the system theme), toggle twice: the night mode is YES after both toggles, and after the first the item is unchecked; on a dark system theme the first toggle changes nothing on screen | each toggle changes the theme on screen, so a second toggle turns dark mode off again | medium; not executed | MainActivity.DarkModeNeverTurnsOff | MainActivity.ToggleDarkModeRestoring, with MainActivity.ToggleRestoringTwice |

Today no screen shows the lost status code. `MainActivity.ScreenIgnoresStatusCode`
proves that the main screen looks the same under both repository versions.
So `LoadNews` and `PerformSearch` take the repository's result as a
parameter. `Refresh` composes `LoadNews` with `getTopHeadlines` as
written, and `RunSearch` composes `PerformSearch` with `searchNews` as
written.

## Left out

- The OkHttp/Retrofit client is not modelled: the header, response and
  logging interceptors, the timeouts and redirect handling
  (NewsRepository.kt:29-84). A request is a record and its outcome is an
  input. With redirects off, a 3xx is simply a non-2xx response.
- Retrofit's query-string rendering and percent-encoding are library
  behaviour. Parameters are kept as `(name, value)` pairs.
- JSON decoding and the `urlToImage` field mapping are not modelled. A
  decoded body is a `NewsResponse`, and a body that cannot be decoded is a
  `Fault`.
- An `IOException` from reading the error body is not a separate case. It
  reaches the same catch-all, so it is modelled as a `Fault` with that
  message.
- The `ApiException` class is not part of this model. It is assumed to
  extend `Exception`, so the catch-alls at NewsRepository.kt:116 and :139
  catch it, and its message is assumed to be the one it was constructed
  with.
- Logging (`Log.d`/`Log.e`) has no observable effect on results.
- Coroutines and `lifecycleScope` are not modelled. Each load is one
  function from the repository's result to the screen. A cancellation
  caught by the catch-alls is not modelled.
- The model uses no real `Char.isWhitespace`. `trim` takes the whitespace
  classification as a parameter.
- Some platform calls are out of scope: Glide image loading, intents and
  `Parcelable` transport, the chooser title, the bookmark toast, toolbar
  setup, menu inflation and `onCreateOptionsMenu`, and navigation from
  `onItemClick`. The same goes for the detail screen's missing-article path
  in `onCreate`.
- The system theme is a parameter (`systemDark`) of the dark-mode part.
  The model does not track a change of the system theme while the app runs.
- The model does not reproduce `recreate()` itself. It is shown only by its
  effect: the main screen is replaced by a fresh instance.
- KotlinStd.Substring: counts characters, while Kotlin's `substring` counts
  UTF-16 code units, so bounds and results differ on text with characters
  outside the Basic Multilingual Plane.
- NewsDetails.FormatDate: counts characters, while Kotlin's `substring`
  counts UTF-16 code units. A date with characters outside the Basic
  Multilingual Plane among its first ten would be cut at a different place.
- NewsApiService.GetTopHeadlines: only checks that the key reaches the
  request. The build-time key value is configuration and is not modelled.
