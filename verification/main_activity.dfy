/** The main screen: the search box, the headline and search loads with the
    messages they show, and the options menu. Toasts and the refresh spinner
    are part of the returned state instead of side effects. */
module MainActivity {
  import opened Wrappers
  import opened KotlinStd
  import opened NewsModel
  import NewsAdapter
  import NewsRepository

  /** Android's `EditorInfo.IME_ACTION_SEARCH`. */
  const ImeActionSearch := 3

  /** What the editor listener reports back (`true` = handled) and the query
      it hands to `performSearch`, if any. */
  datatype EditorOutcome = EditorOutcome(handled: bool, search: Option<string>)

  /** The `setOnEditorActionListener` lambda of `setupSearch`; `ws` is the
      whitespace classification `trim` uses. */
  function OnEditorAction(actionId: int, text: string, ws: char -> bool): (r: EditorOutcome)
    ensures r.handled <==> actionId == ImeActionSearch
    ensures r.search.Some? <==> actionId == ImeActionSearch && exists i :: 0 <= i < |text| && !ws(text[i])
    ensures r.search.Some? ==> r.search.value == Trim(text, ws)
  {
    TrimEmptyIffAllWhitespace(text, ws);
    if actionId == ImeActionSearch then
      var query := Trim(text, ws);
      EditorOutcome(true, if query != [] then Some(query) else None)
    else
      EditorOutcome(false, None)
  }

  /** A query that reaches the search has no whitespace at either end, and
      editing it again would submit it unchanged. */
  lemma SubmittedQueryIsStable(actionId: int, text: string, ws: char -> bool)
    requires OnEditorAction(actionId, text, ws).search.Some?
    ensures var q := OnEditorAction(actionId, text, ws).search.value;
      q != [] && !ws(q[0]) && !ws(q[|q| - 1]) && OnEditorAction(actionId, q, ws).search == Some(q)
  {
  }

  /** A toast: its text and whether it is shown for the long duration. */
  datatype Toast = Toast(text: string, long: bool)

  const LoadedPrefix := "Loaded "
  const LoadedSuffix := " articles"

  /** The toast `loadNews` ends with. */
  function LoadNewsToast(r: Result<seq<Article>, NewsRepository.ApiException>): (t: Toast)
    ensures r.Success? && r.value == [] ==> t == Toast("No articles found", false)
    ensures r.Success? && r.value != [] ==> t == Toast(LoadedPrefix + DecimalString(|r.value|) + LoadedSuffix, false)
    ensures r.Failure? ==> t == Toast("Error loading news: " + r.error.message, true)
  {
    match r
    case Success(xs) =>
      if xs == [] then Toast("No articles found", false)
      else Toast(LoadedPrefix + DecimalString(|xs|) + LoadedSuffix, false)
    case Failure(e) => Toast("Error loading news: " + e.message, true)
  }

  /** The count in "Loaded N articles" is the number of articles loaded: it
      reads back from the toast's text. */
  lemma {:induction false} LoadedCountReadsBack(xs: seq<Article>)
    requires xs != []
    ensures var text := LoadNewsToast(Success(xs)).text;
      |text| > |LoadedPrefix| + |LoadedSuffix|
      && ParseDecimal(text[|LoadedPrefix|..|text| - |LoadedSuffix|]) == |xs|
  {
    var digits := DecimalString(|xs|);
    var text := LoadedPrefix + digits + LoadedSuffix;
    assert text[|LoadedPrefix|..|text| - |LoadedSuffix|] == digits;
    DecimalStringRoundTrip(|xs|);
  }

  /** The toast `performSearch` ends with, if any: a non-empty result is
      shown without one. */
  function SearchToast(query: string, r: Result<seq<Article>, NewsRepository.ApiException>): (t: Option<Toast>)
    ensures t.None? <==> r.Success? && r.value != []
    ensures r.Success? && r.value == [] ==> t == Some(Toast("No results found for '" + query + "'", false))
    ensures r.Failure? ==> t == Some(Toast("Error searching news: " + r.error.message, true))
  {
    match r
    case Success(xs) => if xs == [] then Some(Toast("No results found for '" + query + "'", false)) else None
    case Failure(e) => Some(Toast("Error searching news: " + e.message, true))
  }

  /** The screen's state: the adapter, the swipe-refresh spinner and the
      dark-mode flag. */
  datatype Screen = Screen(adapter: NewsAdapter.State, refreshing: bool, darkModeEnabled: bool)

  /** A load seen from outside: the screen while the request is in flight,
      the screen once it has finished, and the toast shown. */
  datatype Load = Load(during: Screen, after: Screen, toast: Option<Toast>)

  /** The shared shape of `loadNews` and `performSearch`: spinner on, list
      replaced only on success, spinner off in `finally`. */
  function RunLoad(s: Screen, r: Result<seq<Article>, NewsRepository.ApiException>, toast: Option<Toast>): (l: Load)
    ensures l.during.refreshing && !l.after.refreshing
    ensures l.during.adapter == s.adapter && l.during.darkModeEnabled == s.darkModeEnabled
    ensures l.after.darkModeEnabled == s.darkModeEnabled
    ensures r.Success? ==> |l.after.adapter.articles| == |r.value| && l.after.adapter.articles == r.value
    ensures r.Failure? ==> l.after.adapter == s.adapter
    ensures l.toast == toast
  {
    var during := s.(refreshing := true);
    var adapter := match r
      case Success(xs) => NewsAdapter.UpdateArticles(s.adapter, xs)
      case Failure(_) => s.adapter;
    Load(during, during.(adapter := adapter, refreshing := false), toast)
  }

  /** `loadNews`, given what `getTopHeadlines` returned or threw. */
  function LoadNews(s: Screen, r: Result<seq<Article>, NewsRepository.ApiException>): (l: Load)
    ensures l.during.refreshing && !l.after.refreshing
    ensures l.during.adapter == s.adapter && l.during.darkModeEnabled == s.darkModeEnabled
    ensures l.after.darkModeEnabled == s.darkModeEnabled
    ensures r.Success? ==> l.after.adapter.articles == r.value
    ensures r.Failure? ==> l.after.adapter == s.adapter
    ensures l.toast == Some(LoadNewsToast(r))
  {
    RunLoad(s, r, Some(LoadNewsToast(r)))
  }

  /** `performSearch(query)`, given what `searchNews` returned or threw. */
  function PerformSearch(s: Screen, query: string, r: Result<seq<Article>, NewsRepository.ApiException>): (l: Load)
    ensures l.during.refreshing && !l.after.refreshing
    ensures l.during.adapter == s.adapter && l.during.darkModeEnabled == s.darkModeEnabled
    ensures l.after.darkModeEnabled == s.darkModeEnabled
    ensures r.Success? ==> l.after.adapter.articles == r.value
    ensures r.Failure? ==> l.after.adapter == s.adapter
    ensures l.toast == SearchToast(query, r)
  {
    RunLoad(s, r, SearchToast(query, r))
  }

  /** A headline refresh end to end, from the HTTP outcome to the screen. */
  function Refresh(s: Screen, o: NewsRepository.Outcome): (l: Load)
    ensures l.during.refreshing && !l.after.refreshing
    ensures l.during.adapter == s.adapter && l.during.darkModeEnabled == s.darkModeEnabled
    ensures l.after.darkModeEnabled == s.darkModeEnabled
    ensures o.IsSuccessful() ==> l.after.adapter.articles == NewsRepository.ArticlesOf(o.body)
    ensures o.IsSuccessful() ==> l.toast == Some(LoadNewsToast(Success(NewsRepository.ArticlesOf(o.body))))
    ensures !o.IsSuccessful() ==> l.after.adapter == s.adapter
    ensures o.Fault? ==> l.toast == Some(Toast("Error loading news: " + o.cause.GetOr("Unknown error"), true))
    ensures o.Response? && !o.IsSuccessful() && NewsRepository.CorsBlocked(o.errorBody) ==>
      l.toast == Some(Toast("Error loading news: " + NewsRepository.HeadlinesCorsMessage, true))
    ensures o.Response? && !o.IsSuccessful() && !NewsRepository.CorsBlocked(o.errorBody) ==>
      l.toast == Some(Toast("Error loading news: API Error: " + o.message, true))
  {
    assert o.Response? ==> "Error loading news: " + ("API Error: " + o.message) == "Error loading news: API Error: " + o.message;
    LoadNews(s, NewsRepository.GetTopHeadlines(o))
  }

  /** A search end to end, from the HTTP outcome of the `everything`
      request to the screen. */
  function RunSearch(s: Screen, query: string, o: NewsRepository.Outcome): (l: Load)
    ensures l.during.refreshing && !l.after.refreshing
    ensures l.during.adapter == s.adapter && l.during.darkModeEnabled == s.darkModeEnabled
    ensures l.after.darkModeEnabled == s.darkModeEnabled
    ensures o.IsSuccessful() ==> l.after.adapter.articles == NewsRepository.ArticlesOf(o.body)
    ensures o.IsSuccessful() ==> (l.toast.None? <==> NewsRepository.ArticlesOf(o.body) != [])
    ensures o.IsSuccessful() ==> l.toast == SearchToast(query, Success(NewsRepository.ArticlesOf(o.body)))
    ensures !o.IsSuccessful() ==> l.after.adapter == s.adapter
    ensures o.Fault? ==> l.toast == Some(Toast("Error searching news: " + o.cause.GetOr("Unknown error"), true))
    ensures o.Response? && !o.IsSuccessful() && NewsRepository.CorsBlocked(o.errorBody) ==>
      l.toast == Some(Toast("Error searching news: " + NewsRepository.SearchCorsMessage, true))
    ensures o.Response? && !o.IsSuccessful() && !NewsRepository.CorsBlocked(o.errorBody) ==>
      l.toast == Some(Toast("Error searching news: Search error: " + o.message, true))
  {
    assert o.Response? ==> "Error searching news: " + ("Search error: " + o.message) == "Error searching news: Search error: " + o.message;
    PerformSearch(s, query, NewsRepository.SearchNews(o))
  }

  /** The status code the repository drops was never shown: with the
      status-preserving repository the screen would look the same. */
  lemma ScreenIgnoresStatusCode(s: Screen, query: string, o: NewsRepository.Outcome)
    ensures LoadNews(s, NewsRepository.Fetch(NewsRepository.Headlines, o))
         == LoadNews(s, NewsRepository.FetchKeepingStatus(NewsRepository.Headlines, o))
    ensures PerformSearch(s, query, NewsRepository.Fetch(NewsRepository.Search, o))
         == PerformSearch(s, query, NewsRepository.FetchKeepingStatus(NewsRepository.Search, o))
  {
  }

  // ---- Options menu and dark mode ----

  datatype MenuItem = DarkModeItem | RefreshItem | OtherItem

  /** `AppCompatDelegate`'s default night mode. An app that has never set
      it follows the system theme. */
  datatype NightMode = NightFollowSystem | NightYes | NightNo

  /** Whether the screen is drawn dark, given whether the system theme is
      dark. */
  predicate IsDark(mode: NightMode, systemDark: bool) {
    match mode
    case NightYes => true
    case NightNo => false
    case NightFollowSystem => systemDark
  }

  /** `setDarkModeEnabled`'s choice of mode: always an explicit one, dark
      exactly when the flag is on, whatever the system theme. */
  function NightModeFor(enabled: bool): (mode: NightMode)
    ensures mode != NightFollowSystem
    ensures forall systemDark :: IsDark(mode, systemDark) == enabled
  {
    if enabled then NightYes else NightNo
  }

  /** What selecting a menu item triggers beyond the screen state. */
  datatype MenuEffect = ApplyNightMode(mode: NightMode) | StartLoad | Delegate

  /** `handled` is the listener's return value; `checked` is what the item's
      check mark is set to, when it is set. */
  datatype MenuOutcome = MenuOutcome(screen: Screen, checked: Option<bool>, effect: MenuEffect, handled: bool)

  /** `onOptionsItemSelected`; `superHandled` is what the framework's default
      handler returns for items this screen does not know. */
  function OnOptionsItemSelected(s: Screen, item: MenuItem, superHandled: bool): (m: MenuOutcome)
    ensures item == DarkModeItem ==>
      && m.screen == s.(darkModeEnabled := !s.darkModeEnabled)
      && m.checked == Some(m.screen.darkModeEnabled)
      && m.effect == ApplyNightMode(NightModeFor(m.screen.darkModeEnabled))
    ensures item == RefreshItem ==> m.screen == s && m.checked.None? && m.effect == StartLoad
    ensures item == OtherItem ==> m.screen == s && m.checked.None? && m.effect == Delegate
    ensures m.handled <==> item != OtherItem || superHandled
  {
    match item
    case DarkModeItem =>
      var enabled := !s.darkModeEnabled;
      MenuOutcome(s.(darkModeEnabled := enabled), Some(enabled), ApplyNightMode(NightModeFor(enabled)), true)
    case RefreshItem => MenuOutcome(s, None, StartLoad, true)
    case OtherItem => MenuOutcome(s, None, Delegate, superHandled)
  }

  /** Within one screen, two dark-mode toggles restore the flag. */
  lemma ToggleTwiceRestoresFlag(s: Screen, superHandled: bool)
    ensures OnOptionsItemSelected(OnOptionsItemSelected(s, DarkModeItem, superHandled).screen, DarkModeItem, superHandled).screen == s
  {
  }

  /** The app-wide night mode together with the live main screen. */
  datatype App = App(nightMode: NightMode, screen: Screen)

  /** A freshly created main screen, before its first load: the field
      initialiser sets the flag to false whatever the night mode is. */
  function NewScreen(nightMode: NightMode): (s: Screen)
    ensures !s.darkModeEnabled && !s.refreshing && |s.adapter.articles| == 0
  {
    Screen(NewsAdapter.Empty, false, false)
  }

  /** The app as launched: nothing has set a night mode yet. */
  function Launch(): (app: App)
    ensures app.nightMode == NightFollowSystem && !app.screen.darkModeEnabled
  {
    App(NightFollowSystem, NewScreen(NightFollowSystem))
  }

  /** The check mark agrees with the theme on screen. */
  predicate Consistent(app: App, systemDark: bool) {
    app.screen.darkModeEnabled <==> IsDark(app.nightMode, systemDark)
  }

  /** Selecting the dark-mode item as written: flip the flag, set the
      default night mode from it, then `recreate()` replaces the screen with
      a new instance. */
  function ToggleDarkMode(app: App): (app': App)
    ensures app'.nightMode == NightModeFor(!app.screen.darkModeEnabled)
    ensures !app'.screen.darkModeEnabled
  {
    var m := OnOptionsItemSelected(app.screen, DarkModeItem, true);
    App(m.effect.mode, NewScreen(m.effect.mode))
  }

  /** As written, dark mode can be switched on but never off: every toggle
      after the first lands on night mode again, with the check mark off.
      On a device whose system theme is dark, the first toggle after launch
      changes nothing on screen either. */
  lemma DarkModeNeverTurnsOff(app: App, systemDark: bool)
    ensures ToggleDarkMode(ToggleDarkMode(app)).nightMode == NightYes
    ensures IsDark(ToggleDarkMode(ToggleDarkMode(app)).nightMode, systemDark)
    ensures !Consistent(ToggleDarkMode(app), systemDark) || !IsDark(ToggleDarkMode(app).nightMode, systemDark)
    ensures Consistent(Launch(), false) && !Consistent(ToggleDarkMode(Launch()), false)
    ensures IsDark(Launch().nightMode, true) && IsDark(ToggleDarkMode(Launch()).nightMode, true)
  {
  }

  /** A new screen that takes its flag from the theme it is drawn in. */
  function NewScreenRestoring(nightMode: NightMode, systemDark: bool): (s: Screen)
    ensures s.darkModeEnabled <==> IsDark(nightMode, systemDark)
    ensures !s.refreshing && |s.adapter.articles| == 0
  {
    Screen(NewsAdapter.Empty, false, IsDark(nightMode, systemDark))
  }

  /** The launch with the flag read from the theme: consistent on any
      device. */
  function LaunchRestoring(systemDark: bool): (app: App)
    ensures app.nightMode == NightFollowSystem && Consistent(app, systemDark)
  {
    App(NightFollowSystem, NewScreenRestoring(NightFollowSystem, systemDark))
  }

  /** The toggle with the flag restored on re-creation. */
  function ToggleDarkModeRestoring(app: App, systemDark: bool): (app': App)
    requires Consistent(app, systemDark)
    ensures Consistent(app', systemDark)
    ensures IsDark(app'.nightMode, systemDark) != IsDark(app.nightMode, systemDark)
  {
    var m := OnOptionsItemSelected(app.screen, DarkModeItem, true);
    App(m.effect.mode, NewScreenRestoring(m.effect.mode, systemDark))
  }

  /** With the flag restored, two toggles bring the theme on screen and the
      check mark back to where they were. */
  lemma ToggleRestoringTwice(app: App, systemDark: bool)
    requires Consistent(app, systemDark)
    ensures var twice := ToggleDarkModeRestoring(ToggleDarkModeRestoring(app, systemDark), systemDark);
      IsDark(twice.nightMode, systemDark) == IsDark(app.nightMode, systemDark)
      && twice.screen.darkModeEnabled == app.screen.darkModeEnabled
  {
  }
}
