/** widgets.py: showing a cached feed page by page, fetching and refreshing the feed on
    screen, the automatic choice of a feed to show, and the feed manager's and saved-lists
    window's operations, which persist every change through `save_config`. */
module Widgets {
  import opened Wrappers
  import opened Config
  import Rss
  import PyStr
  import Pagination
  import FeedList

  /** `ALL_ARTICLES.get(url, [])`. */
  function Cached(articles: map<string, seq<Rss.Entry>>, url: string): seq<Rss.Entry> {
    if url in articles then articles[url] else []
  }

  /** `display_page(container, name, feed_url, page_number)`: shows the requested page of the
      cached entries and leaves `CURRENT_PAGE` at the page actually shown. */
  method DisplayPage(app: AppState, feedUrl: string, pageNumber: int) returns (view: Pagination.PageView<Rss.Entry>)
    modifies app`currentPage
    ensures view == Pagination.Show(Cached(app.allArticles, feedUrl), pageNumber)
    ensures app.currentPage == view.page
  {
    app.currentPage := pageNumber;
    var entries := Cached(app.allArticles, feedUrl);
    view := Pagination.Show(entries, pageNumber);
    app.currentPage := view.page;
  }

  /** The display state after `fetch_and_display_news(url, ...)` when the parser yields
      `parse`: the feed becomes the active one in any case; a successful fetch replaces
      its cached entries and returns to page 1. */
  function Fetched(v: FeedView, url: string, parse: Rss.ParseResult): FeedView {
    match Rss.FetchFeedEntries(parse, 100)
    case Success(entries) => FeedView(Some(url), v.allArticles[url := entries], 1)
    case Failure(_) => v.(activeFeedUrl := Some(url))
  }

  /** `fetch_and_display_news(feed_url, ...)`: returns the page shown, or `None` when the
      fetch failed (the error message). */
  method FetchAndDisplayNews(app: AppState, feedUrl: string, parse: Rss.ParseResult)
    returns (shown: Option<Pagination.PageView<Rss.Entry>>)
    modifies app`activeFeedUrl, app`allArticles, app`currentPage
    ensures app.View() == Fetched(old(app.View()), feedUrl, parse)
    ensures shown.Some? <==> Rss.FetchFeedEntries(parse, 100).Success?
    ensures shown.Some? ==> shown.value == Pagination.Show(app.allArticles[feedUrl], 1)
  {
    app.activeFeedUrl := Some(feedUrl);
    var fetched := Rss.FetchFeedEntries(parse, 100);
    match fetched {
      case Success(entries) =>
        app.allArticles := app.allArticles[feedUrl := entries];
        app.currentPage := 1;
        var view := DisplayPage(app, feedUrl, app.currentPage);
        shown := Some(view);
      case Failure(_) =>
        shown := None;
    }
  }

  /** The feed `update_category_buttons` loads on its own: the first feed, when there are
      feeds and the active url is not among them. */
  function AutoLoadTarget(feeds: seq<Feed>, active: Option<string>): Option<Feed> {
    if feeds == [] then None
    else if active.Some? && active.value in FeedList.Urls(feeds) then None
    else Some(feeds[0])
  }

  /** The display state after `update_category_buttons` with feeds `feeds`. */
  function AfterButtons(feeds: seq<Feed>, v: FeedView, parse: Rss.ParseResult): FeedView {
    match AutoLoadTarget(feeds, v.activeFeedUrl)
    case None => v
    case Some(f) => Fetched(v, f.url, parse)
  }

  /** After the buttons are rebuilt over a non-empty list, the active url is one of its feeds',
      and rebuilding them again loads nothing; with no feeds, or with the active feed still
      listed, nothing is loaded. */
  lemma AutoLoadSettles(feeds: seq<Feed>, v: FeedView, parse: Rss.ParseResult, again: Rss.ParseResult)
    ensures feeds == [] ==> AfterButtons(feeds, v, parse) == v
    ensures v.activeFeedUrl.Some? && v.activeFeedUrl.value in FeedList.Urls(feeds) ==> AfterButtons(feeds, v, parse) == v
    ensures feeds != [] ==>
      var w := AfterButtons(feeds, v, parse);
      && w.activeFeedUrl.Some? && w.activeFeedUrl.value in FeedList.Urls(feeds)
      && AfterButtons(feeds, w, again) == w
  {
    if feeds != [] && AutoLoadTarget(feeds, v.activeFeedUrl).Some? {
      assert FeedList.Urls(feeds)[0] == feeds[0].url;
    }
  }

  /** `update_category_buttons(...)`: returns the feed loaded automatically, if any. */
  method UpdateCategoryButtons(app: AppState, parse: Rss.ParseResult) returns (loaded: Option<Feed>)
    modifies app`activeFeedUrl, app`allArticles, app`currentPage
    ensures loaded == AutoLoadTarget(app.currentFeeds, old(app.activeFeedUrl))
    ensures app.View() == AfterButtons(app.currentFeeds, old(app.View()), parse)
  {
    if app.currentFeeds == [] {
      return None;
    }
    var feedUrls := FeedList.Urls(app.currentFeeds);
    if app.activeFeedUrl.None? || app.activeFeedUrl.value !in feedUrls {
      var first := app.currentFeeds[0];
      var _ := FetchAndDisplayNews(app, first.url, parse);
      loaded := Some(first);
    } else {
      loaded := None;
    }
  }

  /** The `save_config()` then `update_category_buttons(...)` that ends every change the feed
      manager and the saved-lists window make to the current feeds. */
  method SaveAndRebuild(app: AppState, parse: Rss.ParseResult)
    modifies app
    ensures app.Lists() == Persisted(old(app.Lists()))
    ensures app.View() == AfterButtons(app.currentFeeds, old(app.View()), parse)
    ensures app.Preferences() == old(app.Preferences())
  {
    var _ := app.SaveConfig();
    var _ := UpdateCategoryButtons(app, parse);
  }

  /** `CURRENT_FEEDS` takes its new value, then the save and rebuild follow. */
  method ReplaceAndSave(app: AppState, feeds: seq<Feed>, parse: Rss.ParseResult)
    modifies app
    ensures app.Lists() == Persisted(old(app.Lists()).(currentFeeds := feeds))
    ensures app.View() == AfterButtons(feeds, old(app.View()), parse)
    ensures app.Preferences() == old(app.Preferences())
  {
    app.currentFeeds := feeds;
    SaveAndRebuild(app, parse);
  }

  /** The title `periodic_refresh` shows: the name of the first feed with the url, or "Refreshed Feed". */
  function RefreshTitle(feeds: seq<Feed>, url: string): string {
    var i := FeedList.IndexOfUrl(feeds, url);
    if i < 0 then "Refreshed Feed" else feeds[i].name
  }

  /** The early-exit scan in `periodic_refresh` for the active feed's name. */
  method CategoryNameFor(feeds: seq<Feed>, activeUrl: string) returns (categoryName: string)
    ensures categoryName == RefreshTitle(feeds, activeUrl)
    ensures activeUrl !in FeedList.Urls(feeds) <==> categoryName == "Refreshed Feed" && forall f :: f in feeds ==> f.url != activeUrl
  {
    categoryName := "Refreshed Feed";
    var i := 0;
    while i < |feeds|
      invariant 0 <= i <= |feeds|
      invariant forall j :: 0 <= j < i ==> feeds[j].url != activeUrl
    {
      if feeds[i].url == activeUrl {
        categoryName := feeds[i].name;
        assert FeedList.Urls(feeds)[i] == activeUrl;
        return;
      }
      i := i + 1;
    }
  }

  datatype RefreshOutcome =
    | NothingShown
    | Refreshed(title: string, view: Pagination.PageView<Rss.Entry>)
    | RefreshFailed(title: string, error: Rss.FetchError)

  /** One `periodic_refresh()`: when a feed is on screen (`containerLive` stands for the live
      container) it is fetched again; success replaces only that feed's cached entries and
      redraws at the safe page, failure changes nothing. Rescheduling is not modelled. */
  method PeriodicRefresh(app: AppState, containerLive: bool, parse: Rss.ParseResult) returns (outcome: RefreshOutcome)
    modifies app`allArticles, app`currentPage
    ensures outcome.NothingShown? <==> !(Truthy(app.activeFeedUrl) && containerLive)
    ensures !outcome.NothingShown? ==> outcome.title == RefreshTitle(app.currentFeeds, app.activeFeedUrl.value)
    ensures outcome.Refreshed? ==>
      var entries := Rss.FetchFeedEntries(parse, 100);
      && entries.Success?
      && app.allArticles == old(app.allArticles)[app.activeFeedUrl.value := entries.value]
      && outcome.view == Pagination.Show(entries.value, Pagination.SafePage(old(app.currentPage), |entries.value|))
      && app.currentPage == outcome.view.page
    ensures outcome.RefreshFailed? ==> Rss.FetchFeedEntries(parse, 100) == Failure(outcome.error)
    ensures !outcome.Refreshed? ==> app.allArticles == old(app.allArticles) && app.currentPage == old(app.currentPage)
  {
    if !(Truthy(app.activeFeedUrl) && containerLive) {
      return NothingShown;
    }
    var url := app.activeFeedUrl.value;
    var categoryName := CategoryNameFor(app.currentFeeds, url);
    var fetched := Rss.FetchFeedEntries(parse, 100);
    match fetched {
      case Success(entries) =>
        app.allArticles := app.allArticles[url := entries];
        var totalArticles := |entries|;
        var safePage := Pagination.SafePage(app.currentPage, totalArticles);
        var view := DisplayPage(app, url, safePage);
        outcome := Refreshed(categoryName, view);
      case Failure(e) =>
        outcome := RefreshFailed(categoryName, e);
    }
  }

  /** The name `move_feed` and `remove_feed` act on: the selected line's text before ':'. */
  function SelectedName(selected: Option<string>): string
    requires selected.Some?
  {
    FeedList.LineName(selected.value)
  }

  datatype MoveOutcome = NoSelection | NameNotFound | OutOfRange | MovedTo(index: nat)

  /** `move_feed(..., direction, ...)`: moves the selected feed by `direction` places when the
      target position exists, then saves and rebuilds the buttons; otherwise nothing changes.
      `selectedName` is the name read from the selected line (`SelectedName`), `None` when
      nothing is selected. */
  method MoveFeed(app: AppState, selectedName: Option<string>, direction: int, parse: Rss.ParseResult)
    returns (outcome: MoveOutcome)
    modifies app
    ensures outcome.NoSelection? <==> selectedName.None?
    ensures outcome.NameNotFound? <==>
      selectedName.Some? && FeedList.IndexOfName(old(app.currentFeeds), selectedName.value) == -1
    ensures outcome.MovedTo? <==>
      selectedName.Some? && var i := FeedList.IndexOfName(old(app.currentFeeds), selectedName.value);
      i >= 0 && 0 <= i + direction < |old(app.currentFeeds)|
    ensures outcome.MovedTo? ==>
      var i := FeedList.IndexOfName(old(app.currentFeeds), selectedName.value);
      && outcome.index == i + direction
      && app.Lists() == Persisted(old(app.Lists()).(currentFeeds := FeedList.Moved(old(app.currentFeeds), i, i + direction)))
      && app.View() == AfterButtons(app.currentFeeds, old(app.View()), parse)
    ensures !outcome.MovedTo? ==> app.Lists() == old(app.Lists()) && app.View() == old(app.View())
    ensures app.Preferences() == old(app.Preferences())
  {
    if selectedName.None? {
      return NoSelection;
    }
    var currentIndex := FeedList.GetFeedListIndexByName(app.currentFeeds, selectedName.value);
    if currentIndex == -1 {
      return NameNotFound;
    }
    var newIndex := currentIndex + direction;
    if 0 <= newIndex < |app.currentFeeds| {
      ReplaceAndSave(app, FeedList.Moved(app.currentFeeds, currentIndex, newIndex), parse);
      outcome := MovedTo(newIndex);
    } else {
      outcome := OutOfRange;
    }
  }

  datatype AddOutcome = AddCancelled | DuplicateName | Added

  /** `add_feed(...)`: both answers must be non-empty; the stripped name must be new; the feed
      is appended, saved, and the buttons rebuilt. */
  method AddFeed(app: AppState, nameAnswer: Option<string>, urlAnswer: Option<string>, parse: Rss.ParseResult)
    returns (outcome: AddOutcome)
    modifies app
    ensures outcome.AddCancelled? <==> !Truthy(nameAnswer) || !Truthy(urlAnswer)
    ensures outcome.DuplicateName? <==>
      Truthy(nameAnswer) && Truthy(urlAnswer) && PyStr.Strip(nameAnswer.value) in FeedList.Names(old(app.currentFeeds))
    ensures outcome.Added? ==>
      var f := Feed(PyStr.Strip(nameAnswer.value), PyStr.Strip(urlAnswer.value));
      && app.Lists() == Persisted(old(app.Lists()).(currentFeeds := old(app.currentFeeds) + [f]))
      && app.View() == AfterButtons(app.currentFeeds, old(app.View()), parse)
    ensures !outcome.Added? ==> app.Lists() == old(app.Lists()) && app.View() == old(app.View())
    ensures app.Preferences() == old(app.Preferences())
  {
    if !Truthy(nameAnswer) || !Truthy(urlAnswer) {
      return AddCancelled;
    }
    var name := PyStr.Strip(nameAnswer.value);
    var url := PyStr.Strip(urlAnswer.value);
    var existingNames := FeedList.Names(app.currentFeeds);
    if name in existingNames {
      return DuplicateName;
    }
    app.currentFeeds := app.currentFeeds + [Feed(name, url)];
    SaveAndRebuild(app, parse);
    outcome := Added;
  }

  datatype EditOutcome =
    | EditNoSelection
    | InvalidItem
    | EditCancelled
    | NameTaken
    | EditNameNotFound
    | Edited(index: nat, clearsDisplay: bool)

  /** `edit_feed(...)`: reads `(old_name, old_url)` back from the selected line, asks for the new
      name and url, refuses a name another feed has, replaces the feed in place, moves the
      cached entries to the new url, saves and rebuilds the buttons. The display is cleared when
      the edited feed was on screen and its url changed. */
  method EditFeed(app: AppState, selected: Option<string>, nameAnswer: Option<string>, urlAnswer: Option<string>,
                  parse: Rss.ParseResult)
    returns (outcome: EditOutcome)
    modifies app
    ensures outcome.EditNoSelection? <==> selected.None?
    ensures outcome.InvalidItem? <==> selected.Some? && FeedList.ParseFeedLine(selected.value).None?
    ensures outcome.EditCancelled? <==>
      selected.Some? && FeedList.ParseFeedLine(selected.value).Some? && (!Truthy(nameAnswer) || !Truthy(urlAnswer))
    ensures outcome.NameTaken? <==>
      && selected.Some? && FeedList.ParseFeedLine(selected.value).Some? && Truthy(nameAnswer) && Truthy(urlAnswer)
      && PyStr.Strip(nameAnswer.value) != FeedList.ParseFeedLine(selected.value).value.name
      && PyStr.Strip(nameAnswer.value) in FeedList.Names(old(app.currentFeeds))
    ensures outcome.EditNameNotFound? <==>
      && selected.Some? && FeedList.ParseFeedLine(selected.value).Some? && Truthy(nameAnswer) && Truthy(urlAnswer)
      && !outcome.NameTaken?
      && FeedList.IndexOfName(old(app.currentFeeds), FeedList.ParseFeedLine(selected.value).value.name) == -1
    ensures outcome.Edited? ==>
      var old' := FeedList.ParseFeedLine(selected.value).value;
      var f := Feed(PyStr.Strip(nameAnswer.value), PyStr.Strip(urlAnswer.value));
      && Truthy(nameAnswer) && Truthy(urlAnswer)
      && (f.name == old'.name || f.name !in FeedList.Names(old(app.currentFeeds)))
      && outcome.index == FeedList.IndexOfName(old(app.currentFeeds), old'.name)
      && app.Lists() == Persisted(old(app.Lists()).(currentFeeds := old(app.currentFeeds)[outcome.index := f]))
      && app.View() == AfterButtons(app.currentFeeds,
                                    old(app.View()).(allArticles := FeedList.Rekeyed(old(app.allArticles), old'.url, f.url)),
                                    parse)
      && (outcome.clearsDisplay <==> old(app.activeFeedUrl) == Some(old'.url) && old'.url != f.url)
    ensures !outcome.Edited? ==> app.Lists() == old(app.Lists()) && app.View() == old(app.View())
    ensures app.Preferences() == old(app.Preferences())
  {
    if selected.None? {
      return EditNoSelection;
    }
    var parsed := FeedList.ParseFeedLine(selected.value);
    if parsed.None? {
      return InvalidItem;
    }
    var oldName, oldUrl := parsed.value.name, parsed.value.url;
    if !Truthy(nameAnswer) || !Truthy(urlAnswer) {
      return EditCancelled;
    }
    var newName := PyStr.Strip(nameAnswer.value);
    var newUrl := PyStr.Strip(urlAnswer.value);
    if newName != oldName && newName in FeedList.Names(app.currentFeeds) {
      return NameTaken;
    }
    var currentIndex := FeedList.GetFeedListIndexByName(app.currentFeeds, oldName);
    if currentIndex == -1 {
      return EditNameNotFound;
    }
    var wasActive := app.activeFeedUrl == Some(oldUrl);
    ReplaceFeed(app, currentIndex, Feed(newName, newUrl), oldUrl, parse);
    outcome := Edited(currentIndex, wasActive && oldUrl != newUrl);
  }

  /** The update `edit_feed` makes once the edit is accepted: the feed at `index` is replaced,
      the cached entries follow the url, then the change is saved and the buttons rebuilt. */
  method ReplaceFeed(app: AppState, index: nat, f: Feed, oldUrl: string, parse: Rss.ParseResult)
    requires index < |app.currentFeeds|
    requires f.name == app.currentFeeds[index].name || f.name !in FeedList.Names(app.currentFeeds)
    modifies app
    ensures app.Lists() == Persisted(old(app.Lists()).(currentFeeds := old(app.currentFeeds)[index := f]))
    ensures app.View() == AfterButtons(app.currentFeeds,
                                       old(app.View()).(allArticles := FeedList.Rekeyed(old(app.allArticles), oldUrl, f.url)),
                                       parse)
    ensures app.Preferences() == old(app.Preferences())
  {
    app.currentFeeds := app.currentFeeds[index := f];
    app.allArticles := FeedList.Rekeyed(app.allArticles, oldUrl, f.url);
    SaveAndRebuild(app, parse);
  }

  datatype RemoveOutcome = RemoveNoSelection | NotRemoved | Removed(index: nat)

  /** `remove_feed(...)`: deletes the selected feed when it is found and the user confirms,
      then saves and rebuilds the buttons. */
  method RemoveFeed(app: AppState, selected: Option<string>, confirm: bool, parse: Rss.ParseResult)
    returns (outcome: RemoveOutcome)
    modifies app
    ensures outcome.RemoveNoSelection? <==> selected.None?
    ensures outcome.Removed? <==>
      selected.Some? && FeedList.IndexOfName(old(app.currentFeeds), SelectedName(selected)) != -1 && confirm
    ensures outcome.Removed? ==>
      && outcome.index == FeedList.IndexOfName(old(app.currentFeeds), SelectedName(selected))
      && app.Lists() == Persisted(old(app.Lists()).(currentFeeds := FeedList.Removed(old(app.currentFeeds), outcome.index)))
      && app.View() == AfterButtons(app.currentFeeds, old(app.View()), parse)
    ensures !outcome.Removed? ==> app.Lists() == old(app.Lists()) && app.View() == old(app.View())
    ensures app.Preferences() == old(app.Preferences())
  {
    if selected.None? {
      return RemoveNoSelection;
    }
    var name := FeedList.LineName(selected.value);
    outcome := RemoveNamed(app, name, confirm, parse);
  }

  /** The part of `remove_feed` after the selection is read: find the name, delete it once confirmed. */
  method RemoveNamed(app: AppState, name: string, confirm: bool, parse: Rss.ParseResult)
    returns (outcome: RemoveOutcome)
    modifies app
    ensures !outcome.RemoveNoSelection?
    ensures outcome.Removed? <==> FeedList.IndexOfName(old(app.currentFeeds), name) != -1 && confirm
    ensures outcome.Removed? ==>
      && outcome.index == FeedList.IndexOfName(old(app.currentFeeds), name)
      && app.Lists() == Persisted(old(app.Lists()).(currentFeeds := FeedList.Removed(old(app.currentFeeds), outcome.index)))
      && app.View() == AfterButtons(app.currentFeeds, old(app.View()), parse)
    ensures !outcome.Removed? ==> app.Lists() == old(app.Lists()) && app.View() == old(app.View())
    ensures app.Preferences() == old(app.Preferences())
  {
    var currentIndex := FeedList.GetFeedListIndexByName(app.currentFeeds, name);
    if currentIndex != -1 && confirm {
      ReplaceAndSave(app, FeedList.Removed(app.currentFeeds, currentIndex), parse);
      outcome := Removed(currentIndex);
    } else {
      outcome := NotRemoved;
    }
  }

  datatype SaveOutcome = SaveCancelled | EmptyList | SavedAs(name: string)

  /** `save_current_list()`: stores a copy of the current feeds under the answered name (not
      stripped) unless the answer is empty or there are no feeds, then saves. */
  method SaveCurrentList(app: AppState, nameAnswer: Option<string>) returns (outcome: SaveOutcome)
    modifies app
    ensures outcome.SaveCancelled? <==> !Truthy(nameAnswer)
    ensures outcome.EmptyList? <==> Truthy(nameAnswer) && old(app.currentFeeds) == []
    ensures outcome.SavedAs? ==>
      && outcome.name == nameAnswer.value
      && app.Lists() == Persisted(old(app.Lists()).(savedLists := old(app.savedLists)[outcome.name := Pairs(old(app.currentFeeds))]))
    ensures !outcome.SavedAs? ==> app.Lists() == old(app.Lists())
    ensures app.View() == old(app.View()) && app.Preferences() == old(app.Preferences())
  {
    if !Truthy(nameAnswer) {
      return SaveCancelled;
    }
    if app.currentFeeds == [] {
      return EmptyList;
    }
    var listName := nameAnswer.value;
    app.savedLists := app.savedLists[listName := Pairs(app.currentFeeds)];
    var _ := app.SaveConfig();
    outcome := SavedAs(listName);
  }

  /** The saved-lists window's line for a list: its name, marked " (Default)" for the default list. */
  function SavedListLine(name: string, defaultName: string): string {
    if name == defaultName then name + " (Default)" else name
  }

  /** The list name `load_list`, `set_default_list` and `delete_list` read from a line. */
  function SelectedListName(line: string): string {
    PyStr.Strip(PyStr.Head(line, " (Default)"))
  }

  /** The " (Default)" marker cannot overlap a shifted copy of itself. */
  lemma DefaultMarkerFresh()
    ensures PyStr.FreshStart(" (Default)")
  {
    var p := " (Default)";
    forall k | 0 < k < |p| ensures p[k] != p[0] { }
  }

  /** A list name without " (Default)" and without surrounding whitespace is read back from its line. */
  lemma SavedListLineRoundTrip(name: string, defaultName: string)
    requires !PyStr.Contains(name, " (Default)") && PyStr.Trimmed(name)
    ensures SelectedListName(SavedListLine(name, defaultName)) == name
  {
    PyStr.StripTrimmed(name);
    if name == defaultName {
      DefaultMarkerFresh();
      PyStr.HeadAtMarker(name, " (Default)", "");
      assert name + " (Default)" + "" == SavedListLine(name, defaultName);
    }
  }

  datatype LoadOutcome = LoadNoSelection | NotLoaded | Loaded(name: string)

  /** `load_list(...)`: replaces the current feeds with the selected saved list (a dict-shaped
      one gives its items) when it exists and the user confirms, then saves and rebuilds the buttons. */
  method LoadList(app: AppState, selected: Option<string>, confirm: bool, parse: Rss.ParseResult)
    returns (outcome: LoadOutcome)
    modifies app
    ensures outcome.LoadNoSelection? <==> selected.None?
    ensures outcome.Loaded? <==>
      selected.Some? && SelectedListName(selected.value) in old(app.savedLists) && confirm
    ensures outcome.Loaded? ==>
      && outcome.name == SelectedListName(selected.value)
      && app.Lists() == Persisted(old(app.Lists()).(currentFeeds := Items(old(app.savedLists)[outcome.name])))
      && app.View() == AfterButtons(app.currentFeeds, old(app.View()), parse)
    ensures !outcome.Loaded? ==> app.Lists() == old(app.Lists()) && app.View() == old(app.View())
    ensures app.Preferences() == old(app.Preferences())
  {
    if selected.None? {
      return LoadNoSelection;
    }
    var listName := SelectedListName(selected.value);
    if listName in app.savedLists && confirm {
      var loadedFeeds := app.savedLists[listName];
      ReplaceAndSave(app, Items(loadedFeeds), parse);
      outcome := Loaded(listName);
    } else {
      outcome := NotLoaded;
    }
  }

  datatype DefaultOutcome = DefaultNoSelection | DefaultNotFound | DefaultSet(name: string)

  /** `set_default_list(...)`: makes the selected saved list the default and saves. */
  method SetDefaultList(app: AppState, selected: Option<string>) returns (outcome: DefaultOutcome)
    modifies app
    ensures outcome.DefaultNoSelection? <==> selected.None?
    ensures outcome.DefaultSet? <==> selected.Some? && SelectedListName(selected.value) in old(app.savedLists)
    ensures outcome.DefaultSet? ==>
      && outcome.name == SelectedListName(selected.value)
      && app.Lists() == Persisted(old(app.Lists()).(defaultListName := outcome.name))
    ensures !outcome.DefaultSet? ==> app.Lists() == old(app.Lists())
    ensures app.View() == old(app.View()) && app.Preferences() == old(app.Preferences())
  {
    if selected.None? {
      return DefaultNoSelection;
    }
    var listName := SelectedListName(selected.value);
    if listName in app.savedLists {
      app.defaultListName := listName;
      var _ := app.SaveConfig();
      outcome := DefaultSet(listName);
    } else {
      outcome := DefaultNotFound;
    }
  }

  datatype DeleteOutcome = DeleteNoSelection | IsDefault | NotDeleted | Deleted(name: string)

  /** `delete_list(...)`: refuses the default list; deletes another existing list when the user
      confirms, then saves. */
  method DeleteList(app: AppState, selected: Option<string>, confirm: bool) returns (outcome: DeleteOutcome)
    modifies app
    ensures outcome.DeleteNoSelection? <==> selected.None?
    ensures outcome.IsDefault? <==> selected.Some? && SelectedListName(selected.value) == old(app.defaultListName)
    ensures outcome.Deleted? <==>
      selected.Some? && var name := SelectedListName(selected.value);
      name != old(app.defaultListName) && name in old(app.savedLists) && confirm
    ensures outcome.Deleted? ==>
      && outcome.name == SelectedListName(selected.value)
      && app.Lists() == Persisted(old(app.Lists()).(savedLists := old(app.savedLists) - {outcome.name}))
    ensures !outcome.Deleted? ==> app.Lists() == old(app.Lists())
    ensures app.View() == old(app.View()) && app.Preferences() == old(app.Preferences())
  {
    if selected.None? {
      return DeleteNoSelection;
    }
    var listName := SelectedListName(selected.value);
    if listName == app.defaultListName {
      return IsDefault;
    }
    if listName in app.savedLists && confirm {
      app.savedLists := app.savedLists - {listName};
      var _ := app.SaveConfig();
      outcome := Deleted(listName);
    } else {
      outcome := NotDeleted;
    }
  }

  /** What saving does to the lists: the default list then holds the current feeds, every
      other saved list is untouched, and the default name names a saved list. */
  lemma PersistedOverwritesDefault(l: FeedLists)
    ensures var r := Persisted(l);
      && r.savedLists.Keys == l.savedLists.Keys + {l.defaultListName}
      && r.savedLists[l.defaultListName] == Pairs(l.currentFeeds)
      && (forall k :: k in l.savedLists && k != l.defaultListName ==> r.savedLists[k] == l.savedLists[k])
      && r.currentFeeds == l.currentFeeds && r.defaultListName == l.defaultListName && r.activeListName == l.activeListName
  {
  }

  /** Setting a default list overwrites that list's saved feeds with the current feeds. */
  lemma SetDefaultOverwritesChosen(l: FeedLists, name: string)
    requires name in l.savedLists
    ensures Persisted(l.(defaultListName := name)).savedLists[name] == Pairs(l.currentFeeds)
  {
  }

  /** A deleted list is gone after saving, and the default still names a saved list. */
  lemma DeleteLeavesDefault(l: FeedLists, name: string)
    requires name != l.defaultListName
    ensures var r := Persisted(l.(savedLists := l.savedLists - {name}));
      name !in r.savedLists && r.defaultListName in r.savedLists
  {
  }
}
