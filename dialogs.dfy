/** dialogs.py: the feed manager's memory-only operations, which copy the current feeds into
    the active saved list instead of saving, and the New / Open / Delete / Save / Save As list
    dialogs, which switch the active list and persist through `save_config`. */
module Dialogs {
  import opened Wrappers
  import opened Config
  import Rss
  import PyStr
  import Sorting
  import FeedList
  import Widgets

  /** `SAVED_LISTS[ACTIVE_LIST_NAME] = CURRENT_FEEDS.copy()`. */
  function Synced(l: FeedLists): FeedLists {
    l.(savedLists := l.savedLists[l.activeListName := Pairs(l.currentFeeds)])
  }

  /** The active saved list holds exactly the current feeds. */
  predicate ActiveSynced(l: FeedLists) {
    l.activeListName in l.savedLists && l.savedLists[l.activeListName] == Pairs(l.currentFeeds)
  }

  /** Syncing makes the active list hold the current feeds and touches no other saved list. */
  lemma SyncedTouchesOnlyActive(l: FeedLists)
    ensures ActiveSynced(Synced(l))
    ensures Synced(l).savedLists.Keys == l.savedLists.Keys + {l.activeListName}
    ensures forall k :: k in l.savedLists && k != l.activeListName ==> Synced(l).savedLists[k] == l.savedLists[k]
  {
  }

  /** Saving keeps the active list in sync: it writes the current feeds under the default name,
      which either is the active name or leaves the active list alone. */
  lemma PersistedKeepsSynced(l: FeedLists)
    requires ActiveSynced(l)
    ensures ActiveSynced(Persisted(l))
  {
  }

  /** The sync then `update_category_buttons(...)` that ends every memory-only feed change. */
  method SyncAndRebuild(app: AppState, parse: Rss.ParseResult)
    modifies app
    ensures app.Lists() == Synced(old(app.Lists()))
    ensures app.View() == Widgets.AfterButtons(app.currentFeeds, old(app.View()), parse)
    ensures app.Preferences() == old(app.Preferences())
  {
    app.savedLists := app.savedLists[app.activeListName := Pairs(app.currentFeeds)];
    var _ := Widgets.UpdateCategoryButtons(app, parse);
  }

  /** `CURRENT_FEEDS` takes its new value, then the sync and rebuild follow. */
  method ReplaceAndSync(app: AppState, feeds: seq<Feed>, parse: Rss.ParseResult)
    modifies app
    ensures app.Lists() == Synced(old(app.Lists()).(currentFeeds := feeds))
    ensures app.View() == Widgets.AfterButtons(feeds, old(app.View()), parse)
    ensures app.Preferences() == old(app.Preferences())
  {
    app.currentFeeds := feeds;
    SyncAndRebuild(app, parse);
  }

  datatype MoveOutcome = MoveNoSelection | NameNotFound | OutOfRange | MovedTo(index: nat)

  /** `move_feed(..., direction, ...)`: as in the main window, but the change is only copied
      into the active saved list. `selectedName` is the name read from the selected line
      (`FeedList.LineName`), `None` when nothing is selected. */
  method MoveFeed(app: AppState, selectedName: Option<string>, direction: int, parse: Rss.ParseResult)
    returns (outcome: MoveOutcome)
    modifies app
    ensures outcome.MoveNoSelection? <==> selectedName.None?
    ensures outcome.NameNotFound? <==>
      selectedName.Some? && FeedList.IndexOfName(old(app.currentFeeds), selectedName.value) == -1
    ensures outcome.MovedTo? <==>
      selectedName.Some? && var i := FeedList.IndexOfName(old(app.currentFeeds), selectedName.value);
      i >= 0 && 0 <= i + direction < |old(app.currentFeeds)|
    ensures outcome.MovedTo? ==>
      var i := FeedList.IndexOfName(old(app.currentFeeds), selectedName.value);
      && outcome.index == i + direction
      && app.Lists() == Synced(old(app.Lists()).(currentFeeds := FeedList.Moved(old(app.currentFeeds), i, i + direction)))
      && app.View() == Widgets.AfterButtons(app.currentFeeds, old(app.View()), parse)
    ensures !outcome.MovedTo? ==> app.Lists() == old(app.Lists()) && app.View() == old(app.View())
    ensures app.Preferences() == old(app.Preferences())
  {
    if selectedName.None? {
      return MoveNoSelection;
    }
    var currentIndex := FeedList.GetFeedListIndexByName(app.currentFeeds, selectedName.value);
    if currentIndex == -1 {
      return NameNotFound;
    }
    var newIndex := currentIndex + direction;
    if 0 <= newIndex < |app.currentFeeds| {
      ReplaceAndSync(app, FeedList.Moved(app.currentFeeds, currentIndex, newIndex), parse);
      outcome := MovedTo(newIndex);
    } else {
      outcome := OutOfRange;
    }
  }

  datatype AddOutcome = AddCancelled | DuplicateName | InvalidFeed | Added

  /** `add_feed(...)`: as in the main window, but the url must also pass `rss.validate_feed`,
      whose answer for the stripped url is `urlValid`, and the change is only copied into the
      active saved list. */
  method AddFeed(app: AppState, nameAnswer: Option<string>, urlAnswer: Option<string>,
                 urlValid: bool, parse: Rss.ParseResult)
    returns (outcome: AddOutcome)
    modifies app
    ensures outcome.AddCancelled? <==> !Truthy(nameAnswer) || !Truthy(urlAnswer)
    ensures outcome.DuplicateName? <==>
      Truthy(nameAnswer) && Truthy(urlAnswer) && PyStr.Strip(nameAnswer.value) in FeedList.Names(old(app.currentFeeds))
    ensures outcome.InvalidFeed? <==>
      Truthy(nameAnswer) && Truthy(urlAnswer) && PyStr.Strip(nameAnswer.value) !in FeedList.Names(old(app.currentFeeds))
      && !urlValid
    ensures outcome.Added? ==>
      var f := Feed(PyStr.Strip(nameAnswer.value), PyStr.Strip(urlAnswer.value));
      && urlValid
      && app.Lists() == Synced(old(app.Lists()).(currentFeeds := old(app.currentFeeds) + [f]))
      && app.View() == Widgets.AfterButtons(app.currentFeeds, old(app.View()), parse)
    ensures !outcome.Added? ==> app.Lists() == old(app.Lists()) && app.View() == old(app.View())
    ensures app.Preferences() == old(app.Preferences())
  {
    if !Truthy(nameAnswer) || !Truthy(urlAnswer) {
      return AddCancelled;
    }
    var name := PyStr.Strip(nameAnswer.value);
    var url := PyStr.Strip(urlAnswer.value);
    outcome := AddStripped(app, Feed(name, url), urlValid, parse);
  }

  /** The part of `add_feed` after both answers are given and stripped. */
  method AddStripped(app: AppState, f: Feed, urlValid: bool, parse: Rss.ParseResult)
    returns (outcome: AddOutcome)
    modifies app
    ensures !outcome.AddCancelled?
    ensures outcome.DuplicateName? <==> f.name in FeedList.Names(old(app.currentFeeds))
    ensures outcome.InvalidFeed? <==> f.name !in FeedList.Names(old(app.currentFeeds)) && !urlValid
    ensures outcome.Added? ==>
      && urlValid
      && app.Lists() == Synced(old(app.Lists()).(currentFeeds := old(app.currentFeeds) + [f]))
      && app.View() == Widgets.AfterButtons(app.currentFeeds, old(app.View()), parse)
    ensures !outcome.Added? ==> app.Lists() == old(app.Lists()) && app.View() == old(app.View())
    ensures app.Preferences() == old(app.Preferences())
  {
    if f.name in FeedList.Names(app.currentFeeds) {
      return DuplicateName;
    }
    if !urlValid {
      return InvalidFeed;
    }
    ReplaceAndSync(app, app.currentFeeds + [f], parse);
    outcome := Added;
  }

  datatype EditOutcome =
    | EditNoSelection
    | InvalidItem
    | EditCancelled
    | NameTaken
    | EditInvalidFeed
    | EditNameNotFound
    | Edited(index: nat, clearsDisplay: bool)

  /** The update `edit_feed` makes once the edit is accepted, copied into the active saved list. */
  method ReplaceFeed(app: AppState, index: nat, f: Feed, oldUrl: string, parse: Rss.ParseResult)
    requires index < |app.currentFeeds|
    modifies app
    ensures app.Lists() == Synced(old(app.Lists()).(currentFeeds := old(app.currentFeeds)[index := f]))
    ensures app.View() == Widgets.AfterButtons(app.currentFeeds,
                                               old(app.View()).(allArticles := FeedList.Rekeyed(old(app.allArticles), oldUrl, f.url)),
                                               parse)
    ensures app.Preferences() == old(app.Preferences())
  {
    app.currentFeeds := app.currentFeeds[index := f];
    app.allArticles := FeedList.Rekeyed(app.allArticles, oldUrl, f.url);
    SyncAndRebuild(app, parse);
  }

  /** `edit_feed(...)`: as in the main window, except that a changed url must pass
      `rss.validate_feed`, whose answer for the stripped new url is `urlValid` (an unchanged url
      is not checked; `checkedUrl` is the url handed to it, if any), and the change is only
      copied into the active saved list. */
  method EditFeed(app: AppState, selected: Option<string>, nameAnswer: Option<string>, urlAnswer: Option<string>,
                  urlValid: bool, parse: Rss.ParseResult)
    returns (outcome: EditOutcome, checkedUrl: Option<string>)
    modifies app
    ensures outcome.EditNoSelection? <==> selected.None?
    ensures outcome.InvalidItem? <==> selected.Some? && FeedList.ParseFeedLine(selected.value).None?
    ensures outcome.EditCancelled? <==>
      selected.Some? && FeedList.ParseFeedLine(selected.value).Some? && (!Truthy(nameAnswer) || !Truthy(urlAnswer))
    ensures outcome.NameTaken? <==>
      && selected.Some? && FeedList.ParseFeedLine(selected.value).Some? && Truthy(nameAnswer) && Truthy(urlAnswer)
      && PyStr.Strip(nameAnswer.value) != FeedList.ParseFeedLine(selected.value).value.name
      && PyStr.Strip(nameAnswer.value) in FeedList.Names(old(app.currentFeeds))
    ensures checkedUrl.Some? <==>
      && selected.Some? && FeedList.ParseFeedLine(selected.value).Some? && Truthy(nameAnswer) && Truthy(urlAnswer)
      && !outcome.NameTaken?
      && PyStr.Strip(urlAnswer.value) != FeedList.ParseFeedLine(selected.value).value.url
    ensures checkedUrl.Some? ==> checkedUrl.value == PyStr.Strip(urlAnswer.value)
    ensures outcome.EditInvalidFeed? <==> checkedUrl.Some? && !urlValid
    ensures outcome.EditNameNotFound? <==>
      && selected.Some? && FeedList.ParseFeedLine(selected.value).Some? && Truthy(nameAnswer) && Truthy(urlAnswer)
      && !outcome.NameTaken? && !outcome.EditInvalidFeed?
      && FeedList.IndexOfName(old(app.currentFeeds), FeedList.ParseFeedLine(selected.value).value.name) == -1
    ensures outcome.Edited? ==>
      var old' := FeedList.ParseFeedLine(selected.value).value;
      var f := Feed(PyStr.Strip(nameAnswer.value), PyStr.Strip(urlAnswer.value));
      && Truthy(nameAnswer) && Truthy(urlAnswer)
      && (f.name == old'.name || f.name !in FeedList.Names(old(app.currentFeeds)))
      && (checkedUrl.Some? <==> f.url != old'.url)
      && outcome.index == FeedList.IndexOfName(old(app.currentFeeds), old'.name)
      && app.Lists() == Synced(old(app.Lists()).(currentFeeds := old(app.currentFeeds)[outcome.index := f]))
      && app.View() == Widgets.AfterButtons(app.currentFeeds,
                                            old(app.View()).(allArticles := FeedList.Rekeyed(old(app.allArticles), old'.url, f.url)),
                                            parse)
      && (outcome.clearsDisplay <==> old(app.activeFeedUrl) == Some(old'.url) && old'.url != f.url)
    ensures !outcome.Edited? ==> app.Lists() == old(app.Lists()) && app.View() == old(app.View())
    ensures app.Preferences() == old(app.Preferences())
  {
    checkedUrl := None;
    if selected.None? {
      return EditNoSelection, None;
    }
    var parsed := FeedList.ParseFeedLine(selected.value);
    if parsed.None? {
      return InvalidItem, None;
    }
    var oldName, oldUrl := parsed.value.name, parsed.value.url;
    if !Truthy(nameAnswer) || !Truthy(urlAnswer) {
      return EditCancelled, None;
    }
    var newName := PyStr.Strip(nameAnswer.value);
    var newUrl := PyStr.Strip(urlAnswer.value);
    if newName != oldName && newName in FeedList.Names(app.currentFeeds) {
      return NameTaken, None;
    }
    if oldUrl != newUrl {
      checkedUrl := Some(newUrl);
      if !urlValid {
        return EditInvalidFeed, checkedUrl;
      }
    }
    var currentIndex := FeedList.GetFeedListIndexByName(app.currentFeeds, oldName);
    if currentIndex == -1 {
      return EditNameNotFound, checkedUrl;
    }
    var wasActive := app.activeFeedUrl == Some(oldUrl);
    ReplaceFeed(app, currentIndex, Feed(newName, newUrl), oldUrl, parse);
    outcome := Edited(currentIndex, wasActive && oldUrl != newUrl);
  }

  datatype RemoveOutcome = RemoveNoSelection | NotRemoved | Removed(index: nat)

  /** `remove_feed(...)`: as in the main window, but the change is only copied into the active saved list. */
  method RemoveFeed(app: AppState, selected: Option<string>, confirm: bool, parse: Rss.ParseResult)
    returns (outcome: RemoveOutcome)
    modifies app
    ensures outcome.RemoveNoSelection? <==> selected.None?
    ensures outcome.Removed? <==>
      selected.Some? && FeedList.IndexOfName(old(app.currentFeeds), FeedList.LineName(selected.value)) != -1 && confirm
    ensures outcome.Removed? ==>
      && outcome.index == FeedList.IndexOfName(old(app.currentFeeds), FeedList.LineName(selected.value))
      && app.Lists() == Synced(old(app.Lists()).(currentFeeds := FeedList.Removed(old(app.currentFeeds), outcome.index)))
      && app.View() == Widgets.AfterButtons(app.currentFeeds, old(app.View()), parse)
    ensures !outcome.Removed? ==> app.Lists() == old(app.Lists()) && app.View() == old(app.View())
    ensures app.Preferences() == old(app.Preferences())
  {
    if selected.None? {
      return RemoveNoSelection;
    }
    var name := FeedList.LineName(selected.value);
    outcome := RemoveNamed(app, name, confirm, parse);
  }

  /** The part of `remove_feed` after the selection is read: find the name, delete it once confirmed. */
  method RemoveNamed(app: AppState, name: string, confirm: bool, parse: Rss.ParseResult)
    returns (outcome: RemoveOutcome)
    modifies app
    ensures !outcome.RemoveNoSelection?
    ensures outcome.Removed? <==> FeedList.IndexOfName(old(app.currentFeeds), name) != -1 && confirm
    ensures outcome.Removed? ==>
      && outcome.index == FeedList.IndexOfName(old(app.currentFeeds), name)
      && app.Lists() == Synced(old(app.Lists()).(currentFeeds := FeedList.Removed(old(app.currentFeeds), outcome.index)))
      && app.View() == Widgets.AfterButtons(app.currentFeeds, old(app.View()), parse)
    ensures !outcome.Removed? ==> app.Lists() == old(app.Lists()) && app.View() == old(app.View())
    ensures app.Preferences() == old(app.Preferences())
  {
    var currentIndex := FeedList.GetFeedListIndexByName(app.currentFeeds, name);
    if currentIndex != -1 && confirm {
      ReplaceAndSync(app, FeedList.Removed(app.currentFeeds, currentIndex), parse);
      outcome := Removed(currentIndex);
    } else {
      outcome := NotRemoved;
    }
  }

  datatype CreateOutcome = CreateIgnored | NameExists | Created(name: string)

  /** The feeds a new list starts with: none, or a copy of the built-in defaults. */
  function StartingFeeds(fromDefault: bool): seq<Feed> {
    if fromDefault then DEFAULT_FEEDS else []
  }

  /** The switch `create()` makes to a new list `listName` holding `feeds`: it is saved under
      that name, becomes the active list and the current feeds, no feed is active, then the state
      is saved and the buttons rebuilt. */
  method SwitchToNewList(app: AppState, listName: string, feeds: seq<Feed>, parse: Rss.ParseResult)
    modifies app
    ensures app.Lists() == Persisted(FeedLists(feeds, old(app.savedLists)[listName := Pairs(feeds)],
                                               old(app.defaultListName), listName))
    ensures app.View() == Widgets.AfterButtons(feeds, old(app.View()).(activeFeedUrl := None), parse)
    ensures app.Preferences() == old(app.Preferences())
    ensures ActiveSynced(app.Lists())
  {
    app.savedLists := app.savedLists[listName := Pairs(feeds)];
    app.activeListName := listName;
    app.currentFeeds := Items(app.savedLists[listName]);
    app.activeFeedUrl := None;
    PersistedKeepsSynced(app.Lists());
    Widgets.SaveAndRebuild(app, parse);
  }

  /** `create()` of the New List dialog: the stripped name must be non-empty and new; the new
      list (blank or the built-in defaults) becomes the active list and the current feeds, no
      feed is active, then the state is saved and the buttons rebuilt. */
  method CreateList(app: AppState, entryText: string, fromDefault: bool, parse: Rss.ParseResult)
    returns (outcome: CreateOutcome)
    modifies app
    ensures outcome.CreateIgnored? <==> PyStr.Strip(entryText) == ""
    ensures outcome.NameExists? <==> PyStr.Strip(entryText) != "" && PyStr.Strip(entryText) in old(app.savedLists)
    ensures outcome.Created? ==>
      var initial := StartingFeeds(fromDefault);
      && outcome.name == PyStr.Strip(entryText)
      && app.Lists() == Persisted(FeedLists(initial, old(app.savedLists)[outcome.name := Pairs(initial)],
                                            old(app.defaultListName), outcome.name))
      && app.View() == Widgets.AfterButtons(initial, old(app.View()).(activeFeedUrl := None), parse)
      && ActiveSynced(app.Lists())
    ensures !outcome.Created? ==> app.Lists() == old(app.Lists()) && app.View() == old(app.View())
    ensures app.Preferences() == old(app.Preferences())
  {
    var listName := PyStr.Strip(entryText);
    if listName == "" {
      return CreateIgnored;
    }
    if listName in app.savedLists {
      return NameExists;
    }
    if !fromDefault {
      SwitchToNewList(app, listName, [], parse);
    } else {
      SwitchToNewList(app, listName, DEFAULT_FEEDS, parse);
    }
    outcome := Created(listName);
  }

  /** The line the Open and Delete dialogs show for a saved list: marked " (Current)" when active. */
  function ChoiceLine(name: string, activeName: string): string {
    if name == activeName then name + " (Current)" else name
  }

  /** The list name read back from a line: every " (Current)" removed. */
  function ChoiceName(line: string): string {
    PyStr.RemoveAll(line, " (Current)")
  }

  /** The " (Current)" marker cannot overlap a shifted copy of itself. */
  lemma CurrentMarkerFresh()
    ensures PyStr.FreshStart(" (Current)")
  {
    var p := " (Current)";
    forall k | 0 < k < |p| ensures p[k] != p[0] { }
  }

  /** A list name not containing " (Current)" is read back from its line. */
  lemma ChoiceLineRoundTrip(name: string, activeName: string)
    requires !PyStr.Contains(name, " (Current)")
    ensures ChoiceName(ChoiceLine(name, activeName)) == name
  {
    if name == activeName {
      CurrentMarkerFresh();
      PyStr.RemoveMarker(name, " (Current)");
    } else {
      PyStr.RemoveAllAbsent(name, " (Current)");
    }
  }

  /** A list whose own name ends in " (Current)" is read back without it, as another name
      (a list called "News (Current)" is opened as "News"). */
  lemma ChoiceLineAmbiguous(x: string, activeName: string)
    requires !PyStr.Contains(x, " (Current)") && x + " (Current)" != activeName
    ensures ChoiceName(ChoiceLine(x + " (Current)", activeName)) == x
    ensures ChoiceName(ChoiceLine(x + " (Current)", activeName)) != x + " (Current)"
  {
    CurrentMarkerFresh();
    PyStr.RemoveMarker(x, " (Current)");
  }

  /** `sorted(SAVED_LISTS.keys())`. */
  method SortedNames(keys: set<string>) returns (names: seq<string>)
    ensures Sorting.Sorted(names)
    ensures multiset(names) == multiset(keys)
  {
    names := [];
    var remaining := keys;
    while remaining != {}
      invariant remaining <= keys
      invariant Sorting.Sorted(names)
      invariant multiset(names) == multiset(keys - remaining)
      decreases |remaining|
    {
      var x :| x in remaining;
      Sorting.InsertSorted(x, names);
      names := Sorting.Insert(x, names);
      assert keys - (remaining - {x}) == (keys - remaining) + {x};
      remaining := remaining - {x};
    }
    assert keys - remaining == keys;
  }

  /** The Open and Delete dialogs' list: the saved names in order, the line shown for each,
      and the position of the active list, which is pre-selected. */
  method ListChoices(keys: set<string>, activeName: string)
    returns (names: seq<string>, lines: seq<string>, activeIndex: Option<nat>)
    ensures Sorting.Sorted(names) && multiset(names) == multiset(keys)
    ensures |lines| == |names| && forall i :: 0 <= i < |names| ==> lines[i] == ChoiceLine(names[i], activeName)
    ensures activeIndex.Some? <==> activeName in keys
    ensures activeIndex.Some? ==> activeIndex.value < |names| && names[activeIndex.value] == activeName
  {
    names := SortedNames(keys);
    lines := [];
    activeIndex := None;
    var i := 0;
    while i < |names|
      invariant 0 <= i <= |names| && |lines| == i
      invariant forall j :: 0 <= j < i ==> lines[j] == ChoiceLine(names[j], activeName)
      invariant activeIndex.Some? <==> activeName in names[..i]
      invariant activeIndex.Some? ==> activeIndex.value < i && names[activeIndex.value] == activeName
    {
      var displayText := names[i];
      if names[i] == activeName {
        displayText := displayText + " (Current)";
        activeIndex := Some(i);
      }
      lines := lines + [displayText];
      assert names[..i + 1] == names[..i] + [names[i]];
      i := i + 1;
    }
    assert names[..i] == names;
    assert activeName in keys <==> activeName in multiset(names);
  }

  datatype OpenOutcome = OpenNoSelection | NotSaved(name: string) | Opened(name: string)

  /** `load()` of the Open List dialog: the selected list becomes the active list and its feeds
      the current feeds, no feed is active, and the buttons are rebuilt. The active name is set
      before the lookup, so a name that is not saved (a `KeyError`) leaves only that change. */
  method OpenList(app: AppState, selected: Option<string>, parse: Rss.ParseResult) returns (outcome: OpenOutcome)
    modifies app
    ensures outcome.OpenNoSelection? <==> selected.None?
    ensures outcome.NotSaved? ==>
      && outcome.name == ChoiceName(selected.value) && outcome.name !in old(app.savedLists)
      && app.Lists() == old(app.Lists()).(activeListName := outcome.name)
      && app.View() == old(app.View())
    ensures outcome.Opened? ==>
      && outcome.name == ChoiceName(selected.value) && outcome.name in old(app.savedLists)
      && app.Lists() == old(app.Lists()).(activeListName := outcome.name,
                                          currentFeeds := Items(old(app.savedLists)[outcome.name]))
      && app.View() == Widgets.AfterButtons(app.currentFeeds, old(app.View()).(activeFeedUrl := None), parse)
      && (old(app.savedLists)[outcome.name].Pairs? ==> ActiveSynced(app.Lists()))
    ensures outcome.OpenNoSelection? ==> app.Lists() == old(app.Lists()) && app.View() == old(app.View())
    ensures app.Preferences() == old(app.Preferences())
  {
    if selected.None? {
      return OpenNoSelection;
    }
    var name := ChoiceName(selected.value);
    app.activeListName := name;
    if name !in app.savedLists {
      return NotSaved(name);
    }
    app.currentFeeds := Items(app.savedLists[name]);
    app.activeFeedUrl := None;
    var _ := Widgets.UpdateCategoryButtons(app, parse);
    outcome := Opened(name);
  }

  datatype DeleteOutcome = DeleteNoSelection | IsActive | NotConfirmed | DeleteNotSaved | Deleted(name: string)

  /** The default name after deleting `name`: the active list when the default was deleted. */
  function DefaultAfterDelete(l: FeedLists, name: string): string {
    if l.defaultListName == name then l.activeListName else l.defaultListName
  }

  /** `delete_action()` of the Delete List dialog: refuses the active list; on confirmation
      deletes the list (a name that is not saved is a `KeyError` and changes nothing), moves the
      default to the active list when the default was deleted, and saves. */
  method DeleteList(app: AppState, selected: Option<string>, confirm: bool) returns (outcome: DeleteOutcome)
    modifies app
    ensures outcome.DeleteNoSelection? <==> selected.None?
    ensures outcome.IsActive? <==> selected.Some? && ChoiceName(selected.value) == old(app.activeListName)
    ensures outcome.NotConfirmed? <==>
      selected.Some? && ChoiceName(selected.value) != old(app.activeListName) && !confirm
    ensures outcome.Deleted? <==>
      selected.Some? && var name := ChoiceName(selected.value);
      name != old(app.activeListName) && confirm && name in old(app.savedLists)
    ensures outcome.Deleted? ==>
      && outcome.name == ChoiceName(selected.value)
      && app.Lists() == Persisted(old(app.Lists()).(savedLists := old(app.savedLists) - {outcome.name},
                                                    defaultListName := DefaultAfterDelete(old(app.Lists()), outcome.name)))
    ensures !outcome.Deleted? ==> app.Lists() == old(app.Lists())
    ensures app.View() == old(app.View()) && app.Preferences() == old(app.Preferences())
  {
    if selected.None? {
      return DeleteNoSelection;
    }
    var name := ChoiceName(selected.value);
    if name == app.activeListName {
      return IsActive;
    }
    if !confirm {
      return NotConfirmed;
    }
    if name !in app.savedLists {
      return DeleteNotSaved;
    }
    app.savedLists := app.savedLists - {name};
    if app.defaultListName == name {
      app.defaultListName := app.activeListName;
    }
    var _ := app.SaveConfig();
    outcome := Deleted(name);
  }

  /** A deletion that spares the active list leaves the deleted name out of the saved lists and
      out of the default, keeps the active name, and leaves the default naming a saved list. */
  lemma {:induction false} DeleteKeepsDefaultValid(l: FeedLists, name: string)
    requires name != l.activeListName
    ensures var r := Persisted(l.(savedLists := l.savedLists - {name}, defaultListName := DefaultAfterDelete(l, name)));
      && name !in r.savedLists
      && r.defaultListName != name && r.defaultListName in r.savedLists
      && r.activeListName == l.activeListName
      && (l.defaultListName != name ==> r.defaultListName == l.defaultListName)
  {
    var d := DefaultAfterDelete(l, name);
    assert d != name;
  }

  /** `save_current_list()`: copies the current feeds into the active list and saves; the shown
      `save_config` returns nothing, so the "saved" message is never the one reported. */
  method SaveCurrentList(app: AppState) returns (reportedSaved: bool)
    modifies app
    ensures !reportedSaved
    ensures app.Lists() == Persisted(Synced(old(app.Lists())))
    ensures ActiveSynced(app.Lists())
    ensures app.View() == old(app.View()) && app.Preferences() == old(app.Preferences())
  {
    app.savedLists := app.savedLists[app.activeListName := Pairs(app.currentFeeds)];
    SyncedTouchesOnlyActive(old(app.Lists()));
    PersistedKeepsSynced(app.Lists());
    var _ := app.SaveConfig();
    reportedSaved := false;
  }

  datatype SaveAsOutcome = SaveAsCancelled | OverwriteDeclined | SavedAs(name: string)

  /** `save_current_list_as()`: a non-empty name (not stripped) that is new, or whose
      overwrite is confirmed, receives a copy of the current feeds and becomes the active list,
      then the state is saved. */
  method SaveCurrentListAs(app: AppState, nameAnswer: Option<string>, confirmOverwrite: bool)
    returns (outcome: SaveAsOutcome)
    modifies app
    ensures outcome.SaveAsCancelled? <==> !Truthy(nameAnswer)
    ensures outcome.OverwriteDeclined? <==>
      Truthy(nameAnswer) && nameAnswer.value in old(app.savedLists) && !confirmOverwrite
    ensures outcome.SavedAs? ==>
      && outcome.name == nameAnswer.value
      && app.Lists() == Persisted(Synced(old(app.Lists()).(activeListName := outcome.name)))
      && ActiveSynced(app.Lists())
    ensures !outcome.SavedAs? ==> app.Lists() == old(app.Lists())
    ensures app.View() == old(app.View()) && app.Preferences() == old(app.Preferences())
  {
    if !Truthy(nameAnswer) {
      return SaveAsCancelled;
    }
    var listName := nameAnswer.value;
    if listName in app.savedLists && !confirmOverwrite {
      return OverwriteDeclined;
    }
    app.savedLists := app.savedLists[listName := Pairs(app.currentFeeds)];
    app.activeListName := listName;
    PersistedKeepsSynced(app.Lists());
    var _ := app.SaveConfig();
    outcome := SavedAs(listName);
  }

  /** The New List, Delete List, Save and Save As dialogs save through `save_config`, which
      writes the current feeds under the default name: when another list is active, the
      default list is overwritten with the active list's feeds. */
  lemma SaveOverwritesDefault(l: FeedLists)
    requires l.defaultListName != l.activeListName && ActiveSynced(l)
    ensures var r := Persisted(l);
      r.savedLists[l.defaultListName] == r.savedLists[l.activeListName]
  {
  }
}
