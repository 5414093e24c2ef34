# News feed reader — a Dafny model of its state and logic

The News Feed reader is a tkinter desktop RSS reader. It keeps an ordered list of
`(name, url)` feeds (the *current feeds*) and a set of named *saved lists*. It marks one
saved list as the *default* (loaded at start-up) and one as *active* (the list being edited),
keeps a cache of fetched articles per url, and shows the articles of one feed twelve to a
page. A mocked weather panel comes with a user-editable list of "City, CC" locations.

This project models the logic under the widgets:

- **Fetch filter** (`rss.py`). The parser result decides failure. A success keeps the first `max_entries` entries.
- **Configuration state** (`config.py`). The module globals become a class `Config.AppState`.
  - `load_config` normalises the decoded document so the default name always names a saved list.
  - `save_config` copies the current feeds under the default name.
- **Pagination** (`widgets.py` `display_page` and the safe page of `periodic_refresh`): page count, clamped page, page slice, and the window of at most five page buttons.
- **Main-window operations** (`widgets.py`): fetching, refreshing, the automatic choice of a feed, and the feed manager and saved-lists window. Each persists through `save_config`.
- **Dialog operations** (`dialogs.py`): the memory-only feed operations, which copy the current feeds into the active saved list, and the New / Open / Delete / Save / Save As list dialogs.
- **Weather and locations** (`utils.py`): the weather lookup, validation of "City, CC", the sorted location list, the selected location, and changing location.

State-changing operations are methods on an `AppState` with `modifies` clauses. Their
`ensures` give the whole new state through three views of the state: `Lists()`,
`Preferences()` and `View()`. They are stated in terms of pure functions: `Persisted` is what
`save_config` does to the lists, `Synced` is the dialogs' in-memory copy, and `AfterButtons`
is the automatic feed load. Lemmas prove what those functions guarantee.

Inputs the program takes from outside become parameters:
- the answers to prompts: `Option<string>`, where `None` or `""` is a cancelled prompt;
- confirmations: `bool`;
- the parser's result for a url: `Rss.ParseResult`;
- the verdict of the feed validator `rss.validate_feed` on the url: the bool `urlValid`;
- `str.isalpha` on a character: a predicate `isLetter`;
- whether the article container is still alive: `containerLive`.

Python behaviour the code relies on is written out in helper modules:
- `PyStr`: `strip()` over Python's whitespace set, `split(sep)`, `split(sep, 1)`, `split(sep)[0]` and `replace(p, "")`;
- `PySeq`: slices with clamped and negative bounds;
- `Sorting`: code-point string order, with insertion sort standing for `sorted` and `list.sort`.

`ACTIVE_LIST_NAME` is read and written by dialogs.py but not declared in config.py. Here it is a field of
`AppState`, whose constructor takes its first value.

As written, every call to `save_config` overwrites the saved list named by the default name
with the current feeds, whichever list is active. So in dialogs.py, creating, deleting, saving
or saving-as while another list is active copies the active list's feeds over the default list
(`Dialogs.SaveOverwritesDefault`). In widgets.py, `set_default_list` replaces the chosen list's
feeds with the current feeds (`Widgets.SetDefaultOverwritesChosen`). The model keeps this
behaviour as written.

## Model

| member | source | states |
|---|---|---|
| Rss.FetchFeedEntries | rss.py:3-12 | fails exactly when the result is flagged malformed with a class other than NonXMLContentType and CharacterEncodingOverride, carrying that class; otherwise yields the first min(max, n) entries, or for a negative bound all but the last abs(max) |
| Rss.DefaultFetchBounded | rss.py:3 | with the default bound a fetch yields at most 100 entries, and all of them when there are no more than 100 |
| Config.Normalise | config.py:58-70 | after loading, the default name names a saved list and the current feeds are that list's items; a missing default installs "Standard Default" with the built-in feeds and keeps every other list |
| Config.AppState.constructor | config.py:8-42 | the initial globals: no feeds, no saved lists, default "Standard Default", light theme, the ten built-in locations, Stockholm, no active feed, empty cache, page 1 |
| Config.AppState.SaveConfig | config.py:72-89 | the current feeds are written under the default name, nothing else changes, the record holds exactly the five saved settings, and the default names a saved list |
| Config.AppState.LoadConfig | config.py:44-70 | a decoded file replaces each setting it has (missing saved lists: none); an absent or undecodable file keeps the current values; then the lists are normalised, and the file is written back exactly when the default was missing |
| Pagination.TotalPagesIsCeiling | widgets.py:34-37 | the page count is the least number of 12-entry pages covering the entries, and is 0 exactly when there are none |
| Pagination.ClampPage | widgets.py:39-47 | the page shown is at least 1 and at most the page count when there are pages |
| Pagination.ClampIsNearest | widgets.py:39-47 | the page shown is the valid page nearest the request, and a valid request is kept |
| Pagination.PageItemsAre | widgets.py:48-50 | a page's entries are the 12 entries starting at (page - 1) * 12, fewer on the last page |
| Pagination.FirstPagesPrefix | widgets.py:48-50 | pages 1..k concatenated are the first 12k entries, in order |
| Pagination.PagesPartition | widgets.py:48-50 | pages 1..total concatenated are exactly the entries |
| Pagination.WindowShape | widgets.py:119-129 | the button window lies in [1, total], contains the page, has min(5, total) consecutive pages and keeps the page centred where possible |
| Pagination.ShowIsConsistent | widgets.py:27-151 | no entries means no pages, page 1 and nothing shown; otherwise the page is in range with 1 to 12 entries; Previous is enabled only after page 1, Next only before the last page, and the page has a button |
| Pagination.SafePageIsShown | widgets.py:205-209 | the refresh page is min(current, max(1, page count)) and is shown unchanged |
| FeedList.IndexOfName | widgets.py:278-283 | the first index holding the name, -1 exactly when no feed has it |
| FeedList.IndexOfUrl | widgets.py:194-199 | the first index holding the url, -1 exactly when no feed has it |
| FeedList.GetFeedListIndexByName | widgets.py:278-283 | the early-exit loop returns exactly the first index with the name, or -1 |
| FeedList.Moved | widgets.py:301-302 | pop then insert keeps the length and puts the moved feed at its new index |
| FeedList.MovedPermutes | widgets.py:301-302 | pop then insert keeps the multiset of feeds: the move is a permutation |
| FeedList.MovedNeighbour | widgets.py:298-302 | a one-step move swaps the feed with its neighbour and leaves every other position alone |
| FeedList.MoveBack | widgets.py:298-302 | moving one step and back restores the list |
| FeedList.MovedAt | widgets.py:301-302 | each position of the moved list holds the feed of a distinct original position |
| FeedList.Removed | widgets.py:627 | deleting an index shortens the list by one |
| FeedList.RemovedDropsOne | widgets.py:627 | deleting index i removes exactly one copy of that feed, and the feeds after it shift down by one in order |
| FeedList.AppendKeepsUnique | widgets.py:534-540 | appending a feed whose name is unused keeps names unique |
| FeedList.ReplaceKeepsUnique | widgets.py:579-593 | replacing a feed by one keeping its name or taking an unused one keeps names unique |
| FeedList.RemoveKeepsUnique | widgets.py:627 | deleting a feed keeps names unique |
| FeedList.MoveKeepsUnique | widgets.py:301-302 | moving a feed keeps names unique |
| FeedList.RekeyedMoves | widgets.py:596-597 | a changed, cached url's entries move to the new url, the old key goes, other keys keep their entries, and, when the new url was not already cached, re-keying back restores the cache |
| FeedList.ParseSplitsAtFirst | dialogs.py:200-204 | a line whose first ": " ends the name part parses to the stripped parts on either side of it |
| FeedList.FeedLineRoundTrip | dialogs.py:101-104 | a feed whose name has no ": " and whose parts are trimmed is read back from its "name: url" line by the split at dialogs.py:200-204 |
| FeedList.FeedLineAmbiguous | dialogs.py:200-204 | a name x + ": " + y is cut at its first ": ": the line reads back as name strip(x) with url strip(y + ": " + url), never as the feed itself |
| FeedList.LineNameRoundTrip | widgets.py:290 | a trimmed name without ':' is read back from its line as the name `move_feed` and `remove_feed` look up |
| Widgets.DisplayPage | widgets.py:27-50 | the view is the display of the cached entries (none when uncached) at the requested page, and the page cursor holds the page shown |
| Widgets.FetchAndDisplayNews | widgets.py:155-184 | the url becomes active in any case; a successful fetch replaces its cached entries in full and shows page 1; a failed one leaves cache and page alone |
| Widgets.AutoLoadSettles | widgets.py:268-275 | with feeds, after the buttons are rebuilt the active url belongs to one of them and a second rebuild loads nothing; with no feeds, or the active feed listed, nothing is loaded |
| Widgets.UpdateCategoryButtons | widgets.py:237-275 | the first feed is loaded exactly when there are feeds and the active url is not among them |
| Widgets.CategoryNameFor | widgets.py:194-199 | the title is the name of the first feed with the active url, and the title falls back to "Refreshed Feed" when no feed has the active url |
| Widgets.PeriodicRefresh | widgets.py:188-233 | nothing happens unless a feed is active and its container lives; success replaces only that url's entries and shows the safe page; failure changes nothing |
| Widgets.MoveFeed | widgets.py:285-314 | given the name read from the selected line: an in-range move of a found name moves it and saves; no selection, an unknown name or an out-of-range target changes nothing |
| Widgets.AddFeed | widgets.py:517-544 | two non-empty answers whose stripped name is new append the stripped feed and save; otherwise nothing changes |
| Widgets.EditFeed | widgets.py:547-612 | each outcome holds exactly when its condition does: no selection, an unreadable line, an empty answer, a changed name another feed has, an unknown old name; each of these changes nothing; otherwise only that index is replaced, the cache follows the url and the state is saved |
| Widgets.RemoveFeed | widgets.py:615-637 | a found name the user confirms is deleted and saved; otherwise nothing changes |
| Widgets.SaveCurrentList | widgets.py:640-659 | a non-empty answer with feeds present stores a copy of them under that name and saves; otherwise nothing changes |
| Widgets.SavedListLineRoundTrip | widgets.py:465-473 | a trimmed list name without " (Default)" is read back from its saved-lists line by the split at widgets.py:666 |
| Widgets.LoadList | widgets.py:662-687 | a saved list the user confirms becomes the current feeds (a dict's items), and is saved; otherwise nothing changes |
| Widgets.SetDefaultList | widgets.py:690-703 | a saved list becomes the default and the state is saved; otherwise nothing changes |
| Widgets.DeleteList | widgets.py:706-727 | the default list is refused; another saved list the user confirms is deleted and the state saved |
| Widgets.PersistedOverwritesDefault | config.py:76 | saving writes the current feeds under the default name and keeps every other saved list |
| Widgets.SetDefaultOverwritesChosen | widgets.py:696-698 | after setting a default, that list holds the current feeds |
| Widgets.DeleteLeavesDefault | widgets.py:712-722 | a deleted list is gone after saving and the default still names a saved list |
| Dialogs.SyncedTouchesOnlyActive | dialogs.py:34 | the in-memory sync makes the active list hold the current feeds and leaves every other saved list alone |
| Dialogs.PersistedKeepsSynced | config.py:76 | saving keeps the active list in sync with the current feeds |
| Dialogs.MoveFeed | dialogs.py:14-45 | as the main window's move, but the result is synced into the active list instead of saved |
| Dialogs.AddFeed | dialogs.py:158-193 | as the main window's add, except that a new name whose url the validator rejects (`urlValid` false) changes nothing; a success is synced into the active list |
| Dialogs.EditFeed | dialogs.py:195-255 | as the main window's edit, each outcome exactly when its condition holds, except that the url is validated exactly when the line parsed, both answers were given, the name is not taken and the stripped url changed; a rejection (`urlValid` false) changes nothing; a success replaces one index, re-keys the cache and is synced |
| Dialogs.RemoveFeed | dialogs.py:257-277 | as the main window's remove, synced into the active list instead of saved |
| Dialogs.CreateList | dialogs.py:304-333 | an empty stripped name is ignored and an existing one refused; otherwise the new list (blank or the built-in feeds) becomes active and current, no feed is active, and the state is saved |
| Dialogs.ChoiceLineRoundTrip | dialogs.py:371-386 | a list name without " (Current)" is read back from its line |
| Dialogs.ChoiceLineAmbiguous | dialogs.py:386 | a list called x + " (Current)" that is not active is read back as x, not as its own name |
| Dialogs.SortedNames | dialogs.py:369 | the saved names, each once, in code-point order |
| Dialogs.ListChoices | dialogs.py:368-380 | one line per sorted name, marked " (Current)" for the active list, whose index is selected exactly when it is saved |
| Dialogs.OpenList | dialogs.py:382-403 | the selected list becomes active and current with no active feed; an unsaved name changes only the active name |
| Dialogs.DeleteList | dialogs.py:451-470 | the active list is refused; a confirmed, saved list is deleted, the default moves to the active list if it was deleted, and the state is saved |
| Dialogs.DeleteKeepsDefaultValid | dialogs.py:457-465 | after a deletion the deleted name is neither saved nor the default, and the default names a saved list |
| Dialogs.SaveCurrentList | dialogs.py:475-481 | the active list receives the current feeds and the state is saved, but success is never reported |
| Dialogs.SaveCurrentListAs | dialogs.py:483-495 | an empty answer does nothing; an existing name needs confirmation; then the name receives the current feeds, becomes active, and the state is saved |
| Dialogs.SaveOverwritesDefault | dialogs.py:323 | saving while another list is active gives the default list the active list's feeds |
| Utils.WeatherCoversBuiltInLocations | utils.py:21-37 | the table covers exactly the built-in locations; "Not Set" exactly for "No Location"; "N/A - Custom Location" exactly for other unlisted locations |
| Utils.CheckLocation | utils.py:59-71 | an accepted location is the stripped answer, with no surrounding whitespace and exactly one ','; the parts around it are a city that is non-empty once stripped and a code that is two letters once stripped |
| Utils.CityCountryAccepted | utils.py:63-71 | "City, CC" with a trimmed city without ',' and a two-letter code is accepted as written |
| Utils.CityCountryParts | utils.py:63-68 | "City, CC" with a trimmed city and a two-character code is already stripped and splits at ',' into the city and " CC" |
| Utils.CommaCountDecides | utils.py:64-67 | a stripped answer without exactly one ',' is refused as not "City, CC" |
| Utils.AddNewLocation | utils.py:59-78 | succeeds exactly when the answer is valid and not yet listed; an invalid or already present location changes nothing; a new one is added, the list kept sorted with exactly that one more element, and the state saved; on success the returned index selects the current location in the new list, -1 exactly when it is absent, and on failure it is -1 |
| Utils.SelectedLocationIndex | utils.py:84-92 | the last index holding the current location, -1 exactly when it is absent |
| Utils.PopulateLocationListbox | utils.py:80-95 | the locations end sorted with the same elements, and the selected index holds the current location, -1 exactly when absent |
| Utils.ChangeWeatherLocation | utils.py:49-57 | the current location becomes exactly the given one and the state is saved |
| PyStr.Strip | widgets.py:530-531 | `strip()` leaves no whitespace at either end |
| PyStr.StripIsInfix | widgets.py:530-531 | `strip()` removes only whitespace, and only at the ends |
| PyStr.Find | dialogs.py:200 | the first occurrence of the separator, -1 exactly when absent |
| PyStr.SplitOnce | widgets.py:551 | `split(": ", 1)` gives one part when the separator is absent, otherwise the parts around its first occurrence |
| PyStr.SplitInTwo | utils.py:64-65 | `split(',')` has two parts exactly when ',' occurs once, and they surround it |
| PyStr.HeadAtMarker | widgets.py:666 | `split(marker)[0]` of text + marker + rest is the text when the text does not contain the marker |
| PyStr.RemoveMarker | dialogs.py:386 | removing a marker appended to text not containing it gives back the text |
| Sorting.SortSorted | utils.py:75 | sorting yields an ordered list |
| Sorting.Sort | utils.py:75 | sorting keeps the multiset of elements |
| Sorting.SortedUnique | utils.py:83 | two ordered lists with the same elements are equal, so re-sorting a sorted list changes nothing |
| PySeq.SliceForward | rss.py:12 | a non-negative slice is the clamped sub-sequence |

## Left out

- GUI construction, theming (themes.py), message boxes, listbox selection and scrolling: widget plumbing without state the model needs. Messages appear only as outcome values.
- JSON reading and writing of the configuration file (config.py:46-56, 85-89) and the swallowed write errors: file I/O. A file is given as absent, undecodable, or decoded into its keys.
- The network and the XML parsing of `feedparser.parse`: its result is a parameter.
- Whether a feed is valid (`rss.validate_feed`) and whether a character is a letter (`str.isalpha`): both are parameters. `rss.validate_feed` is not part of this model.
- Timers and the clock: the rescheduling in `periodic_refresh`, `update_datetime_label`, `time.sleep`, `webbrowser.open_new`.
- Dialogs.CreateList: after creation, the new saved list and the current feeds are one Python list object. The model holds them as values, so later in-place changes are not shared through that alias.
- Dialogs.OpenList: a dict-shaped saved list is read as its (name, url) items. The source's `tuple(x)` over a dict would give tuples of each key's characters, which a (name, url) model cannot represent.
- Dialogs.OpenList and Dialogs.DeleteList: the `KeyError` for an unsaved name escapes the handler. The model ends the operation there and keeps the state changes made before it.
- Widgets.MoveFeed and Dialogs.MoveFeed take the name already read from the selected line (`split(':')[0].strip()`); that reading is `FeedList.LineName`, stated separately by `FeedList.LineNameRoundTrip`.
- Uniqueness of feed names is not restated on each window operation; `FeedList.AppendKeepsUnique`, `ReplaceKeepsUnique`, `RemoveKeepsUnique` and `MoveKeepsUnique` state it for the list changes those operations make.
- The determinism of `fetch_feed_entries` for a given parse result holds by construction, since `Rss.FetchFeedEntries` is a function.
