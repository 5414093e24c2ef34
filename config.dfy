/** config.py: the application's global state, the built-in defaults, and the
    state side of loading and saving the configuration file. */
module Config {
  import opened Wrappers
  import Rss

  /** One feed of a list: a `(name, url)` pair. */
  datatype Feed = Feed(name: string, url: string)

  /** A saved list as the decoded configuration file may hold it: a list of
      `[name, url]` pairs, or (older files) a dict from name to url, whose
      insertion order is kept here as a sequence. */
  datatype StoredList = Pairs(feeds: seq<Feed>) | LegacyDict(entries: seq<Feed>)

  /** The feeds of a saved list: `list(d.items())` for a dict, a copy of the list otherwise. */
  function Items(l: StoredList): seq<Feed> {
    match l
    case Pairs(fs) => fs
    case LegacyDict(es) => es
  }

  const DEFAULT_FEEDS: seq<Feed> := [
    Feed("Technology", "https://techcrunch.com/feed/"),
    Feed("Finance", "https://www.valuewalk.com/feed"),
    Feed("World", "http://feeds.bbci.co.uk/news/world/rss.xml")
  ]

  const STANDARD_DEFAULT: string := "Standard Default"

  const INITIAL_LOCATIONS: seq<string> := [
    "Stockholm, SE", "London, UK", "New York, US", "Tokyo, JP",
    "Berlin, DE", "Sydney, AU", "Uppsala, SE", "Gothenburg, SE",
    "Malmö, SE", "Huddinge, SE"
  ]

  const INITIAL_WEATHER_LOCATION: string := "Stockholm, SE"

  const ARTICLES_PER_PAGE := 12

  /** The top-level keys of a decoded configuration file; a missing key is `None`. */
  datatype ConfigDoc = ConfigDoc(
    savedLists: Option<map<string, StoredList>>,
    defaultListName: Option<string>,
    theme: Option<string>,
    defaultLocations: Option<seq<string>>,
    weatherLocation: Option<string>)

  /** The configuration file as `load_config` finds it. */
  datatype ConfigFile = Absent | Undecodable | Decoded(doc: ConfigDoc)

  /** The document `save_config` writes. */
  datatype ConfigRecord = ConfigRecord(
    savedLists: map<string, StoredList>,
    defaultListName: string,
    theme: string,
    weatherLocation: string,
    defaultLocations: seq<string>)

  /** The list-management part of the global state. */
  datatype FeedLists = FeedLists(
    currentFeeds: seq<Feed>,
    savedLists: map<string, StoredList>,
    defaultListName: string,
    activeListName: string)

  /** The user preferences part of the global state. */
  datatype Prefs = Prefs(theme: string, defaultLocations: seq<string>, weatherLocation: string)

  /** The article-display part of the global state: the feed on screen, the article
      cache (url -> entries) and the page cursor. */
  datatype FeedView = FeedView(
    activeFeedUrl: Option<string>,
    allArticles: map<string, seq<Rss.Entry>>,
    currentPage: int)

  /** The list state after `save_config`: the current feeds are copied into the saved list
      named by the default name, whichever list is being edited. */
  function Persisted(l: FeedLists): FeedLists {
    l.(savedLists := l.savedLists[l.defaultListName := Pairs(l.currentFeeds)])
  }

  /** What `load_config` makes of the decoded saved lists and default name: the default
      name always ends up naming a saved list, and the current feeds are that list's feeds. */
  function Normalise(savedLists: map<string, StoredList>, defaultName: string)
    : (r: (map<string, StoredList>, string, seq<Feed>))
    ensures r.1 in r.0 && r.2 == Items(r.0[r.1])
    ensures defaultName in savedLists ==> r == (savedLists, defaultName, Items(savedLists[defaultName]))
    ensures defaultName !in savedLists ==>
      r.1 == STANDARD_DEFAULT && r.2 == DEFAULT_FEEDS && r.0.Keys == savedLists.Keys + {STANDARD_DEFAULT}
      && forall k :: k in savedLists && k != STANDARD_DEFAULT ==> r.0[k] == savedLists[k]
  {
    if defaultName in savedLists then (savedLists, defaultName, Items(savedLists[defaultName]))
    else (savedLists[STANDARD_DEFAULT := Pairs(DEFAULT_FEEDS)], STANDARD_DEFAULT, DEFAULT_FEEDS)
  }

  /** The module-level globals of config.py (plus `ACTIVE_LIST_NAME`, which the
      dialogs assign and read but config.py does not declare). Window handles, labels
      and the Tk root are not modelled. */
  class AppState {
    var currentFeeds: seq<Feed>
    var savedLists: map<string, StoredList>
    var defaultListName: string
    var activeListName: string
    var currentTheme: string
    var defaultLocations: seq<string>
    var currentWeatherLocation: string
    var activeFeedUrl: Option<string>
    var allArticles: map<string, seq<Rss.Entry>>
    var currentPage: int

    function Lists(): FeedLists
      reads this`currentFeeds, this`savedLists, this`defaultListName, this`activeListName
    {
      FeedLists(currentFeeds, savedLists, defaultListName, activeListName)
    }

    function Preferences(): Prefs
      reads this`currentTheme, this`defaultLocations, this`currentWeatherLocation
    {
      Prefs(currentTheme, defaultLocations, currentWeatherLocation)
    }

    function View(): FeedView
      reads this`activeFeedUrl, this`allArticles, this`currentPage
    {
      FeedView(activeFeedUrl, allArticles, currentPage)
    }

    /** The default list name names a saved list. */
    predicate DefaultListed()
      reads this
    {
      defaultListName in savedLists
    }

    /** The state at import time; `activeListName` is not declared by config.py and is supplied. */
    constructor (activeListName: string)
      ensures Lists() == FeedLists([], map[], STANDARD_DEFAULT, activeListName)
      ensures Preferences() == Prefs("light", INITIAL_LOCATIONS, INITIAL_WEATHER_LOCATION)
      ensures View() == FeedView(None, map[], 1)
    {
      currentFeeds := [];
      savedLists := map[];
      defaultListName := STANDARD_DEFAULT;
      this.activeListName := activeListName;
      currentTheme := "light";
      defaultLocations := INITIAL_LOCATIONS;
      currentWeatherLocation := INITIAL_WEATHER_LOCATION;
      activeFeedUrl := None;
      allArticles := map[];
      currentPage := 1;
    }

    /** `save_config()`: copies the current feeds into the saved list named by the default
        name (whichever list is being edited) and returns the document written to disk. */
    method SaveConfig() returns (record: ConfigRecord)
      modifies this
      ensures Lists() == Persisted(old(Lists()))
      ensures Preferences() == old(Preferences()) && View() == old(View())
      ensures record == ConfigRecord(savedLists, defaultListName, currentTheme, currentWeatherLocation, defaultLocations)
      ensures DefaultListed()
    {
      savedLists := savedLists[defaultListName := Pairs(currentFeeds)];
      record := ConfigRecord(savedLists, defaultListName, currentTheme, currentWeatherLocation, defaultLocations);
    }

    /** `load_config()`: a decoded file replaces the saved lists (missing key: none) and each
        other setting it holds; an absent or undecodable file keeps the current values. Then the
        default list is loaded into the current feeds, or "Standard Default" is installed with
        the built-in feeds and saved when the default name names no saved list. */
    method LoadConfig(file: ConfigFile) returns (written: Option<ConfigRecord>)
      modifies this
      ensures var sl := if file.Decoded? then file.doc.savedLists.GetOr(map[]) else old(savedLists);
              var dn := if file.Decoded? then file.doc.defaultListName.GetOr(old(defaultListName)) else old(defaultListName);
              (savedLists, defaultListName, currentFeeds) == Normalise(sl, dn)
              && (written.Some? <==> dn !in sl)
      ensures file.Decoded? ==>
        Preferences() == Prefs(file.doc.theme.GetOr(old(currentTheme)),
                               file.doc.defaultLocations.GetOr(old(defaultLocations)),
                               file.doc.weatherLocation.GetOr(old(currentWeatherLocation)))
      ensures !file.Decoded? ==> Preferences() == old(Preferences())
      ensures activeListName == old(activeListName) && View() == old(View())
      ensures written.Some? ==> written.value == ConfigRecord(savedLists, defaultListName, currentTheme, currentWeatherLocation, defaultLocations)
      ensures DefaultListed()
    {
      if file.Decoded? {
        var doc := file.doc;
        savedLists := doc.savedLists.GetOr(map[]);
        defaultListName := doc.defaultListName.GetOr(defaultListName);
        currentTheme := doc.theme.GetOr(currentTheme);
        defaultLocations := doc.defaultLocations.GetOr(defaultLocations);
        currentWeatherLocation := doc.weatherLocation.GetOr(currentWeatherLocation);
      }
      if defaultListName in savedLists {
        currentFeeds := Items(savedLists[defaultListName]);
        written := None;
      } else {
        savedLists := savedLists[STANDARD_DEFAULT := Pairs(DEFAULT_FEEDS)];
        defaultListName := STANDARD_DEFAULT;
        currentFeeds := DEFAULT_FEEDS;
        ghost var installed := savedLists;
        var record := SaveConfig();
        assert savedLists == installed;
        written := Some(record);
      }
    }
  }
}
