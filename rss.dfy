/** rss.py: turning what the feed parser returned into the entries the reader caches. */
module Rss {
  import opened Wrappers
  import PySeq

  /** One parsed feed entry: the fields the reader displays. */
  datatype Entry = Entry(title: string, link: string, summary: string)

  /** What `feedparser.parse` returns, reduced to what `fetch_feed_entries` reads:
      the malformed-document flag, the class name of the exception recorded with it,
      and the parsed entries in document order. */
  datatype ParseResult = ParseResult(bozo: bool, bozoExceptionClass: string, entries: seq<Entry>)

  /** The exception `fetch_feed_entries` raises ("Malformed feed: ..."). */
  datatype FetchError = MalformedFeed(exceptionClass: string)

  /** Default of the `max_entries` parameter. */
  const DEFAULT_MAX_ENTRIES := 100

  /** The two parser complaints that do not make a feed unusable. */
  predicate BenignBozo(exceptionClass: string) {
    exceptionClass == "NonXMLContentType" || exceptionClass == "CharacterEncodingOverride"
  }

  /** `fetch_feed_entries(feed_url, max_entries)` given the parser's result for `feed_url`:
      fails exactly on a severe malformed-document flag, otherwise returns the first
      `max_entries` entries (Python's `entries[:max_entries]`, so a negative bound drops from the end). */
  function FetchFeedEntries(feed: ParseResult, maxEntries: int): (r: Result<seq<Entry>, FetchError>)
    ensures r.Failure? <==> feed.bozo && !BenignBozo(feed.bozoExceptionClass)
    ensures r.Failure? ==> r.error == MalformedFeed(feed.bozoExceptionClass)
    ensures r.Success? && maxEntries >= 0 ==>
      |r.value| == PySeq.Min(maxEntries, |feed.entries|) && r.value == feed.entries[..|r.value|]
    ensures r.Success? && maxEntries < 0 ==>
      r.value == feed.entries[..if |feed.entries| + maxEntries < 0 then 0 else |feed.entries| + maxEntries]
  {
    if feed.bozo && !BenignBozo(feed.bozoExceptionClass) then
      Failure(MalformedFeed(feed.bozoExceptionClass))
    else
      PySeq.SlicePrefix(feed.entries, if maxEntries < 0 then 0 else maxEntries);
      Success(PySeq.Slice(feed.entries, 0, maxEntries))
  }

  /** With the default bound, a fetch never yields more than 100 entries, and yields all of
      them when the feed has no more than that. */
  lemma DefaultFetchBounded(feed: ParseResult)
    requires FetchFeedEntries(feed, DEFAULT_MAX_ENTRIES).Success?
    ensures |FetchFeedEntries(feed, DEFAULT_MAX_ENTRIES).value| <= 100
    ensures |feed.entries| <= 100 ==> FetchFeedEntries(feed, DEFAULT_MAX_ENTRIES).value == feed.entries
  {
  }
}
