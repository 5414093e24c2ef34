/** Operations on the ordered `(name, url)` feed sequence that widgets.py and dialogs.py
    share: lookups by name or url, the pop/insert move, deletion, re-keying the article
    cache, and the "name: url" text each feed has in the feed manager's listbox. */
module FeedList {
  import opened Wrappers
  import opened Config
  import PyStr

  function Names(feeds: seq<Feed>): (r: seq<string>)
    ensures |r| == |feeds| && forall i :: 0 <= i < |feeds| ==> r[i] == feeds[i].name
  {
    seq(|feeds|, i requires 0 <= i < |feeds| => feeds[i].name)
  }

  function Urls(feeds: seq<Feed>): (r: seq<string>)
    ensures |r| == |feeds| && forall i :: 0 <= i < |feeds| ==> r[i] == feeds[i].url
  {
    seq(|feeds|, i requires 0 <= i < |feeds| => feeds[i].url)
  }

  /** The first index whose feed is called `name`, or -1 when none is. */
  function IndexOfName(feeds: seq<Feed>, name: string): (i: int)
    ensures -1 <= i < |feeds|
    ensures i == -1 <==> name !in Names(feeds)
    ensures i >= 0 ==> feeds[i].name == name && forall j :: 0 <= j < i ==> feeds[j].name != name
  {
    if feeds == [] then -1
    else if feeds[0].name == name then 0
    else
      var k := IndexOfName(feeds[1..], name);
      assert Names(feeds) == [feeds[0].name] + Names(feeds[1..]);
      if k < 0 then -1 else k + 1
  }

  /** The first index whose feed has url `url`, or -1 when none has. */
  function IndexOfUrl(feeds: seq<Feed>, url: string): (i: int)
    ensures -1 <= i < |feeds|
    ensures i == -1 <==> url !in Urls(feeds)
    ensures i >= 0 ==> feeds[i].url == url && forall j :: 0 <= j < i ==> feeds[j].url != url
  {
    if feeds == [] then -1
    else if feeds[0].url == url then 0
    else
      var k := IndexOfUrl(feeds[1..], url);
      assert Urls(feeds) == [feeds[0].url] + Urls(feeds[1..]);
      if k < 0 then -1 else k + 1
  }

  /** `get_feed_list_index_by_name(feed_name)`: the early-exit scan of the feed list. */
  method GetFeedListIndexByName(feeds: seq<Feed>, feedName: string) returns (index: int)
    ensures index == IndexOfName(feeds, feedName)
  {
    var i := 0;
    while i < |feeds|
      invariant 0 <= i <= |feeds|
      invariant forall j :: 0 <= j < i ==> feeds[j].name != feedName
    {
      if feeds[i].name == feedName {
        return i;
      }
      i := i + 1;
    }
    return -1;
  }

  /** `feeds.pop(src)` followed by `feeds.insert(dst, item)`. */
  function Moved(feeds: seq<Feed>, src: nat, dst: nat): (r: seq<Feed>)
    requires src < |feeds| && dst < |feeds|
    ensures |r| == |feeds| && r[dst] == feeds[src]
  {
    var rest := feeds[..src] + feeds[src + 1..];
    rest[..dst] + [feeds[src]] + rest[dst..]
  }

  /** Moving a feed loses and duplicates nothing: the moved list is a permutation. */
  lemma MovedPermutes(feeds: seq<Feed>, src: nat, dst: nat)
    requires src < |feeds| && dst < |feeds|
    ensures multiset(Moved(feeds, src, dst)) == multiset(feeds)
  {
    var item := feeds[src];
    var rest := feeds[..src] + feeds[src + 1..];
    assert feeds == feeds[..src] + [item] + feeds[src + 1..];
    assert rest == rest[..dst] + rest[dst..];
    assert multiset(feeds) == multiset(rest) + multiset{item};
    var r := rest[..dst] + [item] + rest[dst..];
    assert multiset(r) == multiset(rest[..dst]) + multiset{item} + multiset(rest[dst..]);
  }

  /** Moving a feed one step up or down swaps it with its neighbour and leaves every other
      position alone. */
  lemma MovedNeighbour(feeds: seq<Feed>, src: nat, dst: nat)
    requires src < |feeds| && dst < |feeds| && (dst == src + 1 || dst + 1 == src)
    ensures Moved(feeds, src, dst)[src] == feeds[dst]
    ensures forall k :: 0 <= k < |feeds| && k != src && k != dst ==> Moved(feeds, src, dst)[k] == feeds[k]
  {
  }

  /** Moving a feed one step and then back one step restores the list. */
  lemma MoveBack(feeds: seq<Feed>, src: nat, dst: nat)
    requires src < |feeds| && dst < |feeds| && (dst == src + 1 || dst + 1 == src)
    ensures Moved(Moved(feeds, src, dst), dst, src) == feeds
  {
    var once := Moved(feeds, src, dst);
    MovedNeighbour(feeds, src, dst);
    MovedNeighbour(once, dst, src);
    var twice := Moved(once, dst, src);
    assert forall k :: 0 <= k < |feeds| ==> twice[k] == feeds[k];
  }

  /** The index a position of `Moved(feeds, src, dst)` takes its feed from. */
  function Origin(src: nat, dst: nat, k: nat): nat {
    if k == dst then src
    else if k < dst then (if k < src then k else k + 1)
    else (if k - 1 < src then k - 1 else k)
  }

  /** Every position of a moved list holds the feed of a distinct original position. */
  lemma MovedAt(feeds: seq<Feed>, src: nat, dst: nat, k: nat)
    requires src < |feeds| && dst < |feeds| && k < |feeds|
    ensures Origin(src, dst, k) < |feeds| && Moved(feeds, src, dst)[k] == feeds[Origin(src, dst, k)]
    ensures forall j :: 0 <= j < |feeds| && j != k ==> Origin(src, dst, j) != Origin(src, dst, k)
  {
  }

  /** No two feeds of the list share a name. */
  predicate UniqueNames(feeds: seq<Feed>) {
    forall i, j :: 0 <= i < j < |feeds| ==> feeds[i].name != feeds[j].name
  }

  /** Appending a feed whose name is not yet used keeps the names unique. */
  lemma AppendKeepsUnique(feeds: seq<Feed>, f: Feed)
    requires UniqueNames(feeds) && f.name !in Names(feeds)
    ensures UniqueNames(feeds + [f])
  {
    forall i, j | 0 <= i < j < |feeds| + 1 ensures (feeds + [f])[i].name != (feeds + [f])[j].name {
      if j == |feeds| { assert Names(feeds)[i] == feeds[i].name; }
    }
  }

  /** Renaming the feed at `i` to a name no other feed has keeps the names unique. */
  lemma ReplaceKeepsUnique(feeds: seq<Feed>, i: nat, f: Feed)
    requires UniqueNames(feeds) && i < |feeds|
    requires f.name == feeds[i].name || f.name !in Names(feeds)
    ensures UniqueNames(feeds[i := f])
  {
    var r := feeds[i := f];
    forall a, b | 0 <= a < b < |r| ensures r[a].name != r[b].name {
      if a == i { assert Names(feeds)[b] == feeds[b].name; }
      if b == i { assert Names(feeds)[a] == feeds[a].name; }
    }
  }

  /** Deleting a feed keeps the names unique. */
  lemma RemoveKeepsUnique(feeds: seq<Feed>, i: nat)
    requires UniqueNames(feeds) && i < |feeds|
    ensures UniqueNames(Removed(feeds, i))
  {
    var r := Removed(feeds, i);
    forall a, b | 0 <= a < b < |r| ensures r[a].name != r[b].name {
      var a' := if a < i then a else a + 1;
      var b' := if b < i then b else b + 1;
      assert r[a] == feeds[a'] && r[b] == feeds[b'];
    }
  }

  /** Moving a feed keeps the names unique. */
  lemma {:induction false} MoveKeepsUnique(feeds: seq<Feed>, src: nat, dst: nat)
    requires UniqueNames(feeds) && src < |feeds| && dst < |feeds|
    ensures UniqueNames(Moved(feeds, src, dst))
  {
    var r := Moved(feeds, src, dst);
    forall a, b | 0 <= a < b < |r| ensures r[a].name != r[b].name {
      MovedAt(feeds, src, dst, a);
      MovedAt(feeds, src, dst, b);
      var x, y := Origin(src, dst, a), Origin(src, dst, b);
      if x < y { assert feeds[x].name != feeds[y].name; } else { assert feeds[y].name != feeds[x].name; }
    }
  }

  /** `del feeds[i]`. */
  function Removed(feeds: seq<Feed>, i: nat): (r: seq<Feed>)
    requires i < |feeds|
    ensures |r| == |feeds| - 1
  {
    feeds[..i] + feeds[i + 1..]
  }

  /** Deleting index `i` removes exactly one copy of that feed and shifts the later ones down. */
  lemma RemovedDropsOne(feeds: seq<Feed>, i: nat)
    requires i < |feeds|
    ensures multiset(Removed(feeds, i)) + multiset{feeds[i]} == multiset(feeds)
    ensures forall k :: 0 <= k < |feeds| - 1 ==> Removed(feeds, i)[k] == feeds[if k < i then k else k + 1]
  {
    assert feeds == feeds[..i] + [feeds[i]] + feeds[i + 1..];
  }

  /** `d[new_url] = d.pop(old_url)` when the url changed and was cached; otherwise nothing. */
  function Rekeyed<V>(m: map<string, V>, oldKey: string, newKey: string): map<string, V> {
    if oldKey != newKey && oldKey in m then (m - {oldKey})[newKey := m[oldKey]] else m
  }

  /** Re-keying moves the cached value to the new key, drops the old key and keeps every
      other key; re-keying back restores the cache when the new key was not in use. */
  lemma RekeyedMoves<V>(m: map<string, V>, oldKey: string, newKey: string)
    requires oldKey != newKey && oldKey in m
    ensures var r := Rekeyed(m, oldKey, newKey);
      && r.Keys == m.Keys - {oldKey} + {newKey}
      && r[newKey] == m[oldKey]
      && (forall k :: k in m && k != oldKey && k != newKey ==> r[k] == m[k])
      && (newKey !in m ==> Rekeyed(r, newKey, oldKey) == m)
  {
    var r := Rekeyed(m, oldKey, newKey);
    if newKey !in m {
      assert Rekeyed(r, newKey, oldKey).Keys == m.Keys;
    }
  }

  /** The feed manager's listbox line for a feed: `f"{name}: {url}"`. */
  function FeedLine(f: Feed): string {
    f.name + ": " + f.url
  }

  /** The `(old_name, old_url)` that `edit_feed` reads back from a line: the line split once
      at ": ", both parts stripped; `None` (the "Invalid listbox item" error) when there is no ": ". */
  function ParseFeedLine(line: string): Option<Feed> {
    var parts := PyStr.SplitOnce(line, ": ");
    if |parts| != 2 then None else Some(Feed(PyStr.Strip(parts[0]), PyStr.Strip(parts[1])))
  }

  /** The name `move_feed` and `remove_feed` read from a line: the text before the first ':', stripped. */
  function LineName(line: string): string {
    PyStr.Strip(PyStr.Head(line, ":"))
  }

  /** A line is read back by cutting it at its first ": " and stripping both sides. */
  lemma ParseSplitsAtFirst(a: string, b: string)
    requires !PyStr.Contains(a, ": ")
    ensures ParseFeedLine(a + ": " + b) == Some(Feed(PyStr.Strip(a), PyStr.Strip(b)))
  {
    assert PyStr.SplitOnce(a + ": " + b, ": ") == [a, b] by {
      assert PyStr.FreshStart(": ") by { assert ": "[1] == ' '; }
      PyStr.FindMarker(a, ": ", b);
    }
  }

  /** A feed whose name has no ": " and whose name and url carry no surrounding whitespace
      is read back from its line as itself. */
  lemma FeedLineRoundTrip(f: Feed)
    requires !PyStr.Contains(f.name, ": ") && PyStr.Trimmed(f.name) && PyStr.Trimmed(f.url)
    ensures ParseFeedLine(FeedLine(f)) == Some(f)
  {
    ParseSplitsAtFirst(f.name, f.url);
    PyStr.StripTrimmed(f.name);
    PyStr.StripTrimmed(f.url);
  }

  /** A name containing ": " is cut at its own separator: its tail moves into the url, and the
      line no longer gives back the feed (for "a: b" with url "u": name "a", url "b: u"). */
  lemma FeedLineAmbiguous(x: string, y: string, url: string)
    requires !PyStr.Contains(x, ": ")
    ensures ParseFeedLine(FeedLine(Feed(x + ": " + y, url))) == Some(Feed(PyStr.Strip(x), PyStr.Strip(y + ": " + url)))
    ensures ParseFeedLine(FeedLine(Feed(x + ": " + y, url))) != Some(Feed(x + ": " + y, url))
  {
    assert FeedLine(Feed(x + ": " + y, url)) == x + ": " + (y + ": " + url);
    ParseSplitsAtFirst(x, y + ": " + url);
  }

  /** A feed whose name has no ':' and no surrounding whitespace is found by name from its line. */
  lemma LineNameRoundTrip(f: Feed)
    requires ':' !in f.name && PyStr.Trimmed(f.name)
    ensures LineName(FeedLine(f)) == f.name
  {
    var line := FeedLine(f);
    assert line == f.name + ":" + (" " + f.url);
    assert !PyStr.Contains(f.name, ":") by { assert ":" == [':']; PyStr.ContainsChar(f.name, ':'); }
    PyStr.FindMarker(f.name, ":", " " + f.url);
    assert PyStr.Head(line, ":") == line[..|f.name|];
    assert line[..|f.name|] == f.name;
    PyStr.StripTrimmed(f.name);
  }
}
