/** The parts of Python's `str` behaviour the feed reader relies on:
    `strip()`, `find`, `split(sep)`, `split(sep, 1)` and `replace(old, "")`. */
module PyStr {

  /** The characters for which Python's `str.isspace()` holds; `str.strip()` removes exactly these. */
  predicate IsSpace(c: char) {
    || ('\t' <= c <= '\r')
    || ('\U{1C}' <= c <= '\U{1F}')
    || c == ' ' || c == '\U{85}' || c == '\U{A0}' || c == '\U{1680}'
    || ('\U{2000}' <= c <= '\U{200A}')
    || c == '\U{2028}' || c == '\U{2029}' || c == '\U{202F}' || c == '\U{205F}' || c == '\U{3000}'
  }

  /** Neither end of `s` is whitespace: what `strip()` produces and leaves alone. */
  predicate Trimmed(s: string) {
    s == [] || (!IsSpace(s[0]) && !IsSpace(s[|s| - 1]))
  }

  /** `s.lstrip()`: the suffix of `s` left after dropping leading whitespace. */
  function LStrip(s: string): (r: string)
    ensures |r| <= |s| && r == s[|s| - |r|..]
    ensures r == [] || !IsSpace(r[0])
    ensures forall i :: 0 <= i < |s| - |r| ==> IsSpace(s[i])
  {
    if |s| > 0 && IsSpace(s[0]) then LStrip(s[1..]) else s
  }

  /** `s.rstrip()`: the prefix of `s` left after dropping trailing whitespace. */
  function RStrip(s: string): (r: string)
    ensures |r| <= |s| && r == s[..|r|]
    ensures r == [] || !IsSpace(r[|r| - 1])
    ensures forall i :: |r| <= i < |s| ==> IsSpace(s[i])
  {
    if |s| > 0 && IsSpace(s[|s| - 1]) then RStrip(s[..|s| - 1]) else s
  }

  /** `s.strip()`. */
  function Strip(s: string): (r: string)
    ensures Trimmed(r)
    ensures |r| <= |s|
  {
    RStrip(LStrip(s))
  }

  /** `strip()` is the identity on a trimmed string, and therefore idempotent. */
  lemma StripTrimmed(s: string)
    requires Trimmed(s)
    ensures Strip(s) == s
  {
    LStripKeeps(s);
    RStripKeeps(s);
  }

  lemma LStripKeeps(s: string)
    requires Trimmed(s)
    ensures LStrip(s) == s
  {
    if s != [] {
      assert !IsSpace(s[0]);
    }
  }

  lemma RStripKeeps(s: string)
    requires Trimmed(s)
    ensures RStrip(s) == s
  {
    if s != [] {
      assert !IsSpace(s[|s| - 1]);
    }
  }

  /** `strip()` keeps exactly the middle part of `s`: what it removes is whitespace at either end. */
  lemma StripIsInfix(s: string) returns (lo: nat)
    ensures lo + |Strip(s)| <= |s| && Strip(s) == s[lo..lo + |Strip(s)|]
    ensures forall i :: 0 <= i < lo ==> IsSpace(s[i])
    ensures forall i :: lo + |Strip(s)| <= i < |s| ==> IsSpace(s[i])
  {
    var l := LStrip(s);
    lo := |s| - |l|;
    var r := RStrip(l);
    assert l == s[lo..];
    assert r == l[..|r|];
    assert r == s[lo..lo + |r|];
    forall i | lo + |r| <= i < |s| ensures IsSpace(s[i]) {
      assert |r| <= i - lo < |l|;
      assert IsSpace(l[i - lo]);
    }
  }

  // ---------- substring search ----------

  /** `p` occurs in `s` starting at index `i`. */
  predicate OccursAt(s: string, p: string, i: int) {
    0 <= i && i + |p| <= |s| && s[i..i + |p|] == p
  }

  /** `p in s`. */
  predicate Contains(s: string, p: string) {
    exists i :: 0 <= i <= |s| - |p| && OccursAt(s, p, i)
  }

  /** `s.find(p, k)`: the first index at or after `k` where `p` occurs, or -1. */
  function FindFrom(s: string, p: string, k: nat): (r: int)
    ensures r == -1 || (k <= r && OccursAt(s, p, r))
    ensures forall j :: k <= j && (r == -1 || j < r) ==> !OccursAt(s, p, j)
    decreases |s| - k
  {
    if k + |p| > |s| then -1
    else if OccursAt(s, p, k) then k
    else FindFrom(s, p, k + 1)
  }

  /** `s.find(p)`. */
  function Find(s: string, p: string): (r: int)
    ensures r == -1 <==> !Contains(s, p)
    ensures r != -1 ==> OccursAt(s, p, r) && forall j :: 0 <= j < r ==> !OccursAt(s, p, j)
  {
    FindFrom(s, p, 0)
  }

  /** A prefix ending before the first occurrence of `p` does not contain `p`. */
  lemma NothingBeforeFirst(s: string, p: string, i: nat)
    requires |p| > 0 && i <= |s| && forall j :: 0 <= j < i ==> !OccursAt(s, p, j)
    ensures !Contains(s[..i], p)
  {
    forall j | 0 <= j <= i - |p| ensures !OccursAt(s[..i], p, j) {
      assert !OccursAt(s, p, j);
      assert s[..i][j..j + |p|] == s[j..j + |p|];
    }
  }

  /** `s.split(sep)[0]`: everything before the first `sep`, or all of `s`. */
  function Head(s: string, sep: string): (r: string)
    requires |sep| > 0
    ensures r == s <==> !Contains(s, sep)
    ensures Contains(s, sep) ==> OccursAt(s, sep, |r|) && r == s[..|r|] && !Contains(r, sep)
  {
    var i := Find(s, sep);
    if i < 0 then s
    else
      var r := s[..i];
      NothingBeforeFirst(s, sep, i);
      r
  }

  /** `s.split(sep, 1)`: one part when `sep` is absent, else the parts before and after its first occurrence. */
  function SplitOnce(s: string, sep: string): (parts: seq<string>)
    requires |sep| > 0
    ensures |parts| == 1 <==> !Contains(s, sep)
    ensures |parts| == 1 || |parts| == 2
    ensures |parts| == 2 ==> s == parts[0] + sep + parts[1] && !Contains(parts[0], sep)
  {
    var i := Find(s, sep);
    if i < 0 then [s]
    else
      var a, b := s[..i], s[i + |sep|..];
      assert s == a + sep + b by { assert s[i..i + |sep|] == sep; }
      NothingBeforeFirst(s, sep, i);
      [a, b]
  }

  /** `s.split(sep)`: the pieces between the occurrences of `sep`, found left to right. */
  function Split(s: string, sep: string): (parts: seq<string>)
    requires |sep| > 0
    ensures |parts| >= 1
    decreases |s|
  {
    var i := Find(s, sep);
    if i < 0 then [s] else [s[..i]] + Split(s[i + |sep|..], sep)
  }

  /** Number of times the character `c` occurs in `s`. */
  function CountChar(s: string, c: char): nat {
    if s == [] then 0 else (if s[0] == c then 1 else 0) + CountChar(s[1..], c)
  }

  lemma {:induction false} CountCharAppend(a: string, b: string, c: char)
    ensures CountChar(a + b, c) == CountChar(a, c) + CountChar(b, c)
  {
    if a != [] {
      assert (a + b)[1..] == a[1..] + b;
      CountCharAppend(a[1..], b, c);
    } else {
      assert a + b == b;
    }
  }

  /** A one-character pattern occurs at `j` exactly when `s[j]` is that character. */
  lemma OccursChar(s: string, c: char, j: int)
    requires 0 <= j < |s|
    ensures OccursAt(s, [c], j) <==> s[j] == c
  {
    assert s[j..j + 1] == [s[j]];
  }

  lemma ContainsChar(s: string, c: char)
    ensures Contains(s, [c]) <==> c in s
  {
    if c in s {
      var j :| 0 <= j < |s| && s[j] == c;
      OccursChar(s, c, j);
    }
    if Contains(s, [c]) {
      var j :| 0 <= j <= |s| - 1 && OccursAt(s, [c], j);
      OccursChar(s, c, j);
    }
  }

  lemma {:induction false} CountCharZero(s: string, c: char)
    ensures CountChar(s, c) == 0 <==> !Contains(s, [c])
  {
    ContainsChar(s, c);
    if s != [] {
      CountCharZero(s[1..], c);
      ContainsChar(s[1..], c);
      assert c in s <==> s[0] == c || c in s[1..];
    }
  }

  /** Splitting on a one-character separator yields one more piece than there are separators. */
  lemma {:induction false} SplitCount(s: string, c: char)
    ensures |Split(s, [c])| == CountChar(s, c) + 1
    decreases |s|
  {
    var i := Find(s, [c]);
    if i < 0 {
      CountCharZero(s, c);
    } else {
      var rest := s[i + 1..];
      assert s == s[..i] + [c] + rest by { assert s[i..i + 1] == [c]; }
      NothingBeforeFirst(s, [c], i);
      assert Split(s, [c]) == [s[..i]] + Split(rest, [c]);
      CountCharZero(s[..i], c);
      assert s == s[..i] + ([c] + rest);
      CountCharAppend(s[..i], [c] + rest, c);
      CountCharAppend([c], rest, c);
      assert CountChar([c], c) == 1;
      SplitCount(rest, c);
    }
  }

  /** When `c` occurs at `i` and nowhere after it, `s.split(c)` is the two pieces around `i`. */
  lemma SplitAtLast(s: string, c: char, i: nat)
    requires i < |s| && Find(s, [c]) == i && CountChar(s[i + 1..], c) == 0
    ensures Split(s, [c]) == [s[..i], s[i + 1..]]
    ensures s == s[..i] + [c] + s[i + 1..]
    ensures !Contains(s[..i], [c]) && !Contains(s[i + 1..], [c])
  {
    var rest := s[i + 1..];
    CountCharZero(rest, c);
    assert Find(rest, [c]) < 0;
    assert s == s[..i] + [c] + rest by { assert s[i..i + 1] == [c]; }
    NothingBeforeFirst(s, [c], i);
  }

  /** `s.split(c)` has exactly two pieces iff `c` occurs exactly once; the pieces surround it. */
  lemma SplitInTwo(s: string, c: char)
    ensures |Split(s, [c])| == 2 <==> CountChar(s, c) == 1
    ensures |Split(s, [c])| == 2 ==>
      var parts := Split(s, [c]);
      s == parts[0] + [c] + parts[1] && !Contains(parts[0], [c]) && !Contains(parts[1], [c])
  {
    SplitCount(s, c);
    var i := Find(s, [c]);
    if i >= 0 && |Split(s, [c])| == 2 {
      SplitCount(s[i + 1..], c);
      SplitAtLast(s, c, i);
    }
  }

  /** `s.replace(p, "")`: every occurrence of `p`, found left to right without overlap, removed. */
  function RemoveAll(s: string, p: string): (r: string)
    requires |p| > 0
    ensures |r| <= |s|
    decreases |s|
  {
    if |s| < |p| then s
    else if s[..|p|] == p then RemoveAll(s[|p|..], p)
    else [s[0]] + RemoveAll(s[1..], p)
  }

  /** The first character of `p` does not recur in `p`: `p` cannot overlap a shifted copy of itself. */
  predicate FreshStart(p: string) {
    |p| > 0 && forall k :: 0 < k < |p| ==> p[k] != p[0]
  }

  /** A pattern absent from `s` is absent from its tail. */
  lemma TailAbsent(s: string, p: string)
    requires |s| > 0 && !Contains(s, p)
    ensures !Contains(s[1..], p)
  {
    forall j | 0 <= j <= |s[1..]| - |p| ensures !OccursAt(s[1..], p, j) {
      assert !OccursAt(s, p, j + 1);
      assert s[1..][j..j + |p|] == s[j + 1..j + 1 + |p|];
    }
  }

  /** Removing a pattern that does not occur changes nothing. */
  lemma {:induction false} RemoveAllAbsent(s: string, p: string)
    requires |p| > 0 && !Contains(s, p)
    ensures RemoveAll(s, p) == s
    decreases |s|
  {
    if |s| >= |p| {
      assert !OccursAt(s, p, 0);
      TailAbsent(s, p);
      RemoveAllAbsent(s[1..], p);
      assert s == [s[0]] + s[1..];
    }
  }

  /** An occurrence of `p` starting inside `a` cannot run into an appended copy of `p`. */
  lemma NoStraddle(a: string, p: string, b: string, i: nat)
    requires FreshStart(p) && !Contains(a, p) && i < |a|
    ensures !OccursAt(a + p + b, p, i)
  {
    var s := a + p + b;
    if i + |p| <= |a| {
      assert s[i..i + |p|] == a[i..i + |p|];
      assert !OccursAt(a, p, i);
    } else if i + |p| <= |s| {
      var k := |a| - i;
      assert s[i..i + |p|][k] == p[0];
      assert p[k] != p[0];
    }
  }

  /** Appending a marker `p` to a string free of it: `find` locates the marker right after the string. */
  lemma FindMarker(a: string, p: string, b: string)
    requires FreshStart(p) && !Contains(a, p)
    ensures Find(a + p + b, p) == |a|
  {
    var s := a + p + b;
    assert s[|a|..|a| + |p|] == p;
    assert OccursAt(s, p, |a|);
    forall j | 0 <= j < |a| ensures !OccursAt(s, p, j) { NoStraddle(a, p, b, j); }
  }

  /** `(a + p + b).split(p)[0] == a` when `a` is free of the marker `p`. */
  lemma HeadAtMarker(a: string, p: string, b: string)
    requires FreshStart(p) && !Contains(a, p)
    ensures Head(a + p + b, p) == a
  {
    FindMarker(a, p, b);
    assert (a + p + b)[..|a|] == a;
  }

  /** `(a + p).replace(p, "") == a` when `a` does not contain the marker `p`. */
  lemma {:induction false} RemoveMarker(a: string, p: string)
    requires FreshStart(p) && !Contains(a, p)
    ensures RemoveAll(a + p, p) == a
    decreases |a|
  {
    var s := a + p;
    if a == [] {
      assert s[..|p|] == p && s[|p|..] == [];
    } else {
      assert s + [] == a + p + [];
      NoStraddle(a, p, [], 0);
      assert s[..|p|] != p by { assert !OccursAt(a + p + [], p, 0); }
      TailAbsent(a, p);
      RemoveMarker(a[1..], p);
      assert s[1..] == a[1..] + p;
    }
  }
}
