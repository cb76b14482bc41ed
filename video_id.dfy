/**
 * `extractVideoId` (src/components/PodcastSummaryApp.tsx), the match of the regular expression
 *   (?:youtube\.com\/watch\?v=|youtu\.be\/|youtube\.com\/embed\/)([^&\n?#]+)
 * without anchors and without flags. The scan below is what the regular-expression
 * engine does for it; `CapturesAt` is the declarative reading of the pattern.
 */
module VideoId {
  import opened Wrappers

  const WatchPrefix: string := "youtube.com/watch?v="
  const ShortPrefix: string := "youtu.be/"
  const EmbedPrefix: string := "youtube.com/embed/"

  /** The character class `[^&\n?#]`. */
  predicate IsIdChar(c: char) {
    c != '&' && c != '\n' && c != '?' && c != '#'
  }

  /** What the capture group can hold: one or more characters of the class. */
  predicate IsToken(id: string) {
    |id| > 0 && forall k :: 0 <= k < |id| ==> IsIdChar(id[k])
  }

  predicate StartsWithAt(s: string, i: nat, p: string) {
    i + |p| <= |s| && s[i..i + |p|] == p
  }

  /** The non-capturing alternation, tried in the pattern's order at position `i`: the length of the alternative that matches. */
  function PrefixAt(s: string, i: nat): (r: Option<nat>)
    ensures r.Some? ==> i + r.value <= |s|
  {
    if StartsWithAt(s, i, WatchPrefix) then Some(|WatchPrefix|)
    else if StartsWithAt(s, i, ShortPrefix) then Some(|ShortPrefix|)
    else if StartsWithAt(s, i, EmbedPrefix) then Some(|EmbedPrefix|)
    else None
  }

  /** Length of the greedy run `[^&\n?#]*` starting at `j`: every character in it is an id character and it stops at the end or at a character that is not. */
  function RunLength(s: string, j: nat): (n: nat)
    requires j <= |s|
    ensures j + n <= |s|
    ensures forall k :: j <= k < j + n ==> IsIdChar(s[k])
    ensures j + n == |s| || !IsIdChar(s[j + n])
    decreases |s| - j
  {
    if j == |s| || !IsIdChar(s[j]) then 0 else 1 + RunLength(s, j + 1)
  }

  /** The whole pattern tried at position `i`: the captured group, or `None` when it does not match there. */
  function MatchAt(s: string, i: nat): (r: Option<string>)
    requires i <= |s|
    ensures r.Some? ==> PrefixAt(s, i).Some? && IsToken(r.value)
  {
    match PrefixAt(s, i)
    case None => None
    case Some(p) =>
      var n := RunLength(s, i + p);
      if n == 0 then None else Some(s[i + p..i + p + n])
  }

  /** The engine's scan: try positions `i`, `i + 1`, ... and stop at the first where the pattern matches. */
  function FirstMatchFrom(s: string, i: nat): (r: Option<nat>)
    requires i <= |s|
    ensures r.Some? ==> i <= r.value <= |s| && MatchAt(s, r.value).Some?
    decreases |s| - i
  {
    if MatchAt(s, i).Some? then Some(i)
    else if i == |s| then None
    else FirstMatchFrom(s, i + 1)
  }

  /** When the scan fails, the pattern matches at no position from `i` on. */
  lemma {:induction false} ScanMissesNothing(s: string, i: nat)
    requires i <= |s| && FirstMatchFrom(s, i).None?
    ensures forall j :: i <= j <= |s| ==> MatchAt(s, j).None?
    decreases |s| - i
  {
    if i < |s| {
      ScanMissesNothing(s, i + 1);
      forall j | i <= j <= |s| ensures MatchAt(s, j).None? {
        if j != i {
          assert i + 1 <= j <= |s|;
        }
      }
    }
  }

  /** The scan passes over no match: nothing between `i` and the position it returns matches. */
  lemma {:induction false} ScanSkipsNoMatch(s: string, i: nat)
    requires i <= |s| && FirstMatchFrom(s, i).Some?
    ensures forall k :: i <= k < FirstMatchFrom(s, i).value ==> MatchAt(s, k).None?
    decreases |s| - i
  {
    if MatchAt(s, i).None? {
      var r := FirstMatchFrom(s, i + 1);
      assert FirstMatchFrom(s, i) == r;
      ScanSkipsNoMatch(s, i + 1);
      forall k | i <= k < r.value ensures MatchAt(s, k).None? {
        if k != i {
          assert i + 1 <= k < r.value;
        }
      }
    }
  }

  /** The scan fails only when the pattern matches at no position, and it stops at the leftmost match. */
  lemma FirstMatchIsLeftmost(s: string, i: nat)
    requires i <= |s|
    ensures FirstMatchFrom(s, i).None? <==> forall j :: i <= j <= |s| ==> MatchAt(s, j).None?
    ensures FirstMatchFrom(s, i).Some? ==> forall k :: i <= k < FirstMatchFrom(s, i).value ==> MatchAt(s, k).None?
  {
    if FirstMatchFrom(s, i).None? {
      ScanMissesNothing(s, i);
    } else {
      ScanSkipsNoMatch(s, i);
    }
  }

  /** `extractVideoId(url)`: `url.match(regex)` and its first group, or `None` for JavaScript's `null`. */
  function ExtractVideoId(url: string): (r: Option<string>)
    ensures r.Some? ==> IsToken(r.value)
  {
    match FirstMatchFrom(url, 0)
    case None => None
    case Some(i) => MatchAt(url, i)
  }

  // ---------------------------------------------------------------------------
  // The declarative reading of the pattern.

  /** Alternative `p` matches at `i`, followed by `id` as the group: a token, with nothing more of the class right after it (greedy). */
  ghost predicate CapturesAfter(s: string, i: nat, p: string, id: string) {
    && i + |p| + |id| <= |s|
    && s[i..i + |p|] == p
    && s[i + |p|..i + |p| + |id|] == id
    && IsToken(id)
    && (i + |p| + |id| == |s| || !IsIdChar(s[i + |p| + |id|]))
  }

  ghost predicate CapturesAt(s: string, i: nat, id: string) {
    CapturesAfter(s, i, WatchPrefix, id) || CapturesAfter(s, i, ShortPrefix, id) || CapturesAfter(s, i, EmbedPrefix, id)
  }

  ghost predicate HasCaptureAt(s: string, i: nat) {
    exists id :: CapturesAt(s, i, id)
  }

  /** At any position at most one alternative of the pattern can match, so their order never matters. */
  lemma PrefixesExclusive(s: string, i: nat)
    ensures !(StartsWithAt(s, i, WatchPrefix) && StartsWithAt(s, i, ShortPrefix))
    ensures !(StartsWithAt(s, i, WatchPrefix) && StartsWithAt(s, i, EmbedPrefix))
    ensures !(StartsWithAt(s, i, ShortPrefix) && StartsWithAt(s, i, EmbedPrefix))
  {
    // The alternatives differ at offset 5 ('b' against '.') or at offset 12 ('w' against 'e').
    if StartsWithAt(s, i, WatchPrefix) {
      assert s[i + 5] == s[i..i + |WatchPrefix|][5] == 'b';
      assert s[i + 12] == s[i..i + |WatchPrefix|][12] == 'w';
    }
    if StartsWithAt(s, i, ShortPrefix) {
      assert s[i + 5] == s[i..i + |ShortPrefix|][5] == '.';
    }
    if StartsWithAt(s, i, EmbedPrefix) {
      assert s[i + 5] == s[i..i + |EmbedPrefix|][5] == 'b';
      assert s[i + 12] == s[i..i + |EmbedPrefix|][12] == 'e';
    }
  }

  /** One of the alternatives followed by at least one id character is a match. */
  lemma MatchAfterPrefix(s: string, i: nat, q: string)
    requires q == WatchPrefix || q == ShortPrefix || q == EmbedPrefix
    requires StartsWithAt(s, i, q) && i + |q| < |s| && IsIdChar(s[i + |q|])
    ensures MatchAt(s, i).Some?
  {
    PrefixesExclusive(s, i);
    assert PrefixAt(s, i) == Some(|q|);
  }

  /** The maximal run is the only token that can follow a prefix. */
  lemma RunIsOnlyCapture(s: string, j: nat, id: string)
    requires j + |id| <= |s| && s[j..j + |id|] == id && IsToken(id)
    requires j + |id| == |s| || !IsIdChar(s[j + |id|])
    ensures RunLength(s, j) == |id|
  {
  }

  /** A capture after one of the alternatives is what the scan finds at that position. */
  lemma CaptureIsMatch(s: string, i: nat, p: string, id: string)
    requires p == WatchPrefix || p == ShortPrefix || p == EmbedPrefix
    requires CapturesAfter(s, i, p, id)
    ensures MatchAt(s, i) == Some(id)
  {
    PrefixesExclusive(s, i);
    assert StartsWithAt(s, i, p);
    assert PrefixAt(s, i) == Some(|p|);
    RunIsOnlyCapture(s, i + |p|, id);
  }

  /** What the scan finds at a position is a capture of the pattern there. */
  lemma MatchIsCaptureAt(s: string, i: nat)
    requires i <= |s| && MatchAt(s, i).Some?
    ensures CapturesAt(s, i, MatchAt(s, i).value)
  {
    var id := MatchAt(s, i).value;
    var p := PrefixAt(s, i).value;
    assert s[i + p..i + p + |id|] == id;
    if StartsWithAt(s, i, WatchPrefix) {
      assert CapturesAfter(s, i, WatchPrefix, id);
    } else if StartsWithAt(s, i, ShortPrefix) {
      assert CapturesAfter(s, i, ShortPrefix, id);
    } else {
      assert CapturesAfter(s, i, EmbedPrefix, id);
    }
  }

  /** The scan's match at `i` is exactly a capture of the pattern at `i`. */
  lemma MatchIsCapture(s: string, i: nat)
    requires i <= |s|
    ensures forall id :: MatchAt(s, i) == Some(id) <==> CapturesAt(s, i, id)
  {
    forall id | CapturesAt(s, i, id) ensures MatchAt(s, i) == Some(id) {
      if CapturesAfter(s, i, WatchPrefix, id) {
        CaptureIsMatch(s, i, WatchPrefix, id);
      } else if CapturesAfter(s, i, ShortPrefix, id) {
        CaptureIsMatch(s, i, ShortPrefix, id);
      } else {
        CaptureIsMatch(s, i, EmbedPrefix, id);
      }
    }
    if MatchAt(s, i).Some? {
      MatchIsCaptureAt(s, i);
    }
  }

  /** The scan fails at a position exactly when the pattern captures nothing there. */
  lemma MatchNoneIffNoCapture(s: string, j: nat)
    requires j <= |s|
    ensures MatchAt(s, j).None? <==> !HasCaptureAt(s, j)
  {
    MatchIsCapture(s, j);
    if MatchAt(s, j).Some? {
      assert CapturesAt(s, j, MatchAt(s, j).value);
    }
  }

  ghost predicate LeftmostCapture(s: string, i: nat, id: string) {
    i <= |s| && CapturesAt(s, i, id) && forall j :: 0 <= j < i ==> !HasCaptureAt(s, j)
  }

  /** The scan started at `k` reaches a match at `i` when nothing between them matches. */
  lemma {:induction false} ScanReaches(s: string, k: nat, i: nat)
    requires k <= i <= |s| && MatchAt(s, i).Some?
    requires forall j :: k <= j < i ==> MatchAt(s, j).None?
    ensures FirstMatchFrom(s, k) == Some(i)
    decreases i - k
  {
    if k < i {
      assert MatchAt(s, k).None?;
      ScanReaches(s, k + 1, i);
    }
  }

  /** The leftmost capture is what the scan finds. */
  lemma LeftmostCaptureIsExtracted(url: string, i: nat, id: string)
    requires LeftmostCapture(url, i, id)
    ensures ExtractVideoId(url) == Some(id)
  {
    forall j | 0 <= j < i ensures MatchAt(url, j).None? {
      MatchNoneIffNoCapture(url, j);
    }
    MatchIsCapture(url, i);
    assert MatchAt(url, i) == Some(id);
    ScanReaches(url, 0, i);
  }

  /** What the scan finds is the leftmost capture. */
  lemma ExtractedIsLeftmostCapture(url: string) returns (i: nat)
    requires ExtractVideoId(url).Some?
    ensures LeftmostCapture(url, i, ExtractVideoId(url).value)
  {
    i := FirstMatchFrom(url, 0).value;
    FirstMatchIsLeftmost(url, 0);
    forall j | 0 <= j < i ensures !HasCaptureAt(url, j) {
      MatchNoneIffNoCapture(url, j);
    }
    MatchIsCapture(url, i);
  }

  /** What `extractVideoId` returns, read off the pattern: the capture at the leftmost position where the pattern matches. */
  lemma ExtractVideoIdSpec(url: string, id: string)
    ensures ExtractVideoId(url) == Some(id) <==> exists i :: LeftmostCapture(url, i, id)
  {
    if ExtractVideoId(url) == Some(id) {
      var i := ExtractedIsLeftmostCapture(url);
    }
    if exists i :: LeftmostCapture(url, i, id) {
      var i :| LeftmostCapture(url, i, id);
      LeftmostCaptureIsExtracted(url, i, id);
    }
  }

  /** `extractVideoId` fails exactly when the pattern matches nowhere. */
  lemma ExtractVideoIdNone(url: string)
    ensures ExtractVideoId(url).None? <==> forall i :: 0 <= i <= |url| ==> !HasCaptureAt(url, i)
  {
    FirstMatchIsLeftmost(url, 0);
    forall i | 0 <= i <= |url| ensures MatchAt(url, i).None? <==> !HasCaptureAt(url, i) {
      MatchNoneIffNoCapture(url, i);
    }
  }

  // ---------------------------------------------------------------------------
  // Concrete URLs.

  /** Every alternative begins with 'y', so the pattern matches only where there is a 'y'. */
  lemma MatchStartsWithY(s: string, i: nat)
    requires i <= |s| && MatchAt(s, i).Some?
    ensures i < |s| && s[i] == 'y'
  {
    if StartsWithAt(s, i, WatchPrefix) {
      assert s[i..i + |WatchPrefix|][0] == 'y';
    } else if StartsWithAt(s, i, ShortPrefix) {
      assert s[i..i + |ShortPrefix|][0] == 'y';
    } else {
      assert s[i..i + |EmbedPrefix|][0] == 'y';
    }
  }

  /** The scan passes over a stretch without 'y'. */
  lemma {:induction false} SkipWithoutY(s: string, i: nat, k: nat)
    requires i <= k <= |s|
    requires forall j :: i <= j < k ==> s[j] != 'y'
    ensures FirstMatchFrom(s, i) == FirstMatchFrom(s, k)
    decreases k - i
  {
    if i < k {
      if MatchAt(s, i).Some? {
        MatchStartsWithY(s, i);
      }
      SkipWithoutY(s, i + 1, k);
    }
  }

  /** A URL made of a part without 'y', one of the three alternatives and a token yields that token. */
  lemma ExtractAfterPrefix(front: string, p: string, id: string)
    requires forall j :: 0 <= j < |front| ==> front[j] != 'y'
    requires p == WatchPrefix || p == ShortPrefix || p == EmbedPrefix
    requires IsToken(id)
    ensures ExtractVideoId(front + p + id) == Some(id)
  {
    var s := front + p + id;
    var i := |front|;
    assert s[i..i + |p|] == p;
    assert s[i + |p|..i + |p| + |id|] == id;
    CaptureIsMatch(s, i, p, id);
    SkipWithoutY(s, 0, i);
  }

  /** Text without a 'y' has no video id. */
  lemma NoIdWithoutY(s: string)
    requires forall j :: 0 <= j < |s| ==> s[j] != 'y'
    ensures ExtractVideoId(s).None?
  {
    SkipWithoutY(s, 0, |s|);
    if MatchAt(s, |s|).Some? {
      MatchStartsWithY(s, |s|);
    }
  }
}
