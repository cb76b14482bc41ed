/**
 * The page controller (src/components/PodcastSummaryApp.tsx): the recency cache of
 * summaries keyed by video id, its copy in storage, and the submit / select handlers.
 */
module PodcastSummaryApp {
  import opened Wrappers
  import opened Summaries
  import opened Storage
  import opened VideoId

  const SummariesKey: string := "podcast-summaries"
  const RecentCap: nat := 10
  const InvalidUrlMessage: string := "Invalid YouTube URL. Please enter a valid YouTube video URL."
  const FallbackErrorMessage: string := "An error occurred while generating the summary"

  /** A value thrown inside `handleSubmit`: an `Error` object with its message, or anything else. */
  datatype Thrown = ErrorObject(message: string) | OtherValue

  /** How the summary generator's promise settles. */
  datatype Generation = Generated(summary: Summary) | Threw(thrown: Thrown)

  /** The `catch` clause: `err instanceof Error ? err.message : <fallback>`. */
  function ErrorText(t: Thrown): string {
    match t
    case ErrorObject(m) => m
    case OtherValue => FallbackErrorMessage
  }

  /** The generator answers a request for a video id with a summary of that id (or fails). */
  ghost predicate KeepsVideoId(generate: (string, string) -> Generation) {
    forall videoId, url :: generate(videoId, url).Generated? ==> generate(videoId, url).summary.youtubeVideoId == videoId
  }

  // ---------------------------------------------------------------------------
  // The recency list.

  predicate DistinctVideoIds(recent: seq<Summary>) {
    forall i, j :: 0 <= i < j < |recent| ==> recent[i].youtubeVideoId != recent[j].youtubeVideoId
  }

  /** What the list is meant to be: at most ten entries, at most one per video id. */
  predicate IsRecencyList(recent: seq<Summary>) {
    |recent| <= RecentCap && DistinctVideoIds(recent)
  }

  /** `recentSummaries.find(s => s.youtubeVideoId === videoId)`: the first entry with that video id. */
  function Find(recent: seq<Summary>, videoId: string): (r: Option<Summary>)
    ensures r.None? <==> forall i :: 0 <= i < |recent| ==> recent[i].youtubeVideoId != videoId
    ensures r.Some? ==>
      exists i ::
        && 0 <= i < |recent| && recent[i] == r.value && r.value.youtubeVideoId == videoId
        && forall j :: 0 <= j < i ==> recent[j].youtubeVideoId != videoId
  {
    if recent == [] then None
    else if recent[0].youtubeVideoId == videoId then Some(recent[0])
    else
      var r := Find(recent[1..], videoId);
      if r.Some? then
        var i :| 0 <= i < |recent| - 1 && recent[1..][i] == r.value && r.value.youtubeVideoId == videoId
          && forall j :: 0 <= j < i ==> recent[1..][j].youtubeVideoId != videoId;
        assert recent[i + 1] == r.value;
        r
      else r
  }

  /** In a list with distinct video ids, the lookup finds exactly the entries of the list. */
  lemma FindInDistinct(recent: seq<Summary>, s: Summary)
    requires DistinctVideoIds(recent)
    ensures Find(recent, s.youtubeVideoId) == Some(s) <==> s in recent
  {
    if s in recent {
      var i :| 0 <= i < |recent| && recent[i] == s;
      var r := Find(recent, s.youtubeVideoId);
      var k :| 0 <= k < |recent| && recent[k] == r.value && r.value.youtubeVideoId == s.youtubeVideoId
        && forall j :: 0 <= j < k ==> recent[j].youtubeVideoId != s.youtubeVideoId;
      assert k == i;
    }
  }

  /** `[summary, ...recentSummaries.slice(0, 9)]`: the new summary first, then the old entries in order, ten at most. */
  function Remember(s: Summary, recent: seq<Summary>): (r: seq<Summary>)
    ensures |r| == if |recent| < RecentCap then |recent| + 1 else RecentCap
    ensures r[0] == s && r[1..] <= recent
  {
    [s] + recent[..if |recent| < RecentCap - 1 then |recent| else RecentCap - 1]
  }

  /** A new video id added to a list with distinct video ids gives a recency list, whatever the old length. */
  lemma RememberKeepsRecencyList(s: Summary, recent: seq<Summary>)
    requires DistinctVideoIds(recent)
    requires Find(recent, s.youtubeVideoId).None?
    ensures IsRecencyList(Remember(s, recent))
  {
    var r := Remember(s, recent);
    forall i, j | 0 <= i < j < |r| ensures r[i].youtubeVideoId != r[j].youtubeVideoId {
      assert r[j] == recent[j - 1];
      if i > 0 {
        assert r[i] == recent[i - 1];
      }
    }
  }

  /** Right after a summary is added, looking up its video id is a hit on that summary. */
  lemma FindAfterRemember(s: Summary, recent: seq<Summary>)
    ensures Find(Remember(s, recent), s.youtubeVideoId) == Some(s)
  {
  }

  /** The list after a run of misses, each summary added in turn. */
  function RememberAll(recent: seq<Summary>, batch: seq<Summary>): seq<Summary>
    decreases |batch|
  {
    if batch == [] then recent else RememberAll(Remember(batch[0], recent), batch[1..])
  }

  function Reversed(s: seq<Summary>): (r: seq<Summary>)
    ensures |r| == |s|
  {
    if s == [] then [] else Reversed(s[1..]) + [s[0]]
  }

  lemma {:induction false} ReversedAt(s: seq<Summary>, k: nat)
    requires k < |s|
    ensures Reversed(s)[k] == s[|s| - 1 - k]
  {
    if k < |s| - 1 {
      ReversedAt(s[1..], k);
    }
  }

  /** The first ten entries of a list, or all of them when there are fewer. */
  function Newest(s: seq<Summary>): (r: seq<Summary>)
    ensures |r| <= RecentCap && r <= s
    ensures |s| <= RecentCap ==> r == s
  {
    if |s| <= RecentCap then s else s[..RecentCap]
  }

  /** Cutting the tail off first does not change the ten first entries. */
  lemma NewestOfNewest(x: seq<Summary>, y: seq<Summary>)
    ensures Newest(x + Newest(y)) == Newest(x + y)
  {
    var l := Newest(x + Newest(y));
    var r := Newest(x + y);
    assert |l| == |r|;
    forall k | 0 <= k < |l| ensures l[k] == r[k] {
      if k >= |x| {
        assert l[k] == Newest(y)[k - |x|];
      }
    }
  }

  /** Prepending and then slicing to nine old entries keeps the ten newest entries of the longer list. */
  lemma RememberIsNewest(s: Summary, recent: seq<Summary>)
    ensures Remember(s, recent) == Newest([s] + recent)
  {
    var l := Remember(s, recent);
    var r := Newest([s] + recent);
    assert |l| == |r|;
    forall k | 0 <= k < |l| ensures l[k] == r[k] {
      if k > 0 {
        assert l[k] == recent[k - 1];
      }
    }
  }

  lemma ReversedThenRest(batch: seq<Summary>, rest: seq<Summary>)
    requires batch != []
    ensures Reversed(batch[1..]) + ([batch[0]] + rest) == Reversed(batch) + rest
  {
    var front := Reversed(batch[1..]);
    assert Reversed(batch) == front + [batch[0]];
    forall k | 0 <= k < |front| + 1 + |rest|
      ensures (front + ([batch[0]] + rest))[k] == ((front + [batch[0]]) + rest)[k]
    {
    }
  }

  /** Adding summaries one by one keeps exactly the ten latest, latest first: the cap evicts the oldest. */
  lemma {:induction false} RememberAllKeepsNewest(recent: seq<Summary>, batch: seq<Summary>)
    requires |recent| <= RecentCap
    ensures RememberAll(recent, batch) == Newest(Reversed(batch) + recent)
    decreases |batch|
  {
    if batch != [] {
      var b := batch[0];
      RememberAllKeepsNewest(Remember(b, recent), batch[1..]);
      RememberIsNewest(b, recent);
      NewestOfNewest(Reversed(batch[1..]), [b] + recent);
      ReversedThenRest(batch, recent);
    }
  }

  /** Eleven summaries with distinct video ids, added to an empty list, leave ten, and the first one is gone. */
  lemma EleventhEvictsFirst(batch: seq<Summary>)
    requires |batch| == RecentCap + 1
    requires DistinctVideoIds(batch)
    ensures |RememberAll([], batch)| == RecentCap
    ensures batch[0] !in RememberAll([], batch)
  {
    RememberAllKeepsNewest([], batch);
    var r := RememberAll([], batch);
    assert Reversed(batch) + [] == Reversed(batch);
    forall k | 0 <= k < |r| ensures r[k] != batch[0] {
      ReversedAt(batch, k);
      assert r[k] == batch[RecentCap - k];
    }
  }

  // ---------------------------------------------------------------------------
  // Hydration from storage.

  /** What the mount-time block does with the stored value. */
  datatype Hydration =
    | NothingSaved             // `getItem` gave null or the empty string: nothing is loaded
    | Restored(items: seq<Summary>)  // the value parsed and replaces the list
    | Corrupt                  // `JSON.parse` threw: logged, and the list stays as it was

  function HydrationFrom(saved: Option<Blob>): (h: Hydration)
    ensures h == NothingSaved <==> saved.None? || saved == Some(Malformed(""))
    ensures h.Restored? <==> saved.Some? && saved.value.Encoded?
    ensures h.Restored? ==> h.items == saved.value.items
    ensures h == Corrupt <==> saved.Some? && saved.value.Malformed? && saved.value.text != ""
  {
    match saved
    case None => NothingSaved
    case Some(b) =>
      if !Truthy(b) then NothingSaved
      else match Parse(b)
        case Some(items) => Restored(items)
        case None => Corrupt
  }

  /** What the page writes is what it reads back on the next load. */
  lemma SaveThenHydrate(recent: seq<Summary>, items: map<string, Blob>)
    ensures HydrationFrom(Some(items[SummariesKey := Encoded(recent)][SummariesKey])) == Restored(recent)
  {
  }

  /** The stored value under the cache key and the in-memory list agree; with nothing readable stored, the list is empty. */
  predicate Mirrors(items: map<string, Blob>, recent: seq<Summary>) {
    if SummariesKey in items && items[SummariesKey].Encoded? then items[SummariesKey].items == recent else recent == []
  }

  function Saved(items: map<string, Blob>): Option<Blob> {
    if SummariesKey in items then Some(items[SummariesKey]) else None
  }

  // ---------------------------------------------------------------------------
  // The component's state.

  class App {
    var loading: bool
    var summary: Option<Summary>
    var error: Option<string>
    var recent: seq<Summary>
    const store: LocalStorage

    /** The cache invariant: a recency list, and exactly what storage holds. */
    ghost predicate Valid()
      reads this, store
    {
      IsRecencyList(recent) && Mirrors(store.items, recent)
    }

    /** The initial `useState` values. */
    constructor (store: LocalStorage)
      ensures this.store == store
      ensures !loading && summary == None && error == None && recent == []
    {
      this.store := store;
      loading := false;
      summary := None;
      error := None;
      recent := [];
    }

    /** The mount-time block: read the cache key and, when it parses, install the list. */
    method Hydrate() returns (h: Hydration)
      modifies this
      ensures h == HydrationFrom(Saved(store.items))
      ensures recent == if h.Restored? then h.items else old(recent)
      ensures loading == old(loading) && summary == old(summary) && error == old(error)
      ensures old(recent) == [] ==> Mirrors(store.items, recent)
      ensures old(recent) == [] ==> (Valid() <==> IsRecencyList(recent))
    {
      var saved := store.GetItem(SummariesKey);
      h := HydrationFrom(saved);
      if h.Restored? {
        recent := h.items;
      }
    }

    /**
     * `handleSubmit(url)`. `generate` is the summary generator; `called` tells whether it
     * was invoked. Every path ends with `loading` false.
     */
    method Submit(url: string, generate: (string, string) -> Generation) returns (called: bool)
      requires KeepsVideoId(generate)
      modifies this, store
      ensures !loading
      ensures called <==> ExtractVideoId(url).Some? && Find(old(recent), ExtractVideoId(url).value).None?
      // Not a video URL: the error, nothing shown, the cache untouched.
      ensures ExtractVideoId(url).None? ==>
        && error == Some(InvalidUrlMessage) && summary == None
        && recent == old(recent) && store.items == old(store.items)
      // Cache hit: the first cached entry for the id is shown, the cache untouched.
      ensures ExtractVideoId(url).Some? && Find(old(recent), ExtractVideoId(url).value).Some? ==>
        && summary == Find(old(recent), ExtractVideoId(url).value) && error == None
        && recent == old(recent) && store.items == old(store.items)
      // Miss: the generator's outcome.
      ensures called ==>
        match generate(ExtractVideoId(url).value, url)
        case Generated(s) =>
          && summary == Some(s) && error == None
          && recent == Remember(s, old(recent))
          && store.items == old(store.items)[SummariesKey := Encoded(recent)]
        case Threw(t) =>
          && error == Some(ErrorText(t)) && summary == None
          && recent == old(recent) && store.items == old(store.items)
      ensures old(Valid()) ==> Valid()
      // One successful miss repairs an over-long but duplicate-free list loaded from storage.
      ensures (old(DistinctVideoIds(recent) && Mirrors(store.items, recent))
               && called && generate(ExtractVideoId(url).value, url).Generated?) ==> Valid()
    {
      loading := true;
      error := None;
      summary := None;

      var videoId := ExtractVideoId(url);
      if videoId.None? {
        error := Some(ErrorText(ErrorObject(InvalidUrlMessage)));
        loading := false;
        return false;
      }

      var existing := Find(recent, videoId.value);
      if existing.Some? {
        summary := existing;
        loading := false;
        return false;
      }

      called := true;
      var outcome := generate(videoId.value, url);
      match outcome {
        case Generated(s) =>
          summary := Some(s);
          if DistinctVideoIds(recent) {
            RememberKeepsRecencyList(s, recent);
          }
          var updated := Remember(s, recent);
          recent := updated;
          store.SetItem(SummariesKey, Encoded(updated));
        case Threw(t) =>
          error := Some(ErrorText(t));
      }
      loading := false;
    }

    /** `handleSelectRecent(s)`: show `s` and clear the error; the cache and the loading flag stay as they are. */
    method SelectRecent(s: Summary)
      modifies this
      ensures summary == Some(s) && error == None
      ensures recent == old(recent) && loading == old(loading)
    {
      summary := Some(s);
      error := None;
    }
  }
}
