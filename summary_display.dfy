/** The summary view (src/components/SummaryDisplay.tsx): expandable sections, rating badge, bookmarks and sharing. */
module SummaryDisplay {
  import opened Wrappers
  import opened Summaries
  import opened Storage
  import opened VideoId
  import opened Rating

  const BookmarksKey: string := "podcast-bookmarks"
  const InitialSection: string := "executive"

  // ---------------------------------------------------------------------------
  // Expandable sections.

  /** `toggleSection` on a copy of the set: `section` flips, every other section keeps its membership. */
  function Toggled(expanded: set<string>, section: string): (r: set<string>)
    ensures section in r <==> section !in expanded
    ensures forall other :: other != section ==> (other in r <==> other in expanded)
  {
    if section in expanded then expanded - {section} else expanded + {section}
  }

  /** Toggling the same section twice gives back the set it started from. */
  lemma ToggleTwice(expanded: set<string>, section: string)
    ensures Toggled(Toggled(expanded, section), section) == expanded
  {
    var once := Toggled(expanded, section);
    var twice := Toggled(once, section);
    assert forall x :: x in twice <==> x in expanded;
  }

  // ---------------------------------------------------------------------------
  // Rating badge.

  function RatingColor(score: real): string {
    if score >= 4.0 then "text-green-600 bg-green-100 border-green-200"
    else if score >= 3.0 then "text-blue-600 bg-blue-100 border-blue-200"
    else if score >= 2.0 then "text-yellow-600 bg-yellow-100 border-yellow-200"
    else "text-red-600 bg-red-100 border-red-200"
  }

  function RatingEmoji(score: real): string {
    if score >= 4.0 then "\U{1F525}"
    else if score >= 3.0 then "\U{1F44D}"
    else if score >= 2.0 then "\U{1F914}"
    else "\U{23ED}\U{FE0F}"
  }

  /** Two scores get the same colour exactly when they are in the same tier. */
  lemma RatingColorByTier(a: real, b: real)
    ensures RatingColor(a) == RatingColor(b) <==> TierOf(a) == TierOf(b)
  {
  }

  /** Two scores get the same emoji exactly when they are in the same tier. */
  lemma RatingEmojiByTier(a: real, b: real)
    ensures RatingEmoji(a) == RatingEmoji(b) <==> TierOf(a) == TierOf(b)
  {
  }

  // ---------------------------------------------------------------------------
  // Bookmarks.

  predicate IsBookmarked(bookmarks: seq<Summary>, id: string) {
    exists i :: 0 <= i < |bookmarks| && bookmarks[i].id == id
  }

  /** `JSON.parse(localStorage.getItem('podcast-bookmarks') || '[]')`: a missing or empty value reads as no bookmarks, and anything else must parse. */
  function SavedBookmarks(saved: Option<Blob>): (r: Option<seq<Summary>>)
    ensures saved.None? ==> r == Some([])
    ensures saved == Some(Malformed("")) ==> r == Some([])
    ensures r.None? <==> saved.Some? && saved.value.Malformed? && saved.value.text != ""
    ensures saved.Some? && saved.value.Encoded? ==> r == Some(saved.value.items)
  {
    match saved
    case None => Some([])
    case Some(b) => if Truthy(b) then Parse(b) else Some([])
  }

  /** The list after one bookmark click: the summary is appended unless one with its id is already there. */
  function WithBookmark(bookmarks: seq<Summary>, s: Summary): (r: seq<Summary>)
    ensures bookmarks <= r && |r| <= |bookmarks| + 1
    ensures IsBookmarked(r, s.id)
    ensures r == bookmarks <==> IsBookmarked(bookmarks, s.id)
    ensures r != bookmarks ==> r[|bookmarks|] == s
  {
    if IsBookmarked(bookmarks, s.id) then bookmarks
    else
      var r := bookmarks + [s];
      assert r[|bookmarks|].id == s.id;
      r
  }

  /** Bookmarking the same summary again changes nothing. */
  lemma BookmarkIdempotent(bookmarks: seq<Summary>, s: Summary)
    ensures WithBookmark(WithBookmark(bookmarks, s), s) == WithBookmark(bookmarks, s)
  {
  }

  datatype BookmarkOutcome =
    | Added          // appended and written back
    | AlreadyThere   // an entry with this id exists; nothing is written
    | ParseFailed    // JSON.parse threw; the exception leaves the handler and nothing is written

  // ---------------------------------------------------------------------------
  // Sharing.

  const WatchUrlBase: string := "https://youtube.com/watch?v="

  /** The link shared, copied and opened for a summary. */
  function WatchUrl(s: Summary): string {
    WatchUrlBase + s.youtubeVideoId
  }

  /** What `handleShare` hands to the browser. */
  datatype ShareRequest =
    | NativeShare(title: string, text: string, url: string)
    | CopyToClipboard(text: string)

  /** `handleShare`: the native share sheet when the browser has one, otherwise the clipboard. */
  function ShareFor(s: Summary, canShare: bool): (r: ShareRequest)
    ensures r.NativeShare? <==> canShare
    ensures r.NativeShare? ==> r.url == WatchUrl(s) && r.title == s.title && r.text == s.executiveSummary
    ensures r.CopyToClipboard? ==> r.text == s.title + "\n\n" + s.executiveSummary + "\n\n" + WatchUrl(s)
  {
    if canShare then NativeShare(s.title, s.executiveSummary, WatchUrl(s))
    else CopyToClipboard(s.title + "\n\n" + s.executiveSummary + "\n\n" + WatchUrl(s))
  }

  /** A token put after the watch-link base comes back out of `extractVideoId`. */
  lemma WatchUrlYieldsToken(id: string)
    requires IsToken(id)
    ensures ExtractVideoId(WatchUrlBase + id) == Some(id)
  {
    var scheme := "https://";
    assert forall j :: 0 <= j < |scheme| ==> scheme[j] != 'y';
    assert WatchUrlBase + id == scheme + WatchPrefix + id;
    ExtractAfterPrefix(scheme, WatchPrefix, id);
  }

  /** Any id `extractVideoId` can return survives the trip through the shared link. */
  lemma WatchUrlRoundTrip(url: string, s: Summary)
    requires ExtractVideoId(url) == Some(s.youtubeVideoId)
    ensures ExtractVideoId(WatchUrl(s)) == Some(s.youtubeVideoId)
  {
    WatchUrlYieldsToken(s.youtubeVideoId);
  }

  // ---------------------------------------------------------------------------
  // The component's state.

  class SummaryView {
    const summary: Summary
    var expanded: set<string>

    constructor (summary: Summary)
      ensures this.summary == summary
      ensures expanded == {InitialSection}
    {
      this.summary := summary;
      expanded := {InitialSection};
    }

    method ToggleSection(section: string)
      modifies this
      ensures expanded == Toggled(old(expanded), section)
    {
      var next := expanded;
      if section in next {
        next := next - {section};
      } else {
        next := next + {section};
      }
      expanded := next;
    }

    /** `handleBookmark`: reads the bookmark list, appends this summary unless its id is there, writes the list back. */
    method HandleBookmark(store: LocalStorage) returns (outcome: BookmarkOutcome)
      modifies store
      ensures var saved := SavedBookmarks(if BookmarksKey in old(store.items) then Some(old(store.items)[BookmarksKey]) else None);
        && (outcome == ParseFailed <==> saved.None?)
        && (outcome == AlreadyThere <==> saved.Some? && IsBookmarked(saved.value, summary.id))
        && (if outcome == Added then store.items == old(store.items)[BookmarksKey := Encoded(WithBookmark(saved.value, summary))]
            else store.items == old(store.items))
    {
      var raw := store.GetItem(BookmarksKey);
      var saved := SavedBookmarks(raw);
      if saved.None? {
        return ParseFailed;
      }
      var bookmarks := saved.value;
      if !IsBookmarked(bookmarks, summary.id) {
        bookmarks := bookmarks + [summary];
        store.SetItem(BookmarksKey, Encoded(bookmarks));
        outcome := Added;
      } else {
        outcome := AlreadyThere;
      }
    }
  }
}
