/** The recent-summaries sidebar (src/components/RecentSummaries.tsx): one card per cached summary. */
module RecentSummaries {
  import opened Wrappers
  import opened Summaries
  import opened Rating
  import SummaryDisplay

  const MsPerHour: int := 1000 * 60 * 60
  const MsPerDay: int := 24 * MsPerHour
  /** The footer's threshold; the sidebar has its own literal, apart from the controller's cap of ten. */
  const CapFooterLength: nat := 10

  // ---------------------------------------------------------------------------
  // Card rating badge: the same thresholds as the summary view, without the border class.

  function CardRatingColor(score: real): string {
    if score >= 4.0 then "text-green-600 bg-green-100"
    else if score >= 3.0 then "text-blue-600 bg-blue-100"
    else if score >= 2.0 then "text-yellow-600 bg-yellow-100"
    else "text-red-600 bg-red-100"
  }

  function CardRatingEmoji(score: real): string {
    if score >= 4.0 then "\U{1F525}"
    else if score >= 3.0 then "\U{1F44D}"
    else if score >= 2.0 then "\U{1F914}"
    else "\U{23ED}\U{FE0F}"
  }

  /** A card shows the emoji of the summary view, and its colour changes exactly where the view's colour does. */
  lemma CardBadgeMatchesView(a: real, b: real)
    ensures CardRatingEmoji(a) == SummaryDisplay.RatingEmoji(a)
    ensures CardRatingColor(a) == CardRatingColor(b) <==> SummaryDisplay.RatingColor(a) == SummaryDisplay.RatingColor(b)
  {
    CardColorByTier(a, b);
    SummaryDisplay.RatingColorByTier(a, b);
  }

  /** Two scores get the same card colour exactly when they are in the same tier. */
  lemma CardColorByTier(a: real, b: real)
    ensures CardRatingColor(a) == CardRatingColor(b) <==> TierOf(a) == TierOf(b)
  {
  }

  // ---------------------------------------------------------------------------
  // Relative time.

  /** What `timeAgo` shows: "Just now", "<hours>h ago", "<days>d ago" or the locale date. */
  datatype RelativeTime = JustNow | HoursAgo(hours: int) | DaysAgo(days: int) | LocaleDate

  /** `timeAgo` for a summary created `elapsedMs` milliseconds ago (negative for a date in the future). */
  function TimeAgo(elapsedMs: int): (t: RelativeTime)
    ensures t == JustNow <==> elapsedMs < MsPerHour
    ensures t.HoursAgo? <==> MsPerHour <= elapsedMs < MsPerDay
    ensures t.HoursAgo? ==> 1 <= t.hours < 24 && t.hours * MsPerHour <= elapsedMs < (t.hours + 1) * MsPerHour
    ensures t.DaysAgo? <==> MsPerDay <= elapsedMs < 7 * MsPerDay
    ensures t.DaysAgo? ==> 1 <= t.days < 7 && t.days * MsPerDay <= elapsedMs < (t.days + 1) * MsPerDay
    ensures t == LocaleDate <==> 7 * MsPerDay <= elapsedMs
  {
    var hours := elapsedMs / MsPerHour;
    if hours < 1 then JustNow
    else if hours < 24 then HoursAgo(hours)
    else
      var days := hours / 24;
      if days < 7 then DaysAgo(days) else LocaleDate
  }

  /** Whole hours the shown label stands for; the locale date stands for a week or more. */
  function Staleness(t: RelativeTime): int {
    match t
    case JustNow => 0
    case HoursAgo(h) => h
    case DaysAgo(d) => 24 * d
    case LocaleDate => 24 * 7
  }

  /** An older summary never shows a fresher label. */
  lemma TimeAgoMonotone(a: int, b: int)
    requires a <= b
    ensures Staleness(TimeAgo(a)) <= Staleness(TimeAgo(b))
  {
  }

  // ---------------------------------------------------------------------------
  // The list.

  datatype Card = Card(summary: Summary, selected: bool, ratingColor: string, ratingEmoji: string, age: Option<RelativeTime>)

  datatype Panel =
    | EmptyState                                  // "Your recent summaries will appear here"
    | Listing(cards: seq<Card>, capFooter: bool)  // the cards, and "Showing 10 most recent summaries"

  /**
   * `SummaryCard` for one summary. `currentId` is the id of the summary on display, if any;
   * `elapsedSince(createdAt)` is the current time minus the creation time, in milliseconds.
   * An absent or empty `createdAt` is falsy, and the card then shows no time.
   */
  function CardFor(s: Summary, currentId: Option<string>, elapsedSince: string -> int): (c: Card)
    ensures c.summary == s
    ensures c.selected <==> currentId == Some(s.id)
    ensures c.ratingEmoji == SummaryDisplay.RatingEmoji(s.listenRating.score)
    ensures c.age.Some? <==> s.createdAt.Some? && s.createdAt.value != ""
  {
    CardBadgeMatchesView(s.listenRating.score, s.listenRating.score);
    Card(s, currentId == Some(s.id),
      CardRatingColor(s.listenRating.score), CardRatingEmoji(s.listenRating.score),
      if s.createdAt.Some? && s.createdAt.value != "" then Some(TimeAgo(elapsedSince(s.createdAt.value))) else None)
  }

  /** `summaries.map(...)`: one card per summary, in list order. */
  function Cards(summaries: seq<Summary>, currentId: Option<string>, elapsedSince: string -> int): (cards: seq<Card>)
    ensures |cards| == |summaries|
    ensures forall i :: 0 <= i < |cards| ==> cards[i].summary == summaries[i]
    ensures forall i :: 0 <= i < |cards| ==> (cards[i].selected <==> currentId == Some(summaries[i].id))
    ensures forall i :: 0 <= i < |cards| ==> (cards[i].age.Some? <==> summaries[i].createdAt.Some? && summaries[i].createdAt.value != "")
  {
    if summaries == [] then []
    else [CardFor(summaries[0], currentId, elapsedSince)] + Cards(summaries[1..], currentId, elapsedSince)
  }

  /** `RecentSummaries`: the empty state for an empty list, otherwise the cards and, from ten entries on, the footer. */
  function RecentPanel(summaries: seq<Summary>, currentId: Option<string>, elapsedSince: string -> int): (p: Panel)
    ensures p.EmptyState? <==> summaries == []
    ensures p.Listing? ==> |p.cards| == |summaries| && (p.capFooter <==> |summaries| >= CapFooterLength)
  {
    if |summaries| == 0 then EmptyState
    else Listing(Cards(summaries, currentId, elapsedSince), |summaries| >= CapFooterLength)
  }

  /** At most one card is marked when the ids in the list are distinct. */
  lemma AtMostOneSelected(summaries: seq<Summary>, currentId: Option<string>, elapsedSince: string -> int, i: nat, j: nat)
    requires forall a, b :: 0 <= a < b < |summaries| ==> summaries[a].id != summaries[b].id
    requires i < j < |summaries|
    ensures !(Cards(summaries, currentId, elapsedSince)[i].selected && Cards(summaries, currentId, elapsedSince)[j].selected)
  {
  }
}
