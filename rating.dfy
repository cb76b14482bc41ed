/**
 * The listen-rating tiers. Both the summary view and the recent-summary cards pick a
 * colour and an emoji for a score by the same thresholds, 2, 3 and 4; this module is
 * the reference both are proved against.
 */
module Rating {

  datatype Tier = Skip | Doubtful | Worthwhile | MustListen

  function Rank(t: Tier): nat {
    match t
    case Skip => 0
    case Doubtful => 1
    case Worthwhile => 2
    case MustListen => 3
  }

  /** The tier of a score is the number of thresholds the score reaches. */
  function TierOf(score: real): (t: Tier)
    ensures Rank(t) == (if score >= 2.0 then 1 else 0) + (if score >= 3.0 then 1 else 0) + (if score >= 4.0 then 1 else 0)
  {
    if score >= 4.0 then MustListen
    else if score >= 3.0 then Worthwhile
    else if score >= 2.0 then Doubtful
    else Skip
  }

  /** A higher score never lands in a lower tier. */
  lemma TierMonotone(a: real, b: real)
    requires a <= b
    ensures Rank(TierOf(a)) <= Rank(TierOf(b))
  {
  }
}
