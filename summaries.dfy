/** The `Summary` record shared by every component (src/components/PodcastSummaryApp.tsx). */
module Summaries {
  import opened Wrappers

  datatype KeyTopic = KeyTopic(topic: string, description: string)

  /** `score` is a JavaScript number; it is compared only against the integer thresholds 2, 3 and 4. */
  datatype ListenRating = ListenRating(score: real, justification: string)

  datatype Summary = Summary(
    id: string,
    youtubeVideoId: string,
    title: string,
    channel: string,
    duration: string,
    publishDate: Option<string>,
    executiveSummary: string,
    keyTopics: seq<KeyTopic>,
    detailedSummary: string,
    notableQuotes: seq<string>,
    keyTakeaways: seq<string>,
    listenRating: ListenRating,
    extractionMethod: Option<string>,
    createdAt: Option<string>)
}
