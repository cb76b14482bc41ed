# Podcast summary page: the cache and session controller, in Dafny

This project models the decision logic of a small React page that turns a YouTube link
into a structured podcast summary. The page keeps a cache of at most ten summaries,
keyed by video id and most recent first, and keeps a copy of it in `localStorage`.

The model covers:

- **Video-id extraction** (`VideoId`). `extractVideoId` is one unanchored regular expression.
  It is modelled as the scan a regular-expression engine performs: find the leftmost
  position where one of `youtube.com/watch?v=`, `youtu.be/` or `youtube.com/embed/` is
  followed by a non-empty run of characters other than `&`, `?`, `#` and newline, and
  return that run. A declarative reading of the pattern (`CapturesAt`) is proved equal
  to the scan.
- **The controller** (`PodcastSummaryApp`). The class `App` has the component's four
  state variables and the shared storage object. It has the mount-time hydration, the
  `handleSubmit` handler (extract, look up, generate on a miss, prepend and cap at ten,
  write back) and `handleSelectRecent`. The pure pieces are separate functions: the
  `find` lookup, the `[new, ...old.slice(0, 9)]` update and the hydration decision.
  Lemmas about them prove that the cache stays a recency list and that storage mirrors it.
- **The summary view** (`SummaryDisplay`): section toggling, the rating badge, the
  bookmark handler and the share link.
- **The recent-summaries sidebar** (`RecentSummaries`): the empty state, one card per
  summary, the "10 most recent" footer, the selected card, the card badge and `timeAgo`.
- **The URL form** (`UrlInput`): `validateUrl`, the submit, input-change and example
  handlers, and the submit button's enabled condition.
- Shared pieces: the `Summary` record (`Summaries`), `localStorage` with JSON encoding
  (`Storage`), `String.prototype.trim` (`TextTrim`), the rating tiers (`Rating`), and
  two whole sessions driven through the controller (`Sessions`).

Modelling choices:

- **The generator.** The summary generator is a function parameter `generate(videoId, url)`.
  It returns `Generated(summary)` or `Threw(value)`. `Submit` requires that a generated
  summary carries the requested video id, as the mock generator guarantees.
  `Submit` returns whether the generator was called.
- **Storage.** Storage is a `LocalStorage` object holding a `map<string, Blob>`.
  `Encoded(items)` stands for any text that `JSON.parse` turns into that list of summaries.
  `Malformed(text)` stands for any text it rejects, the empty string included. The empty
  string is the only falsy value.
- **Sequencing.** Submissions run one after another. Each handler is one atomic method.
- **Events.** The form's `onSubmit` callback is modelled as the value `HandleSubmit` returns.
  The time elapsed since a summary's `createdAt` is a parameter of the sidebar functions.

Three things the code does not do:

- It does not require the video id to have a fixed length. Any non-empty run of
  allowed characters is accepted.
- It has no insert that removes duplicates. On a miss, `handleSubmit` always prepends the
  new summary, and it shows that summary, not a stored one. The list stays free of
  duplicate video ids only because the lookup runs first: `RememberKeepsRecencyList`
  proves this, given a generator that keeps the requested id.
- It does not check a stored list when loading it. A list longer than ten entries, or one
  that repeats a video id, is loaded as it is, so `App.Hydrate` promises the invariant only
  when the stored list satisfies it. A duplicate-free list longer than ten is cut back to
  ten by the next successful miss (`App.Submit`).

One observation. The form validates the raw text while the user types, but it validates
the trimmed text on submit. The character class accepts spaces, so a link ending in
`youtu.be/` and a space is accepted while typing and rejected on submit
(`UrlInput.TypingAcceptsWhatSubmitRejects`). The reverse cannot happen
(`UrlInput.TrimmedValidImpliesValid`).

## Model

| member | source | states |
|---|---|---|
| `VideoId.RunLength` | src/components/PodcastSummaryApp.tsx:129 | the greedy group `[^&\n?#]+` takes every id character from the start position and stops at the end or at the first excluded character |
| `VideoId.PrefixAt` | src/components/PodcastSummaryApp.tsx:129 | the alternation `(?:...)` tried in order at one position; a length it returns fits in the text, and `PrefixesExclusive` shows at most one alternative can apply |
| `VideoId.MatchAt` | src/components/PodcastSummaryApp.tsx:129 | the whole pattern tried at one position; a match has a prefix and a token as its group, and `MatchIsCapture` gives its meaning in both directions |
| `VideoId.FirstMatchFrom` | src/components/PodcastSummaryApp.tsx:129-130 | a position the scan returns lies within the text, and the whole pattern matches there |
| `VideoId.ScanMissesNothing` | src/components/PodcastSummaryApp.tsx:129-131 | when the scan fails, the pattern matches at no later position |
| `VideoId.ScanSkipsNoMatch` | src/components/PodcastSummaryApp.tsx:129-130 | the scan passes over no position where the pattern matches |
| `VideoId.FirstMatchIsLeftmost` | src/components/PodcastSummaryApp.tsx:129-131 | the scan fails exactly when the pattern matches nowhere, and otherwise it returns the leftmost match |
| `VideoId.ScanReaches` | src/components/PodcastSummaryApp.tsx:129-130 | a match with nothing matching before it is where the scan stops |
| `VideoId.ExtractVideoId` | src/components/PodcastSummaryApp.tsx:128-132 | total; a returned id is non-empty and contains no `&`, `?`, `#` or newline |
| `VideoId.PrefixesExclusive` | src/components/PodcastSummaryApp.tsx:129 | at one position at most one of the three alternatives matches, so the match is deterministic |
| `VideoId.RunIsOnlyCapture` | src/components/PodcastSummaryApp.tsx:129 | the greedy run is the only token that can be captured after a prefix |
| `VideoId.CaptureIsMatch` | src/components/PodcastSummaryApp.tsx:129 | a capture of the pattern after any of the three alternatives is what the scan returns at that position |
| `VideoId.MatchIsCaptureAt` | src/components/PodcastSummaryApp.tsx:129 | what the scan returns at a position is a capture of the pattern there |
| `VideoId.MatchAfterPrefix` | src/components/PodcastSummaryApp.tsx:129 | one of the three alternatives followed by at least one id character is a match |
| `VideoId.MatchIsCapture` | src/components/PodcastSummaryApp.tsx:129 | the scan at a position and the declarative reading of the pattern agree in both directions |
| `VideoId.MatchNoneIffNoCapture` | src/components/PodcastSummaryApp.tsx:129 | the scan fails at a position exactly when the pattern captures nothing there |
| `VideoId.LeftmostCaptureIsExtracted` | src/components/PodcastSummaryApp.tsx:128-132 | the capture at the leftmost matching position is what `extractVideoId` returns |
| `VideoId.ExtractedIsLeftmostCapture` | src/components/PodcastSummaryApp.tsx:128-132 | what `extractVideoId` returns is the capture at the leftmost matching position |
| `VideoId.ExtractVideoIdSpec` | src/components/PodcastSummaryApp.tsx:128-132 | `extractVideoId` returns `id` exactly when the pattern captures `id` at some position and matches at no earlier one |
| `VideoId.ExtractVideoIdNone` | src/components/PodcastSummaryApp.tsx:131 | `extractVideoId` returns null exactly when the pattern matches nowhere |
| `VideoId.MatchStartsWithY` | src/components/PodcastSummaryApp.tsx:129 | the pattern matches only at a `y` |
| `VideoId.SkipWithoutY` | src/components/PodcastSummaryApp.tsx:129-130 | the scan passes over any stretch without a `y` |
| `VideoId.ExtractAfterPrefix` | src/components/PodcastSummaryApp.tsx:128-132 | text without `y`, then one of the three prefixes, then a token, yields exactly that token |
| `VideoId.NoIdWithoutY` | src/components/PodcastSummaryApp.tsx:128-132 | text without a `y` (for example "not a url") has no video id |
| `Storage.LocalStorage.GetItem` | src/components/PodcastSummaryApp.tsx:36 | `getItem` gives the stored value of a key, and null for a key never written |
| `Storage.LocalStorage.SetItem` | src/components/PodcastSummaryApp.tsx:75 | `setItem` replaces the value of one key and leaves every other key alone |
| `Storage.Parse` | src/components/PodcastSummaryApp.tsx:39 | `JSON.parse` gives back the encoded list and fails on malformed text |
| `Storage.Truthy` | src/components/PodcastSummaryApp.tsx:37 | the `if (saved)` test, false only for the empty string; its effect is stated by `HydrationFrom` and, for the empty-list default at line 40 of `SummaryDisplay.tsx`, by `SavedBookmarks` |
| `TextTrim.TrimStart` | src/components/UrlInput.tsx:23 | only leading white space is removed, and the result does not start with white space |
| `TextTrim.TrimEnd` | src/components/UrlInput.tsx:23 | only trailing white space is removed, and the result does not end with white space |
| `TextTrim.Trim` | src/components/UrlInput.tsx:23 | the trimmed text is empty exactly when the input is all white space |
| `TextTrim.TrimIsSlice` | src/components/UrlInput.tsx:23 | the trimmed text is a slice of the input, with only white space cut from either end |
| `Rating.TierOf` | src/components/SummaryDisplay.tsx:24-36 | a score's tier is the number of thresholds (2, 3, 4) it reaches |
| `Rating.TierMonotone` | src/components/SummaryDisplay.tsx:24-36 | a higher score never lands in a lower tier |
| `SummaryDisplay.Toggled` | src/components/SummaryDisplay.tsx:14-22 | the toggled section flips membership; every other section keeps its membership |
| `SummaryDisplay.ToggleTwice` | src/components/SummaryDisplay.tsx:14-22 | toggling a section twice restores the set |
| `SummaryDisplay.RatingColor` | src/components/SummaryDisplay.tsx:24-29 | the badge colour by the thresholds 4, 3 and 2; `RatingColorByTier` states that it depends only on, and tells apart, the rating tier |
| `SummaryDisplay.RatingEmoji` | src/components/SummaryDisplay.tsx:31-36 | the badge emoji by the same thresholds; `RatingEmojiByTier` states that it depends only on, and tells apart, the rating tier |
| `SummaryDisplay.RatingColorByTier` | src/components/SummaryDisplay.tsx:24-29 | two scores get the same badge colour exactly when they are in the same tier (thresholds 4, 3, 2) |
| `SummaryDisplay.RatingEmojiByTier` | src/components/SummaryDisplay.tsx:31-36 | two scores get the same emoji exactly when they are in the same tier, so colour and emoji always pick the same bucket |
| `SummaryDisplay.SavedBookmarks` | src/components/SummaryDisplay.tsx:40 | a missing or empty bookmark value reads as `[]`; an encoded list is read back; any other text fails to parse |
| `SummaryDisplay.WithBookmark` | src/components/SummaryDisplay.tsx:41-42 | existing bookmarks keep their order; the list grows by at most one, and only when the id was absent; afterwards the id is bookmarked |
| `SummaryDisplay.BookmarkIdempotent` | src/components/SummaryDisplay.tsx:41-44 | bookmarking the same summary twice gives the same list as once |
| `SummaryDisplay.ShareFor` | src/components/SummaryDisplay.tsx:47-62 | native share with title, executive summary and watch link when available; otherwise the clipboard text with the same link |
| `SummaryDisplay.WatchUrl` | src/components/SummaryDisplay.tsx:53 | the watch link built from the video id; `WatchUrlRoundTrip` states that extraction gives back the id |
| `SummaryDisplay.WatchUrlYieldsToken` | src/components/SummaryDisplay.tsx:53 | any token put after `https://youtube.com/watch?v=` is extracted back unchanged |
| `SummaryDisplay.WatchUrlRoundTrip` | src/components/SummaryDisplay.tsx:53 | every id `extractVideoId` can return survives the trip through the share link |
| `SummaryDisplay.SummaryView.constructor` | src/components/SummaryDisplay.tsx:12 | the view starts with only the executive section expanded |
| `SummaryDisplay.SummaryView.ToggleSection` | src/components/SummaryDisplay.tsx:14-22 | the expanded set becomes the toggled copy of the old one |
| `SummaryDisplay.SummaryView.HandleBookmark` | src/components/SummaryDisplay.tsx:38-45 | unparsable bookmarks make the handler throw without writing; a present id writes nothing; otherwise the appended list is written under `podcast-bookmarks` and no other key changes |
| `RecentSummaries.CardBadgeMatchesView` | src/components/RecentSummaries.tsx:67-79 | a card shows the summary view's emoji, and two scores get the same card colour exactly when they get the same view colour |
| `RecentSummaries.CardRatingColor` | src/components/RecentSummaries.tsx:67-72 | the card's colour by the thresholds 4, 3 and 2; `CardColorByTier` and `CardBadgeMatchesView` state that it splits scores exactly where the view's colour does |
| `RecentSummaries.CardRatingEmoji` | src/components/RecentSummaries.tsx:74-79 | the card's emoji, equal to the view's emoji for every score (`CardBadgeMatchesView`) |
| `RecentSummaries.CardColorByTier` | src/components/RecentSummaries.tsx:67-72 | two scores get the same card colour exactly when they are in the same tier |
| `RecentSummaries.TimeAgo` | src/components/RecentSummaries.tsx:81-91 | "Just now" under one hour (future times included); whole hours below a day; whole days below a week; the locale date from seven days on; each count is the floor of the elapsed time |
| `RecentSummaries.TimeAgoMonotone` | src/components/RecentSummaries.tsx:81-91 | an older summary never shows a fresher label |
| `RecentSummaries.CardFor` | src/components/RecentSummaries.tsx:66-131 | one `SummaryCard`: it shows its summary, is selected exactly when its id is the current summary's id, shows the view's emoji, and shows a relative time exactly when `createdAt` is present and non-empty |
| `RecentSummaries.Cards` | src/components/RecentSummaries.tsx:39-46 | one card per summary, in list order; a card is selected exactly when its id is the current summary's id; relative time is shown exactly when `createdAt` is present and non-empty |
| `RecentSummaries.RecentPanel` | src/components/RecentSummaries.tsx:12-57 | an empty list gives the empty state; otherwise one card per entry, with the footer exactly when there are at least ten entries |
| `RecentSummaries.AtMostOneSelected` | src/components/RecentSummaries.tsx:44 | when ids are distinct, at most one card is marked selected |
| `UrlInput.ValidateIffExtracts` | src/components/UrlInput.tsx:16-19 | `validateUrl(u)` holds exactly when `extractVideoId(u)` is not null |
| `UrlInput.ValidateUrl` | src/components/UrlInput.tsx:16-19 | `regex.test`: the pattern matches at some position; `ValidateIffExtracts` states that this holds exactly when `extractVideoId` finds an id |
| `UrlInput.MatchInSlice` | src/components/UrlInput.tsx:16-19 | a match inside a slice of a text is a match in the whole text |
| `UrlInput.PrefixInSlice` | src/components/UrlInput.tsx:16-19 | an alternative found in a slice of a text is found at the same place in the whole text |
| `UrlInput.TrimmedValidImpliesValid` | src/components/UrlInput.tsx:23-30 | text that passes once trimmed also passes as typed |
| `UrlInput.TrimSpaceAfterShortPrefix` | src/components/UrlInput.tsx:23 | trimming "youtu.be/ " leaves "youtu.be/" |
| `UrlInput.ShortPrefixAloneInvalid` | src/components/UrlInput.tsx:16-19 | "youtu.be/" alone fails `validateUrl` |
| `UrlInput.TypingAcceptsWhatSubmitRejects` | src/components/UrlInput.tsx:30-43 | "youtu.be/ " passes the typing check but fails the submit check |
| `UrlInput.WatchExampleShape` | src/components/UrlInput.tsx:51 | the first example link is `https://www.`, the watch alternative and `dQw4w9WgXcQ` |
| `UrlInput.WatchExampleExtracts` | src/components/UrlInput.tsx:51 | the first example link yields `dQw4w9WgXcQ` |
| `UrlInput.ShortExampleExtracts` | src/components/UrlInput.tsx:52 | the second example link yields `dQw4w9WgXcQ` |
| `UrlInput.ExampleExtracts` | src/components/UrlInput.tsx:50-53 | both example links yield `dQw4w9WgXcQ`, pass `validateUrl` and are not blank |
| `UrlInput.ExampleReady` | src/components/UrlInput.tsx:50-53 | either example link, once in the field, is not blank and matches the pattern |
| `UrlInput.UrlForm.constructor` | src/components/UrlInput.tsx:13-14 | the field starts empty and not flagged |
| `UrlInput.UrlForm.HandleSubmit` | src/components/UrlInput.tsx:21-37 | `onSubmit` receives the trimmed text, only when it is non-empty and valid, and then the flag is cleared; blank or failing text sets the flag; the submitted text always has a video id |
| `UrlInput.UrlForm.HandleInputChange` | src/components/UrlInput.tsx:39-48 | the field takes the raw value; it is flagged exactly when its trimmed form is non-empty and the raw value fails `validateUrl` |
| `UrlInput.UrlForm.ChooseExample` | src/components/UrlInput.tsx:110-113 | an example button fills in its link and clears the flag, and the submit button is then enabled |
| `UrlInput.UrlForm.SubmitEnabled` | src/components/UrlInput.tsx:87 | under the form's invariant, an enabled button means the text as typed matches the pattern |
| `PodcastSummaryApp.Find` | src/components/PodcastSummaryApp.tsx:59 | the lookup misses exactly when no entry has the video id; on a hit it returns the first entry with that id |
| `PodcastSummaryApp.FindInDistinct` | src/components/PodcastSummaryApp.tsx:59 | in a list with distinct video ids, a lookup by a summary's id returns that summary exactly when it is in the list |
| `PodcastSummaryApp.Remember` | src/components/PodcastSummaryApp.tsx:73 | the new summary comes first, followed by the old entries in order; the list holds at most ten, and old entries from index nine on are evicted |
| `PodcastSummaryApp.RememberKeepsRecencyList` | src/components/PodcastSummaryApp.tsx:59-73 | adding a summary whose id missed to a list with distinct video ids, of any length, gives a list of at most ten with distinct video ids |
| `PodcastSummaryApp.FindAfterRemember` | src/components/PodcastSummaryApp.tsx:59-73 | right after a summary is added, a lookup of its video id hits that summary |
| `PodcastSummaryApp.Reversed` | src/components/PodcastSummaryApp.tsx:73 | reversal keeps the length |
| `PodcastSummaryApp.ReversedAt` | src/components/PodcastSummaryApp.tsx:73 | reversal puts element `k` at index `n - 1 - k` |
| `PodcastSummaryApp.Newest` | src/components/PodcastSummaryApp.tsx:73 | at most the first ten entries of a list are kept, in order |
| `PodcastSummaryApp.NewestOfNewest` | src/components/PodcastSummaryApp.tsx:73 | capping before prepending does not change the first ten entries |
| `PodcastSummaryApp.RememberIsNewest` | src/components/PodcastSummaryApp.tsx:73 | prepending and keeping nine old entries gives the ten newest entries of the longer list |
| `PodcastSummaryApp.ReversedThenRest` | src/components/PodcastSummaryApp.tsx:73 | the reversed batch followed by the older entries, with the first summary of the batch just before them |
| `PodcastSummaryApp.RememberAll` | src/components/PodcastSummaryApp.tsx:73 | the update at line 73 applied once per summary of a batch; `RememberAllKeepsNewest` states the result is the ten latest, latest first |
| `PodcastSummaryApp.RememberAllKeepsNewest` | src/components/PodcastSummaryApp.tsx:73 | after a run of misses, the list is the ten latest summaries, latest first; the cap evicts the oldest |
| `PodcastSummaryApp.EleventhEvictsFirst` | src/components/PodcastSummaryApp.tsx:73 | eleven summaries with distinct ids, added to an empty list, leave ten entries, and the first one added is gone |
| `PodcastSummaryApp.HydrationFrom` | src/components/PodcastSummaryApp.tsx:35-44 | nothing is loaded for an absent or empty value; a parsable value is loaded whole; an unparsable value is reported as corrupt and nothing is loaded |
| `PodcastSummaryApp.SaveThenHydrate` | src/components/PodcastSummaryApp.tsx:75 | the list written under `podcast-summaries` is the list the next page load restores |
| `PodcastSummaryApp.App.constructor` | src/components/PodcastSummaryApp.tsx:29-32 | not loading, no summary, no error, an empty list |
| `PodcastSummaryApp.App.Hydrate` | src/components/PodcastSummaryApp.tsx:35-44 | the list is replaced only by a parsed value; afterwards storage mirrors the list, and the cache invariant holds exactly when the stored list is a recency list |
| `PodcastSummaryApp.App.Submit` | src/components/PodcastSummaryApp.tsx:46-82 | loading ends false on every path. Invalid URL: the fixed message and no summary. Hit: the first cached entry is shown without calling the generator. Miss: the generator is called; on success the summary is shown, the list becomes the capped prepend and is written to storage; on failure its message (or the fallback text) is shown. The cache and storage are untouched except on a successful miss, and the cache invariant is preserved. After a successful miss, a duplicate-free list mirrored in storage, even one longer than ten, satisfies the invariant again |
| `PodcastSummaryApp.ErrorText` | src/components/PodcastSummaryApp.tsx:78 | the `catch` clause's text: an `Error`'s message, otherwise the fallback message; `App.Submit` states it is the error shown when the generator throws |
| `PodcastSummaryApp.App.SelectRecent` | src/components/PodcastSummaryApp.tsx:84-87 | shows the chosen summary and clears the error; the list, the loading flag and storage are untouched |
| `Sessions.ExamplesShareOneCacheEntry` | src/components/PodcastSummaryApp.tsx:53-75 | on an empty cache, the short example link misses; if it generated a summary, the long example link is then a hit that does not call the generator, and the list holds one entry with id `dQw4w9WgXcQ` |
| `Sessions.NotAUrlFails` | src/components/PodcastSummaryApp.tsx:53-56 | "not a url" ends with the invalid-URL message, no summary, and the cache and storage unchanged |
| `Sessions.SameVideoTwice` | src/components/PodcastSummaryApp.tsx:59-75 | two links with the same video id: unless the first reached the generator and it threw, the second does not call the generator; after a successful first call, the second shows the generated summary |

## Left out

- The generator's internals (lines 135-204 of `PodcastSummaryApp.tsx`) are not modelled: random choice, the three-second delay and the timestamps. They are replaced by the `generate` parameter, and nothing is claimed about the uniqueness of `id`.
- Concurrent submissions are not modelled. Two overlapping `handleSubmit` calls would read a stale `recentSummaries` across the `await`; each handler here is one atomic step.
- A `setItem` that throws (for example, storage quota exceeded) is not modelled: storage writes always succeed.
- JSON text that parses to something other than a list of summaries (for example `5`) is not modelled.
- Dates are not modelled. `new Date(...)`, `Date.now` and `toLocaleDateString` are browser APIs. `timeAgo` takes the elapsed milliseconds as an integer, and the locale date is the value `LocaleDate`. A date string that does not parse (NaN) is not modelled.
- A listen score of NaN is not modelled: scores are real numbers.
- Browser side effects are not modelled: `navigator.share`, `navigator.clipboard.writeText`, `window.open` and `console.error`. `ShareFor` returns the request that would be made, and `Hydration.Corrupt` marks the logged case.
- All JSX rendering, CSS layout and icons are left out, as are `LoadingSpinner.tsx` and `ErrorMessage.tsx`. The `Card` and `Panel` values keep only what the decisions above choose.
- `SummaryDisplay.SummaryView` is built for one summary. The React component keeps its expanded sections when its `summary` prop changes; that is not modelled.
