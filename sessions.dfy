/** Whole sessions against the controller, as a page user would drive them. */
module Sessions {
  import opened Wrappers
  import opened Summaries
  import opened Storage
  import opened VideoId
  import opened PodcastSummaryApp
  import UrlInput

  /**
   * With an empty cache, submitting the short example link and then the long one: the
   * first is a miss; when it produced a summary, the second is a hit that neither calls
   * the generator nor grows the list, and the list starts with that video id.
   */
  method ExamplesShareOneCacheEntry(store: LocalStorage, generate: (string, string) -> Generation)
    returns (firstCalled: bool, secondCalled: bool, cached: seq<Summary>)
    requires KeepsVideoId(generate)
    requires SummariesKey !in store.items
    modifies store
    ensures firstCalled
    ensures generate("dQw4w9WgXcQ", UrlInput.ExampleUrls[1]).Generated? ==>
      !secondCalled && |cached| == 1 && cached[0].youtubeVideoId == "dQw4w9WgXcQ"
  {
    var app := new App(store);
    var h := app.Hydrate();
    UrlInput.ExampleExtracts(0);
    UrlInput.ExampleExtracts(1);
    firstCalled := app.Submit(UrlInput.ExampleUrls[1], generate);
    secondCalled := app.Submit(UrlInput.ExampleUrls[0], generate);
    cached := app.recent;
  }

  /** Text that is not a video link fails with the invalid-URL message and leaves the cache alone. */
  method NotAUrlFails(app: App, generate: (string, string) -> Generation) returns (called: bool)
    requires KeepsVideoId(generate)
    modifies app, app.store
    ensures !called && app.error == Some(InvalidUrlMessage) && app.summary == None
    ensures app.recent == old(app.recent) && app.store.items == old(app.store.items)
  {
    var u := "not a url";
    assert forall j :: 0 <= j < |u| ==> u[j] != 'y';
    NoIdWithoutY(u);
    called := app.Submit(u, generate);
  }

  /**
   * Two submissions whose links carry the same video id: unless the first one reached the
   * generator and it failed, the second is a cache hit that does not call the generator and
   * leaves the cache and storage as the first left them.
   */
  method SameVideoTwice(app: App, first: string, second: string, generate: (string, string) -> Generation)
    returns (firstCalled: bool, secondCalled: bool)
    requires KeepsVideoId(generate)
    requires ExtractVideoId(first).Some? && ExtractVideoId(second) == ExtractVideoId(first)
    modifies app, app.store
    ensures (!firstCalled || generate(ExtractVideoId(first).value, first).Generated?) ==> !secondCalled
    ensures firstCalled && generate(ExtractVideoId(first).value, first).Generated? ==>
      app.summary == Some(generate(ExtractVideoId(first).value, first).summary)
  {
    var id := ExtractVideoId(first).value;
    firstCalled := app.Submit(first, generate);
    if firstCalled && generate(id, first).Generated? {
      FindAfterRemember(generate(id, first).summary, old(app.recent));
    }
    secondCalled := app.Submit(second, generate);
  }
}
