/**
 * One iteration of `worker_thread`, run by a single worker: the stop rules,
 * the decay pass when every endpoint is circuit-broken, the resolution
 * attempt and the download. `random.choice` is the input `pick`, reduced
 * modulo the number of available endpoints; sleeps are not modelled.
 */
module Worker {
  import opened Wrappers
  import opened Health
  import opened Resolver
  import opened Download

  /** `max_downloads is not None and downloaded_count >= max_downloads`. */
  predicate LimitReached(maxDownloads: Option<int>, downloaded: nat) {
    maxDownloads.Some? && downloaded >= maxDownloads.value
  }

  /** What the outside world supplies to one iteration. */
  datatype Tick = Tick(pick: nat, response: Response, world: World)

  /** The loop goes on with the new state, or leaves it. */
  datatype Step = Continue(state: Downloader) | Exit(state: Downloader)

  /** The endpoint `random.choice(available_apis)` returns. */
  function Choose(avail: seq<string>, pick: nat): string
    requires avail != []
  {
    avail[pick % |avail|]
  }

  /** One pass of the `while self.running` loop. */
  function WorkerStep(d: Downloader, maxDownloads: Option<int>, apis: seq<string>, t: Tick): (r: Step)
    ensures !d.running ==> r == Exit(d)
    ensures d.running && LimitReached(maxDownloads, d.stats.downloaded) ==> r == Exit(d.(running := false))
    ensures r.Continue? ==> d.running && !LimitReached(maxDownloads, d.stats.downloaded)
    ensures d.running && !LimitReached(maxDownloads, d.stats.downloaded) && AvailableApis(d.health, apis) == [] ==>
              r == Continue(d.(health := Decay(d.health)))
    ensures r.state.stats.downloaded <= d.stats.downloaded + 1
    ensures d.running && !LimitReached(maxDownloads, d.stats.downloaded) && AvailableApis(d.health, apis) != [] ==>
              var res := GetVideoUrl(d.health, Choose(AvailableApis(d.health, apis), t.pick), t.response);
              var d1 := d.(health := res.health);
              && r.Continue?
              && (res.url.Some? && res.url.value != "" ==> r.state == DownloadVideo(d1, res.url.value, t.world).after)
              && (res.url.None? || res.url.value == "" ==> r.state == d1)
  {
    if !d.running then Exit(d)
    else if LimitReached(maxDownloads, d.stats.downloaded) then Exit(d.(running := false))
    else
      var avail := AvailableApis(d.health, apis);
      if avail == [] then Continue(d.(health := Decay(d.health)))
      else
        var res := GetVideoUrl(d.health, Choose(avail, t.pick), t.response);
        var d1 := d.(health := res.health);
        if res.url.Some? && res.url.value != "" && d1.running then
          var a := DownloadVideo(d1, res.url.value, t.world);
          assert Accounted(a.outcome, d1, a.after, res.url.value, a.written, t.world.hash);
          Continue(a.after)
        else Continue(d1)
  }

  /**
   * A download counted in one iteration comes from the endpoint chosen among
   * the available ones: that endpoint answered a 200 with a URL the worker had
   * not seen before, and the URL is recorded afterwards.
   */
  lemma DownloadComesFromResolution(d: Downloader, maxDownloads: Option<int>, apis: seq<string>, t: Tick)
    ensures WorkerStep(d, maxDownloads, apis, t).state.stats.downloaded > d.stats.downloaded ==>
            var avail := AvailableApis(d.health, apis);
            && avail != []
            && var res := GetVideoUrl(d.health, Choose(avail, t.pick), t.response);
               && t.response.Reply? && t.response.status == 200
               && res.url.Some? && res.url.value !in d.history.urls
               && res.url.value in WorkerStep(d, maxDownloads, apis, t).state.history.urls
  {
  }

  /** The chosen endpoint is one of the configured endpoints, and is available. */
  lemma ChosenIsAvailable(h: Failures, apis: seq<string>, pick: nat)
    requires AvailableApis(h, apis) != []
    ensures var api := Choose(AvailableApis(h, apis), pick);
            IsAvailable(h, api) && api in apis
  {
    var avail := AvailableApis(h, apis);
    var api := Choose(avail, pick);
    assert api in multiset(avail);
  }

  /** A worker running through the iterations `ticks` until it leaves the loop. */
  function Run(d: Downloader, maxDownloads: Option<int>, apis: seq<string>, ticks: seq<Tick>): Downloader
    decreases |ticks|
  {
    if ticks == [] then d
    else
      match WorkerStep(d, maxDownloads, apis, ticks[0])
      case Exit(e) => e
      case Continue(c) => Run(c, maxDownloads, apis, ticks[1..])
  }

  /**
   * The stop rule bounds a single worker: started at or below the limit, it
   * never ends with more downloads than the limit.
   */
  lemma {:induction false} RunRespectsLimit(d: Downloader, max: int, apis: seq<string>, ticks: seq<Tick>)
    requires d.stats.downloaded <= max
    ensures Run(d, Some(max), apis, ticks).stats.downloaded <= max
    decreases |ticks|
  {
    if ticks != [] {
      match WorkerStep(d, Some(max), apis, ticks[0])
      case Exit(e) =>
      case Continue(c) =>
        RunRespectsLimit(c, max, apis, ticks[1..]);
    }
  }

  /** Counters never go down and history sets only grow in one iteration. */
  lemma StepMonotone(d: Downloader, maxDownloads: Option<int>, apis: seq<string>, t: Tick)
    ensures var s := WorkerStep(d, maxDownloads, apis, t).state;
            && s.stats.downloaded >= d.stats.downloaded
            && s.stats.duplicates >= d.stats.duplicates
            && s.stats.errors >= d.stats.errors
            && s.stats.totalSize >= d.stats.totalSize
            && d.history.hashes <= s.history.hashes
            && d.history.urls <= s.history.urls
  {
    var r := WorkerStep(d, maxDownloads, apis, t);
    if d.running && !LimitReached(maxDownloads, d.stats.downloaded) {
      var avail := AvailableApis(d.health, apis);
      if avail != [] {
        var res := GetVideoUrl(d.health, Choose(avail, t.pick), t.response);
        var d1 := d.(health := res.health);
        if res.url.Some? && res.url.value != "" && d1.running {
          CountersMonotone(d1, res.url.value, t.world);
        }
      }
    }
  }

  /** Over a whole run, counters never go down and history sets only grow. */
  lemma {:induction false} RunMonotone(d: Downloader, maxDownloads: Option<int>, apis: seq<string>, ticks: seq<Tick>)
    ensures var e := Run(d, maxDownloads, apis, ticks);
            && e.stats.downloaded >= d.stats.downloaded
            && e.stats.duplicates >= d.stats.duplicates
            && e.stats.errors >= d.stats.errors
            && e.stats.totalSize >= d.stats.totalSize
            && d.history.hashes <= e.history.hashes
            && d.history.urls <= e.history.urls
    decreases |ticks|
  {
    if ticks != [] {
      StepMonotone(d, maxDownloads, apis, ticks[0]);
      match WorkerStep(d, maxDownloads, apis, ticks[0])
      case Exit(e) =>
      case Continue(c) =>
        RunMonotone(c, maxDownloads, apis, ticks[1..]);
    }
  }
}
