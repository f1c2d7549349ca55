/** How a page learns the current program index: from the remote API when it answers,
    otherwise from the local cache (the `currentProgramIndex` key in local storage), and
    "-1" when neither holds a non-empty value. Remote calls are inputs here. */
module Sync {
  import opened Text
  import opened Program

  /** The outcome of a GET of the current-index resource. `Reply` carries the
      `currentProgramIndex` field of the JSON body, missing when absent; `HttpError` is a
      reply whose status is not ok; `NetworkError` is a request or body decoding that threw. */
  datatype Response = Reply(currentProgramIndex: Option<string>) | HttpError | NetworkError

  /** `localStorage.getItem('currentProgramIndex') || '-1'`. */
  function Stored(cache: Option<string>): string {
    Or(cache, Sentinel)
  }

  /** The index `checkForUpdates` compares against the one it holds, and the index
      `loadCurrentProgram` adopts on the admin page: the API's value when it replied with
      an ok status (defaulting to "-1"), the cache otherwise, and the cache alone when
      the API is switched off. */
  function ResolveIndex(useApi: bool, response: Response, cache: Option<string>): (r: string)
    ensures r != ""
    ensures r == Sentinel || (response.Reply? && response.currentProgramIndex == Some(r)) || cache == Some(r)
  {
    if useApi && response.Reply? then Or(response.currentProgramIndex, Sentinel)
    else Stored(cache)
  }

  /** The index `loadProgram` on the display page settles on when it holds "-1": the
      API's value on an ok reply, "-1" (unchanged) on a reply that is not ok, the cache
      when the request threw or the API is switched off. */
  function ReloadIndex(useApi: bool, response: Response, cache: Option<string>): (r: string)
    ensures r != ""
    ensures r == Sentinel || (response.Reply? && response.currentProgramIndex == Some(r)) || cache == Some(r)
    ensures useApi && response.Reply? ==> r == ResolveIndex(useApi, response, cache)
    ensures useApi && response.HttpError? ==> r == Sentinel
    ensures !useApi || response.NetworkError? ==> r == Stored(cache)
  {
    if !useApi then Stored(cache)
    else
      match response
      case Reply(v) => Or(v, Sentinel)
      case HttpError => Sentinel
      case NetworkError => Stored(cache)
  }

  /** What one polling tick of the display page does. */
  datatype Tick = Quiet | Reload(index: string)

  /** One tick of `checkForUpdates` from the held index `held`: nothing when the observed
      index equals it; otherwise adopt the observed index and reload, and when the observed
      index is "-1" the reload first reads the index again (`reload`). */
  function PollOnce(held: string, useApi: bool, poll: Response, reload: Response,
                    cache: Option<string>): (t: Tick)
    ensures t.Reload? <==> ResolveIndex(useApi, poll, cache) != held
    ensures t.Reload? ==> t.index != ""
  {
    var observed := ResolveIndex(useApi, poll, cache);
    if observed == held then Quiet
    else if observed == Sentinel then Reload(ReloadIndex(useApi, reload, cache))
    else Reload(observed)
  }

  /** The cache the admin page leaves behind after setting `v`: removed for "-1", `v` otherwise. */
  function CacheAfter(v: string): (cache: Option<string>)
    ensures cache.None? <==> v == Sentinel
    ensures cache.Some? ==> cache.value == v
    ensures Stored(cache) == if v == "" then Sentinel else v
  {
    if v == Sentinel then None else Some(v)
  }

  // --------------------------------------------------------------- lemmas

  /** The resolved index is never empty, and it comes from the API's reply, from the cache,
      or is the sentinel; the API wins whenever it replied with a non-empty value. */
  lemma ResolvePrefersRemote(useApi: bool, response: Response, cache: Option<string>)
    ensures var r := ResolveIndex(useApi, response, cache);
            r != "" &&
            (useApi && response.Reply? && Truthy(response.currentProgramIndex) ==>
               r == response.currentProgramIndex.value) &&
            (useApi && response.Reply? && !Truthy(response.currentProgramIndex) ==> r == Sentinel) &&
            (!(useApi && response.Reply?) ==> r == Stored(cache)) &&
            (r == Sentinel || (response.Reply? && response.currentProgramIndex == Some(r)) || cache == Some(r))
  {
  }

  /** A tick reloads exactly when the observed index differs from the held one; it then
      adopts the observed index, or, when that is "-1", the index read again by the reload. */
  lemma PollReloadsOnlyOnChange(held: string, useApi: bool, poll: Response, reload: Response,
                                cache: Option<string>)
    ensures PollOnce(held, useApi, poll, reload, cache).Reload? <==>
            ResolveIndex(useApi, poll, cache) != held
    ensures ResolveIndex(useApi, poll, cache) != Sentinel && PollOnce(held, useApi, poll, reload, cache).Reload? ==>
            PollOnce(held, useApi, poll, reload, cache).index == ResolveIndex(useApi, poll, cache)
    ensures ResolveIndex(useApi, poll, cache) == Sentinel && PollOnce(held, useApi, poll, reload, cache).Reload? ==>
            PollOnce(held, useApi, poll, reload, cache).index == ReloadIndex(useApi, reload, cache)
  {
  }

  /** Polling settles: when the API (or the cache) keeps answering the same, the tick after a
      reload is quiet, so repeated ticks cause at most one reload. */
  lemma {:induction false} PollSettles(held: string, useApi: bool, response: Response, cache: Option<string>)
    requires PollOnce(held, useApi, response, response, cache).Reload?
    ensures var next := PollOnce(held, useApi, response, response, cache).index;
            PollOnce(next, useApi, response, response, cache) == Quiet
  {
    var observed := ResolveIndex(useApi, response, cache);
    if observed == Sentinel {
      assert ReloadIndex(useApi, response, cache) == Sentinel;
    }
  }

  /** A re-read that disagrees with the first read (an API reply of no index, then a request
      that throws while the cache holds "3") leaves the display holding an index the next
      identical tick will not confirm, so that tick reloads again. */
  lemma FlakyRereadKeepsReloading()
    ensures PollOnce("3", true, Reply(None), NetworkError, Some("3")) == Reload("3")
  {
  }

  /** What the admin page caches is what any page reads back from the cache when the API is
      unavailable: the index it set, or "-1" after a clear; an empty index (a row with an
      empty first column) is cached as "" and read back as "-1". */
  lemma CacheFallbackAgrees(v: string, useApi: bool, failure: Response)
    requires !failure.Reply?
    ensures ResolveIndex(useApi, failure, CacheAfter(v)) == if v == "" then Sentinel else v
    ensures v != "" ==> Stored(CacheAfter(v)) == v
  {
  }
}
