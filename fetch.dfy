/**
 * get_url of the package (w2d/__init__.py): a disk-backed fetch cache
 * keyed by the URL's hash, with an append-only index.tsv beside the
 * cached files.
 */
module Fetch {
  import opened Base
  import opened Storage

  /** Whether get_url goes to the network: forced, or nothing cached at the file yet. */
  predicate Misses(h: Host, url: string, filename: string, force: bool)
    reads h
  {
    force || h.CacheFile(url, filename) !in h.files
  }

  /** The index line a cached download adds: basename of the file, tab, URL. */
  function RecordFor(path: string, url: string): IndexRecord
  {
    IndexRecord(Dirname(path), Basename(path), url)
  }

  /**
   * get_url as a step from one state to the next. A hit returns the stored
   * bytes and leaves the state as it was. A miss makes one request; its
   * answer is returned and, when `cache` holds, stored and indexed. No other
   * file changes.
   */
  function Fetched(h: Host, s: Snapshot, url: string, filename: string, force: bool, cache: bool): (st: Step<Bytes>)
    ensures Grows(s, st.after)
  {
    var path := h.CacheFile(url, filename);
    if !force && path in s.files then Step(Ok(s.files[path]), s)
    else
      match h.web(url, |s.requests|)
      case None => Step(Err(FetchFailed(url)), s.(requests := s.requests + [url]))
      case Some(page) =>
        if cache then Step(Ok(page), Snapshot(s.files[path := page], s.index + [RecordFor(path, url)], s.requests + [url]))
        else Step(Ok(page), s.(requests := s.requests + [url]))
  }

  /**
   * get_url's transitions: a hit returns the stored bytes and leaves the
   * state as it was; a miss makes one request whose answer is the result and,
   * when `cache` holds, the new content of the file. No other file changes.
   */
  lemma CacheTransitions(h: Host, s: Snapshot, url: string, filename: string, force: bool, cache: bool)
    ensures var st := Fetched(h, s, url, filename, force, cache);
      var path := h.CacheFile(url, filename);
      !force && path in s.files ==> st == Step(Ok(s.files[path]), s)
    ensures var st := Fetched(h, s, url, filename, force, cache);
      var path := h.CacheFile(url, filename);
      force || path !in s.files ==>
        && st.after.requests == s.requests + [url]
        && (st.result.Ok? <==> h.web(url, |s.requests|).Some?)
        && (st.result.Ok? ==> st.result.value == h.web(url, |s.requests|).value)
        && (st.result.Err? ==> st.result == Err(FetchFailed(url)))
    ensures var st := Fetched(h, s, url, filename, force, cache);
      var path := h.CacheFile(url, filename);
      forall p :: p != path ==> (p in st.after.files <==> p in s.files) && (p in s.files ==> st.after.files[p] == s.files[p])
    ensures var st := Fetched(h, s, url, filename, force, cache);
      var path := h.CacheFile(url, filename);
      cache && st.result.Ok? ==> path in st.after.files && st.after.files[path] == st.result.value
    ensures var st := Fetched(h, s, url, filename, force, cache);
      !cache ==> st.after.files == s.files && st.after.index == s.index
  {
  }

  /**
   * get_url(url, filename, force, cache). `filename` is "" for None. A hit
   * returns the stored bytes and touches nothing; a miss makes exactly one
   * request and, when `cache` holds and the request succeeded, overwrites the
   * file and appends one index record.
   */
  method GetUrl(h: Host, url: string, filename: string, force: bool, cache: bool) returns (r: Result<Bytes>)
    modifies h
    ensures h.Since(old(h.files), old(h.index), old(h.requests))
    ensures var path := h.CacheFile(url, filename);
      !old(Misses(h, url, filename, force)) ==>
        r == Ok(old(h.files)[path]) && h.files == old(h.files) && h.index == old(h.index) && h.requests == old(h.requests)
    ensures var path := h.CacheFile(url, filename);
      old(Misses(h, url, filename, force)) ==>
        && h.requests == old(h.requests) + [url]
        && (match h.web(url, |old(h.requests)|)
            case None =>
              r == Err(FetchFailed(url)) && h.files == old(h.files) && h.index == old(h.index)
            case Some(page) =>
              && r == Ok(page)
              && h.files == (if cache then old(h.files)[path := page] else old(h.files))
              && h.index == old(h.index) + (if cache then [RecordFor(path, url)] else []))
    ensures Step(r, h.State()) == Fetched(h, old(h.State()), url, filename, force, cache)
  {
    var path := h.CacheFile(url, filename);
    if force || path !in h.files {
      var page := h.Download(url);
      if page.None? {
        return Err(FetchFailed(url));
      }
      if cache {
        h.files := h.files[path := page.value];
        h.index := h.index + [RecordFor(path, url)];
      }
      r := Ok(page.value);
    } else {
      r := Ok(h.files[path]);
    }
  }

  /**
   * Two plain fetches of the same URL in a row: when the first succeeds, the
   * pair makes at most one request and both return the same bytes. A failed
   * download caches nothing, so the second fetch asks the network again.
   */
  method FetchTwice(h: Host, url: string) returns (first: Result<Bytes>, second: Result<Bytes>)
    modifies h
    ensures first.Ok? ==> second == first && |h.requests| <= |old(h.requests)| + 1
    ensures first.Err? ==> |h.requests| == |old(h.requests)| + 2
    ensures old(Misses(h, url, "", false)) && first.Ok? ==> |h.requests| == |old(h.requests)| + 1
  {
    first := GetUrl(h, url, "", false, true);
    second := GetUrl(h, url, "", false, true);
  }

  /**
   * The first fetch of a URL into a cache directory given without a trailing
   * '/': the directory gains the file named by the URL's hash and its
   * index.tsv gains the line `hash<TAB>url`; other directories' indexes are unchanged.
   */
  method FirstFetch(h: Host, url: string) returns (r: Result<Bytes>)
    requires h.cacheDir != [] && h.cacheDir[|h.cacheDir| - 1] != '/'
    requires forall i :: 0 <= i < |h.hashUrl(url)| ==> h.hashUrl(url)[i] != '/'
    requires Join(h.cacheDir, h.hashUrl(url)) !in h.files
    modifies h
    ensures |h.requests| == |old(h.requests)| + 1
    ensures r.Ok? ==> Join(h.cacheDir, h.hashUrl(url)) in h.files
    ensures r.Ok? ==> IndexText(h.index, h.cacheDir) == IndexText(old(h.index), h.cacheDir) + h.hashUrl(url) + "\t" + url + "\n"
    ensures forall d :: d != h.cacheDir ==> IndexText(h.index, d) == IndexText(old(h.index), d)
  {
    ghost var log := h.index;
    r := GetUrl(h, url, "", false, true);
    var path := Join(h.cacheDir, h.hashUrl(url));
    BasenameOfJoin(h.cacheDir, h.hashUrl(url));
    DirnameOfJoin(h.cacheDir, h.hashUrl(url));
    if r.Ok? {
      forall d ensures IndexText(h.index, d) == IndexText(log, d) + (if d == h.cacheDir then IndexLine(RecordFor(path, url)) else "") {
        IndexAppend(log, RecordFor(path, url), d);
      }
    }
  }
}
