/**
 * The machine the tool runs on, as far as the tool can see it: the files
 * it reads and writes, the `index.tsv` lines it appends, and the network,
 * reached through an oracle that answers a URL (and may answer differently
 * on later calls) and records every request made.
 *
 * Paths are '/'-separated strings; join, dirname and basename follow
 * posixpath for relative names.
 */
module Storage {
  import opened Base

  /** posixpath.join(dir, name). */
  function Join(dir: string, name: string): string
  {
    if StartsWith(name, "/") then name
    else if dir == [] || dir[|dir| - 1] == '/' then dir + name
    else dir + "/" + name
  }

  /** One past the position of the last '/', or 0 when there is none. */
  function SlashEnd(p: string): (k: nat)
    ensures k <= |p|
    ensures k > 0 ==> p[k - 1] == '/'
    ensures forall i :: k <= i < |p| ==> p[i] != '/'
  {
    if p == [] then 0
    else if p[|p| - 1] == '/' then |p|
    else SlashEnd(p[..|p| - 1])
  }

  /** posixpath.basename: what follows the last '/'. */
  function Basename(p: string): string
  {
    p[SlashEnd(p)..]
  }

  predicate AllSlashes(p: string)
  {
    forall i :: 0 <= i < |p| ==> p[i] == '/'
  }

  function StripTrailingSlashes(p: string): string
  {
    if p != [] && p[|p| - 1] == '/' then StripTrailingSlashes(p[..|p| - 1]) else p
  }

  /** posixpath.dirname: up to the last '/', with trailing slashes removed unless only slashes remain. */
  function Dirname(p: string): string
  {
    var head := p[..SlashEnd(p)];
    if head != [] && !AllSlashes(head) then StripTrailingSlashes(head) else head
  }

  /** The last '/' of a + b is at the end of a when b has none. */
  lemma {:induction false} SlashEndAfter(a: string, b: string)
    requires a != [] && a[|a| - 1] == '/'
    requires forall i :: 0 <= i < |b| ==> b[i] != '/'
    ensures SlashEnd(a + b) == |a|
  {
    if b != [] {
      var n := |b| - 1;
      assert (a + b)[..|a + b| - 1] == a + b[..n];
      SlashEndAfter(a, b[..n]);
    } else {
      assert a + b == a;
    }
  }

  /** A file joined into a directory keeps its name as its basename. */
  lemma BasenameOfJoin(dir: string, name: string)
    requires forall i :: 0 <= i < |name| ==> name[i] != '/'
    ensures Basename(Join(dir, name)) == name
  {
    if dir == [] {
      assert SlashEnd(name) == 0;
    } else if dir[|dir| - 1] == '/' {
      SlashEndAfter(dir, name);
      assert (dir + name)[|dir|..] == name;
    } else {
      SlashEndAfter(dir + "/", name);
      assert (dir + "/" + name)[|dir| + 1..] == name;
    }
  }

  /** ... and the directory as its dirname, for a directory written without a trailing '/'. */
  lemma DirnameOfJoin(dir: string, name: string)
    requires dir != [] && dir[|dir| - 1] != '/'
    requires forall i :: 0 <= i < |name| ==> name[i] != '/'
    ensures Dirname(Join(dir, name)) == dir
  {
    var p := dir + "/" + name;
    assert !StartsWith(name, "/") by {
      if name != [] { assert name[..1][0] == name[0]; }
    }
    SlashEndAfter(dir + "/", name);
    var head := dir + "/";
    assert p[..|dir| + 1] == head;
    assert head[|dir| - 1] != '/';
    assert head[..|head| - 1] == dir;
    assert StripTrailingSlashes(head) == StripTrailingSlashes(dir);
  }

  /** One line of index.tsv: the cache file's basename and the URL it holds. */
  datatype IndexRecord = IndexRecord(dir: string, name: string, url: string)

  function IndexLine(r: IndexRecord): string
  {
    r.name + "\t" + r.url + "\n"
  }

  /** The text of `dir/index.tsv` after the appends recorded in the log. */
  function IndexText(log: seq<IndexRecord>, dir: string): string
  {
    if log == [] then ""
    else IndexText(log[..|log| - 1], dir) + (if log[|log| - 1].dir == dir then IndexLine(log[|log| - 1]) else "")
  }

  /** Appending a record adds its line to its own directory's index file and to no other. */
  lemma IndexAppend(log: seq<IndexRecord>, r: IndexRecord, dir: string)
    ensures IndexText(log + [r], dir) == IndexText(log, dir) + (if r.dir == dir then IndexLine(r) else "")
  {
    assert (log + [r])[..|log|] == log;
  }

  /** `after` is `before` with zero or more entries appended. */
  predicate Extends<T(==)>(before: seq<T>, after: seq<T>)
  {
    |before| <= |after| && after[..|before|] == before
  }

  /** What the tool can change, at one moment: the files, the index log and the request log. */
  datatype Snapshot = Snapshot(files: map<string, Bytes>, index: seq<IndexRecord>, requests: seq<string>)

  /** The result of an operation that may fail, and the state it leaves behind. */
  datatype Step<T> = Step(result: Result<T>, after: Snapshot)

  /** Nothing is undone between the two states: no file disappears and both logs only grow. */
  predicate Grows(before: Snapshot, after: Snapshot)
  {
    before.files.Keys <= after.files.Keys && Extends(before.index, after.index) && Extends(before.requests, after.requests)
  }

  lemma GrowsTransitive(a: Snapshot, b: Snapshot, c: Snapshot)
    requires Grows(a, b) && Grows(b, c)
    ensures Grows(a, c)
  {
    assert c.index[..|b.index|][..|a.index|] == c.index[..|a.index|];
    assert c.requests[..|b.requests|][..|a.requests|] == c.requests[..|a.requests|];
  }

  class Host {
    /** The file system: path to contents. Index files are kept in `index` instead. */
    var files: map<string, Bytes>
    /** Every line appended to an `index.tsv`, oldest first; each names the directory of its file. */
    var index: seq<IndexRecord>
    /** Every URL requested from the network, in order: the oracle's call counter. */
    var requests: seq<string>

    /** The cache directory, W2D_CACHE_DIR or `scrape_cache`, read once at import. */
    const cacheDir: string
    /** hash_url: the MD5 hex digest of the URL's UTF-8 bytes, left uninterpreted. */
    const hashUrl: string -> string
    /** The network: body for a GET of the URL as the n-th request, or None when urlopen raises. */
    const web: (string, nat) -> Option<Bytes>

    constructor (environ: Env, hashUrl: string -> string, web: (string, nat) -> Option<Bytes>, files: map<string, Bytes>)
      ensures this.cacheDir == EnvGet(environ, "W2D_CACHE_DIR", "scrape_cache")
      ensures this.hashUrl == hashUrl && this.web == web
      ensures this.files == files && this.index == [] && this.requests == []
    {
      this.cacheDir := EnvGet(environ, "W2D_CACHE_DIR", "scrape_cache");
      this.hashUrl := hashUrl;
      this.web := web;
      this.files := files;
      this.index := [];
      this.requests := [];
    }

    /** The state as a value. */
    function State(): Snapshot
      reads this
    {
      Snapshot(files, index, requests)
    }

    /** get_url's file: the caller's filename when truthy, else cache_dir/hash_url(url). */
    function CacheFile(url: string, filename: string): string
    {
      if filename != "" then filename else Join(cacheDir, hashUrl(url))
    }

    /**
     * What the tool can never undo: no file disappears, and the index and
     * request logs only grow.
     */
    predicate Since(files0: map<string, Bytes>, index0: seq<IndexRecord>, requests0: seq<string>)
      reads this
    {
      files0.Keys <= files.Keys && Extends(index0, index) && Extends(requests0, requests)
    }

    /** The network request itself (urllib_get_url with the browser headers). */
    method Download(url: string) returns (page: Option<Bytes>)
      modifies this`requests
      ensures requests == old(requests) + [url]
      ensures page == web(url, |old(requests)|)
    {
      page := web(url, |requests|);
      requests := requests + [url];
    }
  }
}
