/**
 * The Postlight (Mercury) parser glue of the package: the header bag and
 * its user-agent rewrite, the query of the parser service's GET request,
 * the argument list of the postlight-parser command and its stderr check.
 */
module Postlight {
  import opened Base

  /** One entry of a header dict; a dict is a list of entries in insertion order. */
  datatype Header = Header(name: string, value: string)
  type Headers = seq<Header>

  /** `headers.get(key)`: the value of the first entry with that name. */
  function Lookup(hs: Headers, key: string): Option<string>
  {
    if hs == [] then None
    else if hs[0].name == key then Some(hs[0].value)
    else Lookup(hs[1..], key)
  }

  /** A dict has each key once. */
  predicate UniqueKeys(hs: Headers)
  {
    forall i, j :: 0 <= i < j < |hs| ==> hs[i].name != hs[j].name
  }

  /** Looking a key up after an entry is appended. */
  lemma {:induction false} LookupAppend(hs: Headers, e: Header, key: string)
    ensures Lookup(hs + [e], key) == if Lookup(hs, key).Some? then Lookup(hs, key) else if e.name == key then Some(e.value) else None
  {
    if hs != [] {
      assert (hs + [e])[1..] == hs[1..] + [e];
      LookupAppend(hs[1..], e, key);
    }
  }

  /** MOZILLA_FIREFOX_HEADERS: the header bag captured from a real browser. */
  const FirefoxHeaders: Headers := [
    Header("HTTP_USER_AGENT", "Mozilla/5.0 (Windows NT 10.0; Win64; x64; rv:109.0) Gecko/20100101 Firefox/115.0"),
    Header("HTTP_ACCEPT", "*/*"),
    Header("HTTP_ACCEPT_LANGUAGE", "en-US,en;q=0.5"),
    Header("HTTP_ACCEPT_ENCODING", "gzip, deflate, br"),
    Header("HTTP_SERVICE_WORKER", "script"),
    Header("HTTP_CONNECTION", "keep-alive"),
    Header("HTTP_COOKIE", "js=y"),
    Header("HTTP_SEC_FETCH_DEST", "serviceworker"),
    Header("HTTP_SEC_FETCH_MODE", "same-origin"),
    Header("HTTP_SEC_FETCH_SITE", "same-origin"),
    Header("HTTP_PRAGMA", "no-cache"),
    Header("HTTP_CACHE_CONTROL", "no-cache")
  ]

  const FirefoxUserAgent := "Mozilla/5.0 (Windows NT 10.0; Win64; x64; rv:109.0) Gecko/20100101 Firefox/115.0"

  /** When the rewrite applies: a non-empty bag with HTTP_USER_AGENT and without USER-AGENT. */
  predicate NeedsUserAgent(hs: Headers)
  {
    hs != [] && Lookup(hs, "USER-AGENT").None? && Lookup(hs, "HTTP_USER_AGENT").Some?
  }

  /**
   * The copy of the bag with USER-AGENT set from HTTP_USER_AGENT (a new key
   * goes last in a dict); otherwise the bag itself. The caller's bag is a
   * value and is never changed.
   */
  function WithUserAgent(hs: Headers): Headers
  {
    if NeedsUserAgent(hs) then hs + [Header("USER-AGENT", Lookup(hs, "HTTP_USER_AGENT").value)] else hs
  }

  /**
   * The rewrite keeps every entry of the caller's bag in place, gives
   * USER-AGENT the HTTP_USER_AGENT value when it applies, answers every
   * other key as before, and keeps a dict a dict.
   */
  lemma UserAgentRewrite(hs: Headers)
    ensures var r := WithUserAgent(hs);
      && |hs| <= |r| <= |hs| + 1
      && r[..|hs|] == hs
      && Lookup(r, "USER-AGENT") == (if NeedsUserAgent(hs) then Lookup(hs, "HTTP_USER_AGENT") else Lookup(hs, "USER-AGENT"))
      && (forall k :: k != "USER-AGENT" ==> Lookup(r, k) == Lookup(hs, k))
      && (UniqueKeys(hs) ==> UniqueKeys(r))
  {
    var r := WithUserAgent(hs);
    if NeedsUserAgent(hs) {
      var e := Header("USER-AGENT", Lookup(hs, "HTTP_USER_AGENT").value);
      LookupAppend(hs, e, "USER-AGENT");
      forall k | k != "USER-AGENT" ensures Lookup(r, k) == Lookup(hs, k) {
        LookupAppend(hs, e, k);
      }
      if UniqueKeys(hs) {
        forall i | 0 <= i < |hs| ensures hs[i].name != "USER-AGENT" {
          LookupHit(hs, i);
        }
      }
    } else {
      assert r == hs;
    }
  }

  /** A name that some entry carries is found. */
  lemma {:induction false} LookupHit(hs: Headers, i: nat)
    requires i < |hs|
    ensures Lookup(hs, hs[i].name).Some?
  {
    if i > 0 && hs[0].name != hs[i].name {
      LookupHit(hs[1..], i - 1);
    }
  }

  /** One query parameter of the request URL. */
  datatype QueryParam = QueryParam(key: string, value: string)

  /** The value of the first parameter with that key. */
  function Param(q: seq<QueryParam>, key: string): Option<string>
  {
    if q == [] then None
    else if q[0].key == key then Some(q[0].value)
    else Param(q[1..], key)
  }

  /**
   * The parameters gen_postlight_url encodes, in dict order: url always,
   * headers (the compact JSON of the rewritten bag) when the bag is truthy,
   * contentType when the format is truthy. `format` "" stands for None.
   */
  function PostlightQuery(url: string, format: string, headers: Headers, jsonDumps: Headers -> string): seq<QueryParam>
  {
    [QueryParam("url", url)]
    + (if headers != [] then [QueryParam("headers", jsonDumps(WithUserAgent(headers)))] else [])
    + (if format != "" then [QueryParam("contentType", format)] else [])
  }

  /** Which parameters the request carries, and with what values. */
  lemma QueryParameters(url: string, format: string, headers: Headers, jsonDumps: Headers -> string)
    ensures var q := PostlightQuery(url, format, headers, jsonDumps);
      && q[0] == QueryParam("url", url)
      && Param(q, "url") == Some(url)
      && Param(q, "headers") == (if headers != [] then Some(jsonDumps(WithUserAgent(headers))) else None)
      && Param(q, "contentType") == (if format != "" then Some(format) else None)
      && |q| == 1 + (if headers != [] then 1 else 0) + (if format != "" then 1 else 0)
  {
    var q := PostlightQuery(url, format, headers, jsonDumps);
    var u := QueryParam("url", url);
    var h := QueryParam("headers", jsonDumps(WithUserAgent(headers)));
    var c := QueryParam("contentType", format);
    assert |"url"| == 3 && |"headers"| == 7 && |"contentType"| == 11;
    if headers != [] && format != "" {
      assert q == [u, h, c];
      assert q[1..] == [h, c] && q[1..][1..] == [c] && q[1..][1..][1..] == [];
      assert Param(q[1..][1..], "headers") == None;
      assert Param(q[1..], "contentType") == Some(format);
    } else if headers != [] {
      assert q == [u, h];
      assert q[1..] == [h] && q[1..][1..] == [];
      assert Param(q[1..], "contentType") == None;
    } else if format != "" {
      assert q == [u, c];
      assert q[1..] == [c] && q[1..][1..] == [];
      assert Param(q[1..], "headers") == None;
    } else {
      assert q == [u];
      assert q[1..] == [];
    }
  }

  /** gen_postlight_url: the service URL, '?', and the urlencoded parameters. */
  function GenPostlightUrl(url: string, format: string, headers: Headers, serverUrl: string,
                           jsonDumps: Headers -> string, urlencode: seq<QueryParam> -> string): (r: string)
    ensures StartsWith(r, serverUrl + "?")
  {
    serverUrl + "?" + urlencode(PostlightQuery(url, format, headers, jsonDumps))
  }

  /** W2D_POSTLITE_EXE's default. */
  const DefaultExe := "C:\\code\\js\\mercury-parser-api\\node_modules\\.bin\\postlight-parser.cmd"

  function HeaderFlag(e: Header): string
  {
    "--header." + e.name + "=" + e.value
  }

  /** One `--header.name=value` flag per entry, in order. */
  function HeaderFlags(hs: Headers): (flags: seq<string>)
    ensures |flags| == |hs|
    ensures forall i :: 0 <= i < |hs| ==> flags[i] == HeaderFlag(hs[i])
  {
    seq(|hs|, i requires 0 <= i < |hs| => HeaderFlag(hs[i]))
  }

  /**
   * The command line of extractor_postlight_exe: tool, URL, format, then one
   * flag per entry of the rewritten bag (the source passes the browser bag).
   */
  function ExeArgs(exe: string, url: string, format: string, headers: Headers): seq<string>
  {
    [exe, url, "--format=" + format] + HeaderFlags(WithUserAgent(headers))
  }

  /** Builds the command line the way the source does: a list grown one header at a time. */
  method BuildExeArgs(exe: string, url: string, format: string, bag: Headers) returns (args: seq<string>)
    ensures args == ExeArgs(exe, url, format, bag)
  {
    args := [exe, url];
    args := args + ["--format=" + format];
    var headers := bag;
    if NeedsUserAgent(headers) {
      headers := headers + [Header("USER-AGENT", Lookup(headers, "HTTP_USER_AGENT").value)];
    }
    for i := 0 to |headers|
      invariant |args| == 3 + i
      invariant args[..3] == [exe, url, "--format=" + format]
      invariant forall k :: 0 <= k < i ==> args[3 + k] == HeaderFlag(headers[k])
    {
      args := args + [HeaderFlag(headers[i])];
    }
  }

  /** Every browser header is named HTTP_..., so the rewrite applies and adds USER-AGENT last. */
  lemma FirefoxRewrite()
    ensures NeedsUserAgent(FirefoxHeaders)
    ensures WithUserAgent(FirefoxHeaders) == FirefoxHeaders + [Header("USER-AGENT", FirefoxUserAgent)]
  {
    var hs := FirefoxHeaders;
    forall i | 0 <= i < |hs| ensures hs[i].name != "USER-AGENT" {
      assert hs[i].name[0] == 'H';
    }
    LookupMiss(hs, "USER-AGENT");
  }

  /**
   * When the rewrite applies, the command line ends with the USER-AGENT flag
   * carrying the HTTP_USER_AGENT value, after one flag per original header.
   */
  lemma ExeArgsCarryUserAgent(exe: string, url: string, format: string, headers: Headers)
    requires NeedsUserAgent(headers)
    ensures var args := ExeArgs(exe, url, format, headers);
      && |args| == 4 + |headers|
      && args[..3] == [exe, url, "--format=" + format]
      && args[|args| - 1] == "--header.USER-AGENT=" + Lookup(headers, "HTTP_USER_AGENT").value
  {
    LastFlag([exe, url, "--format=" + format], headers, Header("USER-AGENT", Lookup(headers, "HTTP_USER_AGENT").value));
  }

  /** For the browser bag: sixteen arguments, the last one the Firefox user agent. */
  lemma FirefoxExeArgs(exe: string, url: string, format: string)
    ensures var args := ExeArgs(exe, url, format, FirefoxHeaders);
      |args| == 16 && args[15] == "--header.USER-AGENT=" + FirefoxUserAgent
  {
    FirefoxRewrite();
    ExeArgsCarryUserAgent(exe, url, format, FirefoxHeaders);
  }

  lemma LastFlag(front: seq<string>, hs: Headers, e: Header)
    ensures var args := front + HeaderFlags(hs + [e]);
      |args| == |front| + |hs| + 1 && args[..|front|] == front && args[|args| - 1] == HeaderFlag(e)
  {
    var args := front + HeaderFlags(hs + [e]);
    assert args[..|front|] == front;
  }

  /** A key that no entry carries is not found. */
  lemma {:induction false} LookupMiss(hs: Headers, key: string)
    requires forall i :: 0 <= i < |hs| ==> hs[i].name != key
    ensures Lookup(hs, key).None?
  {
    if hs != [] {
      LookupMiss(hs[1..], key);
    }
  }

  /** The response of the parser, already in the shape process_page reads (JSON null is None). */
  datatype PostlightDoc = PostlightDoc(
    title: Option<string>,
    author: Option<string>,
    datePublished: Option<string>,
    excerpt: Option<string>,
    content: string)

  /**
   * extractor_postlight_exe after the process ends: anything on stderr is
   * fatal; otherwise stdout is parsed as JSON.
   */
  function ExeOutcome(p: ProcResult, parseJson: Bytes -> Option<PostlightDoc>): (r: Result<PostlightDoc>)
    ensures p.stderr != [] ==> r == Err(ToolStderr(p.stderr))
    ensures r.Ok? ==> p.stderr == [] && parseJson(p.stdout) == Some(r.value)
  {
    if p.stderr != [] then Err(ToolStderr(p.stderr))
    else match parseJson(p.stdout)
      case None => Err(MalformedJson)
      case Some(d) => Ok(d)
  }
}
