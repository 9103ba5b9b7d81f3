/**
 * The three content extractors of the package and the environment-driven
 * choice between them. Each one turns a URL (and, for readability, maybe
 * the page already in hand) into the Postlight-shaped document that
 * process_page reads.
 */
module Extract {
  import opened Base
  import opened Storage
  import Fetch
  import opened Postlight
  import opened Libs

  /** MP_URL's default: the parser service on this machine. */
  const DefaultServer := "http://localhost:3000/parser"

  datatype Extractor = Readability | PostlightService | PostlightExe

  /**
   * dump_url's choice: W2D_EXTRACTOR (default "readability") names a
   * Postlight flavour, anything else means readability when it is
   * installed and the Postlight service otherwise.
   */
  function SelectExtractor(env: Env, readabilityInstalled: bool): (e: Extractor)
    ensures e == Readability ==> readabilityInstalled
    ensures e == PostlightExe <==> EnvGet(env, "W2D_EXTRACTOR", "readability") == "postlight_exe"
    ensures e == PostlightService <==>
      EnvGet(env, "W2D_EXTRACTOR", "readability") == "postlight"
      || (EnvGet(env, "W2D_EXTRACTOR", "readability") != "postlight_exe" && !readabilityInstalled)
  {
    var name := EnvGet(env, "W2D_EXTRACTOR", "readability");
    if name == "postlight" then PostlightService
    else if name == "postlight_exe" then PostlightExe
    else if readabilityInstalled then Readability
    else PostlightService
  }

  /** markdownify.markdownify, which raises ImportError when the module is missing. */
  function Markdownify(libs: Libraries, html: string): (r: Result<string>)
    ensures r.Ok? <==> libs.markdownify.Some?
    ensures r.Ok? ==> r.value == libs.markdownify.value(html)
  {
    match libs.markdownify
    case None => Err(MissingModule("markdownify"))
    case Some(convert) => Ok(convert(html))
  }

  /**
   * extractor_readability once the page text is in hand: trafilatura's
   * metadata when it gives any, otherwise readability's short title as the
   * title and its full title as the description; the content is
   * readability's summary, converted to Markdown when that was asked for.
   */
  function ReadabilityDocument(libs: Libraries, url: string, text: string, format: string): (r: Result<PostlightDoc>)
    ensures r.Ok? <==> libs.readability.Some? && (format == FormatMarkdown ==> libs.markdownify.Some?)
    ensures libs.readability.None? ==> r == Err(MissingModule("readability"))
    ensures r.Ok? ==>
      var doc := libs.readability.value(text);
      && r.value.content == (if format == FormatMarkdown then libs.markdownify.value(doc.summary) else doc.summary)
      && (match (if libs.trafilatura.Some? then libs.trafilatura.value(text, url) else None)
          case Some(m) =>
            r.value.title == m.title && r.value.author == m.author
            && r.value.datePublished == m.date && r.value.excerpt == m.description
          case None =>
            r.value.title == Some(doc.shortTitle) && r.value.excerpt == Some(doc.title)
            && r.value.author.None? && r.value.datePublished.None?)
  {
    var meta := match libs.trafilatura
      case None => None
      case Some(extract) => extract(text, url);
    match libs.readability
    case None => Err(MissingModule("readability"))
    case Some(parse) =>
      var doc := parse(text);
      var content := if format == FormatMarkdown then Markdownify(libs, doc.summary) else Ok(doc.summary);
      match content
      case Err(e) => Err(e)
      case Ok(c) =>
        match meta
        case Some(m) => Ok(PostlightDoc(m.title, m.author, m.date, m.description, c))
        case None => Ok(PostlightDoc(Some(doc.shortTitle), None, None, Some(doc.title), c))
  }

  /** The format extractor_readability works in: `format or 'html'`. */
  function ReadabilityFormat(format: string): string
  {
    if format != "" then format else FormatHtml
  }

  /**
   * extractor_readability as a step: the format and then the URL are asserted
   * with the state untouched. Content passed in is used as it is. Otherwise
   * the page comes through the cache: a cached page is used with no request,
   * an uncached one costs one request whose answer is stored.
   */
  function ReadabilityStep(h: Host, s: Snapshot, libs: Libraries, url: string, pageContent: Option<string>, format: string)
    : (st: Step<PostlightDoc>)
    ensures Grows(s, st.after)
  {
    var f := ReadabilityFormat(format);
    if f != FormatHtml && f != FormatMarkdown then Step(Err(FormatAssertion(f)), s)
    else if !StartsWith(url, "http") then Step(Err(UrlAssertion(url)), s)
    else if pageContent.Some? then Step(ReadabilityDocument(libs, url, pageContent.value, f), s)
    else
      var got := Fetch.Fetched(h, s, url, "", false, true);
      match got.result
      case Err(e) => Step(Err(e), got.after)
      case Ok(page) => Step(ReadabilityDocument(libs, url, libs.decode(page), f), got.after)
  }

  /**
   * extractor_readability's transitions: the format and then the URL are
   * asserted with the state untouched; content passed in is used as it is;
   * otherwise a cached page costs no request and an uncached one costs one,
   * whose answer is stored.
   */
  lemma ReadabilityTransitions(h: Host, s: Snapshot, libs: Libraries, url: string, pageContent: Option<string>, format: string)
    ensures var st := ReadabilityStep(h, s, libs, url, pageContent, format);
      var f := ReadabilityFormat(format);
      f != FormatHtml && f != FormatMarkdown ==> st == Step(Err(FormatAssertion(f)), s)
    ensures var st := ReadabilityStep(h, s, libs, url, pageContent, format);
      !StartsWith(url, "http") ==> st.result.Err? && st.after == s
    ensures var st := ReadabilityStep(h, s, libs, url, pageContent, format);
      var f := ReadabilityFormat(format);
      (f == FormatHtml || f == FormatMarkdown) && StartsWith(url, "http") && pageContent.Some? ==>
        st == Step(ReadabilityDocument(libs, url, pageContent.value, f), s)
    ensures var st := ReadabilityStep(h, s, libs, url, pageContent, format);
      var f := ReadabilityFormat(format);
      var path := h.CacheFile(url, "");
      (f == FormatHtml || f == FormatMarkdown) && StartsWith(url, "http") && pageContent.None? ==>
        && (path in s.files ==> st == Step(ReadabilityDocument(libs, url, libs.decode(s.files[path]), f), s))
        && (path !in s.files ==>
              && st.after.requests == s.requests + [url]
              && match h.web(url, |s.requests|)
                 case None => st.result == Err(FetchFailed(url)) && st.after.files == s.files
                 case Some(page) =>
                   st.result == ReadabilityDocument(libs, url, libs.decode(page), f) && st.after.files == s.files[path := page])
  {
    Fetch.CacheTransitions(h, s, url, "", false, true);
  }

  /** extractor_readability: the format and the URL are asserted first, the page is fetched only when not passed in. */
  method ExtractReadability(h: Host, libs: Libraries, url: string, pageContent: Option<string>, format: string)
    returns (r: Result<PostlightDoc>)
    modifies h
    ensures Step(r, h.State()) == ReadabilityStep(h, old(h.State()), libs, url, pageContent, format)
  {
    var outputFormat := ReadabilityFormat(format);
    if outputFormat != FormatHtml && outputFormat != FormatMarkdown {
      return Err(FormatAssertion(outputFormat));
    }
    if !StartsWith(url, "http") {
      return Err(UrlAssertion(url));
    }
    var text: string;
    if pageContent.None? {
      var page := Fetch.GetUrl(h, url, "", false, true);
      if page.Err? {
        return Err(page.error);
      }
      text := libs.decode(page.value);
    } else {
      text := pageContent.value;
    }
    r := ReadabilityDocument(libs, url, text, outputFormat);
  }

  /**
   * The parser-service request extractor_postlight makes: the browser header
   * bag, and "markdown" as the content type exactly when Markdown is wanted.
   */
  function PostlightRequestUrl(libs: Libraries, env: Env, url: string, format: string): (u: string)
    ensures StartsWith(u, EnvGet(env, "MP_URL", DefaultServer) + "?")
  {
    GenPostlightUrl(url, if format == FormatMarkdown then "markdown" else "html", FirefoxHeaders,
                    EnvGet(env, "MP_URL", DefaultServer), libs.jsonDumps, libs.urlencode)
  }

  /**
   * The query of that request names the page, asks for Markdown exactly when
   * the caller wants Markdown and HTML otherwise, and sends the browser
   * headers with USER-AGENT added.
   */
  lemma PostlightRequestQuery(libs: Libraries, url: string, format: string)
    ensures var q := PostlightQuery(url, if format == FormatMarkdown then "markdown" else "html", FirefoxHeaders, libs.jsonDumps);
      && Param(q, "url") == Some(url)
      && Param(q, "contentType") == Some(if format == FormatMarkdown then "markdown" else "html")
      && Param(q, "headers") == Some(libs.jsonDumps(FirefoxHeaders + [Header("USER-AGENT", FirefoxUserAgent)]))
  {
    FirefoxRewrite();
    QueryParameters(url, if format == FormatMarkdown then "markdown" else "html", FirefoxHeaders, libs.jsonDumps);
  }

  /** The service's answer read as a document: JSON that does not parse is an error. */
  function ParsedDoc(libs: Libraries, body: Bytes): (r: Result<PostlightDoc>)
    ensures r.Ok? <==> libs.parseJson(body).Some?
    ensures r.Ok? ==> Some(r.value) == libs.parseJson(body)
    ensures r.Err? ==> r == Err(MalformedJson)
  {
    match libs.parseJson(body)
    case None => Err(MalformedJson)
    case Some(doc) => Ok(doc)
  }

  /**
   * extractor_postlight as a step: the service's answer goes through get_url,
   * cached like any page unless `noCache`, in which case it is always fetched
   * and never stored. The page content is not used.
   */
  function PostlightStep(h: Host, s: Snapshot, libs: Libraries, env: Env, url: string, format: string, noCache: bool)
    : (st: Step<PostlightDoc>)
    ensures Grows(s, st.after)
  {
    var got := Fetch.Fetched(h, s, PostlightRequestUrl(libs, env, url, format), "", noCache, !noCache);
    match got.result
    case Err(e) => Step(Err(e), got.after)
    case Ok(body) => Step(ParsedDoc(libs, body), got.after)
  }

  /**
   * extractor_postlight's transitions: with `noCache` the request is always
   * made and nothing is stored; otherwise the answer is cached like a page.
   */
  lemma PostlightTransitions(h: Host, s: Snapshot, libs: Libraries, env: Env, url: string, format: string, noCache: bool)
    ensures var st := PostlightStep(h, s, libs, env, url, format, noCache);
      var req := PostlightRequestUrl(libs, env, url, format);
      noCache ==>
        && st.after == s.(requests := s.requests + [req])
        && match h.web(req, |s.requests|)
           case None => st.result == Err(FetchFailed(req))
           case Some(body) => st.result == ParsedDoc(libs, body)
    ensures var st := PostlightStep(h, s, libs, env, url, format, noCache);
      var req := PostlightRequestUrl(libs, env, url, format);
      var path := h.CacheFile(req, "");
      !noCache ==>
        && (path in s.files ==> st == Step(ParsedDoc(libs, s.files[path]), s))
        && (path !in s.files ==>
              && st.after.requests == s.requests + [req]
              && match h.web(req, |s.requests|)
                 case None => st.result == Err(FetchFailed(req)) && st.after.files == s.files
                 case Some(body) => st.result == ParsedDoc(libs, body) && st.after.files == s.files[path := body])
  {
    Fetch.CacheTransitions(h, s, PostlightRequestUrl(libs, env, url, format), "", noCache, !noCache);
  }

  /** extractor_postlight: build the request URL, fetch it (through the cache unless `noCache`) and parse the answer. */
  method ExtractPostlight(h: Host, libs: Libraries, env: Env, url: string, format: string, noCache: bool)
    returns (r: Result<PostlightDoc>)
    modifies h
    ensures Step(r, h.State()) == PostlightStep(h, old(h.State()), libs, env, url, format, noCache)
  {
    var postlightFormat := "html";
    if format == FormatMarkdown {
      postlightFormat := "markdown";
    }
    var requestUrl := GenPostlightUrl(url, postlightFormat, FirefoxHeaders, EnvGet(env, "MP_URL", DefaultServer),
                                      libs.jsonDumps, libs.urlencode);
    var body: Result<Bytes>;
    if noCache {
      body := Fetch.GetUrl(h, requestUrl, "", true, false);
    } else {
      body := Fetch.GetUrl(h, requestUrl, "", false, true);
    }
    if body.Err? {
      return Err(body.error);
    }
    match libs.parseJson(body.value)
    case None => r := Err(MalformedJson);
    case Some(doc) => r := Ok(doc);
  }

  /**
   * extractor_postlight_exe: runs the command-line parser (W2D_POSTLITE_EXE)
   * on the URL with the browser headers as flags, and fails on any stderr.
   */
  method ExtractPostlightExe(libs: Libraries, env: Env, url: string, format: string) returns (r: Result<PostlightDoc>)
    ensures var p := libs.run(ExeArgs(EnvGet(env, "W2D_POSTLITE_EXE", DefaultExe), url, format, FirefoxHeaders), []);
      && (p.stderr != [] ==> r == Err(ToolStderr(p.stderr)))
      && (r.Ok? <==> p.stderr == [] && libs.parseJson(p.stdout).Some?)
      && (r.Ok? ==> Some(r.value) == libs.parseJson(p.stdout))
      && r == ExeOutcome(p, libs.parseJson)
  {
    var exe := EnvGet(env, "W2D_POSTLITE_EXE", DefaultExe);
    var args := BuildExeArgs(exe, url, format, FirefoxHeaders);
    var proc := libs.run(args, []);
    r := ExeOutcome(proc, libs.parseJson);
  }

  /**
   * process_page's call of the chosen extractor, as a step. The command-line
   * parser, and readability given the content, leave the state untouched.
   */
  function RunStep(h: Host, s: Snapshot, libs: Libraries, env: Env, extractor: Extractor, url: string,
                   pageContent: Option<string>, format: string): (st: Step<PostlightDoc>)
    ensures Grows(s, st.after)
  {
    match extractor
    case Readability => ReadabilityStep(h, s, libs, url, pageContent, format)
    case PostlightService => PostlightStep(h, s, libs, env, url, format, false)
    case PostlightExe =>
      Step(ExeOutcome(libs.run(ExeArgs(EnvGet(env, "W2D_POSTLITE_EXE", DefaultExe), url, format, FirefoxHeaders), []),
                      libs.parseJson), s)
  }

  /**
   * The command-line parser's outcome is its output read as a document, with
   * the state untouched; readability given the content leaves it untouched too.
   */
  lemma RunOutcome(h: Host, s: Snapshot, libs: Libraries, env: Env, extractor: Extractor, url: string,
                   pageContent: Option<string>, format: string)
    ensures var st := RunStep(h, s, libs, env, extractor, url, pageContent, format);
      extractor == PostlightExe ==>
      st == Step(ExeOutcome(libs.run(ExeArgs(EnvGet(env, "W2D_POSTLITE_EXE", DefaultExe), url, format, FirefoxHeaders), []),
                            libs.parseJson), s)
    ensures var st := RunStep(h, s, libs, env, extractor, url, pageContent, format);
      extractor == Readability && pageContent.Some? ==> st.after == s
  {
    if extractor == Readability && pageContent.Some? {
      ReadabilityTransitions(h, s, libs, url, pageContent, format);
    }
  }

  /** process_page's call of the chosen extractor; `title` is passed but no extractor uses it. */
  method Run(h: Host, libs: Libraries, env: Env, extractor: Extractor, url: string, pageContent: Option<string>, format: string)
    returns (r: Result<PostlightDoc>)
    modifies h
    ensures Step(r, h.State()) == RunStep(h, old(h.State()), libs, env, extractor, url, pageContent, format)
  {
    match extractor
    case Readability => r := ExtractReadability(h, libs, url, pageContent, format);
    case PostlightService => r := ExtractPostlight(h, libs, env, url, format, false);
    case PostlightExe => r := ExtractPostlightExe(libs, env, url, format);
  }
}
