/**
 * The package's page pipeline: process_page turns one URL into one output
 * file (Markdown, HTML or EPUB), and dump_url does that for one format or
 * for all of them, with the extractor and EPUB writer picked from the
 * environment.
 */
module Pipeline {
  import opened Base
  import opened Storage
  import Fetch
  import Sanitizer
  import opened Postlight
  import opened Epub
  import opened Libs
  import opened Extract

  const FormatAll := "all"

  /** SUPPORTED_FORMATS, in the order `all` processes them. */
  const SupportedFormats: seq<string> := [FormatHtml, FormatMarkdown, FormatEpub]

  /** dump_url's formats: every supported one for "all", else just the one asked for. */
  function FormatList(outputFormat: string): (fs: seq<string>)
    ensures |fs| >= 1
    ensures outputFormat == FormatAll ==> fs == SupportedFormats
    ensures outputFormat != FormatAll ==> fs == [outputFormat]
  {
    if outputFormat == FormatAll then SupportedFormats else [outputFormat]
  }

  datatype EpubTool = Pypub | Pandoc

  /**
   * dump_url's EPUB writer: W2D_EPUB_TOOL (no default) names one; otherwise
   * pypub when it is installed and pandoc when it is not.
   */
  function SelectEpubTool(env: Env, pypubInstalled: bool): (t: EpubTool)
    ensures t == Pandoc <==>
      EnvLookup(env, "W2D_EPUB_TOOL") == Some("pandoc")
      || (EnvLookup(env, "W2D_EPUB_TOOL") != Some("pypub") && !pypubInstalled)
    ensures t == Pypub && !pypubInstalled ==> EnvLookup(env, "W2D_EPUB_TOOL") == Some("pypub")
  {
    var name := EnvLookup(env, "W2D_EPUB_TOOL");
    if name == Some("pypub") then Pypub
    else if name == Some("pandoc") then Pandoc
    else if pypubInstalled then Pypub
    else Pandoc
  }

  /** The format the content is produced in: W2D_INTERMEDIATE_FORMAT (default html) for EPUB, else the output format. */
  function ContentFormat(outputFormat: string, env: Env): (f: string)
    ensures outputFormat != FormatEpub ==> f == outputFormat
    ensures outputFormat == FormatEpub ==> f == EnvGet(env, "W2D_INTERMEDIATE_FORMAT", FormatHtml)
    ensures outputFormat == FormatEpub && "W2D_INTERMEDIATE_FORMAT" !in env ==> f == FormatHtml
  {
    if outputFormat == FormatEpub then EnvGet(env, "W2D_INTERMEDIATE_FORMAT", FormatHtml) else outputFormat
  }

  /** The four metadata fields process_page keeps; each may be None. */
  datatype Metadata = Metadata(title: Option<string>, description: Option<string>, author: Option<string>, date: Option<string>)

  /** What process_page returns: the metadata and the output filename. */
  datatype Summary = Summary(title: Option<string>, description: Option<string>, author: Option<string>,
                             date: Option<string>, filename: string)

  /** The metadata of an extracted document: the excerpt is the description, the publication date the date. */
  function MetadataOf(doc: PostlightDoc): (m: Metadata)
    ensures m.title == doc.title && m.description == doc.excerpt
    ensures m.author == doc.author && m.date == doc.datePublished
  {
    Metadata(doc.title, doc.excerpt, doc.author, doc.datePublished)
  }

  /**
   * The metadata of a raw page: the caller's title or a placeholder, and
   * placeholders for the rest, so no field is ever missing.
   */
  function RawMetadata(title: Option<string>): (m: Metadata)
    ensures Truthy(m.title) && Truthy(m.description) && Truthy(m.author) && Truthy(m.date)
    ensures Truthy(title) ==> m.title == title
    ensures !Truthy(title) ==> m.title == Some("UnknownTitle")
  {
    Metadata(Some(Or(title, "UnknownTitle")), Some("UnknownDescription"), Some("UnknownAuthor"), Some("UnknownDate"))
  }

  /** The title used for the filename and the EPUB: the caller's when truthy, else the metadata's. */
  function EffectiveTitle(title: Option<string>, m: Metadata): (t: Option<string>)
    ensures Truthy(title) ==> t == title
    ensures !Truthy(title) ==> t == m.title
  {
    if Truthy(title) then title else m.title
  }

  /** The block above a Markdown document: title heading, author and date, description; a missing field reads MISSING_.... */
  function MarkdownHeader(m: Metadata): (hd: string)
    ensures StartsWith(hd, "# " + Or(m.title, "MISSING_TITLE") + "\n\n")
    ensures EndsWith(hd, "\n\n")
  {
    var first := "# " + Or(m.title, "MISSING_TITLE") + "\n\n";
    var rest := Or(m.author, "MISSING_AUTHOR") + " " + Or(m.date, "MISSING_DATE") + "\n\n"
                + Or(m.description, "MISSING_DESCRIPTION") + "\n\n";
    assert (first + rest)[..|first|] == first;
    first + rest
  }

  /**
   * The Markdown document: the header, then the content; the result always
   * ends with a newline, added only when header and content together do not
   * already end in one (so empty content gives the header alone).
   */
  function MarkdownText(m: Metadata, content: string): (t: string)
    ensures StartsWith(t, MarkdownHeader(m))
    ensures EndsWith(t, "\n")
    ensures t[|MarkdownHeader(m)|..] == content || t[|MarkdownHeader(m)|..] == content + "\n"
    ensures EndsWith(content, "\n") ==> t == MarkdownHeader(m) + content
    ensures EndsWith(MarkdownHeader(m) + content, "\n") <==> t == MarkdownHeader(m) + content
    ensures !EndsWith(MarkdownHeader(m) + content, "\n") ==> t == MarkdownHeader(m) + content + "\n"
    ensures content == "" ==> t == MarkdownHeader(m)
  {
    var hd := MarkdownHeader(m);
    var text := hd + content;
    assert text[..|hd|] == hd && text[|hd|..] == content;
    assert EndsWith(content, "\n") ==> EndsWith(text, "\n") by {
      if EndsWith(content, "\n") {
        assert text[|text| - 1] == content[|content| - 1];
      }
    }
    if EndsWith(text, "\n") then text
    else
      assert (text + "\n")[..|hd|] == hd && (text + "\n")[|hd|..] == content + "\n";
      text + "\n"
  }

  /**
   * The output filename: the caller's when truthy; otherwise the prefix, the
   * sanitised title and the format as extension, which needs a title.
   */
  function OutputFilename(explicit: Option<string>, prefix: Option<string>, title: Option<string>, outputFormat: string)
    : (r: Result<string>)
    ensures Truthy(explicit) ==> r == Ok(explicit.value)
    ensures !Truthy(explicit) && title.None? ==> r == Err(TitleIsNone)
    ensures !Truthy(explicit) && title.Some? ==>
      && r.Ok?
      && |r.value| == |Or(prefix, "")| + |Sanitizer.Sanitized(title.value, '_')| + 1 + |outputFormat|
      && StartsWith(r.value, Or(prefix, ""))
      && EndsWith(r.value, "." + outputFormat)
      && var stem := r.value[|Or(prefix, "")|..|r.value| - |outputFormat| - 1];
        stem == Sanitizer.Sanitized(title.value, '_')
        && Sanitizer.OnlySafe(stem, '_') && Sanitizer.NoSeparatorRun(stem, '_')
  {
    if Truthy(explicit) then Ok(explicit.value)
    else if title.None? then Err(TitleIsNone)
    else
      var p := Or(prefix, "");
      var stem := Sanitizer.Sanitized(title.value, '_');
      var name := p + stem + "." + outputFormat;
      Sanitizer.OnlySafeCharacters(title.value, '_');
      Sanitizer.NoAdjacentSeparators(title.value, '_');
      assert name[..|p|] == p;
      assert name[|name| - |outputFormat| - 1..] == "." + outputFormat;
      assert name[|p|..|name| - |outputFormat| - 1] == stem;
      Ok(name)
  }

  /** The page process_page works on: its text, the format of that text, and its metadata. */
  datatype Page = Page(content: string, contentFormat: string, meta: Metadata)

  /** Where the output went: a file w2d writes, a book handed to pypub, or a pandoc run that succeeded. */
  datatype Output = Written(path: string, text: string) | ToPypub(book: PypubBook) | ToPandoc(argv: seq<string>)

  datatype Rendering = Rendering(summary: Summary, output: Output)

  /**
   * The second half of process_page, from the page on: the filename, then
   * the EPUB writer or the (converted) text of the file to write.
   */
  function Render(page: Page, outputFormat: string, url: string, title: Option<string>, outputFilename: Option<string>,
                  filenamePrefix: Option<string>, epubTool: EpubTool, libs: Libraries): (r: Result<Rendering>)
    ensures var name := OutputFilename(outputFilename, filenamePrefix, EffectiveTitle(title, page.meta), outputFormat);
      && (name.Err? ==> r == Err(name.error))
      && (r.Ok? ==> name == Ok(r.value.summary.filename))
    ensures r.Ok? ==> var s := r.value.summary;
      s.title == page.meta.title && s.description == page.meta.description
      && s.author == page.meta.author && s.date == page.meta.date
    ensures r.Ok? && outputFormat != FormatEpub ==>
      r.value.output.Written? && r.value.output.path == r.value.summary.filename
  {
    var effectiveTitle := EffectiveTitle(title, page.meta);
    match OutputFilename(outputFilename, filenamePrefix, effectiveTitle, outputFormat)
    case Err(e) => Err(e)
    case Ok(filename) =>
      var summary := Summary(page.meta.title, page.meta.description, page.meta.author, page.meta.date, filename);
      if outputFormat == FormatEpub then
        match epubTool
        case Pypub =>
          (match PypubJob(filename, url, page.content, effectiveTitle, page.contentFormat, libs.pypubInstalled)
           case Err(e) => Err(e)
           case Ok(book) => Ok(Rendering(summary, ToPypub(book))))
        case Pandoc =>
          var argv := PandocCommand(filename, effectiveTitle, page.contentFormat);
          (match PandocOutcome(libs.run(argv, libs.encode(page.content)))
           case Err(e) => Err(e)
           case Ok(_) => Ok(Rendering(summary, ToPandoc(argv))))
      else
        var converted :=
          if page.contentFormat != outputFormat && outputFormat == FormatMarkdown
          then Markdownify(libs, page.content) else Ok(page.content);
        match converted
        case Err(e) => Err(e)
        case Ok(c) =>
          var text := if outputFormat == FormatMarkdown then MarkdownText(page.meta, c) else c;
          Ok(Rendering(summary, Written(filename, text)))
  }

  /**
   * What a successful rendering produces: HTML is the page text itself;
   * Markdown is the header, then the text (converted from HTML unless it is
   * Markdown already), ending in a newline; pypub gets the HTML page under
   * the filename without its extension; pandoc gets the page on stdin and
   * ran cleanly.
   */
  lemma RenderedOutput(page: Page, outputFormat: string, url: string, title: Option<string>, outputFilename: Option<string>,
                       filenamePrefix: Option<string>, epubTool: EpubTool, libs: Libraries, r: Result<Rendering>)
    requires r == Render(page, outputFormat, url, title, outputFilename, filenamePrefix, epubTool, libs)
    ensures r.Ok? && outputFormat == FormatHtml ==> r.value.output == Written(r.value.summary.filename, page.content)
    ensures r.Ok? && outputFormat == FormatMarkdown ==>
      && r.value.output.Written?
      && (page.contentFormat != FormatMarkdown ==> libs.markdownify.Some?)
      && var t := r.value.output.text;
        var body := if page.contentFormat == FormatMarkdown then page.content else libs.markdownify.value(page.content);
        && StartsWith(t, MarkdownHeader(page.meta)) && EndsWith(t, "\n")
        && (t[|MarkdownHeader(page.meta)|..] == body || t[|MarkdownHeader(page.meta)|..] == body + "\n")
    ensures r.Ok? && outputFormat == FormatEpub && epubTool == Pypub ==>
      && page.contentFormat == FormatHtml && libs.pypubInstalled
      && r.value.output == ToPypub(PypubBook(PypubEpubName(r.value.summary.filename), EffectiveTitle(title, page.meta), page.content, url))
    ensures r.Ok? && outputFormat == FormatEpub && epubTool == Pandoc ==>
      var argv := PandocCommand(r.value.summary.filename, EffectiveTitle(title, page.meta), page.contentFormat);
      r.value.output == ToPandoc(argv) && PandocSucceeded(libs.run(argv, libs.encode(page.content)))
  {
  }

  /**
   * The page process_page renders: a raw page has placeholder metadata and
   * the caller's content in the content format, or the fetched page as
   * HTML; an extracted page is in the content format.
   */
  predicate PageFor(page: Page, raw: bool, content: Option<string>, title: Option<string>, outputFormat: string, env: Env)
  {
    && (raw ==> page.meta == RawMetadata(title))
    && (raw && content.Some? ==> page.content == content.value && page.contentFormat == ContentFormat(outputFormat, env))
    && (raw && content.None? ==> page.contentFormat == FormatHtml)
    && (!raw ==> page.contentFormat == ContentFormat(outputFormat, env))
  }

  /** process_page's first half as a step from one state to the next; ObtainOutcome states what it gives. */
  function ObtainStep(h: Host, s: Snapshot, libs: Libraries, env: Env, url: string, content: Option<string>,
                      outputFormat: string, raw: bool, extractor: Extractor, title: Option<string>): (st: Step<Page>)
    ensures Grows(s, st.after)
  {
    var contentFormat := ContentFormat(outputFormat, env);
    if !raw then
      var run := RunStep(h, s, libs, env, extractor, url, content, contentFormat);
      match run.result
      case Err(e) => Step(Err(e), run.after)
      case Ok(doc) => Step(Ok(Page(doc.content, contentFormat, MetadataOf(doc))), run.after)
    else if content.None? then
      var got := Fetch.Fetched(h, s, url, "", false, true);
      match got.result
      case Err(e) => Step(Err(e), got.after)
      case Ok(bytes) => Step(Ok(Page(libs.decode(bytes), FormatHtml, RawMetadata(title))), got.after)
    else Step(Ok(Page(content.value, contentFormat, RawMetadata(title))), s)
  }

  /**
   * process_page's first half: an extracted page is the chosen extractor's
   * document, its content in the content format and its metadata with the
   * excerpt as description. A raw page has placeholder metadata and is the
   * caller's content, with the state untouched, or else the URL's bytes
   * through the cache, taken as HTML.
   */
  lemma ObtainOutcome(h: Host, s: Snapshot, libs: Libraries, env: Env, url: string, content: Option<string>,
                       outputFormat: string, raw: bool, extractor: Extractor, title: Option<string>)
    ensures var st := ObtainStep(h, s, libs, env, url, content, outputFormat, raw, extractor, title);
      st.result.Ok? ==> PageFor(st.result.value, raw, content, title, outputFormat, env)
    ensures var st := ObtainStep(h, s, libs, env, url, content, outputFormat, raw, extractor, title);
      !raw ==>
      var run := RunStep(h, s, libs, env, extractor, url, content, ContentFormat(outputFormat, env));
      && st.after == run.after
      && (run.result.Err? ==> st.result == Err(run.result.error))
      && (run.result.Ok? ==>
            st.result == Ok(Page(run.result.value.content, ContentFormat(outputFormat, env), MetadataOf(run.result.value))))
    ensures var st := ObtainStep(h, s, libs, env, url, content, outputFormat, raw, extractor, title);
      raw && content.Some? ==>
      st == Step(Ok(Page(content.value, ContentFormat(outputFormat, env), RawMetadata(title))), s)
    ensures var st := ObtainStep(h, s, libs, env, url, content, outputFormat, raw, extractor, title);
      var path := h.CacheFile(url, "");
      raw && content.None? ==>
        && (path in s.files ==> st == Step(Ok(Page(libs.decode(s.files[path]), FormatHtml, RawMetadata(title))), s))
        && (path !in s.files ==>
              && st.after.requests == s.requests + [url]
              && match h.web(url, |s.requests|)
                 case None => st.result == Err(FetchFailed(url)) && st.after.files == s.files
                 case Some(page) =>
                   st.result == Ok(Page(libs.decode(page), FormatHtml, RawMetadata(title))) && st.after.files == s.files[path := page])
  {
    if raw && content.None? {
      Fetch.CacheTransitions(h, s, url, "", false, true);
    }
  }

  /** process_page's first half: run the extractor, or take the raw content or the raw fetch. */
  method ObtainPage(h: Host, libs: Libraries, env: Env, url: string, content: Option<string>, outputFormat: string,
                    raw: bool, extractor: Extractor, title: Option<string>)
    returns (r: Result<Page>)
    modifies h
    ensures Step(r, h.State()) == ObtainStep(h, old(h.State()), libs, env, url, content, outputFormat, raw, extractor, title)
  {
    var contentFormat := ContentFormat(outputFormat, env);
    if !raw {
      var extracted := Run(h, libs, env, extractor, url, content, contentFormat);
      if extracted.Err? {
        return Err(extracted.error);
      }
      r := Ok(Page(extracted.value.content, contentFormat, MetadataOf(extracted.value)));
    } else if content.None? {
      var bytes := Fetch.GetUrl(h, url, "", false, true);
      if bytes.Err? {
        return Err(bytes.error);
      }
      r := Ok(Page(libs.decode(bytes.value), FormatHtml, RawMetadata(title)));
    } else {
      r := Ok(Page(content.value, contentFormat, RawMetadata(title)));
    }
  }

  /** The state after the output is written: HTML and Markdown text lands in its file, encoded. */
  function Emitted(s: Snapshot, output: Output, libs: Libraries): Snapshot
  {
    if output.Written? then s.(files := s.files[output.path := libs.encode(output.text)]) else s
  }

  /** The write at the end of process_page: HTML and Markdown text goes to its file, encoded. */
  method Emit(h: Host, output: Output, libs: Libraries)
    modifies h
    ensures output.Written? ==> h.files == old(h.files)[output.path := libs.encode(output.text)]
    ensures !output.Written? ==> h.files == old(h.files)
    ensures h.index == old(h.index) && h.requests == old(h.requests)
  {
    if output.Written? {
      h.files := h.files[output.path := libs.encode(output.text)];
    }
  }

  /**
   * process_page's second half as a step: a failed rendering is the result
   * with the state untouched; a successful one writes the HTML or Markdown
   * text and gives the summary.
   */
  function FinishStep(s: Snapshot, page: Page, outputFormat: string, url: string, title: Option<string>,
                      outputFilename: Option<string>, filenamePrefix: Option<string>, epubTool: EpubTool,
                      libs: Libraries): (st: Step<Summary>)
    ensures Grows(s, st.after)
    ensures st.result.Ok? && outputFormat != FormatEpub ==> st.result.value.filename in st.after.files
  {
    match Render(page, outputFormat, url, title, outputFilename, filenamePrefix, epubTool, libs)
    case Err(e) => Step(Err(e), s)
    case Ok(rd) => Step(Ok(rd.summary), Emitted(s, rd.output, libs))
  }

  /**
   * A failed rendering leaves the state as it was; a successful one changes
   * only the HTML or Markdown file, which then holds the encoded text.
   */
  lemma FinishOutcome(s: Snapshot, page: Page, outputFormat: string, url: string, title: Option<string>,
                      outputFilename: Option<string>, filenamePrefix: Option<string>, epubTool: EpubTool, libs: Libraries)
    ensures var st := FinishStep(s, page, outputFormat, url, title, outputFilename, filenamePrefix, epubTool, libs);
      var rd := Render(page, outputFormat, url, title, outputFilename, filenamePrefix, epubTool, libs);
      && (rd.Err? ==> st == Step(Err(rd.error), s))
      && (rd.Ok? ==>
            && st.result == Ok(rd.value.summary)
            && st.after.index == s.index && st.after.requests == s.requests
            && st.after.files == (if outputFormat == FormatEpub then s.files
                                  else s.files[rd.value.summary.filename := libs.encode(rd.value.output.text)]))
  {
  }

  /** process_page's second half: render the page and write the HTML or Markdown file. */
  method FinishPage(h: Host, page: Page, outputFormat: string, url: string, title: Option<string>,
                    outputFilename: Option<string>, filenamePrefix: Option<string>, epubTool: EpubTool, libs: Libraries)
    returns (r: Result<Summary>)
    modifies h
    ensures Step(r, h.State()) == FinishStep(old(h.State()), page, outputFormat, url, title, outputFilename, filenamePrefix,
                                             epubTool, libs)
  {
    var rendering := Render(page, outputFormat, url, title, outputFilename, filenamePrefix, epubTool, libs);
    if rendering.Err? {
      return Err(rendering.error);
    }
    Emit(h, rendering.value.output, libs);
    r := Ok(rendering.value.summary);
  }

  /**
   * process_page as a step. An unsupported format, then a URL that is not
   * http(s), fails with the state untouched. Otherwise the page is obtained
   * and rendered; a failure of either is the result. On success the summary
   * is the rendering's, and the only change after obtaining the page is the
   * HTML or Markdown file, which holds the encoded text.
   */
  function ProcessStep(h: Host, s: Snapshot, libs: Libraries, env: Env, url: string, content: Option<string>,
                       outputFormat: string, raw: bool, extractor: Extractor, outputFilename: Option<string>,
                       title: Option<string>, filenamePrefix: Option<string>, epubTool: EpubTool): (st: Step<Summary>)
    ensures Grows(s, st.after)
    ensures outputFormat !in SupportedFormats ==> st == Step(Err(UnsupportedFormat(outputFormat)), s)
    ensures outputFormat in SupportedFormats && !StartsWith(url, "http") ==> st == Step(Err(UrlAssertion(url)), s)
    ensures st.result.Ok? && outputFormat != FormatEpub ==> st.result.value.filename in st.after.files
    ensures st.result.Ok? && !Truthy(outputFilename) ==> EndsWith(st.result.value.filename, "." + outputFormat)
  {
    if outputFormat !in SupportedFormats then Step(Err(UnsupportedFormat(outputFormat)), s)
    else if !StartsWith(url, "http") then Step(Err(UrlAssertion(url)), s)
    else
      var ob := ObtainStep(h, s, libs, env, url, content, outputFormat, raw, extractor, title);
      match ob.result
      case Err(e) => Step(Err(e), ob.after)
      case Ok(page) => FinishStep(ob.after, page, outputFormat, url, title, outputFilename, filenamePrefix, epubTool, libs)
  }

  /** process_page past its checks continues from whatever obtaining the page gave. */
  lemma ProcessAfterObtain(h: Host, s: Snapshot, libs: Libraries, env: Env, url: string, content: Option<string>,
                           outputFormat: string, raw: bool, extractor: Extractor, outputFilename: Option<string>,
                           title: Option<string>, filenamePrefix: Option<string>, epubTool: EpubTool, ob: Step<Page>)
    requires outputFormat in SupportedFormats && StartsWith(url, "http")
    requires ob == ObtainStep(h, s, libs, env, url, content, outputFormat, raw, extractor, title)
    ensures ProcessStep(h, s, libs, env, url, content, outputFormat, raw, extractor, outputFilename, title, filenamePrefix,
                        epubTool)
            == match ob.result
               case Err(e) => Step(Err(e), ob.after)
               case Ok(page) =>
                 FinishStep(ob.after, page, outputFormat, url, title, outputFilename, filenamePrefix, epubTool, libs)
  {
  }

  /**
   * process_page past its checks: a failure to obtain or to render the page
   * is the result; on success the summary is the rendering's and the only
   * change after obtaining the page is the HTML or Markdown file, which
   * holds the encoded text.
   */
  lemma ProcessOutcome(h: Host, s: Snapshot, libs: Libraries, env: Env, url: string, content: Option<string>,
                       outputFormat: string, raw: bool, extractor: Extractor, outputFilename: Option<string>,
                       title: Option<string>, filenamePrefix: Option<string>, epubTool: EpubTool)
    requires outputFormat in SupportedFormats && StartsWith(url, "http")
    ensures var st := ProcessStep(h, s, libs, env, url, content, outputFormat, raw, extractor, outputFilename, title,
                                  filenamePrefix, epubTool);
      var ob := ObtainStep(h, s, libs, env, url, content, outputFormat, raw, extractor, title);
      && (ob.result.Err? ==> st == Step(Err(ob.result.error), ob.after))
      && (ob.result.Ok? ==>
            var rd := Render(ob.result.value, outputFormat, url, title, outputFilename, filenamePrefix, epubTool, libs);
            && (rd.Err? ==> st == Step(Err(rd.error), ob.after))
            && (rd.Ok? ==>
                  && st.result == Ok(rd.value.summary)
                  && st.after.index == ob.after.index && st.after.requests == ob.after.requests
                  && st.after.files == (if outputFormat == FormatEpub then ob.after.files
                                        else ob.after.files[rd.value.summary.filename := libs.encode(rd.value.output.text)])))
  {
    var ob := ObtainStep(h, s, libs, env, url, content, outputFormat, raw, extractor, title);
    ProcessAfterObtain(h, s, libs, env, url, content, outputFormat, raw, extractor, outputFilename, title, filenamePrefix,
                       epubTool, ob);
    if ob.result.Ok? {
      FinishOutcome(ob.after, ob.result.value, outputFormat, url, title, outputFilename, filenamePrefix, epubTool, libs);
    }
  }

  /**
   * Raw mode with the content in hand: no request and no index line; the
   * call succeeds exactly when rendering the content with placeholder
   * metadata does, and HTML or Markdown output is the only file written.
   */
  lemma RawContentRenders(h: Host, s: Snapshot, libs: Libraries, env: Env, url: string, content: string, outputFormat: string,
                          extractor: Extractor, outputFilename: Option<string>, title: Option<string>,
                          filenamePrefix: Option<string>, epubTool: EpubTool)
    requires outputFormat in SupportedFormats && StartsWith(url, "http")
    ensures var st := ProcessStep(h, s, libs, env, url, Some(content), outputFormat, true, extractor, outputFilename, title,
                                  filenamePrefix, epubTool);
      var rd := Render(Page(content, ContentFormat(outputFormat, env), RawMetadata(title)), outputFormat, url, title,
                       outputFilename, filenamePrefix, epubTool, libs);
      && (st.result.Ok? <==> rd.Ok?)
      && st.after.requests == s.requests && st.after.index == s.index
      && (rd.Ok? && outputFormat != FormatEpub ==>
            st.after.files == s.files[rd.value.summary.filename := libs.encode(rd.value.output.text)])
  {
  }

  /** process_page past its checks: obtain the page, then render and write it. */
  method ProcessChecked(h: Host, libs: Libraries, env: Env, url: string, content: Option<string>, outputFormat: string,
                        raw: bool, extractor: Extractor, outputFilename: Option<string>, title: Option<string>,
                        filenamePrefix: Option<string>, epubTool: EpubTool)
    returns (r: Result<Summary>)
    requires outputFormat in SupportedFormats && StartsWith(url, "http")
    modifies h
    ensures Step(r, h.State()) == ProcessStep(h, old(h.State()), libs, env, url, content, outputFormat, raw, extractor,
                                              outputFilename, title, filenamePrefix, epubTool)
  {
    ghost var s := h.State();
    var obtained := ObtainPage(h, libs, env, url, content, outputFormat, raw, extractor, title);
    ghost var mid := h.State();
    ProcessAfterObtain(h, s, libs, env, url, content, outputFormat, raw, extractor, outputFilename, title, filenamePrefix,
                       epubTool, Step(obtained, mid));
    if obtained.Err? {
      return Err(obtained.error);
    }
    r := FinishPage(h, obtained.value, outputFormat, url, title, outputFilename, filenamePrefix, epubTool, libs);
  }

  /**
   * process_page: the format and URL checks, then the page, its rendering
   * and, for HTML and Markdown, the write.
   */
  method ProcessPage(h: Host, libs: Libraries, env: Env, url: string, content: Option<string>, outputFormat: string,
                     raw: bool, extractor: Extractor, outputFilename: Option<string>, title: Option<string>,
                     filenamePrefix: Option<string>, epubTool: EpubTool)
    returns (r: Result<Summary>)
    modifies h
    ensures Step(r, h.State()) == ProcessStep(h, old(h.State()), libs, env, url, content, outputFormat, raw, extractor,
                                              outputFilename, title, filenamePrefix, epubTool)
  {
    if outputFormat !in SupportedFormats {
      return Err(UnsupportedFormat(outputFormat));
    }
    if !StartsWith(url, "http") {
      return Err(UrlAssertion(url));
    }
    r := ProcessChecked(h, libs, env, url, content, outputFormat, raw, extractor, outputFilename, title, filenamePrefix,
                        epubTool);
  }

  /**
   * dump_url's loop over a list of formats: each pass runs on the state the
   * one before left, the first failure ends the loop, and the result is the
   * last pass's.
   */
  function Loop(s: Snapshot, formats: seq<string>, pass: (Snapshot, string) -> Step<Summary>): Step<Summary>
    requires |formats| > 0
    decreases |formats|
  {
    var n := |formats| - 1;
    if n == 0 then pass(s, formats[0])
    else
      var before := Loop(s, formats[..n], pass);
      if before.result.Err? then before else pass(before.after, formats[n])
  }

  /** The pass dump_url makes per format: process_page with no content, no explicit filename and no title. */
  function PassOf(h: Host, libs: Libraries, env: Env, url: string, raw: bool, extractor: Extractor,
                  filenamePrefix: Option<string>, epubTool: EpubTool): (Snapshot, string) -> Step<Summary>
  {
    (t: Snapshot, f: string) => ProcessStep(h, t, libs, env, url, None, f, raw, extractor, None, None, filenamePrefix, epubTool)
  }

  /** Passes that only add files, index lines and requests make a loop that only adds them. */
  lemma {:induction false} LoopGrows(s: Snapshot, formats: seq<string>, pass: (Snapshot, string) -> Step<Summary>)
    requires |formats| > 0
    requires forall t, f :: Grows(t, pass(t, f).after)
    ensures Grows(s, Loop(s, formats, pass).after)
    decreases |formats|
  {
    var n := |formats| - 1;
    if n > 0 {
      LoopGrows(s, formats[..n], pass);
      var before := Loop(s, formats[..n], pass);
      if before.result.Ok? {
        GrowsTransitive(s, before.after, pass(before.after, formats[n]).after);
      }
    }
  }

  /** A failed pass ends the loop: the passes after it change nothing and the failure is the result. */
  lemma {:induction false} FailureStops(s: Snapshot, formats: seq<string>, k: nat, pass: (Snapshot, string) -> Step<Summary>)
    requires 0 < k <= |formats|
    requires Loop(s, formats[..k], pass).result.Err?
    ensures Loop(s, formats, pass) == Loop(s, formats[..k], pass)
    decreases |formats|
  {
    if k < |formats| {
      var n := |formats| - 1;
      assert formats[..n][..k] == formats[..k];
      FailureStops(s, formats[..n], k, pass);
    } else {
      assert formats[..k] == formats;
    }
  }

  /**
   * When the whole loop succeeds every pass did, and, as long as passes only
   * add files, the file each successful non-EPUB pass wrote is still there
   * at the end.
   */
  lemma {:induction false} OutputsKept(s: Snapshot, formats: seq<string>, j: nat, pass: (Snapshot, string) -> Step<Summary>)
    requires j < |formats|
    requires forall t, f :: Grows(t, pass(t, f).after)
    requires forall t, f :: pass(t, f).result.Ok? && f != FormatEpub ==> pass(t, f).result.value.filename in pass(t, f).after.files
    requires Loop(s, formats, pass).result.Ok?
    ensures Loop(s, formats[..j + 1], pass).result.Ok?
    ensures formats[j] != FormatEpub ==>
      Loop(s, formats[..j + 1], pass).result.value.filename in Loop(s, formats, pass).after.files
    decreases |formats|
  {
    var n := |formats| - 1;
    if j == n {
      assert formats[..j + 1] == formats;
      if n > 0 {
        var before := Loop(s, formats[..n], pass);
        assert before.result.Ok?;
      }
    } else {
      var before := Loop(s, formats[..n], pass);
      assert before.result.Ok?;
      assert formats[..n][..j + 1] == formats[..j + 1];
      OutputsKept(s, formats[..n], j, pass);
      assert Grows(before.after, pass(before.after, formats[n]).after);
    }
  }

  /**
   * dump_url's passes only add files, index lines and requests, and every
   * HTML or Markdown file a pass wrote is still there when the loop succeeds.
   */
  lemma DumpOutputs(h: Host, s: Snapshot, libs: Libraries, env: Env, url: string, formats: seq<string>, j: nat, raw: bool,
                    extractor: Extractor, filenamePrefix: Option<string>, epubTool: EpubTool)
    requires j < |formats|
    requires Loop(s, formats, PassOf(h, libs, env, url, raw, extractor, filenamePrefix, epubTool)).result.Ok?
    ensures var pass := PassOf(h, libs, env, url, raw, extractor, filenamePrefix, epubTool);
      && Grows(s, Loop(s, formats, pass).after)
      && Loop(s, formats[..j + 1], pass).result.Ok?
      && (formats[j] != FormatEpub ==>
            Loop(s, formats[..j + 1], pass).result.value.filename in Loop(s, formats, pass).after.files)
  {
    var pass := PassOf(h, libs, env, url, raw, extractor, filenamePrefix, epubTool);
    LoopGrows(s, formats, pass);
    OutputsKept(s, formats, j, pass);
  }

  /** dump_url's loop: process the page once per format, stopping at the first failure. */
  method DumpAll(h: Host, libs: Libraries, env: Env, url: string, formats: seq<string>, raw: bool,
                 extractor: Extractor, filenamePrefix: Option<string>, epubTool: EpubTool)
    returns (r: Result<Summary>)
    requires |formats| > 0
    modifies h
    ensures Step(r, h.State()) == Loop(old(h.State()), formats, PassOf(h, libs, env, url, raw, extractor, filenamePrefix, epubTool))
  {
    ghost var s := h.State();
    ghost var pass := PassOf(h, libs, env, url, raw, extractor, filenamePrefix, epubTool);
    r := Err(UnsupportedFormat(formats[0]));
    for i := 0 to |formats|
      invariant i == 0 ==> h.State() == s
      invariant i > 0 ==> r.Ok? && Step(r, h.State()) == Loop(s, formats[..i], pass)
    {
      ghost var t := h.State();
      r := ProcessPage(h, libs, env, url, None, formats[i], raw, extractor, None, None, filenamePrefix, epubTool);
      assert Step(r, h.State()) == pass(t, formats[i]);
      assert formats[..i + 1][..i] == formats[..i];
      if r.Err? {
        FailureStops(s, formats, i + 1, pass);
        return;
      }
    }
    assert formats[..|formats|] == formats;
  }

  /**
   * dump_url: pick the extractor and the EPUB writer from the environment,
   * then run the loop over the format list. An unsupported format, or any
   * supported one with a URL that is not http(s), fails with nothing changed.
   */
  method DumpUrl(h: Host, libs: Libraries, env: Env, url: string, outputFormat: string, raw: bool,
                 filenamePrefix: Option<string>)
    returns (r: Result<Summary>)
    modifies h
    ensures Step(r, h.State()) == Loop(old(h.State()), FormatList(outputFormat),
                                       PassOf(h, libs, env, url, raw, SelectExtractor(env, libs.readability.Some?),
                                              filenamePrefix, SelectEpubTool(env, libs.pypubInstalled)))
    ensures outputFormat != FormatAll && outputFormat !in SupportedFormats ==>
      r == Err(UnsupportedFormat(outputFormat)) && h.State() == old(h.State())
    ensures (outputFormat == FormatAll || outputFormat in SupportedFormats) && !StartsWith(url, "http") ==>
      r == Err(UrlAssertion(url)) && h.State() == old(h.State())
  {
    var formats := FormatList(outputFormat);
    var extractor := SelectExtractor(env, libs.readability.Some?);
    var epubTool := SelectEpubTool(env, libs.pypubInstalled);
    ghost var s := h.State();
    ghost var pass := PassOf(h, libs, env, url, raw, extractor, filenamePrefix, epubTool);
    ghost var stopped := !StartsWith(url, "http") || formats[0] !in SupportedFormats;
    if stopped {
      assert formats[..1] == [formats[0]];
      assert Loop(s, formats[..1], pass) == pass(s, formats[0]);
      FailureStops(s, formats, 1, pass);
    }
    r := DumpAll(h, libs, env, url, formats, raw, extractor, filenamePrefix, epubTool);
    if stopped {
      assert h.State() == s;
    }
  }
}
