/**
 * The earlier revision of the tool (w2d.py): a cache without an index, a
 * sanitiser that only replaces ':' and '|', readability and pypub always
 * imported, and a dump_url that always writes Markdown, then HTML, then
 * EPUB.
 */
module Legacy {
  import opened Base
  import opened Storage
  import opened Libs
  import Epub

  /** `str.replace` of one character by another. */
  function Replace(s: string, from: char, to: char): (r: string)
    ensures |r| == |s|
    ensures forall i :: 0 <= i < |s| ==> r[i] == (if s[i] == from then to else s[i])
  {
    seq(|s|, i requires 0 <= i < |s| => if s[i] == from then to else s[i])
  }

  /** The legacy safe_filename: ':' then '|' replaced by '_'. */
  function SafeFilename(s: string): string
  {
    Replace(Replace(s, ':', '_'), '|', '_')
  }

  /** Every ':' and '|' becomes '_', everything else stays where it is. */
  lemma SafeFilenameSpec(s: string)
    ensures |SafeFilename(s)| == |s|
    ensures forall i :: 0 <= i < |s| ==>
      SafeFilename(s)[i] == (if s[i] == ':' || s[i] == '|' then '_' else s[i])
  {
  }

  /** No ':' or '|' survives, and a second pass changes nothing. */
  lemma SafeFilenameClean(s: string)
    ensures forall i :: 0 <= i < |SafeFilename(s)| ==> SafeFilename(s)[i] != ':' && SafeFilename(s)[i] != '|'
    ensures SafeFilename(SafeFilename(s)) == SafeFilename(s)
  {
    SafeFilenameSpec(s);
    SafeFilenameSpec(SafeFilename(s));
  }

  /** Character by character, so it distributes over concatenation. */
  lemma SafeFilenameConcat(a: string, b: string)
    ensures SafeFilename(a + b) == SafeFilename(a) + SafeFilename(b)
  {
    SafeFilenameSpec(a);
    SafeFilenameSpec(b);
    SafeFilenameSpec(a + b);
  }

  /**
   * The legacy get_url: the package's cache rule without the index. A hit
   * returns the stored bytes and touches nothing; a miss makes exactly one
   * request and, when `cache` holds and it succeeded, overwrites the file.
   */
  method GetUrl(h: Host, url: string, filename: string, force: bool, cache: bool) returns (r: Result<Bytes>)
    modifies h`files, h`requests
    ensures var path := h.CacheFile(url, filename);
      !force && path in old(h.files) ==>
        r == Ok(old(h.files)[path]) && h.files == old(h.files) && h.requests == old(h.requests)
    ensures var path := h.CacheFile(url, filename);
      old(force || path !in h.files) ==>
        && h.requests == old(h.requests) + [url]
        && (match h.web(url, |old(h.requests)|)
            case None => r == Err(FetchFailed(url)) && h.files == old(h.files)
            case Some(page) =>
              r == Ok(page) && h.files == (if cache then old(h.files)[path := page] else old(h.files)))
  {
    var path := h.CacheFile(url, filename);
    if force || path !in h.files {
      var page := h.Download(url);
      if page.None? {
        return Err(FetchFailed(url));
      }
      if cache {
        h.files := h.files[path := page.value];
      }
      r := Ok(page.value);
    } else {
      r := Ok(h.files[path]);
    }
  }

  /** The legacy metadata dict: four fields, plus trafilatura's image. */
  datatype Metadata = Metadata(title: Option<string>, description: Option<string>, author: Option<string>,
                               date: Option<string>, image: Option<string>)

  /** The page after the first half of process_page: its text, and the metadata, which raw mode may leave as None. */
  datatype Page = Page(text: string, meta: Option<Metadata>)

  function FromTrafilatura(m: TrafilaturaMeta): Metadata
  {
    Metadata(m.title, m.description, m.author, m.date, m.image)
  }

  /**
   * The first half of the legacy process_page: trafilatura's metadata when
   * installed; unless raw, readability's summary replaces the text and,
   * without trafilatura metadata, readability's titles and fixed
   * placeholders stand in.
   */
  function Extracted(content: string, url: string, raw: bool, libs: LegacyLibraries): (p: Page)
    ensures raw ==> p.text == content
    ensures !raw ==> p.meta.Some? && p.text == libs.readability(content).summary
    ensures libs.trafilatura.Some? && libs.trafilatura.value(content, url).Some? ==>
      p.meta == Some(FromTrafilatura(libs.trafilatura.value(content, url).value))
    ensures raw && (libs.trafilatura.None? || libs.trafilatura.value(content, url).None?) ==> p.meta.None?
    ensures !raw && (libs.trafilatura.None? || libs.trafilatura.value(content, url).None?) ==>
      var doc := libs.readability(content);
      p.meta == Some(Metadata(Some(doc.title), Some(doc.shortTitle), Some("Unknown Author"), Some("Unknown Date"), None))
  {
    var traf := if libs.trafilatura.Some? then libs.trafilatura.value(content, url) else None;
    var meta := if traf.Some? then Some(FromTrafilatura(traf.value)) else None;
    if raw then Page(content, meta)
    else
      var doc := libs.readability(content);
      Page(doc.summary,
           if meta.Some? then meta
           else Some(Metadata(Some(doc.title), Some(doc.shortTitle), Some("Unknown Author"), Some("Unknown Date"), None)))
  }

  /**
   * `title or doc_metadata['title']`, which fails when the metadata is None
   * and no truthy title was given.
   */
  function EffectiveTitle(title: Option<string>, meta: Option<Metadata>): (r: Result<Option<string>>)
    ensures r.Err? <==> !Truthy(title) && meta.None?
    ensures r.Ok? && Truthy(title) ==> r.value == title
  {
    if Truthy(title) then Ok(title)
    else if meta.None? then Err(MetadataIsNone)
    else Ok(meta.value.title)
  }

  /** A name with no ':' or '|' is already safe. */
  lemma SafeFilenameFixed(s: string)
    requires forall i :: 0 <= i < |s| ==> s[i] != ':' && s[i] != '|'
    ensures SafeFilename(s) == s
  {
    SafeFilenameSpec(s);
  }

  /**
   * The default legacy name: the whole `stem.format` passed through
   * safe_filename keeps its length and has no ':' or '|'.
   */
  lemma DefaultFilenameClean(stem: string, outputFormat: string)
    ensures var name := SafeFilename(stem + "." + outputFormat);
      && |name| == |stem| + 1 + |outputFormat|
      && (forall i :: 0 <= i < |name| ==> name[i] != ':' && name[i] != '|')
  {
    SafeFilenameClean(stem + "." + outputFormat);
  }

  /** ... and for a format without ':' or '|' it still ends with '.' and the format. */
  lemma DefaultFilenameExtension(stem: string, outputFormat: string)
    requires forall i :: 0 <= i < |outputFormat| ==> outputFormat[i] != ':' && outputFormat[i] != '|'
    ensures EndsWith(SafeFilename(stem + "." + outputFormat), "." + outputFormat)
  {
    var ext := "." + outputFormat;
    assert stem + "." + outputFormat == stem + ext;
    SafeFilenameConcat(stem, ext);
    forall i | 0 <= i < |ext| ensures ext[i] != ':' && ext[i] != '|' {
      if i > 0 {
        assert ext[i] == outputFormat[i - 1];
      }
    }
    SafeFilenameFixed(ext);
    var name := SafeFilename(stem) + ext;
    assert name[|name| - |ext|..] == ext;
  }

  /** The legacy output filename: the caller's when truthy, else safe_filename of `title.format`. */
  function OutputFilename(explicit: Option<string>, title: Option<string>, outputFormat: string): (name: string)
    ensures Truthy(explicit) ==> name == explicit.value
    ensures !Truthy(explicit) ==>
      && |name| == |Show(title)| + 1 + |outputFormat|
      && (forall i :: 0 <= i < |name| ==> name[i] != ':' && name[i] != '|')
  {
    if Truthy(explicit) then explicit.value
    else DefaultFilenameClean(Show(title), outputFormat); SafeFilename(Show(title) + "." + outputFormat)
  }

  const ImagePrefix := "![alt text - maybe use title but need to escape brackets?]("

  /**
   * The legacy Markdown document: the header with each field formatted by
   * %s (None reads "None"), an image line when the image is truthy, then
   * the converted content with no newline added.
   */
  function MarkdownText(m: Metadata, markdown: string): (t: string)
    ensures StartsWith(t, "# " + Show(m.title) + "\n\n")
    ensures EndsWith(t, markdown)
    ensures |t| == |MarkdownHeader(m)| + |ImageLine(m)| + |markdown|
  {
    var t := MarkdownHeader(m) + ImageLine(m) + markdown;
    assert t[..|MarkdownHeader(m)|] == MarkdownHeader(m);
    assert t[|t| - |markdown|..] == markdown;
    t
  }

  /** The heading, author and date, and description lines, each field formatted by %s. */
  function MarkdownHeader(m: Metadata): (hd: string)
    ensures StartsWith(hd, "# " + Show(m.title) + "\n\n")
  {
    var first := "# " + Show(m.title) + "\n\n";
    var hd := first + Show(m.author) + " " + Show(m.date) + "\n\n" + Show(m.description) + "\n\n";
    assert hd[..|first|] == first;
    hd
  }

  /** The image line, present only when the image is truthy. */
  function ImageLine(m: Metadata): (line: string)
    ensures line == [] <==> !Truthy(m.image)
  {
    if Truthy(m.image) then ImagePrefix + m.image.value + ")\n\n" else ""
  }

  /** Where the output of one legacy process_page call went. */
  datatype Output = Written(path: string, bytes: Bytes) | ToPypub(book: Epub.PypubBook)

  /**
   * What the legacy process_page does with a page: work out the title and
   * the filename, then branch on the format. HTML and Markdown go to the
   * file; the whole filename, extension included, goes to pypub as the book
   * name; any other format raises after the title and filename are worked out.
   */
  function Outcome(page: Page, url: string, outputFormat: string, outputFilename: Option<string>,
                   title: Option<string>, libs: LegacyLibraries): (r: Result<Output>)
    ensures EffectiveTitle(title, page.meta).Err? ==> r == Err(MetadataIsNone)
    ensures EffectiveTitle(title, page.meta).Ok? ==>
      (outputFormat != FormatHtml && outputFormat != FormatMarkdown && outputFormat != FormatEpub
       <==> r == Err(UnsupportedFormat(outputFormat)))
    ensures r.Ok? ==> var name := OutputFilename(outputFilename, EffectiveTitle(title, page.meta).value, outputFormat);
      && (outputFormat == FormatHtml ==> r.value == Written(name, libs.encode(page.text)))
      && (outputFormat == FormatMarkdown ==>
            page.meta.Some? && r.value == Written(name, libs.encode(MarkdownText(page.meta.value, libs.markdownify(page.text)))))
      && (outputFormat == FormatEpub ==>
            r.value == ToPypub(Epub.PypubBook(name, EffectiveTitle(title, page.meta).value, page.text, url)))
    ensures outputFormat == FormatMarkdown && page.meta.None? ==> r.Err?
  {
    match EffectiveTitle(title, page.meta)
    case Err(e) => Err(e)
    case Ok(t) =>
      var name := OutputFilename(outputFilename, t, outputFormat);
      if outputFormat == FormatHtml then Ok(Written(name, libs.encode(page.text)))
      else if outputFormat == FormatMarkdown then
        if page.meta.None? then Err(MetadataIsNone)
        else Ok(Written(name, libs.encode(MarkdownText(page.meta.value, libs.markdownify(page.text)))))
      else if outputFormat == FormatEpub then Ok(ToPypub(Epub.PypubBook(name, t, page.text, url)))
      else Err(UnsupportedFormat(outputFormat))
  }

  /**
   * The legacy process_page: extract, then build the output step by step
   * (the Markdown text grown by appends) and write it unless it is EPUB.
   */
  method ProcessPage(h: Host, libs: LegacyLibraries, content: string, url: string, outputFormat: string, raw: bool,
                     outputFilename: Option<string>, title: Option<string>)
    returns (r: Result<Output>)
    modifies h`files
    ensures r == Outcome(Extracted(content, url, raw, libs), url, outputFormat, outputFilename, title, libs)
    ensures r.Ok? && r.value.Written? ==> h.files == old(h.files)[r.value.path := r.value.bytes]
    ensures !(r.Ok? && r.value.Written?) ==> h.files == old(h.files)
  {
    var page := Extracted(content, url, raw, libs);
    var effective := EffectiveTitle(title, page.meta);
    if effective.Err? {
      return Err(effective.error);
    }
    var name := OutputFilename(outputFilename, effective.value, outputFormat);
    var outBytes: Bytes;
    if outputFormat == FormatHtml {
      outBytes := libs.encode(page.text);
    } else if outputFormat == FormatMarkdown {
      if page.meta.None? {
        return Err(MetadataIsNone);
      }
      var m := page.meta.value;
      var markdownText := MarkdownHeader(m);
      if Truthy(m.image) {
        markdownText := markdownText + ImageLine(m);
      }
      markdownText := markdownText + libs.markdownify(page.text);
      assert markdownText == MarkdownText(m, libs.markdownify(page.text));
      outBytes := libs.encode(markdownText);
    } else if outputFormat == FormatEpub {
      return Ok(ToPypub(Epub.PypubBook(name, effective.value, page.text, url)));
    } else {
      return Err(UnsupportedFormat(outputFormat));
    }
    h.files := h.files[name := outBytes];
    r := Ok(Written(name, outBytes));
  }

  /**
   * For a page with metadata and no explicit title or filename, the three
   * calls of dump_url succeed: Markdown and HTML to two different files
   * named after the title, and the EPUB to pypub.
   */
  lemma DumpOutcomes(page: Page, url: string, libs: LegacyLibraries)
    requires page.meta.Some?
    ensures var mdName := OutputFilename(None, page.meta.value.title, FormatMarkdown);
      var htmlName := OutputFilename(None, page.meta.value.title, FormatHtml);
      && mdName != htmlName
      && Outcome(page, url, FormatMarkdown, None, None, libs)
           == Ok(Written(mdName, libs.encode(MarkdownText(page.meta.value, libs.markdownify(page.text)))))
      && Outcome(page, url, FormatHtml, None, None, libs) == Ok(Written(htmlName, libs.encode(page.text)))
      && Outcome(page, url, FormatEpub, None, None, libs).Ok?
  {
  }

  /**
   * The legacy dump_url: an http(s) URL is read through the cache, anything
   * else as a local file; the page is then processed as Markdown, HTML and
   * EPUB in that order, each with the default filename. The bytes read and
   * the page the three calls share are ghost results: the page is what
   * extraction makes of those bytes, and once they are read nothing fails.
   */
  method DumpUrl(h: Host, libs: LegacyLibraries, url: string) returns (r: Result<()>, ghost bytes: Bytes, ghost page: Page)
    modifies h`files, h`requests
    ensures !StartsWith(url, "http") ==> h.requests == old(h.requests)
    ensures !StartsWith(url, "http") && url !in old(h.files) ==> r == Err(FileNotFound(url)) && h.files == old(h.files)
    ensures !StartsWith(url, "http") && url in old(h.files) ==> r.Ok? && bytes == old(h.files)[url]
    ensures StartsWith(url, "http") && h.CacheFile(url, "") in old(h.files) ==>
      r.Ok? && bytes == old(h.files)[h.CacheFile(url, "")] && h.requests == old(h.requests)
    ensures StartsWith(url, "http") && h.CacheFile(url, "") !in old(h.files) ==>
      && h.requests == old(h.requests) + [url]
      && (r.Ok? <==> h.web(url, |old(h.requests)|).Some?)
      && (r.Ok? ==> bytes == h.web(url, |old(h.requests)|).value)
    ensures StartsWith(url, "http") && r.Err? ==> r == Err(FetchFailed(url))
    ensures r.Ok? ==> page == Extracted(libs.decode(bytes), url, false, libs) && page.meta.Some?
    ensures r.Ok? && page.meta.Some? ==>
      var mdName := OutputFilename(None, page.meta.value.title, FormatMarkdown);
      var htmlName := OutputFilename(None, page.meta.value.title, FormatHtml);
      && mdName != htmlName
      && mdName in h.files && h.files[mdName] == libs.encode(MarkdownText(page.meta.value, libs.markdownify(page.text)))
      && htmlName in h.files && h.files[htmlName] == libs.encode(page.text)
    ensures r.Ok? && page.meta.Some? ==>
      var mdName := OutputFilename(None, page.meta.value.title, FormatMarkdown);
      var htmlName := OutputFilename(None, page.meta.value.title, FormatHtml);
      var read := if StartsWith(url, "http") && h.CacheFile(url, "") !in old(h.files)
                  then old(h.files)[h.CacheFile(url, "") := bytes] else old(h.files);
      h.files == read[mdName := libs.encode(MarkdownText(page.meta.value, libs.markdownify(page.text)))]
                     [htmlName := libs.encode(page.text)]
    ensures r.Err? ==> h.files == old(h.files)
  {
    page := Page("", None);
    var content: Bytes;
    if StartsWith(url, "http") {
      var fetched := GetUrl(h, url, "", false, true);
      if fetched.Err? {
        return Err(fetched.error), [], page;
      }
      content := fetched.value;
    } else {
      if url !in h.files {
        return Err(FileNotFound(url)), [], page;
      }
      content := h.files[url];
    }
    bytes := content;
    var htmlText := libs.decode(content);
    page := Extracted(htmlText, url, false, libs);
    // With extraction on, the metadata is never None, so none of the three calls fails.
    DumpOutcomes(page, url, libs);
    var markdown := ProcessPage(h, libs, htmlText, url, FormatMarkdown, false, None, None);
    var html := ProcessPage(h, libs, htmlText, url, FormatHtml, false, None, None);
    var epub := ProcessPage(h, libs, htmlText, url, FormatEpub, false, None, None);
    r := Ok(());
  }
}
