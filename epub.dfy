/**
 * The two EPUB writers of the package: pandoc fed on stdin, and pypub,
 * which appends the extension itself. The converters write the .epub file;
 * the model keeps what w2d decides: the arguments and the success test.
 */
module Epub {
  import opened Base

  /** pandoc's `-f`: HTML stays HTML, anything else is read as GitHub-flavoured Markdown. */
  function PandocInputFormat(contentFormat: string): (f: string)
    ensures f == "html" || f == "gfm"
    ensures f == "html" <==> contentFormat == FormatHtml
  {
    if contentFormat != FormatHtml then "gfm" else contentFormat
  }

  /** The pandoc command line; `title` is formatted with %s, so None reads "None". */
  function PandocCommand(outputFilename: string, title: Option<string>, contentFormat: string): (cmd: seq<string>)
    ensures |cmd| == 7 && cmd[0] == "pandoc" && cmd[4] == outputFilename
    ensures cmd[2] == PandocInputFormat(contentFormat)
    ensures StartsWith(cmd[6], "title=")
  {
    ["pandoc", "-f", PandocInputFormat(contentFormat), "-o", outputFilename, "--metadata", "title=" + Show(title)]
  }

  /** The only run pandoc_epub_output_function accepts: status 0 and nothing on either stream. */
  predicate PandocSucceeded(p: ProcResult)
  {
    p.returncode == 0 && p.stdout == [] && p.stderr == []
  }

  /**
   * pandoc_epub_output_function after the process ends: success, or the
   * error carrying the status and both streams.
   */
  function PandocOutcome(p: ProcResult): (r: Result<()>)
    ensures r.Ok? ==> p.returncode == 0 && |p.stdout| == 0 && |p.stderr| == 0
    ensures p.returncode != 0 || p.stdout != [] || p.stderr != [] ==> r == Err(ConversionFailed(p.returncode, p.stderr, p.stdout))
  {
    if PandocSucceeded(p) then Ok(())
    else Err(ConversionFailed(p.returncode, p.stderr, p.stdout))
  }

  /** pypub's epub_name: `output_filename[:-(len('epub') + 1)]`, Python slice semantics. */
  function PypubEpubName(outputFilename: string): (name: string)
    ensures |name| == if |outputFilename| >= 5 then |outputFilename| - 5 else 0
    ensures name == outputFilename[..|name|]
  {
    if |outputFilename| >= |FormatEpub| + 1 then outputFilename[..|outputFilename| - (|FormatEpub| + 1)] else ""
  }

  /** Stripping undoes the `.epub` the output-filename rule appends. */
  lemma PypubStripsExtension(base: string)
    ensures PypubEpubName(base + "." + FormatEpub) == base
  {
    assert (base + "." + FormatEpub)[..|base|] == base;
  }

  /** What pypub is asked to build: a one-chapter book saved as `epubName`.epub in the working directory. */
  datatype PypubBook = PypubBook(epubName: string, title: Option<string>, content: string, url: string)

  /**
   * pypub_epub_output_function up to the foreign call: the content must be
   * HTML (an assert), and pypub must be importable.
   */
  function PypubJob(outputFilename: string, url: string, content: string, title: Option<string>,
                    contentFormat: string, pypubInstalled: bool): (r: Result<PypubBook>)
    ensures r.Ok? <==> contentFormat == FormatHtml && pypubInstalled
    ensures r.Ok? ==> r.value.epubName == PypubEpubName(outputFilename) && r.value.content == content
  {
    if contentFormat != FormatHtml then Err(FormatAssertion(contentFormat))
    else if !pypubInstalled then Err(MissingModule("pypub"))
    else Ok(PypubBook(PypubEpubName(outputFilename), title, content, url))
  }
}
