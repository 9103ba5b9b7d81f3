# w2d in Dafny

w2d ("web to disk") fetches a web page, extracts its readable content and
metadata, and writes it to disk as HTML, Markdown or EPUB. Almost all of the
real work is done by libraries and tools it calls: readability, trafilatura,
markdownify, pypub, pandoc and the Postlight parser. This project models the
glue w2d owns and proves what that glue promises. It covers two revisions.

The live package, `w2d/__init__.py`, is modelled by these modules:
- `Sanitizer`: the filename sanitiser `safe_filename`, as a loop proved equal to a reference definition;
- `Storage` and `Fetch`: the disk cache behind `get_url`;
- `Postlight`: `gen_postlight_url` and the postlight-parser command line;
- `Epub`: the pandoc and pypub EPUB writers;
- `Extract`: the three extractors and the choice between them;
- `Pipeline`: `process_page` and `dump_url`.

The legacy script, `w2d.py`, is modelled by `Legacy`.

The machine is a `Storage.Host` object with these fields:
- `files`: a map from path to bytes;
- `index`: an append-only log of `index.tsv` records;
- `requests`: the log of network requests.

The network is an oracle that answers a URL and the number of the request. `hash_url` (MD5) is an uninterpreted function.

The libraries are uninterpreted functions collected in `Libs.Libraries`. An optional import that failed is `None`. Environment variables are an `Env` map passed in. Python exceptions become `Err` values of `Base.Error`.

Some of the code's behaviour is easy to misread, and the model follows the code:
- **Trailing newline.** Markdown output ends in at least one newline. A newline is added only when the content lacks one, so content ending in a blank line keeps it.
- **Non-http URLs.** The `url.startswith('http')` assertions run before any local-file read. In the package, a non-http URL therefore raises; it never reads a local file, raw mode included.
- **Image line.** The package never sets an image, so its Markdown output has no image line.
- **Readability format.** `extractor_readability` rejects a format other than html or md with an assertion (`FormatAssertion`), not with an unsupported-format error.

## Model

| member | source | states |
|---|---|---|
| Sanitizer.Sanitized | w2d/__init__.py:266-277 | reference definition of safe_filename: the mapped character of each kept position, in order; never longer than the input |
| Sanitizer.SafeFilename | w2d/__init__.py:238-277 | the character loop with `last_char` returns exactly the reference definition |
| Sanitizer.SanitizedEmpty | w2d/__init__.py:266-277 | the output is empty if and only if the input is |
| Sanitizer.LastIsSeparator | w2d/__init__.py:271-275 | the last output character is '-' or the replacement exactly when the last input character maps to one, which is what `last_char` tracks |
| Sanitizer.NoAdjacentSeparators | w2d/__init__.py:271-273 | no two adjacent output characters are both in {'-', replacement} |
| Sanitizer.OnlySafeCharacters | w2d/__init__.py:269-270 | every output character is an ASCII letter or digit, '-', '_' or the replacement |
| Sanitizer.SafeTextIsFixed | w2d/__init__.py:266-277 | text that is already safe and has no separator run comes back unchanged |
| Sanitizer.AlnumUnchanged | w2d/__init__.py:269-277 | an all-alphanumeric title comes back unchanged |
| Sanitizer.Idempotent | w2d/__init__.py:238-277 | sanitising twice gives the same name as sanitising once |
| Sanitizer.Concat | w2d/__init__.py:266-277 | sanitising distributes over concatenation when the seam is not two separators |
| Sanitizer.PunctuationRuns | w2d/__init__.py:269-275 | ": " and " \| " each collapse to one '_' |
| Sanitizer.WordsAndRuns | w2d/__init__.py:266-277 | alphanumeric words joined by punctuation runs come out joined by single '_' characters |
| Sanitizer.HelloWorldExample | w2d/__init__.py:238-277 | "Hello: World \| Test" becomes "Hello_World_Test" |
| Storage.BasenameOfJoin | w2d/__init__.py:187-210 | the index entry's basename of `cache_dir/hash` is the hash |
| Storage.DirnameOfJoin | w2d/__init__.py:187-208 | index.tsv is written into the cache directory itself |
| Storage.IndexAppend | w2d/__init__.py:208-212 | appending a record adds exactly its `name\turl\n` line to its own directory's index.tsv and changes no other index |
| Storage.Join | w2d/__init__.py:187 | definition of posixpath.join: an absolute name replaces the directory, otherwise one '/' joins them unless the directory is empty or already ends in one; BasenameOfJoin and DirnameOfJoin state what the cache relies on |
| Storage.Basename | w2d/__init__.py:210 | definition of posixpath.basename: what follows the last '/'; BasenameOfJoin proves it gives the hash back |
| Storage.Dirname | w2d/__init__.py:208 | definition of posixpath.dirname: up to the last '/', trailing slashes stripped unless only slashes remain; DirnameOfJoin proves it gives the cache directory back |
| Storage.Host.CacheFile | w2d/__init__.py:187 | definition of get_url's file: the caller's filename when truthy, else `cache_dir` joined with `hash_url(url)` |
| Storage.Host.constructor | w2d/__init__.py:156 | the cache directory is W2D_CACHE_DIR or `scrape_cache`; the index and request logs start empty |
| Storage.Host.Download | w2d/__init__.py:199-201 | one network request: the URL is appended to the request log and the oracle's answer for that request is returned |
| Fetch.RecordFor | w2d/__init__.py:208-210 | definition of the index record a cached download adds: the file's directory, its basename, and the URL; FirstFetch proves the line it adds to index.tsv |
| Fetch.Fetched | w2d/__init__.py:182-220 | get_url as a step from one state to the next; its contract states that the step only adds files, index records and requests. CacheTransitions states its hit and miss cases |
| Fetch.CacheTransitions | w2d/__init__.py:182-220 | get_url from one state to the next. A hit (not forced, file present) returns the stored bytes and changes nothing. A miss makes exactly one request: it succeeds exactly when the network answers, the answer is the result, and a failure is FetchFailed. No other file changes. With `cache` the file then holds the answer; without it files and index are untouched |
| Fetch.GetUrl | w2d/__init__.py:182-220 | the result and new host state are exactly `Fetch.Fetched`'s step from the old state. Stated against the old state: a hit changes nothing; a miss appends one request and, when `cache` holds and the fetch succeeds, overwrites the file `filename or cache_dir/hash_url(url)` and appends one index record, keeping earlier records |
| Fetch.FetchTwice | w2d/__init__.py:187-218 | two default fetches of one URL: after a success the second returns the same bytes and at most one request was made in total |
| Fetch.FirstFetch | w2d/__init__.py:187-212 | first fetch of a URL: one request; on success the file `cache_dir/hash` exists and `cache_dir/index.tsv` gains exactly `hash\turl\n`, other directories' indexes unchanged |
| Postlight.LookupAppend | w2d/__init__.py:351-353 | a dict lookup after adding a new key at the end answers old keys as before |
| Postlight.WithUserAgent | w2d/__init__.py:351-353 | definition of the rewritten header bag: a copy with USER-AGENT appended from HTTP_USER_AGENT when the bag is non-empty, lacks USER-AGENT and has HTTP_USER_AGENT, else the bag itself; UserAgentRewrite proves its properties |
| Postlight.UserAgentRewrite | w2d/__init__.py:351-353 | the rewrite applies only to a non-empty bag lacking USER-AGENT and holding HTTP_USER_AGENT. It keeps the caller's entries in place, sets USER-AGENT to the HTTP_USER_AGENT value, leaves every other key's value unchanged and keeps keys unique |
| Postlight.PostlightQuery | w2d/__init__.py:354-363 | definition of the query dict in insertion order: url, then headers (JSON of the rewritten bag) for a truthy bag, then contentType for a truthy format; QueryParameters proves what it carries |
| Postlight.QueryParameters | w2d/__init__.py:354-365 | the query always carries `url` first; `headers` (JSON of the rewritten bag) only for a truthy bag; `contentType` only for a truthy format; nothing else |
| Postlight.GenPostlightUrl | w2d/__init__.py:344-366 | the request URL is the service URL followed by '?' |
| Postlight.ExeArgs | w2d/__init__.py:451-460 | definition of the command line: tool, URL, `--format=`, then one flag per entry of the rewritten bag; BuildExeArgs proves the source's loop builds it |
| Postlight.HeaderFlags | w2d/__init__.py:458-460 | one `--header.name=value` flag per header, in dict order |
| Postlight.BuildExeArgs | w2d/__init__.py:451-460 | the argument list grown one header at a time equals the specification ExeArgs: tool, URL, `--format=`, then the rewritten bag's flags |
| Postlight.FirefoxRewrite | w2d/__init__.py:165-179 | the browser bag lacks USER-AGENT and has HTTP_USER_AGENT, so the rewrite adds USER-AGENT with the Firefox agent last |
| Postlight.ExeArgsCarryUserAgent | w2d/__init__.py:451-460 | when the rewrite applies, the command line has one more flag than the bag has entries, and the last flag is USER-AGENT with the HTTP_USER_AGENT value |
| Postlight.FirefoxExeArgs | w2d/__init__.py:449-460 | with the browser bag the command has sixteen arguments, the last carrying the Firefox user agent |
| Postlight.ExeOutcome | w2d/__init__.py:465-473 | any stderr output is an error carrying it; success means empty stderr and stdout that parses as JSON to the result |
| Epub.PandocInputFormat | w2d/__init__.py:285-288 | pandoc reads "html" exactly when the content is HTML, "gfm" otherwise |
| Epub.PandocCommand | w2d/__init__.py:295 | seven arguments: pandoc, the input format, `-o` the output file, and the title metadata |
| Epub.PandocOutcome | w2d/__init__.py:310-314 | success only with status 0 and empty stdout and stderr; any other run is an error carrying all three |
| Epub.PypubEpubName | w2d/__init__.py:328 | the book name is the filename with its last five characters cut, by Python slice rules (empty when shorter) |
| Epub.PypubStripsExtension | w2d/__init__.py:328 | cutting undoes the `.epub` the filename rule appends |
| Epub.PypubJob | w2d/__init__.py:316-328 | pypub is used only for HTML content with pypub installed; the book is the content under the stripped name |
| Extract.SelectExtractor | w2d/__init__.py:636-648 | `postlight` means the service, `postlight_exe` the command, otherwise readability when installed and the service when not |
| Extract.Markdownify | w2d/__init__.py:424 | conversion succeeds exactly when markdownify is installed |
| Extract.ReadabilityDocument | w2d/__init__.py:401-442 | succeeds exactly when readability (and, for Markdown, markdownify) is installed. The content is the summary, converted for Markdown. With trafilatura metadata, title, author, date and excerpt come from it. Otherwise the title is readability's short title, the excerpt its full title, and author and date are None |
| Extract.ReadabilityFormat | w2d/__init__.py:376 | definition of `format or 'html'`: the empty format stands for None and becomes html |
| Extract.ReadabilityStep | w2d/__init__.py:372-442 | extractor_readability as a step; its contract states that the step only adds to the state. ReadabilityTransitions states its cases |
| Extract.ReadabilityTransitions | w2d/__init__.py:372-442 | a format other than html/md, then a non-http URL, is rejected with the state unchanged. Given content, the result is exactly ReadabilityDocument of it and the state is unchanged. Otherwise a cached page gives the document of its decoded bytes with no request. An uncached one costs one request: a failure is FetchFailed with no file written; an answer is stored and the document is built from it |
| Extract.ExtractReadability | w2d/__init__.py:372-442 | the result and new host state are exactly ReadabilityStep's from the old state, so ReadabilityTransitions holds of the call |
| Extract.PostlightRequestUrl | w2d/__init__.py:483-487 | the request goes to MP_URL (default the local parser service) followed by '?' |
| Extract.PostlightRequestQuery | w2d/__init__.py:483-487 | the request names the page, asks for "markdown" exactly when md is wanted and "html" otherwise, and sends the browser headers plus USER-AGENT |
| Extract.ParsedDoc | w2d/__init__.py:517-518 | the answer parses exactly when it is JSON; the result is the parsed document, otherwise MalformedJson |
| Extract.PostlightStep | w2d/__init__.py:477-518 | extractor_postlight as a step; its contract states that the step only adds to the state. PostlightTransitions states its cases |
| Extract.PostlightTransitions | w2d/__init__.py:477-518 | with `no_cache` the service request is always made and nothing is stored or indexed; the result is the parsed answer or FetchFailed. Otherwise a cached answer is parsed with no request, and an uncached one costs one request whose answer is stored and parsed |
| Extract.ExtractPostlight | w2d/__init__.py:477-518 | the result and new host state are exactly PostlightStep's from the old state, so PostlightTransitions holds of the call |
| Extract.ExtractPostlightExe | w2d/__init__.py:445-473 | runs the command with the browser headers; fails on stderr; otherwise the parsed stdout |
| Extract.RunStep | w2d/__init__.py:541 | the chosen extractor as a step; its contract states that the step only adds to the state. RunOutcome states the command-line and given-content cases |
| Extract.RunOutcome | w2d/__init__.py:541 | the postlight-parser command leaves the state unchanged, and its result is its output read as a document (ExeOutcome, errors included). Readability given the content leaves the state unchanged |
| Extract.Run | w2d/__init__.py:541 | the result and new host state are exactly the chosen extractor's step from the old state (RunStep, built from ReadabilityStep, PostlightStep and ExeOutcome) |
| Pipeline.FormatList | w2d/__init__.py:631-634 | `all` expands to html, md, epub in that order; any other format is a one-element list |
| Pipeline.SelectEpubTool | w2d/__init__.py:650-660 | W2D_EPUB_TOOL names the tool; unset or other, pypub when installed and pandoc when not |
| Pipeline.ContentFormat | w2d/__init__.py:531-534 | the content format equals the output format except for EPUB, which uses W2D_INTERMEDIATE_FORMAT, default html; for EPUB it is exactly that variable's value or html |
| Pipeline.MetadataOf | w2d/__init__.py:545-553 | the page's title, description, author and date are the extractor document's title, excerpt, author and publication date |
| Pipeline.RawMetadata | w2d/__init__.py:557-562 | raw metadata: the caller's title or UnknownTitle, and the UnknownDescription/UnknownAuthor/UnknownDate sentinels; every field truthy |
| Pipeline.EffectiveTitle | w2d/__init__.py:576 | the caller's title when truthy, else the metadata's |
| Pipeline.MarkdownHeader | w2d/__init__.py:593 | the header starts with `# ` and the title (or MISSING_TITLE) and a blank line, and ends with a blank line |
| Pipeline.MarkdownText | w2d/__init__.py:593-599 | the document starts with the header and always ends with a newline; after the header comes the content, plus one newline exactly when header plus content does not already end in one, so empty content gives the header alone |
| Pipeline.OutputFilename | w2d/__init__.py:579-581 | a truthy explicit name wins. Otherwise a None title fails, and the name is the prefix (default empty), the sanitised title and `.format`. That stem is safe and has no separator runs |
| Pipeline.Render | w2d/__init__.py:576-617 | the filename is the output-filename rule's; the summary carries the page's four metadata fields; HTML and Markdown are written to that filename |
| Pipeline.RenderedOutput | w2d/__init__.py:584-606 | HTML writes the page text. Markdown writes header plus (converted) content ending in a newline. pypub gets the HTML page under the stripped name. pandoc gets the page on stdin and must run cleanly |
| Pipeline.ObtainStep | w2d/__init__.py:540-574 | process_page's first half as a step; its contract states that the step only adds to the state. ObtainOutcome states its cases |
| Pipeline.ObtainOutcome | w2d/__init__.py:540-574 | the page fits the raw/content rules. Unless raw, the state is the extractor's, its failure is the result, and the page is its document: the content, in the content format, with the document's metadata. Raw with content: that content with sentinel metadata and the state unchanged. Raw without: a cached page is decoded as HTML with no request; an uncached one costs one request, fails with FetchFailed or is stored and decoded |
| Pipeline.ObtainPage | w2d/__init__.py:540-574 | the result and new host state are exactly ObtainStep's from the old state, so ObtainOutcome holds of the call |
| Pipeline.Emit | w2d/__init__.py:601-606 | HTML and Markdown text is written UTF-8 encoded to its file; nothing else changes |
| Pipeline.FinishStep | w2d/__init__.py:576-617 | the second half only adds to the state, and on success an HTML or Markdown file exists under the summary's filename |
| Pipeline.FinishOutcome | w2d/__init__.py:576-617 | a failed rendering is the result with the state unchanged. On success the summary is the rendering's, no request or index line is added, and the only file changed is the HTML or Markdown output, which holds the encoded text |
| Pipeline.FinishPage | w2d/__init__.py:576-617 | the result and new host state are exactly FinishStep's from the old state |
| Pipeline.ProcessStep | w2d/__init__.py:522-626 | process_page from one state to the next: it only adds to the state. An unsupported format, then a non-http URL, fails with the state unchanged. A success for HTML or Markdown leaves its file present, and a default name ends in `.format` |
| Pipeline.ProcessAfterObtain | w2d/__init__.py:540-617 | past the two checks, process_page is the obtaining step followed, on success, by the finishing step from the state obtaining left |
| Pipeline.ProcessOutcome | w2d/__init__.py:540-617 | past the checks, a failure to obtain is the result in the state obtaining left, and so is a failure to render. On success the summary is the rendering's; requests and index are those after obtaining; the files are those after obtaining plus the HTML or Markdown output holding its encoded text |
| Pipeline.RawContentRenders | w2d/__init__.py:555-617 | raw mode with the content passed in makes no request and adds no index line. It succeeds exactly when rendering the content, with the sentinel metadata in the content format, succeeds. The output file is the only file written |
| Pipeline.ProcessChecked | w2d/__init__.py:540-617 | given that the checks passed, the result and new host state are exactly ProcessStep's from the old state |
| Pipeline.ProcessPage | w2d/__init__.py:522-626 | the result and new host state are exactly ProcessStep's from the old state, so ProcessOutcome and RawContentRenders hold of the call |
| Pipeline.Loop | w2d/__init__.py:664-666 | definition of the loop over the format list: each pass on the state the one before left, the first failure (an exception in the source) ending it, the result the last pass's; FailureStops, OutputsKept and LoopGrows state its properties |
| Pipeline.PassOf | w2d/__init__.py:665 | definition of one pass: process_page with no content, no explicit filename and no title, with the chosen extractor, prefix and EPUB tool |
| Pipeline.LoopGrows | w2d/__init__.py:664-666 | when every pass only adds files, index lines and requests, so does the loop |
| Pipeline.FailureStops | w2d/__init__.py:664-666 | a failing pass ends the loop: the passes after it are not run and its failure is the result |
| Pipeline.OutputsKept | w2d/__init__.py:664-666 | when the loop succeeds every pass did, and, as passes only add files, the file each successful non-EPUB pass wrote is present at the end |
| Pipeline.DumpOutputs | w2d/__init__.py:663-666 | dump_url's passes only add to the state, and when the loop succeeds every pass succeeded and every HTML or Markdown file a pass wrote is still present |
| Pipeline.DumpAll | w2d/__init__.py:664-666 | the result and new host state are exactly those of the loop from the old state: process_page once per format, each on the state the one before left, stopping at the first failure, the result being the last pass's |
| Pipeline.DumpUrl | w2d/__init__.py:628-666 | the result and new host state are exactly the loop over the format list, with the extractor and EPUB tool chosen from the environment. An unsupported format, or any supported one with a non-http URL, fails with the state unchanged |
| Legacy.Replace | w2d.py:189-190 | `str.replace` of one character: same length, each `from` becomes `to`, all else in place |
| Legacy.SafeFilename | w2d.py:187-191 | definition of the legacy safe_filename: two `str.replace` calls, ':' then '|' to '_'; SafeFilenameSpec, SafeFilenameClean and SafeFilenameFixed state its properties |
| Legacy.SafeFilenameSpec | w2d.py:187-191 | every ':' and '\|' becomes '_', everything else stays in place; same length |
| Legacy.SafeFilenameClean | w2d.py:187-191 | no ':' or '\|' remains, and a second pass changes nothing |
| Legacy.SafeFilenameConcat | w2d.py:187-191 | the sanitiser works character by character, so it distributes over concatenation |
| Legacy.SafeFilenameFixed | w2d.py:187-191 | a name without ':' or '\|' is unchanged |
| Legacy.GetUrl | w2d.py:132-179 | a hit returns the stored bytes with no request. A miss or forced fetch makes exactly one request and writes the file only when `cache` holds. There is no index |
| Legacy.Extracted | w2d.py:205-230 | trafilatura's metadata when it gives any. Unless raw, the readability summary replaces the text, and without trafilatura metadata the metadata is the full title, the short title as description, and Unknown Author/Unknown Date. Raw, without trafilatura metadata there is none |
| Legacy.EffectiveTitle | w2d.py:232 | fails exactly when the title is falsy and the metadata is None |
| Legacy.DefaultFilenameClean | w2d.py:235-237 | the default name `title.format` is sanitised whole: same length, no ':' or '\|' |
| Legacy.DefaultFilenameExtension | w2d.py:235-237 | for a clean format the sanitised default name still ends in `.format` |
| Legacy.OutputFilename | w2d.py:235-237 | a truthy explicit name is used unchanged; otherwise the sanitised `title.format`, None read as "None" |
| Legacy.MarkdownHeader | w2d.py:244 | the header starts with `# ` and the title formatted by %s and a blank line |
| Legacy.ImageLine | w2d.py:245-246 | the image line is present exactly when the image is truthy |
| Legacy.MarkdownText | w2d.py:244-247 | header, optional image line and converted content, with no newline added |
| Legacy.Outcome | w2d.py:232-262 | the title failure comes first. A format other than html/md/epub fails exactly then. HTML writes the text, Markdown the header document, and EPUB hands the whole filename to pypub |
| Legacy.ProcessPage | w2d.py:193-269 | the step-by-step build equals Outcome; the file is written exactly for HTML and Markdown, and nothing else changes |
| Legacy.DumpOutcomes | w2d.py:284-288 | with extraction on, all three calls succeed, and the md and html names differ |
| Legacy.DumpUrl | w2d.py:272-288 | an http URL is read through the cache: a cached page is used with no request, otherwise one request whose answer decides success. Anything else is a local file read with no request; a missing one fails and a present one succeeds. The page is the extraction of the bytes read. On success the files are the old ones, plus the cached page on an http miss, plus the Markdown and HTML files with their expected bytes. A failure writes nothing |

## Left out

- Network transport (`urllib_get_url`) is an oracle on `Storage.Host`: it sends no headers and models no redirects or partial reads.
- Process spawning for pandoc and postlight-parser is the uninterpreted `run`. A failure to start the process, the `is_win` shell flag and timeouts are not modelled.
- readability, trafilatura, markdownify and pypub internals, MD5 (`hash_url`), JSON, `urlencode` and UTF-8 coding are uninterpreted functions: they are foreign code. Decoding never fails in the model.
- The EPUB file is written by pypub or pandoc, so it is not added to `files`. The model records what they were asked to do.
- `index.tsv` is kept as a log of records, with `Storage.IndexText` giving a directory's file text, rather than as bytes in `files`.
- `os.path.join`, `basename` and `dirname` follow POSIX rules: the Windows separator and drive letters of `ntpath` are not modelled.
- Logging, the optional-import fallback `fake_module`, `safe_mkdir` and `print` are output or OS housekeeping with no effect on results.
- The `W2D_DEBUG_TRAFILATURA` dump (w2d/__init__.py:620-624) is left out: it needs a `text` key that no metadata dict has.
- `dump_urls` and `main` in both revisions are the command-line loop over URLs and are not modelled.
- Sanitizer.SafeFilename: `str.isalnum` is Unicode-aware; the model accepts only ASCII letters and digits. `replacement_char` is a single character.
- Extract.ExtractReadability: the local-file branch (w2d/__init__.py:383-389) is unreachable after the http assertion, so it is not modelled.
- Pipeline.ProcessPage: the raw local-file read (w2d/__init__.py:567-571) is unreachable for the same reason. The image line is not modelled because the image is always None.
- Extract.ExtractPostlight: process_page reads `word_count` (w2d/__init__.py:551) but never uses it, so the model's document has no such field; an answer lacking a key process_page reads raises KeyError in the source, and an answer whose `content` is JSON null makes process_page raise when it writes HTML or Markdown (w2d/__init__.py:596, 601); the model folds both into `parseJson` giving None (MalformedJson), so a document's content is always a string. The other fields of the Postlight document (domain, next_page_url and the like) are never read and are dropped.
- Pipeline.Render: for pandoc, only the command line and the success test are modelled; the bytes pandoc writes are not.
- Legacy.DumpUrl: the three process_page calls are made without checking their results, as in the source; `Legacy.DumpOutcomes` proves none of them can fail.
