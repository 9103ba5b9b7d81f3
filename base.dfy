/**
 * Shared vocabulary of the w2d model: bytes, Python's None-or-string
 * values and their truthiness, the error taxonomy raised by the tool,
 * the process environment and the result of a finished subprocess.
 */
module Base {

  /** The output formats: FORMAT_HTML, FORMAT_MARKDOWN and FORMAT_EPUB. */
  const FormatHtml := "html"
  const FormatMarkdown := "md"
  const FormatEpub := "epub"

  newtype byte = x: int | 0 <= x < 256

  /** The contents of a file, an HTTP body or a pipe. */
  type Bytes = seq<byte>

  datatype Option<+T> = None | Some(value: T)

  datatype Result<+T> = Ok(value: T) | Err(error: Error)

  /**
   * What the tool raises. Each alternative names the Python exception
   * (or the failure that produces it) at the place it is raised.
   */
  datatype Error =
    | UnsupportedFormat(format: string)        // NotImplementedError from process_page
    | FetchFailed(url: string)                 // HTTPError / URLError out of urlopen
    | FileNotFound(path: string)               // open() of a missing local file
    | FormatAssertion(format: string)          // AssertionError on a content format
    | UrlAssertion(url: string)                // AssertionError: the URL does not start with http
    | MissingModule(name: string)              // optional import that is absent
    | TitleIsNone                              // TypeError: iterating or indexing None
    | MetadataIsNone                           // TypeError: None['title']
    | MalformedJson                            // ValueError from json.loads
    | ToolStderr(stderr: Bytes)                // postlight-parser wrote to stderr
    | ConversionFailed(returncode: int, stderr: Bytes, stdout: Bytes)  // pandoc did not succeed

  /** Python truthiness of a value that is either None or a str. */
  predicate Truthy(s: Option<string>)
  {
    s.Some? && s.value != ""
  }

  /** Python's `s or fallback` where `fallback` is a str. */
  function Or(s: Option<string>, fallback: string): string
  {
    if s.Some? && s.value != "" then s.value else fallback
  }

  /** Python's `'%s' % s`: None is rendered as the text None. */
  function Show(s: Option<string>): string
  {
    match s
    case Some(v) => v
    case None => "None"
  }

  predicate StartsWith(s: string, prefix: string)
  {
    |prefix| <= |s| && s[..|prefix|] == prefix
  }

  predicate EndsWith(s: string, suffix: string)
  {
    |suffix| <= |s| && s[|s| - |suffix|..] == suffix
  }

  /** The process environment, as `os.environ`. */
  type Env = map<string, string>

  /** `os.environ.get(key, default)`. */
  function EnvGet(env: Env, key: string, default: string): string
  {
    if key in env then env[key] else default
  }

  /** `os.environ.get(key)`, which is None when the variable is unset. */
  function EnvLookup(env: Env, key: string): Option<string>
  {
    if key in env then Some(env[key]) else None
  }

  /** What `Popen.communicate` hands back, with the exit status. */
  datatype ProcResult = ProcResult(returncode: int, stdout: Bytes, stderr: Bytes)
}
