/**
 * The libraries and tools w2d calls but does not own, as uninterpreted
 * functions: readability-lxml, trafilatura, markdownify, pypub's presence,
 * UTF-8, json, urlencode and subprocess. An optional import that failed is
 * None.
 */
module Libs {
  import opened Base
  import opened Postlight

  /** readability.Document(text): summary(), title() and short_title(). */
  datatype ReadabilityDoc = ReadabilityDoc(summary: string, title: string, shortTitle: string)

  /** The metadata fields w2d reads from trafilatura.bare_extraction. */
  datatype TrafilaturaMeta = TrafilaturaMeta(
    title: Option<string>,
    author: Option<string>,
    date: Option<string>,
    description: Option<string>,
    image: Option<string>)

  datatype Libraries = Libraries(
    /** readability.Document, None when readability-lxml is not installed. */
    readability: Option<string -> ReadabilityDoc>,
    /** trafilatura.bare_extraction(page, url); None when not installed; a falsy answer is None. */
    trafilatura: Option<(string, string) -> Option<TrafilaturaMeta>>,
    /** markdownify.markdownify, None when not installed. */
    markdownify: Option<string -> string>,
    pypubInstalled: bool,
    /** bytes.decode('utf-8') and str.encode('utf-8'). */
    decode: Bytes -> string,
    encode: string -> Bytes,
    /** json.loads of a Postlight response; None when it raises. */
    parseJson: Bytes -> Option<PostlightDoc>,
    /** json.dumps(headers, separators=(',', ':')). */
    jsonDumps: Headers -> string,
    /** urllib's urlencode. */
    urlencode: seq<QueryParam> -> string,
    /** subprocess: argument list and stdin bytes to the finished process. */
    run: (seq<string>, Bytes) -> ProcResult)

  /**
   * The libraries the legacy script imports unconditionally (readability,
   * markdownify, pypub are required there); only trafilatura is optional.
   */
  datatype LegacyLibraries = LegacyLibraries(
    readability: string -> ReadabilityDoc,
    trafilatura: Option<(string, string) -> Option<TrafilaturaMeta>>,
    markdownify: string -> string,
    decode: Bytes -> string,
    encode: string -> Bytes)
}
