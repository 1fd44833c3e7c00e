/**
 * The slice of HTTP that the router sees: request methods, the three headers it
 * sets, responses, and what the dispatcher hands back for a request. File reads
 * and handlers are outside the model and appear here as plain values.
 */
module Http {
  import opened Wrappers

  newtype byte = x: int | 0 <= x < 256

  /** A registered callback, identified opaquely; invoking it is outside the model. */
  type HandlerId = nat

  /** The request methods hyper distinguishes. */
  datatype Method =
    | Get | Post | Put | Delete
    | Head | Options | Connect | Trace | Patch
    | Extension(name: string)

  datatype Encoding = Gzip

  /** The headers the router itself sets: Content-Type, Content-Encoding, Content-Length. */
  datatype Headers = Headers(
    contentType: Option<string>,
    contentEncoding: Option<Encoding>,
    contentLength: Option<nat>)

  const NoHeaders := Headers(None, None, None)

  const StatusOk: nat := 200
  const StatusNotFound: nat := 404

  datatype Response = Response(status: nat, headers: Headers, body: seq<byte>)

  /**
   * What handling one request amounts to: a registered callback is invoked with
   * the request, a response is produced by the router itself, or the process
   * panics (the custom not-found file could not be opened).
   */
  datatype Reply =
    | Invoke(handler: HandlerId)
    | Respond(response: Response)
    | Panic(missingFile: string)

  /** Opening and reading a file to its end: the open fails, the read fails, or bytes. */
  datatype ReadOutcome = OpenFailed | ReadFailed | Bytes(data: seq<byte>)

  /** The file system at the moment of the request. */
  type FileSystem = string -> ReadOutcome

  predicate StartsWith(s: string, prefix: string) {
    |prefix| <= |s| && s[..|prefix|] == prefix
  }

  predicate EndsWith(s: string, suffix: string) {
    |suffix| <= |s| && s[|s| - |suffix|..] == suffix
  }

  predicate StartsWithChar(s: string, c: char) {
    |s| > 0 && s[0] == c
  }

  predicate EndsWithChar(s: string, c: char) {
    |s| > 0 && s[|s| - 1] == c
  }
}
