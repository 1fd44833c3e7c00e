/**
 * The live router (src/pony.rs): per-method route tables, static-file fallback
 * for GET with index-document rewriting and optional gzip siblings, and the
 * not-found policy. The rewrite, join and not-found rules defined here are
 * shared with the older variant in module LegacyPony.
 */
module Pony {
  import opened Wrappers
  import opened Http

  const WasmType := "application/wasm"

  // ---------------------------------------------------------------------------
  // Extensions: `path.split('.').last()`
  // ---------------------------------------------------------------------------

  /** `ext` is the text after the last '.' of `s`, or all of `s` when it has no '.'. */
  predicate IsLastSegment(ext: string, s: string) {
    && EndsWith(s, ext)
    && '.' !in ext
    && (ext == s || (|ext| < |s| && s[|s| - |ext| - 1] == '.'))
  }

  /** The last piece of `s` split at '.'. */
  function LastSegment(s: string): (ext: string)
    ensures IsLastSegment(ext, s)
  {
    if s == [] then []
    else if s[|s| - 1] == '.' then []
    else
      var init, c := s[..|s| - 1], s[|s| - 1];
      var e := LastSegment(init);
      assert s == init + [c];
      assert s[|s| - |e| - 1..] == init[|init| - |e|..] + [c];
      e + [c]
  }

  /** A last segment holds no '.', and is preceded by one unless it is all of `s`. */
  lemma {:induction false} LastSegmentBoundary(s: string, ext: string)
    requires IsLastSegment(ext, s)
    ensures forall k | |s| - |ext| <= k < |s| :: s[k] != '.'
    ensures |ext| < |s| ==> s[|s| - |ext| - 1] == '.'
  {
    var b := |s| - |ext|;
    forall k | b <= k < |s| ensures s[k] != '.' {
      assert s[k] == s[b..][k - b];
    }
  }

  /** There is only one last segment: any `ext` with its defining properties is it. */
  lemma {:induction false} LastSegmentUnique(s: string, ext: string)
    requires IsLastSegment(ext, s)
    ensures ext == LastSegment(s)
  {
    var last := LastSegment(s);
    LastSegmentBoundary(s, last);
    LastSegmentBoundary(s, ext);
    assert |ext| == |last|;
    assert ext == s[|s| - |ext|..] == last;
  }

  /** Rewrites a request path to the file it names, given whether its extension is known. */
  function Rewrite(path: string, known: bool): (incoming: string)
    ensures StartsWith(incoming, path)
    ensures incoming == path <==> known && !EndsWithChar(path, '/')
    ensures incoming != path ==> incoming == DropTrailingSlash(path) + "/index.html"
  {
    if EndsWithChar(path, '/') then path + "index.html"
    else if !known then path + "/index.html"
    else path
  }

  /** `s` without one trailing '/'. */
  function DropTrailingSlash(s: string): string {
    if EndsWithChar(s, '/') then s[..|s| - 1] else s
  }

  /** Appends the rewritten path to the static root, dropping one redundant '/'. */
  function Join(root: string, incoming: string): (resolved: string)
    ensures StartsWith(resolved, DropTrailingSlash(root))
    ensures StartsWithChar(incoming, '/') ==> resolved == DropTrailingSlash(root) + incoming
    ensures !StartsWithChar(incoming, '/') ==> resolved == root + incoming
  {
    if EndsWithChar(root, '/') && StartsWithChar(incoming, '/') then root + incoming[1..]
    else root + incoming
  }

  /** Opening and reading a whole file; both failures are errors. */
  function ReadFile(fs: FileSystem, path: string): (r: Result<seq<byte>, string>)
    ensures r.Success? <==> fs(path).Bytes?
    ensures r.Success? ==> r.value == fs(path).data
    ensures r.Failure? ==> r.error == (if fs(path).OpenFailed? then "File not found" else "File unreadable")
  {
    match fs(path)
    case OpenFailed => Failure("File not found")
    case ReadFailed => Failure("File unreadable")
    case Bytes(data) => Success(data)
  }

  // ---------------------------------------------------------------------------
  // Not-found policy
  // ---------------------------------------------------------------------------

  /** The default not-found response: an empty 404. */
  function DefaultNotFound(): (resp: Response)
    ensures resp.status == StatusNotFound && resp.body == [] && resp.headers == NoHeaders
  {
    Response(StatusNotFound, NoHeaders, [])
  }

  /**
   * The not-found response. A custom page is read afresh on every call: served
   * with status 200 and its length when read, a panic when it cannot be opened,
   * and the default 404 when it opens but cannot be read.
   */
  function NotFound(customNotFound: bool, notFoundPath: string, fs: FileSystem): (r: Reply)
    ensures !r.Invoke?
    ensures r.Panic? <==> customNotFound && fs(notFoundPath).OpenFailed?
    ensures r.Panic? ==> r.missingFile == notFoundPath
    ensures (r.Respond? && r.response.status == StatusOk) <==> customNotFound && fs(notFoundPath).Bytes?
    ensures r.Respond? && r.response.status == StatusOk ==>
              && r.response.body == fs(notFoundPath).data
              && r.response.headers == Headers(None, None, Some(|r.response.body|))
    ensures r.Respond? && r.response.status != StatusOk ==> r.response == DefaultNotFound()
  {
    if customNotFound then
      match fs(notFoundPath)
      case OpenFailed => Panic(notFoundPath)
      case Bytes(bytes) => Respond(Response(StatusOk, Headers(None, None, Some(|bytes|)), bytes))
      case ReadFailed => Respond(DefaultNotFound())
    else
      Respond(DefaultNotFound())
  }

  // ---------------------------------------------------------------------------
  // The router
  // ---------------------------------------------------------------------------

  datatype Pony = Pony(
    gets: map<string, HandlerId>,
    posts: map<string, HandlerId>,
    puts: map<string, HandlerId>,
    deletes: map<string, HandlerId>,
    staticPath: string,
    staticEnabled: bool,
    notFoundPath: string,
    customNotFound: bool,
    knownExtensions: set<string>,
    staticLogging: bool,
    useGzip: bool)
  {
    /** The route table consulted for a method; methods without one have none. */
    function Routes(m: Method): map<string, HandlerId> {
      match m
      case Get => gets
      case Post => posts
      case Put => puts
      case Delete => deletes
      case _ => map[]
    }

    function NotFoundReply(fs: FileSystem): Reply {
      NotFound(customNotFound, notFoundPath, fs)
    }

    /** A path names a file when it does not end in '/' and its extension is known. */
    function CheckForKnownExt(path: string): (known: bool)
      ensures known <==>
                && !EndsWithChar(path, '/')
                && exists ext :: ext in knownExtensions && IsLastSegment(ext, path)
    {
      if EndsWithChar(path, '/') then false
      else
        var ext := LastSegment(path);
        assert forall e :: IsLastSegment(e, path) ==> e == ext by {
          forall e | IsLastSegment(e, path) ensures e == ext { LastSegmentUnique(path, e); }
        }
        ext in knownExtensions
    }

    /** The file a static request for `path` resolves to. */
    function ResolvedPath(path: string): string {
      Join(staticPath, Rewrite(path, CheckForKnownExt(path)))
    }

    /** The bytes served for a resolved path and their encoding: the `.gz` sibling first when gzip is on. */
    function Fetch(resolved: string, fs: FileSystem): (found: Option<(seq<byte>, Option<Encoding>)>)
      ensures found.Some? <==> (useGzip && fs(resolved + ".gz").Bytes?) || fs(resolved).Bytes?
      ensures useGzip && fs(resolved + ".gz").Bytes? ==> found == Some((fs(resolved + ".gz").data, Some(Gzip)))
      ensures !(useGzip && fs(resolved + ".gz").Bytes?) ==>
                found == (if fs(resolved).Bytes? then Some((fs(resolved).data, None)) else None)
    {
      var zipped := if useGzip then ReadFile(fs, resolved + ".gz") else Failure("");
      if zipped.Success? then Some((zipped.value, Some(Gzip)))
      else
        match ReadFile(fs, resolved)
        case Success(plain) => Some((plain, None))
        case Failure(_) => None
    }

    /**
     * Static serving of `path`: a found file is a 200 whose Content-Length is its
     * length, with the wasm Content-Type exactly for `.wasm` requests; nothing
     * found falls back to the not-found policy.
     */
    function ServeStatic(path: string, fs: FileSystem): (r: Reply)
      ensures !r.Invoke?
      ensures Fetch(ResolvedPath(path), fs).None? ==> r == NotFoundReply(fs)
      ensures Fetch(ResolvedPath(path), fs).Some? ==>
                var (body, encoding) := Fetch(ResolvedPath(path), fs).value;
                && r.Respond?
                && r.response.status == StatusOk
                && r.response.body == body
                && r.response.headers.contentEncoding == encoding
                && r.response.headers.contentLength == Some(|r.response.body|)
                && (r.response.headers.contentType == Some(WasmType) <==> EndsWith(path, ".wasm"))
                && (r.response.headers.contentType == None <==> !EndsWith(path, ".wasm"))
    {
      var contentType := if EndsWith(path, ".wasm") then Some(WasmType) else None;
      match Fetch(ResolvedPath(path), fs)
      case Some((body, encoding)) =>
        Respond(Response(StatusOk, Headers(contentType, encoding, Some(|body|)), body))
      case None => NotFoundReply(fs)
    }

    /** `static_file`, step by step: rewrite, join, collect headers, read, respond. */
    method StaticFile(path: string, fs: FileSystem) returns (reply: Reply)
      ensures reply == ServeStatic(path, fs)
    {
      var incoming := path;
      if EndsWithChar(incoming, '/') {
        incoming := incoming + "index.html";
      } else if !CheckForKnownExt(incoming) {
        incoming := incoming + "/index.html";
      }
      assert incoming == Rewrite(path, CheckForKnownExt(path));
      if EndsWithChar(staticPath, '/') && StartsWithChar(incoming, '/') {
        incoming := incoming[1..];
      }
      var resolved := staticPath + incoming;
      assert resolved == ResolvedPath(path);

      var headers := NoHeaders;
      if EndsWith(path, ".wasm") {
        headers := headers.(contentType := Some(WasmType));
      }
      var contents: Result<seq<byte>, string>;
      if useGzip {
        var zipped := ReadFile(fs, resolved + ".gz");
        if zipped.Success? {
          headers := headers.(contentEncoding := Some(Gzip));
          contents := zipped;
        } else {
          contents := ReadFile(fs, resolved);
        }
      } else {
        contents := ReadFile(fs, resolved);
      }
      assert Fetch(resolved, fs) == if contents.Success? then Some((contents.value, headers.contentEncoding)) else None;

      match contents
      case Success(c) =>
        headers := headers.(contentLength := Some(|c|));
        reply := Respond(Response(StatusOk, headers, c));
      case Failure(_) =>
        reply := NotFoundReply(fs);
    }

    /**
     * A GET: a route hit invokes its callback; a miss is served statically on the
     * percent-decoded path when static serving is on and the path decodes, and
     * goes to the not-found policy otherwise.
     */
    function Get(path: string, decode: string -> Option<string>, fs: FileSystem): (r: Reply)
      ensures r.Invoke? <==> path in gets
      ensures path in gets ==> r == Invoke(gets[path])
      ensures path !in gets && (!staticEnabled || decode(path).None?) ==> r == NotFoundReply(fs)
      ensures path !in gets && staticEnabled && decode(path).Some? ==> r == ServeStatic(decode(path).value, fs)
    {
      if path in gets then Invoke(gets[path])
      else if staticEnabled then
        match decode(path)
        case Some(decoded) => ServeStatic(decoded, fs)
        case None => NotFoundReply(fs)
      else NotFoundReply(fs)
    }

    /**
     * Dispatch by method: exactly the registered callback on a hit; for GET the
     * static fallback; for every other method the not-found policy on a miss.
     */
    function Call(m: Method, path: string, decode: string -> Option<string>, fs: FileSystem): (r: Reply)
      ensures r.Invoke? <==> path in Routes(m)
      ensures path in Routes(m) ==> r == Invoke(Routes(m)[path])
      ensures !m.Get? && path !in Routes(m) ==> r == NotFoundReply(fs)
      ensures m.Get? ==> r == Get(path, decode, fs)
    {
      match m
      case Get => Get(path, decode, fs)
      case Post => if path in posts then Invoke(posts[path]) else NotFoundReply(fs)
      case Put => if path in puts then Invoke(puts[path]) else NotFoundReply(fs)
      case Delete => if path in deletes then Invoke(deletes[path]) else NotFoundReply(fs)
      case _ => NotFoundReply(fs)
    }
  }

  // ---------------------------------------------------------------------------
  // Properties relating several calls
  // ---------------------------------------------------------------------------

  /** When every configured extension contains a '.', no path has a known extension. */
  lemma {:induction false} DottedExtensionsNeverKnown(p: Pony, path: string)
    requires forall e :: e in p.knownExtensions ==> '.' in e
    ensures !p.CheckForKnownExt(path)
  {
    assert '.' !in LastSegment(path);
  }

  /** A route hit depends on nothing but the route table: neither decoding, files nor the static or not-found settings. */
  lemma RouteHitIgnoresFallbacks(p: Pony, q: Pony, m: Method, path: string,
                                 decode1: string -> Option<string>, decode2: string -> Option<string>,
                                 fs1: FileSystem, fs2: FileSystem)
    requires path in p.Routes(m) && q.Routes(m) == p.Routes(m)
    ensures p.Call(m, path, decode1, fs1) == q.Call(m, path, decode2, fs2) == Invoke(p.Routes(m)[path])
  {
  }

  /** Methods other than GET never reach static serving: the static settings do not affect them. */
  lemma NonGetNeverStatic(p: Pony, m: Method, path: string, decode: string -> Option<string>, fs: FileSystem,
                          root: string, enabled: bool, exts: set<string>, gzip: bool)
    requires !m.Get?
    ensures p.Call(m, path, decode, fs)
         == p.(staticPath := root, staticEnabled := enabled, knownExtensions := exts, useGzip := gzip)
             .Call(m, path, decode, fs)
  {
  }

  /** With gzip off the `.gz` sibling is never consulted: its contents do not affect the reply. */
  lemma GzipOffIgnoresGz(p: Pony, path: string, fs1: FileSystem, fs2: FileSystem)
    requires !p.useGzip
    requires forall f :: f != p.ResolvedPath(path) + ".gz" ==> fs1(f) == fs2(f)
    requires p.customNotFound ==> p.notFoundPath != p.ResolvedPath(path) + ".gz"
    ensures p.ServeStatic(path, fs1) == p.ServeStatic(path, fs2)
  {
    var resolved := p.ResolvedPath(path);
    assert resolved != resolved + ".gz";
    assert fs1(resolved) == fs2(resolved);
    assert p.customNotFound ==> fs1(p.notFoundPath) == fs2(p.notFoundPath);
  }

  /** GET `/` resolves to the root's index document, whatever the extension set. */
  lemma ResolveRoot(p: Pony)
    requires !EndsWithChar(p.staticPath, '/')
    ensures p.ResolvedPath("/") == p.staticPath + "/index.html"
  {
    var incoming := Rewrite("/", p.CheckForKnownExt("/"));
    assert incoming == "/" + "index.html";
  }

  /** With a root ending in '/', the join drops the request's leading '/'. */
  lemma ResolveRootWithSlash(p: Pony)
    requires EndsWithChar(p.staticPath, '/')
    ensures p.ResolvedPath("/") == p.staticPath + "index.html"
  {
    var incoming := Rewrite("/", p.CheckForKnownExt("/"));
    assert incoming == "/" + "index.html";
    assert incoming[1..] == "index.html";
  }

  /** A path whose last segment is not a known extension is treated as a directory. */
  lemma ResolveDirectory(p: Pony)
    requires !EndsWithChar(p.staticPath, '/') && "/foo" !in p.knownExtensions
    ensures p.ResolvedPath("/foo") == p.staticPath + "/foo/index.html"
  {
    assert IsLastSegment("/foo", "/foo");
    LastSegmentUnique("/foo", "/foo");
    var incoming := Rewrite("/foo", false);
    assert incoming == "/foo" + "/index.html";
  }

  /** A path with a known extension is served as it is. */
  lemma ResolveKnownFile(p: Pony)
    requires !EndsWithChar(p.staticPath, '/') && "html" in p.knownExtensions
    ensures p.ResolvedPath("/foo.html") == p.staticPath + "/foo.html"
  {
    assert "/foo.html"[5..] == "html";
    assert IsLastSegment("html", "/foo.html");
    assert p.CheckForKnownExt("/foo.html");
  }

  /** A GET for a registered path invokes that path's callback (the route-table tests). */
  lemma GetRouteScenario(p: Pony, h: HandlerId, decode: string -> Option<string>, fs: FileSystem)
    requires p.gets == map["/get" := h]
    ensures p.Call(Get, "/get", decode, fs) == Invoke(h)
  {
  }

  /** GET `/` with static serving on and gzip off serves `<root>/index.html` (root `examples/public` in the tests). */
  lemma StaticIndexScenario(p: Pony, body: seq<byte>, fs: FileSystem, decode: string -> Option<string>)
    requires p.gets == map[] && p.staticEnabled && !p.useGzip && !EndsWithChar(p.staticPath, '/')
    requires decode("/") == Some("/")
    requires fs(p.staticPath + "/index.html") == Bytes(body)
    ensures p.Call(Get, "/", decode, fs) == Respond(Response(StatusOk, Headers(None, None, Some(|body|)), body))
  {
    ResolveRoot(p);
    var resolved := p.ResolvedPath("/");
    assert p.Fetch(resolved, fs) == Some((body, None));
    assert !EndsWith("/", ".wasm");
    assert p.ServeStatic("/", fs) == Respond(Response(StatusOk, Headers(None, None, Some(|body|)), body));
  }

  /** With gzip on, GET `/` serves the bytes of `<root>/index.html.gz`, marked as gzip. */
  lemma GzipIndexScenario(p: Pony, zipped: seq<byte>, fs: FileSystem, decode: string -> Option<string>)
    requires p.gets == map[] && p.staticEnabled && p.useGzip && !EndsWithChar(p.staticPath, '/')
    requires decode("/") == Some("/")
    requires fs(p.staticPath + "/index.html" + ".gz") == Bytes(zipped)
    ensures p.Call(Get, "/", decode, fs) == Respond(Response(StatusOk, Headers(None, Some(Gzip), Some(|zipped|)), zipped))
  {
    ResolveRoot(p);
    var resolved := p.ResolvedPath("/");
    assert p.Fetch(resolved, fs) == Some((zipped, Some(Gzip)));
    assert !EndsWith("/", ".wasm");
    assert p.ServeStatic("/", fs) == Respond(Response(StatusOk, Headers(None, Some(Gzip), Some(|zipped|)), zipped));
  }

  /** An unrouted GET with a custom not-found page readable serves that page with status 200. */
  lemma CustomNotFoundScenario(p: Pony, page: seq<byte>, fs: FileSystem, decode: string -> Option<string>)
    requires p.gets == map[] && !p.staticEnabled
    requires p.customNotFound && p.notFoundPath == "examples/public/404.html"
    requires fs("examples/public/404.html") == Bytes(page)
    ensures p.Call(Get, "/junk", decode, fs) == Respond(Response(StatusOk, Headers(None, None, Some(|page|)), page))
  {
  }
}
