/**
 * The older router (src/Pony.rs), which the crate no longer compiles. It has the
 * same dispatch and not-found policy as the live one, but serves the raw path
 * without percent-decoding, never tries a gzip sibling, sets no headers on
 * static files, and decides a known extension by a suffix match against a list
 * of dotted entries.
 */
module LegacyPony {
  import opened Wrappers
  import opened Http
  import Live = Pony
  import PonyBuilder

  datatype Pony = Pony(
    gets: map<string, HandlerId>,
    posts: map<string, HandlerId>,
    puts: map<string, HandlerId>,
    deletes: map<string, HandlerId>,
    staticPath: string,
    staticEnabled: bool,
    notFoundPath: string,
    customNotFound: bool,
    knownFiles: seq<string>)
  {
    /** The route table consulted for a method; methods without one have none. */
    function Routes(m: Method): map<string, HandlerId> {
      match m
      case Get => gets
      case Post => posts
      case Put => puts
      case Delete => deletes
      case _ => map[]
    }

    /**
     * `not_found`, textually the live policy: a custom page that cannot be opened
     * panics, one that reads is a 200 with its length, anything else the empty 404.
     */
    function NotFoundReply(fs: FileSystem): (r: Reply)
      ensures !r.Invoke?
      ensures r.Panic? <==> customNotFound && fs(notFoundPath).OpenFailed?
      ensures r.Panic? ==> r.missingFile == notFoundPath
      ensures customNotFound && fs(notFoundPath).Bytes? ==>
                var page := fs(notFoundPath).data;
                r == Respond(Response(StatusOk, Headers(None, None, Some(|page|)), page))
      ensures !customNotFound || fs(notFoundPath).ReadFailed? ==> r == Respond(Live.DefaultNotFound())
    {
      Live.NotFound(customNotFound, notFoundPath, fs)
    }

    /** A path names a file when it does not end in '/' and some entry of `knownFiles` is a suffix of it. */
    predicate HasKnownExt(path: string) {
      !EndsWithChar(path, '/') && exists i | 0 <= i < |knownFiles| :: EndsWith(path, knownFiles[i])
    }

    /** `check_for_known_ext`: a scan of `knownFiles` that stops at the first suffix match. */
    method CheckForKnownExt(path: string) returns (known: bool)
      ensures known == HasKnownExt(path)
    {
      if EndsWithChar(path, '/') {
        return false;
      }
      for i := 0 to |knownFiles|
        invariant forall j | 0 <= j < i :: !EndsWith(path, knownFiles[j])
      {
        if EndsWith(path, knownFiles[i]) {
          return true;
        }
      }
      return false;
    }

    /** The file a static request for `path` resolves to: the live rewrite and join rules. */
    function ResolvedPath(path: string): string {
      Live.Join(staticPath, Live.Rewrite(path, HasKnownExt(path)))
    }

    /**
     * Static serving of the raw path: the file's bytes as a 200 with no headers
     * when it opens and reads; the not-found policy when either step fails.
     */
    function ServeStatic(path: string, fs: FileSystem): (r: Reply)
      ensures !r.Invoke?
      ensures fs(ResolvedPath(path)).Bytes? ==> r == Respond(Response(StatusOk, NoHeaders, fs(ResolvedPath(path)).data))
      ensures !fs(ResolvedPath(path)).Bytes? ==> r == NotFoundReply(fs)
    {
      match fs(ResolvedPath(path))
      case Bytes(contents) => Respond(Response(StatusOk, NoHeaders, contents))
      case _ => NotFoundReply(fs)
    }

    /** `static_file`, step by step: rewrite, join, open, read, respond. */
    method StaticFile(path: string, fs: FileSystem) returns (reply: Reply)
      ensures reply == ServeStatic(path, fs)
    {
      var incoming := path;
      if EndsWithChar(incoming, '/') {
        incoming := incoming + "index.html";
      } else {
        var known := CheckForKnownExt(incoming);
        if !known {
          incoming := incoming + "/index.html";
        }
      }
      if EndsWithChar(staticPath, '/') && StartsWithChar(incoming, '/') {
        incoming := incoming[1..];
      }
      var resolved := staticPath + incoming;
      assert resolved == ResolvedPath(path);
      match fs(resolved)
      case OpenFailed =>
        reply := NotFoundReply(fs);
      case ReadFailed =>
        reply := NotFoundReply(fs);
      case Bytes(contents) =>
        reply := Respond(Response(StatusOk, NoHeaders, contents));
    }

    /** A GET: a route hit invokes its callback; a miss is served statically on the raw path when enabled. */
    function Get(path: string, fs: FileSystem): (r: Reply)
      ensures r.Invoke? <==> path in gets
      ensures path in gets ==> r == Invoke(gets[path])
      ensures path !in gets && staticEnabled ==> r == ServeStatic(path, fs)
      ensures path !in gets && !staticEnabled ==> r == NotFoundReply(fs)
    {
      if path in gets then Invoke(gets[path])
      else if staticEnabled then ServeStatic(path, fs)
      else NotFoundReply(fs)
    }

    /** Dispatch by method, as in the live router. */
    function Call(m: Method, path: string, fs: FileSystem): (r: Reply)
      ensures r.Invoke? <==> path in Routes(m)
      ensures path in Routes(m) ==> r == Invoke(Routes(m)[path])
      ensures !m.Get? && path !in Routes(m) ==> r == NotFoundReply(fs)
      ensures m.Get? ==> r == Get(path, fs)
    {
      match m
      case Get => Get(path, fs)
      case Post => if path in posts then Invoke(posts[path]) else NotFoundReply(fs)
      case Put => if path in puts then Invoke(puts[path]) else NotFoundReply(fs)
      case Delete => if path in deletes then Invoke(deletes[path]) else NotFoundReply(fs)
      case _ => NotFoundReply(fs)
    }
  }

  /** The older default extension list; its argument is ignored. */
  function DefaultKnownExtentions(path: string): (r: seq<string>)
    ensures r == PonyBuilder.PonyBuilder.DefaultKnownExtensions()
  {
    [".html", ".js", ".css", ".ico", ".jpg", ".png", ".woff2", ".ttf", ".txt", ".xml", ".rss", ".svg", ".txt"]
  }

  /** Entries are a '.' followed by a name without '.'. */
  predicate DottedEntries(files: seq<string>) {
    forall i | 0 <= i < |files| :: |files[i]| >= 1 && files[i][0] == '.' && '.' !in files[i][1..]
  }

  /** The live extension set holding the same entries without their leading '.'. */
  function Undotted(files: seq<string>): set<string>
    requires DottedEntries(files)
  {
    set i | 0 <= i < |files| :: files[i][1..]
  }

  /** A suffix match on a dotted entry `.e` makes `e` the path's last segment. */
  lemma {:induction false} SuffixMatchIsLastSegment(legacy: Pony, live: Live.Pony, path: string)
    requires DottedEntries(legacy.knownFiles) && live.knownExtensions == Undotted(legacy.knownFiles)
    requires legacy.HasKnownExt(path)
    ensures live.CheckForKnownExt(path)
  {
    var i :| 0 <= i < |legacy.knownFiles| && EndsWith(path, legacy.knownFiles[i]);
    var entry := legacy.knownFiles[i];
    var e := entry[1..];
    var b := |path| - |e|;
    assert path[b - 1..] == entry;
    assert path[b..] == e;
    assert path[b - 1] == '.';
    assert Live.IsLastSegment(e, path);
    assert e in live.knownExtensions;
  }

  /** On a path with a '.', a known last segment `e` means the path ends with the entry `.e`. */
  lemma {:induction false} LastSegmentIsSuffixMatch(legacy: Pony, live: Live.Pony, path: string)
    requires DottedEntries(legacy.knownFiles) && live.knownExtensions == Undotted(legacy.knownFiles)
    requires '.' in path && live.CheckForKnownExt(path)
    ensures legacy.HasKnownExt(path)
  {
    var ext :| ext in live.knownExtensions && Live.IsLastSegment(ext, path);
    var i :| 0 <= i < |legacy.knownFiles| && ext == legacy.knownFiles[i][1..];
    var entry := legacy.knownFiles[i];
    assert ext != path;
    Live.LastSegmentBoundary(path, ext);
    var b := |path| - |ext|;
    assert path[b..] == ext;
    assert path[b - 1..] == [path[b - 1]] + path[b..];
    assert entry == [entry[0]] + entry[1..];
    assert path[b - 1..] == entry;
    assert EndsWith(path, entry);
  }

  /**
   * For dotted entries `.e` (no further '.' in `e`), the older suffix check and
   * the live last-segment check agree on every path that contains a '.', when
   * the live set holds the same entries without their dot.
   */
  lemma {:induction false} SuffixCheckMatchesLastSegment(legacy: Pony, live: Live.Pony, path: string)
    requires DottedEntries(legacy.knownFiles) && live.knownExtensions == Undotted(legacy.knownFiles)
    requires '.' in path
    ensures legacy.HasKnownExt(path) == live.CheckForKnownExt(path)
  {
    if legacy.HasKnownExt(path) {
      SuffixMatchIsLastSegment(legacy, live, path);
    }
    if live.CheckForKnownExt(path) {
      LastSegmentIsSuffixMatch(legacy, live, path);
    }
  }

  /** Every default entry is a '.' followed by a name without '.'. */
  lemma {:induction false} DefaultsAreDotted()
    ensures DottedEntries(DefaultKnownExtentions(""))
  {
    var d := DefaultKnownExtentions("");
    forall i | 0 <= i < |d| ensures |d[i]| >= 1 && d[i][0] == '.' && '.' !in d[i][1..] {
      assert d[i] in {".html", ".js", ".css", ".ico", ".jpg", ".png", ".woff2", ".ttf", ".txt", ".xml", ".rss", ".svg"};
    }
  }

  /**
   * With the default list, a path containing a '.' is known exactly when it does
   * not end in '/' and the text after its last '.' is one of the default names;
   * a known path is then served from the root unchanged, with no index appended.
   */
  lemma {:induction false} DefaultsKnownByLastSegment(legacy: Pony, path: string)
    requires legacy.knownFiles == DefaultKnownExtentions("")
    requires '.' in path
    ensures DottedEntries(legacy.knownFiles)
    ensures legacy.HasKnownExt(path) <==>
              !EndsWithChar(path, '/') && Live.LastSegment(path) in Undotted(legacy.knownFiles)
    ensures legacy.HasKnownExt(path) ==> legacy.ResolvedPath(path) == Live.Join(legacy.staticPath, path)
  {
    DefaultsAreDotted();
    var names := Undotted(legacy.knownFiles);
    var live := Live.Pony(map[], map[], map[], map[], "", false, "", false, names, false, false);
    SuffixCheckMatchesLastSegment(legacy, live, path);
    var last := Live.LastSegment(path);
    if live.CheckForKnownExt(path) {
      var ext :| ext in names && Live.IsLastSegment(ext, path);
      Live.LastSegmentUnique(path, ext);
    }
    if !EndsWithChar(path, '/') && last in names {
      assert Live.IsLastSegment(last, path);
    }
  }

  /** Scenario: with the default list the older router serves `/style.css` as a file, where the live one looks for an index. */
  lemma DefaultsKnowDottedPaths(legacy: Pony)
    requires legacy.knownFiles == DefaultKnownExtentions("")
    ensures legacy.HasKnownExt("/style.css")
    ensures legacy.ResolvedPath("/style.css") == Live.Join(legacy.staticPath, "/style.css")
  {
    var path := "/style.css";
    assert legacy.knownFiles[2] == ".css";
    assert path[|path| - 4..] == ".css";
    assert EndsWith(path, legacy.knownFiles[2]);
    assert path[|path| - 1..] != "/";
    assert legacy.HasKnownExt(path);
    assert Live.Rewrite(path, true) == path;
  }
}
