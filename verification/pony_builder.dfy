/**
 * The configuration builder (src/pony_builder.rs). It holds the route maps and
 * settings while an application assembles them, and `Done` snapshots them into
 * a router configuration. In this version the registration setters are stubs
 * that hand the builder back without recording anything.
 */
module PonyBuilder {
  import opened Http
  import Live = Pony

  /** What `done()` produces: the builder's fields, with the extension list filled in. */
  datatype Snapshot = Snapshot(
    gets: map<string, HandlerId>,
    posts: map<string, HandlerId>,
    puts: map<string, HandlerId>,
    deletes: map<string, HandlerId>,
    staticPath: string,
    staticEnabled: bool,
    notFoundPath: string,
    customNotFound: bool,
    knownFiles: seq<string>)

  class PonyBuilder {
    var gets: map<string, HandlerId>
    var posts: map<string, HandlerId>
    var puts: map<string, HandlerId>
    var deletes: map<string, HandlerId>
    var staticPath: string
    var staticEnabled: bool
    var notFoundPath: string
    var customNotFound: bool
    var knownFiles: seq<string>

    /** A builder with no routes, no static root, no custom not-found page and no extensions. */
    constructor ()
      ensures gets == map[] && posts == map[] && puts == map[] && deletes == map[]
      ensures staticPath == "" && !staticEnabled
      ensures notFoundPath == "" && !customNotFound
      ensures knownFiles == []
    {
      gets, posts, puts, deletes := map[], map[], map[], map[];
      staticPath, staticEnabled := "", false;
      notFoundPath, customNotFound := "", false;
      knownFiles := [];
    }

    /**
     * Snapshots the configuration without changing the builder: maps, paths and
     * flags as they are, and the default extension list when none was given.
     */
    method Done() returns (p: Snapshot)
      ensures p.gets == gets && p.posts == posts && p.puts == puts && p.deletes == deletes
      ensures p.staticPath == staticPath && p.staticEnabled == staticEnabled
      ensures p.notFoundPath == notFoundPath && p.customNotFound == customNotFound
      ensures |knownFiles| == 0 ==> p.knownFiles == DefaultKnownExtensions()
      ensures |knownFiles| > 0 ==> p.knownFiles == knownFiles
    {
      var known := if |knownFiles| < 1 then DefaultKnownExtensions() else knownFiles;
      p := Snapshot(gets, posts, puts, deletes,
                    staticPath, staticEnabled == true,
                    notFoundPath, customNotFound == true,
                    known);
    }

    /** The thirteen default entries: each a '.' followed by a name, with ".txt" listed twice. */
    static function DefaultKnownExtensions(): (r: seq<string>)
      ensures |r| == 13
      ensures forall i | 0 <= i < |r| :: |r[i]| >= 2 && r[i][0] == '.'
      ensures forall i | 0 <= i < |r| :: r[i] == ".txt" <==> i == 8 || i == 12
    {
      [".html", ".js", ".css", ".ico", ".jpg", ".png", ".woff2", ".ttf", ".txt", ".xml", ".rss", ".svg", ".txt"]
    }

    // The registration setters of this version record nothing and return the builder.

    method Get(path: string, cb: HandlerId) returns (self: PonyBuilder)
      ensures self == this
    {
      self := this;
    }

    method Post(path: string, cb: HandlerId) returns (self: PonyBuilder)
      ensures self == this
    {
      self := this;
    }

    method Put(path: string, cb: HandlerId) returns (self: PonyBuilder)
      ensures self == this
    {
      self := this;
    }

    method Delete(path: string, cb: HandlerId) returns (self: PonyBuilder)
      ensures self == this
    {
      self := this;
    }

    method UseStatic(path: string) returns (self: PonyBuilder)
      ensures self == this
    {
      self := this;
    }

    method UseNotFound(path: string) returns (self: PonyBuilder)
      ensures self == this
    {
      self := this;
    }
  }

  /** `done()` may be called again: it leaves the builder as it was, so two snapshots are equal. */
  method DoneIsRepeatable(b: PonyBuilder) returns (first: Snapshot, second: Snapshot)
    ensures first == second
  {
    first := b.Done();
    second := b.Done();
  }

  /**
   * Registering through the setters of this version leaves the snapshot with no
   * routes, no static root and no custom not-found page.
   */
  method SettersRecordNothing(h: HandlerId) returns (p: Snapshot)
    ensures p.gets == map[] && p.posts == map[] && p.puts == map[] && p.deletes == map[]
    ensures !p.staticEnabled && !p.customNotFound
    ensures p.knownFiles == PonyBuilder.DefaultKnownExtensions()
  {
    var b := new PonyBuilder();
    var c := b.Get("/get", h);
    c := c.Post("/post", h);
    c := c.Put("/put", h);
    c := c.Delete("/delete", h);
    c := c.UseStatic("examples/public");
    c := c.UseNotFound("examples/public/404.html");
    p := b.Done();
  }

  /**
   * The default entries carry their leading '.', so given to the live router,
   * whose check compares the text after the last '.', none of them ever matches.
   */
  lemma {:induction false} DefaultsNeverKnownLive(p: Live.Pony, path: string)
    requires p.knownExtensions == set e | e in PonyBuilder.DefaultKnownExtensions()
    ensures !p.CheckForKnownExt(path)
  {
    var defaults := PonyBuilder.DefaultKnownExtensions();
    forall e | e in p.knownExtensions ensures '.' in e {
      var i :| 0 <= i < |defaults| && defaults[i] == e;
      assert e[0] == '.';
    }
    Live.DottedExtensionsNeverKnown(p, path);
  }
}
