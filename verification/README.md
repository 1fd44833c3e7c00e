# Pony request routing, modelled in Dafny

Pony is a small router in front of hyper. A frozen `Pony` value answers each request. It first looks for an exact-path callback in the table for the request's method (GET, POST, PUT or DELETE). On a GET miss it can fall back to serving a static file. Every other miss goes to the not-found policy. `PonyBuilder` collects the configuration and `done()` snapshots it.

The project models three source files:

- `pony.dfy`, module `Pony`: the live router of `src/pony.rs`.
  - Dispatch is `Call` and `Get`.
  - Static resolution is `Rewrite`, `Join`, `CheckForKnownExt`, `Fetch` and `ServeStatic`. The method `StaticFile` follows the source's step-by-step string and header updates and is proved equal to `ServeStatic`.
  - The not-found policy is `NotFound` and `DefaultNotFound`.
- `legacy_pony.dfy`, module `LegacyPony`: the older router of `src/Pony.rs`. The crate no longer compiles this file (`src/lib.rs:10`).
  - Its known-extension check is a `for` loop with an early return, modelled as the method `CheckForKnownExt`.
  - Its rewrite, join and not-found rules are textually the live ones, so it reuses `Pony.Rewrite`, `Pony.Join` and `Pony.NotFound`.
  - It does no percent-decoding, no gzip and sets no headers on static files.
- `pony_builder.dfy`, module `PonyBuilder`: the builder of `src/pony_builder.rs`, as a class with the builder's fields. `Done` returns a `Snapshot` record.
- `http.dfy` and `wrappers.dfy` hold the shared value types.

Outside collaborators are parameters:

- The file system is `fs: string -> ReadOutcome`. A read fails to open, fails while reading, or yields bytes.
- Percent-decoding is `decode: string -> Option<string>`.
- A callback is an opaque `HandlerId`. Calling it is the reply `Invoke(id)`.
- The process abort on a missing custom 404 page is the reply `Panic(path)`.

Points the proofs bring out:

- The live extension check compares the text after the last `.` (`"html"`). The builder's default list carries the dot (`".html"`). `PonyBuilder.DefaultsNeverKnownLive` proves that, with those defaults, no path would have a known extension. Every static path without a trailing `/` would then get `/index.html` appended.
- The older suffix check has no such mismatch. `LegacyPony.SuffixCheckMatchesLastSegment` proves that the two checks agree on every path containing a `.`, once the live set holds the entries without their dot.
- The registration setters of this builder are stubs. `PonyBuilder.SettersRecordNothing` shows that registering routes, a static root and a not-found page leaves the snapshot with none of them.

The code is followed where it departs from the router's documented intent:

- The setters validate and record nothing.
- A custom not-found page that cannot be opened panics. One that opens but cannot be read gives the default 404.
- The builder's snapshot has the older struct's shape (`known_files`), not the live one's. It is modelled as its own record.

## Model

| member | source | states |
|---|---|---|
| `Pony.LastSegment` | src/pony.rs:123 | The extension is the text after the last `.`, or the whole path when there is no `.`: a suffix free of `.`, preceded by a `.` unless it is the whole path. |
| `Pony.LastSegmentUnique` | src/pony.rs:123 | Any suffix with those properties is that extension, so they define `split('.').last()`. |
| `Pony.Pony.CheckForKnownExt` | src/pony.rs:119-125 | Known iff the path does not end in `/` and some entry of the extension set is the text after its last `.`. |
| `Pony.DottedExtensionsNeverKnown` | src/pony.rs:119-125 | If every configured extension contains a `.`, no path counts as having a known extension. |
| `Pony.Rewrite` | src/pony.rs:61-66 | The path is unchanged iff its extension is known and it does not end in `/`. Otherwise it becomes the path without its trailing `/`, followed by `/index.html`. |
| `Pony.Join` | src/pony.rs:68-71 | One `/` is dropped when the root ends in `/` and the rewritten path starts with `/`: the path is then appended to the root minus that one `/`. A root ending in `//` therefore still leaves a doubled separator. A path not starting with `/` is appended as it is. |
| `Pony.ReadFile` | src/pony.rs:103-116 | A read succeeds exactly when the file opens and reads, and then yields its bytes. An open failure and a read failure are distinct errors. |
| `Pony.Pony.Fetch` | src/pony.rs:76-86 | With gzip on and a readable `<resolved>.gz`, those bytes are taken, marked gzip. Otherwise the plain file's bytes are taken, unmarked. Nothing is found iff neither read succeeds. |
| `Pony.Pony.ServeStatic` | src/pony.rs:60-101 | A found file becomes a 200 whose body is the file's bytes and whose Content-Length is the body length. Content-Encoding is as fetched. Content-Type is `application/wasm` exactly when the request path ends in `.wasm`. If nothing is found, the reply is the not-found policy's. |
| `Pony.Pony.StaticFile` | src/pony.rs:60-101 | The step-by-step rewrite, separator drop, header building and reads compute exactly `ServeStatic`. |
| `Pony.GzipOffIgnoresGz` | src/pony.rs:76-86 | With gzip off, the reply does not depend on the `.gz` sibling's contents. |
| `Pony.ResolveRoot` | src/pony.rs:61-71 | `/` resolves to `<root>/index.html` for a root without a trailing `/`. |
| `Pony.ResolveRootWithSlash` | src/pony.rs:68-70 | For a root ending in `/`, `/` resolves to `<root>index.html`: the request's leading `/` is dropped. |
| `Pony.ResolveDirectory` | src/pony.rs:64-66 | `/foo` with no known extension resolves to `<root>/foo/index.html`. |
| `Pony.ResolveKnownFile` | src/pony.rs:64-66 | `/foo.html` with `html` known resolves to `<root>/foo.html`. |
| `Pony.DefaultNotFound` | src/pony.rs:196-203 | The default not-found response is a 404 with an empty body and no headers. |
| `Pony.NotFound` | src/pony.rs:169-194 | It never invokes a callback. It panics iff a custom page is set and cannot be opened. It gives a 200 iff a custom page is set and reads, and then the body is the page with its length as Content-Length. Every other case is the default 404. |
| `Pony.Pony.Get` | src/pony.rs:36-57 | A callback is invoked iff the raw path is a GET route, and it is that route's callback. A miss serves the percent-decoded path statically when static serving is on and the path decodes. Otherwise it goes to the not-found policy. |
| `Pony.Pony.Call` | src/pony.rs:136-163 | A callback is invoked iff the path is in the method's route table, and it is that entry. GET goes through `Get`. A miss for any other method, and every method without a table, goes to the not-found policy. |
| `Pony.RouteHitIgnoresFallbacks` | src/pony.rs:37-40 | On a route hit the reply is that callback whatever the decoder, files, static and not-found settings. |
| `Pony.NonGetNeverStatic` | src/pony.rs:141-161 | For every method other than GET, the reply does not depend on the static root, static flag, extension set or gzip flag. |
| `Pony.GetRouteScenario` | src/pony.rs:234-238 | GET `/get` with `/get` registered invokes its callback. |
| `Pony.StaticIndexScenario` | src/pony.rs:270-277 | An unrouted GET `/` with static serving on serves `<root>/index.html` as a 200 with its length. |
| `Pony.GzipIndexScenario` | src/pony.rs:279-292 | With gzip on and a readable `<root>/index.html.gz`, GET `/` serves those bytes marked gzip. |
| `Pony.CustomNotFoundScenario` | src/pony.rs:294-307 | An unrouted GET `/junk` with a readable custom page serves that page as a 200 with its length. |
| `LegacyPony.Pony.CheckForKnownExt` | src/Pony.rs:84-94 | The loop with early return answers true iff the path does not end in `/` and some entry of the list is a suffix of it. |
| `LegacyPony.Pony.NotFoundReply` | src/Pony.rs:135-170 | It panics iff a custom page is set and cannot be opened. A readable custom page is a 200 with its length. Otherwise the reply is the empty 404. It never invokes a callback. |
| `LegacyPony.Pony.ServeStatic` | src/Pony.rs:46-82 | A readable resolved file is a 200 with exactly its bytes and no headers. An open or read failure goes to the not-found policy. There is no gzip attempt. |
| `LegacyPony.Pony.StaticFile` | src/Pony.rs:46-82 | The step-by-step rewrite, separator drop, open and read compute exactly `ServeStatic`, using the live rewrite and join rules. |
| `LegacyPony.Pony.Get` | src/Pony.rs:30-44 | A callback is invoked iff the path is a GET route. A miss with static serving on serves the raw, undecoded path. Otherwise it goes to the not-found policy. |
| `LegacyPony.Pony.Call` | src/Pony.rs:103-131 | A callback is invoked iff the path is in the method's table, and it is that entry. GET goes through `Get`. Any other miss goes to the not-found policy. |
| `LegacyPony.DefaultKnownExtentions` | src/Pony.rs:173-189 | It ignores its argument and returns the builder's 13-entry default list. |
| `LegacyPony.SuffixMatchIsLastSegment` | src/Pony.rs:84-94 | A suffix match on an entry `.e` means the live check, holding `e`, knows the path. |
| `LegacyPony.LastSegmentIsSuffixMatch` | src/Pony.rs:84-94 | On a path containing `.`, a live match on `e` means the path ends with the entry `.e`. |
| `LegacyPony.SuffixCheckMatchesLastSegment` | src/Pony.rs:84-94 | When every entry of the older list is one `.` followed by a name with no further `.`, and the live set holds those names without their dot, the older suffix check and the live last-segment check agree on every path containing a `.`. |
| `LegacyPony.DefaultsAreDotted` | src/Pony.rs:173-189 | Every entry of the default list is one `.` followed by a name with no further `.`. |
| `LegacyPony.DefaultsKnownByLastSegment` | src/Pony.rs:84-94 | With the default list, a path containing a `.` is known iff it does not end in `/` and the text after its last `.` is one of the default names without their dot. A known path resolves to the root joined with the path unchanged. |
| `LegacyPony.DefaultsKnowDottedPaths` | src/Pony.rs:173-189 | Scenario: with the default list, `/style.css` has a known extension and is served unchanged under the root. |
| `PonyBuilder.PonyBuilder.constructor` | src/pony_builder.rs:21-33 | A new builder has four empty route maps, empty static and not-found paths, both flags off and no extensions. |
| `PonyBuilder.PonyBuilder.Done` | src/pony_builder.rs:35-52 | The snapshot copies the four maps, both paths and both flags. Its extension list is the default list when the builder has none, and otherwise the builder's list in order. The builder is not modified. |
| `PonyBuilder.PonyBuilder.DefaultKnownExtensions` | src/pony_builder.rs:54-70 | The default list has 13 entries. Each is a `.` followed by a name, and `.txt` occurs exactly twice, at positions 8 and 12. |
| `PonyBuilder.PonyBuilder.Get` | src/pony_builder.rs:75-77 | It returns the builder itself and changes no field. |
| `PonyBuilder.PonyBuilder.Post` | src/pony_builder.rs:78-80 | It returns the builder itself and changes no field. |
| `PonyBuilder.PonyBuilder.Put` | src/pony_builder.rs:81-83 | It returns the builder itself and changes no field. |
| `PonyBuilder.PonyBuilder.Delete` | src/pony_builder.rs:84-86 | It returns the builder itself and changes no field. |
| `PonyBuilder.PonyBuilder.UseStatic` | src/pony_builder.rs:87-89 | It returns the builder itself and changes no field. |
| `PonyBuilder.PonyBuilder.UseNotFound` | src/pony_builder.rs:90-92 | It returns the builder itself and changes no field. |
| `PonyBuilder.DoneIsRepeatable` | src/pony_builder.rs:35-52 | Two consecutive snapshots of the same builder are equal. |
| `PonyBuilder.SettersRecordNothing` | src/pony_builder.rs:75-92 | After every setter is called on a new builder, the snapshot has no routes, static serving off, no custom page and the default list. |
| `PonyBuilder.DefaultsNeverKnownLive` | src/pony_builder.rs:54-70 | Given to the live router as its extension set, the default entries never make any path's extension known. |

## Left out

- hyper's `Request`, `Response`, `Service` and futures are not modelled. A reply is a plain datatype, and a callback's own output is not modelled: the model stops at which callback is invoked.
- Real file access (`File::open`, `read_to_end`) is a file-system function passed with each request. A file that changes between two reads within one request is not modelled.
- The `percent_encoding` crate is a decoder passed to `Get`. Its decoding rules are not modelled.
- `println!` logging is not modelled. The `static_logging` flag only gates a log line, so it is kept as a field of `Pony.Pony` that no operation reads.
- `Pony.NotFound`: the panic carries the missing path, not the formatted panic message.
- Content-Length is an unbounded natural number. The `as u64` cast in the source cannot wrap for an in-memory body.
- Build-time checks that the static directory or the not-found file exist are not modelled. The builder's setters in this version record nothing, so there is no such check to model.
- `use_static_gzip`, `use_static_logging`, `new_service` and the extension setters are not defined by the builder shown, so they are not modelled. Of these, `use_static_gzip` is called in the gzip test (`src/pony.rs:286`) and in `test/src/main.rs:14`, and `new_service` in `test/src/main.rs:16` and `examples/basic/src/main.rs:16`. Nothing in the source sets the live router's `known_extensions`, `use_gzip` or `static_logging` fields, so they are free fields of `Pony.Pony`.
- `src/lib.rs`, `test/src/main.rs` and `examples/basic/src/*` are not part of this model. They hold module declarations, server bootstrap and echo handlers.
