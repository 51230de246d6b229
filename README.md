# bonez request handling, modelled in Dafny

bonez is a minimal static-content HTTP server. Every worker process
accepts a connection and reads at most 1024 bytes. If those bytes are
UTF-8, it answers the single request line with one of three responses:
a directory listing, a file's bytes, or a fixed error. Then it closes
the connection.

This project models the request-to-response logic of `src/main.rs`:

- `handle_request` reads the request line and routes it:
  - `ParseRequestLine`, `Dispatch` and `RouteOf` in `request.dfy`;
  - `HandleRequest` and its specification `Response` in `server.dfy`.
- `do_dir` renders a directory listing and frames it. It is the
  `DoDir` method, whose `for` loop builds `paths` the way the source's
  loop does. `listing.dfy` holds the listing's page, anchors and
  reference definitions.
- `do_file` frames a file's bytes. It is the `DoFile` method.
- The connection step (lines 112-118) decides whether anything is
  written. It is the `ServeConnection` method.
- `wire.dfy` covers the response format:
  - the 200 header, built as `Header` and `OkResponse`;
  - the two fixed error responses;
  - `ReadOk`, a reader that parses a 200 response back into its content
    type and body.
- `decimal.dfy` renders the Content-Length value the way `format!`
  prints a `usize`.

Requests and responses are byte sequences (`seq<byte>`), because Rust
slices a `&str` by byte index. The outside world is passed in as an
`Env` value, so the model does not touch the filesystem or any library:

- `Path::is_dir`, `fs::read_dir` and `fs::read` become `Env` fields;
- so does the MIME essence that `mime_guess` picks for a path;
- UTF-8 validity (`std::str::from_utf8`) is a predicate parameter of
  `ServeConnection`.

A directory entry arrives as the string `de.path()` would give, or as
`None` when reading that entry failed.

A string slice that panics is modelled as an outcome of its own, not as
a precondition. The slice is `req[4..]` or `url[1..]`, and it panics at
an offset past the end or inside a multi-byte character, as Rust's
`str::is_char_boundary` decides. That outcome is `Route.Crash`, then
`Reply.Panicked`, then `Outcome.WorkerDied`. `Request.PanicsOn` names
exactly the requests that take this path. A worker that panics exits,
and the supervisor in `main` then stops every worker.

Three behaviours of the code are easy to misread:

- The prefix check is `starts_with("GET")`, and the path search starts
  at byte 4, so byte 3 is never examined. `GETX/ a` asks for `/`, just
  as `GET / a` does.
- Not every request without a path is answered 400. `GET ` and `GETX`
  get the 400 bytes, but the code panics for `GET` alone and for an
  empty path (`GET`, one more byte, then a space).
- The 400 and 404 responses end in a single `\n`, with no blank line
  after the headers. Only 200 responses carry the blank line.

## Model

| member | source | states |
|---|---|---|
| `Bytes.Find` | src/main.rs:69 | `find(' ')`: None exactly when the byte is absent; otherwise the index of an occurrence with none before it |
| `Decimal.Render` | src/main.rs:36 | the Content-Length text is canonical decimal (digits only, no leading zero) and denotes the length |
| `Decimal.CanonicalIsRendered` | src/main.rs:36 | every canonical digit string is the rendering of its value, so the rendering is one-to-one and onto |
| `Wire.Header` | src/main.rs:36 | the 200 header: status line, Content-Type, Content-Length in decimal, blank line |
| `Wire.OkResponse` | src/main.rs:35-39 | the header for the body's length followed by the body, as the two `extend` calls build it |
| `Wire.OkResponseReads` | src/main.rs:35-39 | a 200 response reads back as its content type and body: Content-Length is the body's decimal length and the header ends in a blank line |
| `Wire.ReadOkIsExact` | src/main.rs:54-58 | whatever reads as a 200 message is byte for byte the header and body built for that message |
| `Wire.ErrorResponsesShape` | src/main.rs:41-45 | the constants `NOT_FOUND` and `BAD_REQUEST` (the literals at lines 42, 61, 81 and 86): the 404 and 400 responses are not 200 responses, and each ends in one `\n` with no blank line |
| `Wire.HeaderEndsInBlankLine` | src/main.rs:55 | every 200 header ends in `\n\n` |
| `Listing.Anchor` | src/main.rs:20 | one entry's link, whose target and text are both the entry's path |
| `Listing.Page` | src/main.rs:23-31 | the raw-string page template around the accumulated anchors, indentation and line breaks included |
| `Listing.Links` | src/main.rs:16-22 | what the loop has appended after visiting a prefix of the entries; failed entries add nothing |
| `Listing.LinksAreAnchorsOfReadable` | src/main.rs:16-22 | what the loop accumulates equals the anchors of the readable entries in enumeration order, with failed entries skipped |
| `Listing.ReadableMembers` | src/main.rs:17-21 | a path is listed exactly when some entry with that path was read successfully |
| `Listing.AnchorAt` | src/main.rs:20 | the k-th listed path's anchor sits right after the anchors of the paths before it |
| `Request.BadRequestExactly` | src/main.rs:68-89 | the route is 400 exactly when the request lacks the `GET` prefix, or has it and a boundary at byte 4 but no space at or after byte 4 |
| `Request.ParseRequestLine` | src/main.rs:68-70 | `req[4..]` panics exactly when a `GET` request has no boundary at offset 4; otherwise the line is malformed exactly when there is no `GET` prefix or no space at or after offset 4; a parsed path is the request's bytes from offset 4, contains no space, and is followed by a space |
| `Request.Dispatch` | src/main.rs:71-78 | the path `/` lists `.`; any other path panics on `url[1..]` or goes, minus its first byte, to a listing or a file read as `is_dir` decides |
| `Request.RouteOf` | src/main.rs:68-89 | the parse followed by the dispatch; a malformed line is answered 400 |
| `Request.CrashExactly` | src/main.rs:69-78 | the route is a panic exactly on `PanicsOn`: a `GET` request with no boundary at offset 4, or with a space at or after it and an empty path or a continuation byte at byte 5 |
| `Request.ParsesEveryRequestLine` | src/main.rs:69-70 | `GET`, any byte, a space-free path whose first byte is not a UTF-8 continuation byte, and a space parse to exactly that path |
| `Request.BareGetCrashes` | src/main.rs:69 | example: the request `GET` alone panics on `req[4..]` |
| `Request.EmptyPathCrashes` | src/main.rs:74 | an empty path panics on `url[1..]` |
| `Request.RootListsCurrentDir` | src/main.rs:71-72 | example: the path `/` lists `.` |
| `Request.DispatchDropsFirstByte` | src/main.rs:73-78 | any other path crashes exactly when byte 1 is not a boundary; otherwise it is listed when the path minus its first byte is a directory and read as a file when it is not |
| `Server.DirReply` | src/main.rs:14-45 | `do_dir`'s result for what `read_dir` returned: 404, or a text/html 200 response around the loop's anchors |
| `Server.FileReply` | src/main.rs:48-64 | `do_file`'s result: 404 on a read failure, otherwise the 200 response for the path's MIME essence and the file's bytes |
| `Server.Response` | src/main.rs:67-90 | `handle_request`'s result: the 400 bytes, a panic, a listing or a file response as the route says |
| `Server.DoDir` | src/main.rs:14-46 | the loop and framing produce `DirReply` of what `read_dir` returned |
| `Server.DoFile` | src/main.rs:48-65 | the framing produces `FileReply`: 404 on a read failure, otherwise the 200 response for the path's MIME essence and the file's bytes |
| `Server.HandleRequest` | src/main.rs:67-90 | the reply is `Response`, the routed 400, panic, listing or file response |
| `Server.ServeConnection` | src/main.rs:112-118 | nothing is written when `recv` fails or the bytes are not UTF-8; otherwise the response is written, or the worker dies on a panic |
| `Server.DirReplyReads` | src/main.rs:15-45 | an unreadable directory gives exactly 404; a readable one gives text/html whose body is the page around the readable entries' anchors |
| `Server.FileReplyReads` | src/main.rs:49-64 | an unreadable file gives exactly 404; a readable one reads back as the path's MIME essence and the file's exact bytes |
| `Server.PanicsExactly` | src/main.rs:67-90 | `handle_request` panics, ending the worker, exactly on the requests of `PanicsOn` |
| `Server.NonGetIsBadRequest` | src/main.rs:85-89 | a request without the `GET` prefix gets exactly the 400 bytes |
| `Server.NoPathEndIsBadRequest` | src/main.rs:80-84 | a `GET` request with a boundary at byte 4 and no space at or after byte 4 gets exactly the 400 bytes |
| `Server.ServesPath` | src/main.rs:73-78 | a request for any other path whose first byte is not a continuation byte and whose byte 1 is a boundary is answered from the path minus its first byte, by a listing or by the file's exact bytes or by 404 |
| `Server.ServesRoot` | src/main.rs:71-72 | `GET`, any byte, `/` and a space get the listing of `.` |

## Left out

- Socket setup in `run_listener` is not modelled: create, the ReusePort
  option, bind to 127.0.0.1:42069 and listen. This is operating-system
  I/O.
- The endless accept loop and the `close` of every connection are not
  modelled either. `ServeConnection` models one pass, after `accept`
  succeeded.
- Failed `write` calls, which the source ignores, are not modelled.
- The supervisor in `main` is not modelled: `num_cpus`, `fork`, `wait`
  and the SIGTERM to every child. Its purpose is multi-process
  concurrency and signals.
- `println!` logging is not modelled.
- `mime_guess` is not modelled; it is the `Env.mimeEssence` input. Its
  fallback to `application/octet-stream` is that library's promise, not
  this code's.
- Filesystem semantics (`read_dir`, `read`, `is_dir`, working-directory
  resolution, `..`) are `Env` inputs. How `de.path()` joins the
  directory and the entry name is part of that input.
- The `to_str().unwrap()` panic on a directory entry whose path is not
  UTF-8 is not modelled. Entries are taken to be strings.
- UTF-8 validity is a predicate parameter, not a decoder.
- `Vec::with_capacity` only reserves memory. The model builds the same
  bytes by appending to an empty sequence.
- The server has no clock and no randomness. Responses are a function
  of the request and the `Env` value, so a repeated request against an
  unchanged filesystem gets the same bytes.
- `Server.FileReplyReads`, `Server.ServesPath`: they assume the MIME
  essence contains no line feed, a promise of the MIME library that the
  model cannot see.
