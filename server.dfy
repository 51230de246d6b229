/**
 * Request handling in src/main.rs: `do_dir`, `do_file`, `handle_request`
 * and the decode-then-respond step of the listener loop. The file system,
 * the MIME table and UTF-8 decoding are inputs.
 */
module Server {
  import opened Wrappers
  import opened Bytes
  import opened Wire
  import opened Listing
  import opened Request

  /** The capacity of the listener's receive buffer. */
  const BUF_SIZE: nat := 1024

  /** The outside world as the request path consults it. */
  datatype Env = Env(
    isDir: seq<byte> -> bool,                          // `Path::is_dir`
    readDir: seq<byte> -> Option<seq<Entry>>,          // `fs::read_dir`, each entry as `de.path()`
    readFile: seq<byte> -> Option<seq<byte>>,          // `fs::read`
    mimeEssence: seq<byte> -> seq<byte>)               // `mime_guess::from_path(..).first_or_octet_stream().essence_str()`

  /** The outcome of `handle_request`: the response bytes, or a panic from a string slice. */
  datatype Reply = Respond(bytes: seq<byte>) | Panicked

  /** The outcome of one accepted connection. */
  datatype Outcome =
    | Dropped                   // nothing is written; the connection is closed
    | Answered(bytes: seq<byte>) // the bytes are written, then the connection is closed
    | WorkerDied                // `handle_request` panicked and the worker process ends

  /** The response of `do_dir` to what `read_dir` returned. */
  function DirReply(listing: Option<seq<Entry>>): seq<byte> {
    match listing
    case None => NOT_FOUND
    case Some(entries) => OkResponse(TEXT_HTML, Page(Links(entries)))
  }

  /** The response of `do_file` for `path`. */
  function FileReply(path: seq<byte>, env: Env): seq<byte> {
    match env.readFile(path)
    case None => NOT_FOUND
    case Some(content) => OkResponse(env.mimeEssence(path), content)
  }

  /** The response of `handle_request` to `req`. */
  function Response(req: seq<byte>, env: Env): Reply {
    match RouteOf(req, env.isDir)
    case BadRequest => Respond(BAD_REQUEST)
    case Crash => Panicked
    case ListDir(dir) => Respond(DirReply(env.readDir(dir)))
    case SendFile(path) => Respond(FileReply(path, env))
  }

  /**
   * `do_dir`: appends one anchor per readable entry to `paths`, wraps it in
   * the page, and frames it as a 200 text/html response; 404 when the
   * directory cannot be read.
   */
  method DoDir(dir: seq<byte>, env: Env) returns (res: seq<byte>)
    ensures res == DirReply(env.readDir(dir))
  {
    match env.readDir(dir) {
      case None =>
        res := NOT_FOUND;
      case Some(entries) =>
        var paths: seq<byte> := [];
        for k := 0 to |entries|
          invariant paths == Links(entries[..k])
        {
          assert entries[..k + 1][..k] == entries[..k];
          if entries[k].Some? {
            paths := paths + Anchor(entries[k].value);
          }
        }
        assert entries[..|entries|] == entries;
        var content := Page(paths);
        var s := |content|;
        var header := Header(TEXT_HTML, s);
        res := [];
        res := res + header;
        assert res == header;  // extending the empty vector gives the header itself
        res := res + content;
    }
  }

  /**
   * `do_file`: the file's bytes framed as a 200 response whose content type
   * is the MIME essence guessed from the path; 404 when the file cannot be
   * read.
   */
  method DoFile(path: seq<byte>, env: Env) returns (res: seq<byte>)
    ensures res == FileReply(path, env)
  {
    match env.readFile(path) {
      case None =>
        res := NOT_FOUND;
      case Some(content) =>
        var s := |content|;
        var mimeEssence := env.mimeEssence(path);
        var header := Header(mimeEssence, s);
        res := [];
        res := res + header;
        assert res == header;  // extending the empty vector gives the header itself
        res := res + content;
    }
  }

  /** `handle_request`: route the request line, then list, read or refuse. */
  method HandleRequest(req: seq<byte>, env: Env) returns (reply: Reply)
    ensures reply == Response(req, env)
  {
    match RouteOf(req, env.isDir) {
      case BadRequest =>
        reply := Respond(BAD_REQUEST);
      case Crash =>
        reply := Panicked;
      case ListDir(dir) =>
        var bytes := DoDir(dir, env);
        reply := Respond(bytes);
      case SendFile(path) =>
        var bytes := DoFile(path, env);
        reply := Respond(bytes);
    }
  }

  /**
   * One accepted connection (lines 112-118): when `recv` fails or the
   * received bytes are not UTF-8 nothing is written; otherwise the response
   * to the request is written, unless handling it panicked.
   */
  method ServeConnection(buf: array<byte>, received: Option<nat>, validUtf8: seq<byte> -> bool, env: Env)
    returns (outcome: Outcome)
    requires buf.Length == BUF_SIZE
    requires received.Some? ==> received.value <= buf.Length
    ensures received.None? ==> outcome == Dropped
    ensures received.Some? && !validUtf8(buf[..received.value]) ==> outcome == Dropped
    ensures received.Some? && validUtf8(buf[..received.value]) ==>
      outcome == match Response(buf[..received.value], env)
                 case Respond(bytes) => Answered(bytes)
                 case Panicked => WorkerDied
  {
    match received {
      case None =>
        outcome := Dropped;
      case Some(sz) =>
        var req := buf[0..sz];
        if validUtf8(req) {
          var reply := HandleRequest(req, env);
          outcome := if reply.Respond? then Answered(reply.bytes) else WorkerDied;
        } else {
          outcome := Dropped;
        }
    }
  }

  /**
   * A readable directory yields a 200 text/html response whose body is the
   * page around the anchors of the readable entries, in enumeration order;
   * one that cannot be opened yields exactly the 404 response.
   */
  lemma DirReplyReads(entries: seq<Entry>)
    ensures DirReply(None) == NOT_FOUND
    ensures ReadOk(DirReply(Some(entries))) == Some(Message(TEXT_HTML, Page(Anchors(Readable(entries)))))
  {
    assert NL !in TEXT_HTML;
    LinksAreAnchorsOfReadable(entries);
    OkResponseReads(TEXT_HTML, Page(Links(entries)));
  }

  /**
   * A readable file yields a 200 response whose body is the file's bytes
   * and whose content type is the MIME essence of the path; an unreadable
   * one yields exactly the 404 response.
   */
  lemma FileReplyReads(path: seq<byte>, env: Env)
    requires NL !in env.mimeEssence(path)
    ensures env.readFile(path).None? ==> FileReply(path, env) == NOT_FOUND
    ensures env.readFile(path).Some? ==>
      ReadOk(FileReply(path, env)) == Some(Message(env.mimeEssence(path), env.readFile(path).value))
  {
    if env.readFile(path).Some? {
      OkResponseReads(env.mimeEssence(path), env.readFile(path).value);
    }
  }

  /** `handle_request` panics, and the worker process ends, exactly on the requests of `PanicsOn`. */
  lemma PanicsExactly(req: seq<byte>, env: Env)
    ensures Response(req, env) == Panicked <==> PanicsOn(req)
  {
    CrashExactly(req, env.isDir);
  }

  /** Requests that do not start with "GET" get exactly the 400 response. */
  lemma NonGetIsBadRequest(req: seq<byte>, env: Env)
    requires !(GET <= req)
    ensures Response(req, env) == Respond(BAD_REQUEST)
  {
  }

  /** A "GET" request with no space after byte 4 gets exactly the 400 response. */
  lemma NoPathEndIsBadRequest(req: seq<byte>, env: Env)
    requires GET <= req && IsCharBoundary(req, PATH_START)
    requires SPACE !in req[PATH_START..]
    ensures Response(req, env) == Respond(BAD_REQUEST)
  {
    BadRequestExactly(req, env.isDir);
  }

  /** Once the path is parsed, the response depends on the path alone. */
  lemma ServedFromPath(req: seq<byte>, url: seq<byte>, env: Env)
    requires ParseRequestLine(req) == Url(url)
    ensures Response(req, env) == match Dispatch(url, env.isDir)
      case ListDir(dir) => Respond(DirReply(env.readDir(dir)))
      case SendFile(path) => Respond(FileReply(path, env))
      case _ => Panicked
  {
  }

  /**
   * End to end: a request line "GET" + any byte + a path + a space is
   * answered from the path minus its first byte, by a listing when that is
   * a directory and by the file's exact bytes otherwise.
   */
  lemma ServesPath(sep: byte, url: seq<byte>, rest: seq<byte>, env: Env)
    requires SPACE !in url && url != ROOT
    requires IsCharBoundary(url, 1) && !(0x80 <= url[0] < 0xC0)
    requires NL !in env.mimeEssence(url[1..])
    ensures var target := url[1..];
      var r := Response(GET + [sep] + url + [SPACE] + rest, env);
      r.Respond? &&
      (env.isDir(target) ==> r.bytes == DirReply(env.readDir(target))) &&
      (!env.isDir(target) && env.readFile(target).Some? ==>
         ReadOk(r.bytes) == Some(Message(env.mimeEssence(target), env.readFile(target).value))) &&
      (!env.isDir(target) && env.readFile(target).None? ==> r.bytes == NOT_FOUND)
  {
    var req := GET + [sep] + url + [SPACE] + rest;
    var target := url[1..];
    ParsesEveryRequestLine(sep, url, rest);
    ServedFromPath(req, url, env);
    assert Dispatch(url, env.isDir) == if env.isDir(target) then ListDir(target) else SendFile(target);
    FileReplyReads(target, env);
  }

  /** End to end: "GET" + any byte + "/" + a space lists the working directory. */
  lemma ServesRoot(sep: byte, rest: seq<byte>, env: Env)
    ensures Response(GET + [sep] + ROOT + [SPACE] + rest, env) == Respond(DirReply(env.readDir(CURRENT_DIR)))
  {
    ParsesEveryRequestLine(sep, ROOT, rest);
  }
}
