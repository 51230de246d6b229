/**
 * The request line and where it leads: `handle_request` checks for the
 * prefix "GET", takes the path from byte 4 up to the next space, and sends
 * "/" to a listing of the working directory and any other path, minus its
 * first byte, to a directory listing or a file read.
 */
module Request {
  import opened Wrappers
  import opened Bytes

  const GET := Ascii("GET")
  /** The path starts after "GET" and one more byte, which is never examined. */
  const PATH_START: nat := 4
  const ROOT := Ascii("/")
  const CURRENT_DIR := Ascii(".")

  /** The three outcomes of reading the request line. */
  datatype Parsed =
    | Malformed            // no "GET" prefix, or no space after the path
    | BadSlice             // `req[4..]` panics: offset 4 is past the end or inside a character
    | Url(url: seq<byte>)  // the bytes from offset 4 up to the first space at or after it

  /**
   * Lines 68-70 of src/main.rs. The slice `req[4..]` panics exactly when
   * offset 4 is not a boundary; without a panic the line is malformed
   * exactly when no space sits at or after offset 4, and otherwise the path is taken
   * verbatim: the bytes from offset 4, free of spaces, up to a space.
   * Query strings, `%` escapes and `..` segments pass through untouched.
   */
  function ParseRequestLine(req: seq<byte>): (r: Parsed)
    ensures r == BadSlice <==> GET <= req && !IsCharBoundary(req, PATH_START)
    ensures r == Malformed <==>
      !(GET <= req) || (IsCharBoundary(req, PATH_START) && SPACE !in req[PATH_START..])
    ensures r.Url? ==>
      GET <= req && PATH_START + |r.url| < |req| &&
      req[PATH_START..PATH_START + |r.url|] == r.url &&
      req[PATH_START + |r.url|] == SPACE && SPACE !in r.url
  {
    if !(GET <= req) then Malformed
    else if !IsCharBoundary(req, PATH_START) then BadSlice
    else
      match Find(req[PATH_START..], SPACE)
      case None => Malformed
      case Some(i) =>
        assert req[PATH_START..][..i] == req[PATH_START..PATH_START + i];
        assert req[PATH_START..][i] == req[PATH_START + i];
        Url(req[PATH_START..PATH_START + i])
  }

  /** What the server does with a request. */
  datatype Route =
    | BadRequest
    | Crash                  // a string slice panics, which ends the worker process
    | ListDir(dir: seq<byte>)
    | SendFile(path: seq<byte>)

  /**
   * Lines 71-78 of src/main.rs: "/" lists "."; any other path loses its
   * first byte (`url[1..]`, which panics on an empty path or when byte 1
   * is inside a character) and goes to a listing when the file system says
   * it is a directory, to a file read otherwise.
   */
  function Dispatch(url: seq<byte>, isDir: seq<byte> -> bool): Route {
    if url == ROOT then ListDir(CURRENT_DIR)
    else if !IsCharBoundary(url, 1) then Crash
    else if isDir(url[1..]) then ListDir(url[1..])
    else SendFile(url[1..])
  }

  function RouteOf(req: seq<byte>, isDir: seq<byte> -> bool): Route {
    match ParseRequestLine(req)
    case Malformed => BadRequest
    case BadSlice => Crash
    case Url(url) => Dispatch(url, isDir)
  }

  /**
   * A request is answered 400 exactly when it does not start with "GET",
   * or when it does, offset 4 can be sliced at, and no space sits at or
   * after offset 4.
   */
  lemma BadRequestExactly(req: seq<byte>, isDir: seq<byte> -> bool)
    ensures RouteOf(req, isDir) == BadRequest <==>
      !(GET <= req) || (IsCharBoundary(req, PATH_START) && SPACE !in req[PATH_START..])
  {
    if GET <= req && IsCharBoundary(req, PATH_START) && SPACE in req[PATH_START..] {
      var url := ParseRequestLine(req).url;
      assert Dispatch(url, isDir) != BadRequest;
    }
  }

  /**
   * The requests that end the worker: they start with "GET", and either
   * `req[4..]` panics, or a space sits at or after offset 4 and `url[1..]` panics
   * because the path is empty (byte 4 is the space) or its byte 1 (the
   * request's byte 5) is a UTF-8 continuation byte.
   */
  predicate PanicsOn(req: seq<byte>) {
    GET <= req &&
    (!IsCharBoundary(req, PATH_START) ||
     (SPACE in req[PATH_START..] &&
      (req[PATH_START] == SPACE ||
       (PATH_START + 1 < |req| && 0x80 <= req[PATH_START + 1] < 0xC0))))
  }

  /** A request is routed to a panic exactly when it is one of `PanicsOn`. */
  lemma CrashExactly(req: seq<byte>, isDir: seq<byte> -> bool)
    ensures RouteOf(req, isDir) == Crash <==> PanicsOn(req)
  {
    var p := ParseRequestLine(req);
    if p.Url? {
      var url := p.url;
      assert url != [] ==> url[0] == req[PATH_START];
      if |url| == 1 {
        assert req[PATH_START + 1] == SPACE;
      } else if |url| >= 2 {
        assert url[1] == req[PATH_START + 1];
      }
    }
  }

  /**
   * Every request line "GET" + any byte + a path without spaces + a space
   * parses to exactly that path, provided the path's first byte is not a
   * UTF-8 continuation byte.
   */
  lemma ParsesEveryRequestLine(sep: byte, url: seq<byte>, rest: seq<byte>)
    requires SPACE !in url
    requires url == [] || !(0x80 <= url[0] < 0xC0)
    ensures ParseRequestLine(GET + [sep] + url + [SPACE] + rest) == Url(url)
  {
    var req := GET + [sep] + url + [SPACE] + rest;
    assert req[..|GET|] == GET;
    var tail := req[PATH_START..];
    assert tail == url + [SPACE] + rest;
    assert tail[..|url|] == url;
    FindFirst(tail, SPACE, |url|);
    assert req[PATH_START..PATH_START + |url|] == url;
  }

  /** Example of `CrashExactly`: the request "GET" alone panics on `req[4..]`. */
  lemma BareGetCrashes(isDir: seq<byte> -> bool)
    ensures RouteOf(GET, isDir) == Crash
  {
  }

  /** Two spaces after "GET" give an empty path, and `url[1..]` panics on it. */
  lemma EmptyPathCrashes(sep: byte, rest: seq<byte>, isDir: seq<byte> -> bool)
    ensures RouteOf(GET + [sep] + [SPACE] + rest, isDir) == Crash
  {
    ParsesEveryRequestLine(sep, [], rest);
    assert GET + [sep] + [] + [SPACE] + rest == GET + [sep] + [SPACE] + rest;
  }

  /** Example: a request whose path is "/" lists the working directory ".". */
  lemma RootListsCurrentDir(req: seq<byte>, isDir: seq<byte> -> bool)
    requires ParseRequestLine(req) == Url(ROOT)
    ensures RouteOf(req, isDir) == ListDir(CURRENT_DIR)
  {
  }

  /**
   * Any path other than "/" that does not crash is served from the path
   * minus exactly its first byte, as a listing exactly when the file
   * system reports a directory there.
   */
  lemma DispatchDropsFirstByte(url: seq<byte>, isDir: seq<byte> -> bool)
    requires url != ROOT
    ensures Dispatch(url, isDir) == Crash <==> !IsCharBoundary(url, 1)
    ensures IsCharBoundary(url, 1) ==>
      Dispatch(url, isDir) == if isDir(url[1..]) then ListDir(url[1..]) else SendFile(url[1..])
  {
  }
}
