/**
 * The bytes the server writes back: a 200 response framed as
 * `HTTP/1.1 200 OK\nContent-Type: <t>\nContent-Length: <n>\n\n<body>`,
 * and the two fixed error responses, which have no blank line and no body.
 */
module Wire {
  import opened Wrappers
  import opened Bytes
  import opened Decimal

  const VERSION := Ascii("HTTP/1.1 ")
  const TYPE_FIELD := [NL] + Ascii("Content-Type: ")
  const LENGTH_FIELD := [NL] + Ascii("Content-Length: ")
  const BLANK_LINE := [NL, NL]

  const STATUS_OK := VERSION + Ascii("200 OK") + TYPE_FIELD

  const TEXT_HTML := Ascii("text/html")
  const TEXT_PLAIN := Ascii("text/plain")

  /** The header lines shared by both error responses, with the one line feed that ends them. */
  const EMPTY_PLAIN := TYPE_FIELD + TEXT_PLAIN + LENGTH_FIELD + Ascii("0") + [NL]

  const NOT_FOUND := VERSION + Ascii("404 NOT FOUND") + EMPTY_PLAIN
  const BAD_REQUEST := VERSION + Ascii("400 BAD REQUEST") + EMPTY_PLAIN

  /** The header block of a 200 response whose body is `length` bytes long. */
  function Header(contentType: seq<byte>, length: nat): seq<byte> {
    STATUS_OK + contentType + LENGTH_FIELD + Render(length) + BLANK_LINE
  }

  /** A 200 response: the header followed by the body, as the two `extend` calls build it. */
  function OkResponse(contentType: seq<byte>, body: seq<byte>): seq<byte> {
    Header(contentType, |body|) + body
  }

  /** What a client reads out of a 200 response. */
  datatype Message = Message(contentType: seq<byte>, body: seq<byte>)

  /**
   * A client's reading of a 200 response: the fixed status line, a
   * Content-Type line, a Content-Length line whose value is a canonical
   * decimal number, a blank line, and then exactly that many body bytes.
   */
  function ReadOk(r: seq<byte>): Option<Message> {
    if STATUS_OK <= r then ReadType(r[|STATUS_OK|..]) else None
  }

  /** The Content-Type value runs up to the next line feed, which starts the Content-Length line. */
  function ReadType(s: seq<byte>): Option<Message> {
    match Find(s, NL)
    case None => None
    case Some(i) =>
      if LENGTH_FIELD <= s[i..] then ReadLength(s[..i], s[i + |LENGTH_FIELD|..]) else None
  }

  /** The Content-Length value runs up to the blank line. */
  function ReadLength(contentType: seq<byte>, s: seq<byte>): Option<Message> {
    match Find(s, NL)
    case None => None
    case Some(j) =>
      if IsCanonical(s[..j]) && BLANK_LINE <= s[j..]
      then ReadBody(contentType, Value(s[..j]), s[j + |BLANK_LINE|..])
      else None
  }

  /** The body is everything after the blank line, and must be as long as announced. */
  function ReadBody(contentType: seq<byte>, length: nat, body: seq<byte>): Option<Message> {
    if |body| == length then Some(Message(contentType, body)) else None
  }

  lemma ReadLengthOfDigits(contentType: seq<byte>, digits: seq<byte>, body: seq<byte>)
    requires IsCanonical(digits) && Value(digits) == |body|
    ensures ReadLength(contentType, digits + BLANK_LINE + body) == Some(Message(contentType, body))
  {
    var s := digits + BLANK_LINE + body;
    assert NL !in digits by {
      forall k | 0 <= k < |digits| ensures digits[k] != NL {
        assert IsDigit(digits[k]);
      }
    }
    assert s[..|digits|] == digits;
    FindFirst(s, NL, |digits|);
    assert s[|digits|..] == BLANK_LINE + body;
    assert s[|digits| + |BLANK_LINE|..] == body;
  }

  lemma ReadTypeOfLine(contentType: seq<byte>, rest: seq<byte>)
    requires NL !in contentType
    ensures ReadType(contentType + LENGTH_FIELD + rest) == ReadLength(contentType, rest)
  {
    var s := contentType + LENGTH_FIELD + rest;
    assert s[..|contentType|] == contentType;
    FindFirst(s, NL, |contentType|);
    assert s[|contentType|..] == LENGTH_FIELD + rest;
    assert s[|contentType| + |LENGTH_FIELD|..] == rest;
  }

  /**
   * A 200 response reads back as its content type and body: the
   * Content-Length field is the decimal length of the body and the header
   * ends in a blank line. The content type must fit on one line.
   */
  lemma OkResponseReads(contentType: seq<byte>, body: seq<byte>)
    requires NL !in contentType
    ensures ReadOk(OkResponse(contentType, body)) == Some(Message(contentType, body))
  {
    var digits := Render(|body|);
    var rest := contentType + LENGTH_FIELD + (digits + BLANK_LINE + body);
    assert OkResponse(contentType, body) == STATUS_OK + rest;
    assert (STATUS_OK + rest)[|STATUS_OK|..] == rest;
    ReadLengthOfDigits(contentType, digits, body);
    ReadTypeOfLine(contentType, digits + BLANK_LINE + body);
  }

  lemma ReadLengthIsExact(contentType: seq<byte>, s: seq<byte>, m: Message)
    requires ReadLength(contentType, s) == Some(m)
    ensures m.contentType == contentType
    ensures |m.body| + |BLANK_LINE| <= |s|
    ensures IsCanonical(s[..|s| - |m.body| - |BLANK_LINE|])
    ensures Value(s[..|s| - |m.body| - |BLANK_LINE|]) == |m.body|
    ensures s == s[..|s| - |m.body| - |BLANK_LINE|] + BLANK_LINE + m.body
  {
    var j := Find(s, NL).value;
    assert s[j..] == BLANK_LINE + s[j + |BLANK_LINE|..];
    assert s == s[..j] + s[j..];
  }

  lemma ReadTypeIsExact(s: seq<byte>, m: Message)
    requires ReadType(s) == Some(m)
    ensures NL !in m.contentType
    ensures |m.contentType| + |LENGTH_FIELD| <= |s|
    ensures s == m.contentType + LENGTH_FIELD + s[|m.contentType| + |LENGTH_FIELD|..]
    ensures ReadLength(m.contentType, s[|m.contentType| + |LENGTH_FIELD|..]) == Some(m)
  {
    var i := Find(s, NL).value;
    var rest := s[i + |LENGTH_FIELD|..];
    ReadLengthIsExact(s[..i], rest, m);
    assert m.contentType == s[..i];
    PrefixRest(LENGTH_FIELD, s[i..]);
    assert s[i..][|LENGTH_FIELD|..] == rest;
    SplitAt(s, i, LENGTH_FIELD, rest);
  }

  lemma ReadOkSplits(r: seq<byte>, m: Message)
    requires ReadOk(r) == Some(m)
    ensures r == STATUS_OK + r[|STATUS_OK|..]
    ensures r[|STATUS_OK|..] == m.contentType + LENGTH_FIELD + r[|STATUS_OK|..][|m.contentType| + |LENGTH_FIELD|..]
  {
    PrefixRest(STATUS_OK, r);
    ReadTypeIsExact(r[|STATUS_OK|..], m);
  }

  lemma Reassemble(r: seq<byte>, x: seq<byte>, contentType: seq<byte>, rest: seq<byte>, digits: seq<byte>, body: seq<byte>)
    requires r == STATUS_OK + x && x == contentType + LENGTH_FIELD + rest && rest == digits + BLANK_LINE + body
    ensures r == STATUS_OK + contentType + LENGTH_FIELD + digits + BLANK_LINE + body
  {
  }

  /**
   * The converse: anything that reads as a 200 message is exactly that
   * message's response, byte for byte, so the framing is one-to-one.
   */
  lemma ReadOkIsExact(r: seq<byte>, m: Message)
    requires ReadOk(r) == Some(m)
    ensures NL !in m.contentType
    ensures r == OkResponse(m.contentType, m.body)
  {
    ReadOkSplits(r, m);
    var afterStatus := r[|STATUS_OK|..];
    ReadTypeIsExact(afterStatus, m);
    var rest := afterStatus[|m.contentType| + |LENGTH_FIELD|..];
    ReadLengthIsExact(m.contentType, rest, m);
    var digits := rest[..|rest| - |m.body| - |BLANK_LINE|];
    CanonicalIsRendered(digits);
    Reassemble(r, afterStatus, m.contentType, rest, digits, m.body);
  }

  /**
   * Neither error response reads as a 200 response (the status code starts
   * with '4', not '2'), and each ends in a single line feed, without the
   * blank line that ends every 200 header.
   */
  lemma ErrorResponsesShape()
    ensures ReadOk(NOT_FOUND) == None && ReadOk(BAD_REQUEST) == None
    ensures NOT_FOUND[|NOT_FOUND| - 1] == NL && NOT_FOUND[|NOT_FOUND| - 2] != NL
    ensures BAD_REQUEST[|BAD_REQUEST| - 1] == NL && BAD_REQUEST[|BAD_REQUEST| - 2] != NL
  {
    assert STATUS_OK[|VERSION|] != NOT_FOUND[|VERSION|];
    assert STATUS_OK[|VERSION|] != BAD_REQUEST[|VERSION|];
  }

  /** Every 200 header ends in a blank line. */
  lemma HeaderEndsInBlankLine(contentType: seq<byte>, length: nat)
    ensures |Header(contentType, length)| >= 2
    ensures Header(contentType, length)[|Header(contentType, length)| - 2..] == [NL, NL]
  {
  }
}
