/** The hand-formatted responses: `statusNotFoundResponse`, `statusOKResponse`, and the
    fixed replies of the root and file-upload routes. */
module Responses {
  import opened Wrappers
  import opened GoStrings
  import opened StrConv

  const CRLF: Bytes := "\r\n"

  /** The root route's reply, with the extra CRLF the source writes after the blank line. */
  const RootReply: Bytes := "HTTP/1.1 200 OK\r\n\r\n\r\n"
  /** `statusNotFoundResponse`. */
  const NotFoundReply: Bytes := "HTTP/1.1 404 Not Found\r\n\r\n"
  /** The reply to a stored upload. */
  const CreatedReply: Bytes := "HTTP/1.1 201 Created\r\n\r\n"

  const OKWithType: Bytes := "HTTP/1.1 200 OK\r\nContent-Type: "
  const LengthName: Bytes := "Content-Length: "

  /** `statusOKResponse(contentType, body)`: the 200 status line, the two headers, a
      blank line, then the body bytes verbatim. */
  function StatusOK(contentType: Bytes, body: Bytes): (r: Bytes)
    ensures HasPrefix(r, OKWithType)
    ensures |body| <= |r| && r[|r| - |body|..] == body
  {
    OKWithType + contentType + CRLF + LengthName + Itoa(|body|) + CRLF + CRLF + body
  }

  /** The text up to the first CR, which must be followed by LF, and what follows the
      CRLF. */
  function SplitLine(s: Bytes): (r: Option<(Bytes, Bytes)>)
    ensures r.Some? ==> '\r' !in r.value.0 && r.value.0 + CRLF + r.value.1 == s
  {
    if s == [] then None
    else if s[0] == '\r' then
      if |s| >= 2 && s[1] == '\n' then Some(([], s[2..])) else None
    else
      match SplitLine(s[1..])
      case None => None
      case Some((line, after)) => Some(([s[0]] + line, after))
  }

  lemma {:induction false} SplitLineOf(line: Bytes, after: Bytes)
    requires '\r' !in line
    ensures SplitLine(line + CRLF + after) == Some((line, after))
  {
    var s := line + CRLF + after;
    if line == [] {
      assert s[2..] == after;
    } else {
      assert s[1..] == line[1..] + CRLF + after;
      SplitLineOf(line[1..], after);
      assert [line[0]] + line[1..] == line;
    }
  }

  /** How a client reads a 200 reply with Content-Type and Content-Length: the content
      type, and the body, which must be exactly as long as Content-Length says and end
      the reply. */
  function ReadOK(r: Bytes): Option<(Bytes, Bytes)> {
    if !HasPrefix(r, OKWithType) then None
    else
      match SplitLine(r[|OKWithType|..])
      case None => None
      case Some((contentType, afterType)) =>
        if !HasPrefix(afterType, LengthName) then None
        else
          match SplitLine(afterType[|LengthName|..])
          case None => None
          case Some((length, afterLength)) =>
            if !HasPrefix(afterLength, CRLF) then None
            else
              match Atoi(length)
              case None => None
              case Some(n) =>
                if n == |afterLength| - 2 then Some((contentType, afterLength[2..])) else None
  }

  /** A 200 reply frames its body correctly: it ends with the body verbatim, and its
      Content-Length is the byte length of that body, so a client reading it gets back
      the content type and the body. */
  lemma StatusOKFraming(contentType: Bytes, body: Bytes)
    requires '\r' !in contentType
    requires |body| <= MaxInt
    ensures var r := StatusOK(contentType, body);
      |body| <= |r| && r[|r| - |body|..] == body && ReadOK(r) == Some((contentType, body))
  {
    var r := StatusOK(contentType, body);
    var length := Itoa(|body|);
    var afterLength := CRLF + body;
    var afterType := LengthName + length + CRLF + afterLength;
    assert r == OKWithType + (contentType + CRLF + afterType);
    assert r[|OKWithType|..] == contentType + CRLF + afterType;
    SplitLineOf(contentType, afterType);
    assert afterType[|LengthName|..] == length + CRLF + afterLength;
    assert '\r' !in length by {
      assert forall i :: 0 <= i < |length| ==> IsDigit(length[i]);
    }
    SplitLineOf(length, afterLength);
    AtoiItoa(|body|);
    assert afterLength[2..] == body;
  }
}
