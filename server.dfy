/** `application` and its handlers as the source runs them: they read the connection
    step by step, keep the parsed method and target in the application's fields, write
    the reply to the connection and change the file store in place. Each method is proved
    against the functions of module Handlers. */
module Server {
  import opened Wrappers
  import opened GoStrings
  import opened StrConv
  import opened Headers
  import opened Request
  import opened Routing
  import opened Responses
  import opened Files
  import opened Handlers

  /** A connection: what it delivers, and every byte written to it so far. */
  class Conn {
    const input: Incoming
    var written: Bytes

    constructor (input: Incoming)
      ensures this.input == input && written == []
    {
      this.input := input;
      written := [];
    }

    /** `conn.Write`; the source ignores its result, and so the model has none. */
    method Write(b: Bytes)
      modifies this
      ensures written == old(written) + b
    {
      written := written + b;
    }
  }

  /** How far the reader has got: before the request line, before the header block, or
      in the bytes after it. */
  datatype Stage = AtLine | AtHeader | AtBody

  /** `textproto.Reader` over a connection's input. Each read advances it. */
  class Reader {
    const input: Incoming
    var stage: Stage
    /** The bytes after the header block that have not been read yet. */
    var rest: Bytes

    constructor (input: Incoming)
      ensures this.input == input && stage == AtLine && rest == input.rest
    {
      this.input := input;
      stage := AtLine;
      rest := input.rest;
    }

    /** `ReadLine`: the request line, or None when it cannot be read. */
    method ReadLine() returns (line: Option<Bytes>)
      requires stage == AtLine
      modifies this
      ensures line == input.line && stage == AtHeader && rest == old(rest)
    {
      line := input.line;
      stage := AtHeader;
    }

    /** `ReadMIMEHeader`: the header block, or None when it cannot be read. */
    method ReadMIMEHeader() returns (header: Option<seq<Field>>)
      requires stage == AtHeader
      modifies this
      ensures header == input.header && stage == AtBody && rest == old(rest)
    {
      header := input.header;
      stage := AtBody;
    }

    /** `io.ReadFull(tp.R, buf)`: fills all of `buf` from the stream, or reports that the
        stream ended first (having consumed what there was). */
    method ReadFull(buf: array<Byte>) returns (ok: bool)
      requires stage == AtBody
      modifies this, buf
      ensures stage == AtBody
      ensures ok == (buf.Length <= |old(rest)|)
      ensures ok ==> buf[..] == old(rest)[..buf.Length] && rest == old(rest)[buf.Length..]
      ensures !ok ==> rest == []
    {
      ok := buf.Length <= |rest|;
      if ok {
        forall i | 0 <= i < buf.Length {
          buf[i] := rest[i];
        }
        rest := rest[buf.Length..];
      } else {
        rest := [];
      }
    }
  }

  /** `statusNotFoundResponse`. */
  method StatusNotFoundResponse(conn: Conn)
    modifies conn
    ensures conn.written == old(conn.written) + NotFoundReply
  {
    conn.Write(NotFoundReply);
  }

  /** `statusOKResponse`. */
  method StatusOKResponse(conn: Conn, contentType: Bytes, body: Bytes)
    modifies conn
    ensures conn.written == old(conn.written) + StatusOK(contentType, body)
  {
    conn.Write(StatusOK(contentType, body));
  }

  /** `application`: the base directory, and the method and target of the request being
      handled, which `HandleConn` sets and the handlers read. */
  class Application {
    var filesDir: Bytes
    var requestURL: Bytes
    var requestMethod: Bytes

    constructor (filesDir: Bytes)
      ensures this.filesDir == filesDir && requestURL == [] && requestMethod == []
    {
      this.filesDir := filesDir;
      requestURL := [];
      requestMethod := [];
    }

    /** `handleConn`: one request, one reply at most. The bytes written, the store
        afterwards and the error are those `Serve` gives; on an error nothing is written
        and the store is unchanged. */
    method HandleConn(conn: Conn, fs: FileSystem) returns (err: Option<Error>)
      modifies this, conn, fs
      ensures filesDir == old(filesDir)
      ensures var o := Serve(filesDir, conn.input, old(fs.Model()));
        && conn.written == old(conn.written) + o.Written()
        && fs.Model() == (if o.Done? then o.store else old(fs.Model()))
        && err == (if o.Failed? then Some(o.error) else None)
      ensures match ParseRequestLine(conn.input.line)
        case Ok(rl) => requestMethod == rl.verb && requestURL == rl.target
        case Err(_) => requestMethod == old(requestMethod) && requestURL == old(requestURL)
    {
      var tp := new Reader(conn.input);
      var data := tp.ReadLine();
      if data.None? {
        return Some(ReadLineFailed);
      }
      if data.value == [] {
        return Some(EmptyRequestLine);
      }
      var requestLine := Split(data.value, SP);
      if |requestLine| != 3 {
        return Some(InvalidRequestLine);
      }
      var path := requestLine[1];
      requestMethod := requestLine[0];
      requestURL := requestLine[1];
      match Dispatch(data.value, path) {
        case Root =>
          conn.Write(RootReply);
          err := None;
        case FileGet =>
          err := FileHandler(conn, fs);
        case FilePost =>
          err := PostFileHandler(conn, tp, fs);
        case Echo =>
          err := EchoHandler(conn);
        case UserAgent =>
          err := UserAgentHandler(conn, tp);
        case NotFound =>
          StatusNotFoundResponse(conn);
          err := None;
      }
    }

    /** `userAgentHandler`. */
    method UserAgentHandler(conn: Conn, tp: Reader) returns (err: Option<Error>)
      requires tp.stage == AtHeader
      modifies conn, tp
      ensures tp.stage == AtBody && tp.rest == old(tp.rest)
      ensures match UserAgentReply(tp.input.header)
        case Ok(reply) => err == None && conn.written == old(conn.written) + reply
        case Err(e) => err == Some(e) && conn.written == old(conn.written)
    {
      var headers := tp.ReadMIMEHeader();
      if headers.None? {
        return Some(HeaderReadFailed);
      }
      var userAgent := Get(headers.value, UserAgentKey);
      StatusOKResponse(conn, TextPlain, userAgent);
      err := None;
    }

    /** `postFileHandler`. */
    method PostFileHandler(conn: Conn, tp: Reader, fs: FileSystem) returns (err: Option<Error>)
      requires tp.stage == AtHeader && tp.rest == tp.input.rest
      modifies conn, tp, fs
      ensures tp.stage == AtBody
      ensures var header := tp.input.header;
        if header.Some? && BodyLength(header.value).Ok? then
          var n := BodyLength(header.value).value;
          tp.rest == if n <= |tp.input.rest| then tp.input.rest[n..] else []
        else tp.rest == tp.input.rest
      ensures match FilePostResult(filesDir, requestURL, tp.input.header, tp.input.rest, old(fs.Model()))
        case Ok(s') => err == None && fs.Model() == s' && conn.written == old(conn.written) + CreatedReply
        case Err(e) => err == Some(e) && fs.Model() == old(fs.Model()) && conn.written == old(conn.written)
    {
      var headers := tp.ReadMIMEHeader();
      if headers.None? {
        return Some(HeaderReadFailed);
      }
      var contentLengthStr := Get(headers.value, ContentLengthKey);
      var contentLength: nat := 0;
      if contentLengthStr != [] {
        var parsed := Atoi(contentLengthStr);
        if parsed.None? {
          return Some(InvalidContentLength);
        }
        if parsed.value < 0 {
          return Some(NegativeContentLength);
        }
        contentLength := parsed.value;
      }
      var body := new Byte[contentLength];
      var ok := tp.ReadFull(body);
      if !ok {
        return Some(ShortBody);
      }
      var filename := TrimPrefix(requestURL, FilesPrefix);
      var written := fs.Write(Path(filesDir, filename), body[..]);
      if !written {
        return Some(FileWriteFailed);
      }
      conn.Write(CreatedReply);
      err := None;
    }

    /** `fileHandler`. */
    method FileHandler(conn: Conn, fs: FileSystem) returns (err: Option<Error>)
      modifies conn
      ensures match FileGetReply(filesDir, requestURL, fs.Model())
        case Ok(reply) => err == None && conn.written == old(conn.written) + reply
        case Err(e) => err == Some(e) && conn.written == old(conn.written)
    {
      var filename := TrimPrefix(requestURL, FilesPrefix);
      var file := fs.Read(Path(filesDir, filename));
      match file {
        case Contents(data) =>
          StatusOKResponse(conn, OctetStream, data);
          err := None;
        case NotExist =>
          StatusNotFoundResponse(conn);
          err := None;
        case ReadFailed =>
          err := Some(FileReadFailed);
      }
    }

    /** `echoHandler`, which never fails. */
    method EchoHandler(conn: Conn) returns (err: Option<Error>)
      modifies conn
      ensures err == None && conn.written == old(conn.written) + EchoReply(requestURL)
    {
      var word := TrimPrefix(requestURL, EchoPrefix);
      StatusOKResponse(conn, TextPlain, word);
      err := None;
    }
  }
}
