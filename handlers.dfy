/** What each handler of `application` answers, and `Serve`, the whole of
    `application.handleConn` as a function of the connection's input and the file store. */
module Handlers {
  import opened Wrappers
  import opened GoStrings
  import opened StrConv
  import opened Headers
  import opened Request
  import opened Routing
  import opened Responses
  import opened Files

  const TextPlain: Bytes := "text/plain"
  const OctetStream: Bytes := "application/octet-stream"
  const UserAgentKey: Bytes := "User-Agent"
  const ContentLengthKey: Bytes := "Content-Length"

  /** `echoHandler`: the target after "/echo/", verbatim, as a text/plain 200. */
  function EchoReply(url: Bytes): (r: Bytes)
    ensures var word := TrimPrefix(url, EchoPrefix);
      HasPrefix(r, OKWithType + TextPlain) && |word| <= |r| && r[|r| - |word|..] == word
  {
    assert StatusOK(TextPlain, TrimPrefix(url, EchoPrefix))[..|OKWithType + TextPlain|] == OKWithType + TextPlain;
    StatusOK(TextPlain, TrimPrefix(url, EchoPrefix))
  }

  /** `userAgentHandler`: reads the header block; the User-Agent value (empty when
      absent) as a text/plain 200. */
  function UserAgentReply(header: Option<seq<Field>>): (r: Result<Bytes, Error>)
    ensures r.Err? <==> header.None?
    ensures r.Err? ==> r.error == HeaderReadFailed
    ensures r.Ok? ==> HasPrefix(r.value, OKWithType + TextPlain)
    ensures r.Ok? ==> var agent := Get(header.value, UserAgentKey);
      |agent| <= |r.value| && r.value[|r.value| - |agent|..] == agent
  {
    match header
    case None => Err(HeaderReadFailed)
    case Some(fields) =>
      assert StatusOK(TextPlain, Get(fields, UserAgentKey))[..|OKWithType + TextPlain|] == OKWithType + TextPlain;
      Ok(StatusOK(TextPlain, Get(fields, UserAgentKey)))
  }

  /** The file a "/files/" target names under the base directory. */
  function FilePath(dir: Bytes, url: Bytes): (p: Path)
    ensures p.dir == dir
    ensures HasPrefix(url, FilesPrefix) ==> FilesPrefix + p.name == url
    ensures !HasPrefix(url, FilesPrefix) ==> p.name == url
  {
    Path(dir, TrimPrefix(url, FilesPrefix))
  }

  /** `fileHandler`: the file's bytes as an application/octet-stream 200, the 404 reply
      when it does not exist, and an error for any other read failure. */
  function FileGetReply(dir: Bytes, url: Bytes, s: Store): (r: Result<Bytes, Error>)
    ensures r.Err? <==> ReadFile(s, FilePath(dir, url)).ReadFailed?
    ensures r.Err? ==> r.error == FileReadFailed
    ensures r == Ok(NotFoundReply) <==> ReadFile(s, FilePath(dir, url)).NotExist?
    ensures ReadFile(s, FilePath(dir, url)).Contents? ==> var data := ReadFile(s, FilePath(dir, url)).data;
      r.Ok? && HasPrefix(r.value, OKWithType) && |data| <= |r.value| && r.value[|r.value| - |data|..] == data
  {
    match ReadFile(s, FilePath(dir, url))
    case Contents(data) => Ok(StatusOK(OctetStream, data))
    case NotExist => Ok(NotFoundReply)
    case ReadFailed => Err(FileReadFailed)
  }

  /** The body length an upload announces: 0 when Content-Length is absent or empty,
      otherwise its `strconv.Atoi` value, which must not be negative. */
  function BodyLength(fields: seq<Field>): (r: Result<nat, Error>)
    ensures Get(fields, ContentLengthKey) == [] ==> r == Ok(0)
    ensures Get(fields, ContentLengthKey) != [] && r.Ok? ==> Atoi(Get(fields, ContentLengthKey)) == Some(r.value)
    ensures r.Err? <==> Get(fields, ContentLengthKey) != [] && (Atoi(Get(fields, ContentLengthKey)).None? || Atoi(Get(fields, ContentLengthKey)).value < 0)
  {
    var text := Get(fields, ContentLengthKey);
    if text == [] then Ok(0)
    else
      match Atoi(text)
      case None => Err(InvalidContentLength)
      case Some(n) => if n < 0 then Err(NegativeContentLength) else Ok(n)
  }

  /** What `make([]byte, contentLength)` meets in the source: the length, a parse error
      returned before it, or a negative length, on which `make` panics. */
  datatype LengthAsWritten = Length(n: nat) | ParseError | MakePanics

  /** The Content-Length handling of `postFileHandler` exactly as written. */
  function ContentLengthAsWritten(fields: seq<Field>): (r: LengthAsWritten)
    ensures r.MakePanics? <==> Get(fields, ContentLengthKey) != [] && Atoi(Get(fields, ContentLengthKey)).Some? && Atoi(Get(fields, ContentLengthKey)).value < 0
    ensures r.ParseError? <==> Get(fields, ContentLengthKey) != [] && Atoi(Get(fields, ContentLengthKey)).None?
  {
    var text := Get(fields, ContentLengthKey);
    if text == [] then Length(0)
    else
      match Atoi(text)
      case None => ParseError
      case Some(n) => if n < 0 then MakePanics else Length(n)
  }

  /** `postFileHandler`: reads the header block, then exactly the announced number of
      body bytes, and stores them at the named file; the new store when all of that
      succeeds. */
  function FilePostResult(dir: Bytes, url: Bytes, header: Option<seq<Field>>, rest: Bytes, s: Store)
    : (r: Result<Store, Error>)
    ensures header.None? ==> r == Err(HeaderReadFailed)
    ensures r.Ok? ==>
              && header.Some? && BodyLength(header.value).Ok? && BodyLength(header.value).value <= |rest|
              && WriteFile(s, FilePath(dir, url), rest[..BodyLength(header.value).value]) == Some(r.value)
    ensures r == Err(ShortBody) <==> header.Some? && BodyLength(header.value).Ok? && |rest| < BodyLength(header.value).value
  {
    match header
    case None => Err(HeaderReadFailed)
    case Some(fields) =>
      match BodyLength(fields)
      case Err(e) => Err(e)
      case Ok(n) =>
        if |rest| < n then Err(ShortBody)
        else
          match WriteFile(s, FilePath(dir, url), rest[..n])
          case None => Err(FileWriteFailed)
          case Some(s') => Ok(s')
  }

  /** The end of one connection: the one reply written and the store afterwards, or the
      error, after which nothing has been written and the store is as it was. */
  datatype Outcome = Done(response: Bytes, store: Store) | Failed(error: Error) {
    /** The bytes written to the connection. */
    function Written(): Bytes {
      if Done? then response else []
    }
  }

  /** `application.handleConn` with base directory `dir`. */
  function Serve(dir: Bytes, input: Incoming, s: Store): (o: Outcome)
    ensures ParseRequestLine(input.line).Err? ==> o == Failed(ParseRequestLine(input.line).error)
    ensures o.Done? && o.store != s ==>
              && input.line.Some? && ParseRequestLine(input.line).Ok?
              && Dispatch(input.line.value, ParseRequestLine(input.line).value.target) == FilePost
  {
    match ParseRequestLine(input.line)
    case Err(e) => Failed(e)
    case Ok(rl) =>
      match Dispatch(input.line.value, rl.target)
      case Root => Done(RootReply, s)
      case FileGet =>
        (match FileGetReply(dir, rl.target, s)
         case Ok(reply) => Done(reply, s)
         case Err(e) => Failed(e))
      case FilePost =>
        (match FilePostResult(dir, rl.target, input.header, input.rest, s)
         case Ok(s') => Done(CreatedReply, s')
         case Err(e) => Failed(e))
      case Echo => Done(EchoReply(rl.target), s)
      case UserAgent =>
        (match UserAgentReply(input.header)
         case Ok(reply) => Done(reply, s)
         case Err(e) => Failed(e))
      case NotFound => Done(NotFoundReply, s)
  }
}
