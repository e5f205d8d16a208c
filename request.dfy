/** What the server reads from a connection, and the request-line parser of
    `application.handleConn`. */
module Request {
  import opened Wrappers
  import opened GoStrings
  import opened Headers

  /** Everything that ends a connection without a response. */
  datatype Error =
    | ReadLineFailed          // the request line could not be read
    | EmptyRequestLine
    | InvalidRequestLine      // not exactly three space-separated tokens
    | HeaderReadFailed        // ReadMIMEHeader failed
    | InvalidContentLength    // Content-Length is not a 64-bit integer (rejected by strconv.Atoi)
    | NegativeContentLength
    | ShortBody               // the stream ended before Content-Length bytes
    | FileReadFailed          // a read error other than "does not exist"
    | FileWriteFailed

  /** The input of one connection, in the pieces the server reads it in: the request line
      (None when reading it fails), the header block (None when reading it fails), and
      the bytes that follow the header block. */
  datatype Incoming = Incoming(line: Option<Bytes>, header: Option<seq<Field>>, rest: Bytes)

  /** The method token is called `verb` here, `method` being a Dafny keyword. */
  datatype RequestLine = RequestLine(verb: Bytes, target: Bytes, version: Bytes)

  /** The three tokens joined by single spaces: the line they were parsed from. */
  function Text(rl: RequestLine): Bytes {
    rl.verb + [SP] + rl.target + [SP] + rl.version
  }

  /** Request-line validation: the line must be readable, non-empty, and split on single
      spaces into exactly three tokens (verb, target, version); no token is checked
      further, and tokens may be empty. */
  function ParseRequestLine(line: Option<Bytes>): (r: Result<RequestLine, Error>)
    ensures line.None? ==> r == Err(ReadLineFailed)
    ensures line == Some([]) ==> r == Err(EmptyRequestLine)
    ensures line.Some? && line.value != [] && Count(line.value, SP) != 2 ==> r == Err(InvalidRequestLine)
    ensures r.Ok? <==> line.Some? && Count(line.value, SP) == 2
    ensures r.Ok? ==> Text(r.value) == line.value
    ensures r.Ok? ==> SP !in r.value.verb && SP !in r.value.target && SP !in r.value.version
  {
    if line.None? then Err(ReadLineFailed)
    else if line.value == [] then Err(EmptyRequestLine)
    else
      var tokens := Split(line.value, SP);
      if |tokens| != 3 then Err(InvalidRequestLine)
      else
        JoinSplit(line.value, SP);
        assert tokens == [tokens[0], tokens[1], tokens[2]];
        JoinThree(tokens[0], tokens[1], tokens[2], SP);
        Ok(RequestLine(tokens[0], tokens[1], tokens[2]))
  }

  /** Conversely, any three space-free tokens joined by single spaces are accepted and
      parse back into the same three tokens. */
  lemma ParseRequestLineOfText(rl: RequestLine)
    requires SP !in rl.verb && SP !in rl.target && SP !in rl.version
    ensures ParseRequestLine(Some(Text(rl))) == Ok(rl)
  {
    var parts := [rl.verb, rl.target, rl.version];
    JoinThree(rl.verb, rl.target, rl.version, SP);
    SplitJoin(parts, SP);
  }
}
