/** What `Serve` promises, end to end: request-line acceptance, the route table, the
    exact replies, the upload rules, and uploads read back by later downloads. */
module Properties {
  import opened Wrappers
  import opened GoStrings
  import opened StrConv
  import opened Headers
  import opened Request
  import opened Routing
  import opened Responses
  import opened Files
  import opened Handlers

  /** The connection input whose request line is `verb target version`. */
  function Input(verb: Bytes, target: Bytes, version: Bytes, header: Option<seq<Field>>, rest: Bytes)
    : Incoming
  {
    Incoming(Some(Text(RequestLine(verb, target, version))), header, rest)
  }

  /** A request line that cannot be read or is empty ends the connection with an error. */
  lemma UnreadableOrEmptyLineFails(dir: Bytes, input: Incoming, s: Store)
    ensures input.line.None? ==> Serve(dir, input, s) == Failed(ReadLineFailed)
    ensures input.line == Some([]) ==> Serve(dir, input, s) == Failed(EmptyRequestLine)
  {
  }

  /** The line is rejected as empty or malformed exactly when it does not contain exactly
      two spaces. */
  lemma MalformedLineFails(dir: Bytes, input: Incoming, s: Store)
    requires input.line.Some?
    ensures Count(input.line.value, SP) != 2
        <==> (Serve(dir, input, s) == Failed(EmptyRequestLine) || Serve(dir, input, s) == Failed(InvalidRequestLine))
  {
  }

  /** A target that matches no route is answered with exactly the 404 reply, whatever the
      rest of the input and the store. */
  lemma UnmatchedTargetIsNotFound(dir: Bytes, rl: RequestLine, header: Option<seq<Field>>, rest: Bytes, s: Store)
    requires SP !in rl.verb && SP !in rl.target && SP !in rl.version
    requires RouteOf(rl.verb, rl.target) == NotFound
    ensures Serve(dir, Input(rl.verb, rl.target, rl.version, header, rest), s) == Done(NotFoundReply, s)
  {
    DispatchFollowsTable(rl);
    ParseRequestLineOfText(rl);
  }

  /** The root target gets the fixed 200 reply, with its extra CRLF, for any method. */
  lemma RootRepliesForAnyMethod(dir: Bytes, verb: Bytes, version: Bytes, header: Option<seq<Field>>, rest: Bytes, s: Store)
    requires SP !in verb && SP !in version
    ensures Serve(dir, Input(verb, "/", version, header, rest), s) == Done(RootReply, s)
  {
    ParseRequestLineOfText(RequestLine(verb, "/", version));
  }

  /** "/echo/<word>" is answered, for any method, with `word` verbatim as a text/plain 200
      whose Content-Length is the length of `word`. */
  lemma EchoRepliesWithSuffix(dir: Bytes, verb: Bytes, word: Bytes, version: Bytes, header: Option<seq<Field>>, rest: Bytes, s: Store)
    requires SP !in verb && SP !in word && SP !in version
    ensures Serve(dir, Input(verb, EchoPrefix + word, version, header, rest), s) == Done(StatusOK(TextPlain, word), s)
  {
    var rl := RequestLine(verb, EchoPrefix + word, version);
    assert SP !in rl.target by {
      assert forall i :: 0 <= i < |rl.target| ==> rl.target[i] == if i < 6 then EchoPrefix[i] else word[i - 6];
    }
    ParseRequestLineOfText(rl);
    DispatchFollowsTable(rl);
    assert rl.target[1] == 'e';
    assert !HasPrefix(rl.target, FilesPrefix);
    assert HasPrefix(rl.target, EchoPrefix);
  }

  /** "/user-agent" is answered, for any method, with the User-Agent value (empty when
      there is none) as a text/plain 200; a header block that cannot be read is an
      error. */
  lemma UserAgentRepliesWithHeader(dir: Bytes, verb: Bytes, version: Bytes, header: Option<seq<Field>>, rest: Bytes, s: Store)
    requires SP !in verb && SP !in version
    ensures header.None? ==> Serve(dir, Input(verb, UserAgentPath, version, header, rest), s) == Failed(HeaderReadFailed)
    ensures header.Some? ==> Serve(dir, Input(verb, UserAgentPath, version, header, rest), s)
                             == Done(StatusOK(TextPlain, Get(header.value, UserAgentKey)), s)
  {
    assert SP !in UserAgentPath;
    assert UserAgentPath[1] == 'u' && !HasPrefix(UserAgentPath, FilesPrefix) && !HasPrefix(UserAgentPath, EchoPrefix);
    Routed(verb, UserAgentPath, version, header, rest);
  }

  /** The target of a file request is "/files/" followed by the file name. */
  lemma FilesTarget(name: Bytes)
    requires SP !in name
    ensures SP !in FilesPrefix + name
    ensures FilesPrefix + name != "/" && HasPrefix(FilesPrefix + name, FilesPrefix)
    ensures TrimPrefix(FilesPrefix + name, FilesPrefix) == name
  {
    var t := FilesPrefix + name;
    assert forall i :: 0 <= i < |t| ==> t[i] == if i < 7 then FilesPrefix[i] else name[i - 7];
    assert t[..7] == FilesPrefix;
  }

  /** The route a well-formed line takes, read off the table. */
  lemma Routed(verb: Bytes, target: Bytes, version: Bytes, header: Option<seq<Field>>, rest: Bytes)
    requires SP !in verb && SP !in target && SP !in version
    ensures var input := Input(verb, target, version, header, rest);
      ParseRequestLine(input.line) == Ok(RequestLine(verb, target, version))
      && Dispatch(input.line.value, target) == RouteOf(verb, target)
  {
    ParseRequestLineOfText(RequestLine(verb, target, version));
    DispatchFollowsTable(RequestLine(verb, target, version));
  }

  /** "GET /files/<name>" sends the stored bytes as an application/octet-stream 200,
      sends exactly the 404 reply when there is no such file, and ends with an error,
      writing nothing, on any other read failure; the store is not changed. */
  lemma GetServesFile(dir: Bytes, name: Bytes, version: Bytes, header: Option<seq<Field>>, rest: Bytes, s: Store)
    requires SP !in name && SP !in version
    ensures var o := Serve(dir, Input("GET", FilesPrefix + name, version, header, rest), s);
      var p := Path(dir, name);
      && (p !in s.unreadable && p in s.files ==> o == Done(StatusOK(OctetStream, s.files[p]), s))
      && (p !in s.unreadable && p !in s.files ==> o == Done(NotFoundReply, s))
      && (p in s.unreadable ==> o == Failed(FileReadFailed))
  {
    FilesTarget(name);
    Routed("GET", FilesPrefix + name, version, header, rest);
  }

  /** The outcome of "POST /files/<name>" with the given header block. */
  function Upload(dir: Bytes, name: Bytes, version: Bytes, fields: seq<Field>, rest: Bytes, s: Store): Outcome {
    Serve(dir, Input("POST", FilesPrefix + name, version, Some(fields), rest), s)
  }

  /** An upload with the announced length `n` available replaces the named file with
      exactly the first `n` bytes after the header block (other files unchanged) and
      answers with exactly the 201 reply; an unwritable file is an error. */
  lemma PostStoresBody(dir: Bytes, name: Bytes, version: Bytes, fields: seq<Field>, rest: Bytes, s: Store, n: nat)
    requires SP !in name && SP !in version
    requires BodyLength(fields) == Ok(n) && n <= |rest|
    ensures var p := Path(dir, name);
      && (p !in s.unwritable ==> Upload(dir, name, version, fields, rest, s) == Done(CreatedReply, s.(files := s.files[p := rest[..n]])))
      && (p in s.unwritable ==> Upload(dir, name, version, fields, rest, s) == Failed(FileWriteFailed))
  {
    FilesTarget(name);
    Routed("POST", FilesPrefix + name, version, Some(fields), rest);
  }

  /** An upload whose Content-Length is missing or empty stores an empty file. */
  lemma PostWithoutLengthStoresEmptyFile(dir: Bytes, name: Bytes, version: Bytes, fields: seq<Field>, rest: Bytes, s: Store)
    requires SP !in name && SP !in version
    requires Get(fields, ContentLengthKey) == []
    requires Path(dir, name) !in s.unwritable
    ensures Upload(dir, name, version, fields, rest, s) == Done(CreatedReply, s.(files := s.files[Path(dir, name) := []]))
  {
    PostStoresBody(dir, name, version, fields, rest, s, 0);
  }

  /** An upload announcing `n` bytes in decimal stores exactly `n` bytes when the stream
      has them, and is an error, storing and writing nothing, when it has fewer. */
  lemma PostWithLength(dir: Bytes, name: Bytes, version: Bytes, fields: seq<Field>, rest: Bytes, s: Store, n: nat)
    requires SP !in name && SP !in version
    requires n <= MaxInt && Get(fields, ContentLengthKey) == Itoa(n)
    requires Path(dir, name) !in s.unwritable
    ensures n <= |rest| ==> Upload(dir, name, version, fields, rest, s)
                            == Done(CreatedReply, s.(files := s.files[Path(dir, name) := rest[..n]]))
    ensures |rest| < n ==> Upload(dir, name, version, fields, rest, s) == Failed(ShortBody)
  {
    AtoiItoa(n);
    FilesTarget(name);
    Routed("POST", FilesPrefix + name, version, Some(fields), rest);
  }

  /** An upload announcing more bytes than the stream holds is an error, whatever way the
      length is written and whatever file it names: the short read comes before the
      write. */
  lemma PostShortBodyFails(dir: Bytes, name: Bytes, version: Bytes, fields: seq<Field>, rest: Bytes, s: Store, n: nat)
    requires SP !in name && SP !in version
    requires BodyLength(fields) == Ok(n) && |rest| < n
    ensures Upload(dir, name, version, fields, rest, s) == Failed(ShortBody)
  {
    FilesTarget(name);
    Routed("POST", FilesPrefix + name, version, Some(fields), rest);
  }

  /** A Content-Length that is not a 64-bit integer, or is negative, is an error: nothing is
      stored and nothing is written. */
  lemma PostRejectsBadLength(dir: Bytes, name: Bytes, version: Bytes, fields: seq<Field>, rest: Bytes, s: Store)
    requires SP !in name && SP !in version
    requires Get(fields, ContentLengthKey) != []
    ensures Atoi(Get(fields, ContentLengthKey)).None?
            ==> Upload(dir, name, version, fields, rest, s) == Failed(InvalidContentLength)
    ensures Atoi(Get(fields, ContentLengthKey)).Some? && Atoi(Get(fields, ContentLengthKey)).value < 0
            ==> Upload(dir, name, version, fields, rest, s) == Failed(NegativeContentLength)
  {
    FilesTarget(name);
    Routed("POST", FilesPrefix + name, version, Some(fields), rest);
  }

  /** An upload whose header block cannot be read is an error. */
  lemma PostWithoutHeaderFails(dir: Bytes, name: Bytes, version: Bytes, rest: Bytes, s: Store)
    requires SP !in name && SP !in version
    ensures Serve(dir, Input("POST", FilesPrefix + name, version, None, rest), s) == Failed(HeaderReadFailed)
  {
    FilesTarget(name);
    Routed("POST", FilesPrefix + name, version, None, rest);
  }

  /** Round trip: after a successful upload of `body` to `name`, a download of `name`
      returns exactly `body` as an application/octet-stream 200, unless the file cannot
      be read (a file may accept writes and refuse reads). */
  lemma PostThenGet(dir: Bytes, name: Bytes, v1: Bytes, fields: seq<Field>, rest: Bytes, s: Store, n: nat,
                    v2: Bytes, header2: Option<seq<Field>>, rest2: Bytes)
    requires SP !in name && SP !in v1 && SP !in v2
    requires BodyLength(fields) == Ok(n) && n <= |rest|
    requires Path(dir, name) !in s.unwritable
    ensures Upload(dir, name, v1, fields, rest, s).Done?
    ensures var s1 := Upload(dir, name, v1, fields, rest, s).store;
      Serve(dir, Input("GET", FilesPrefix + name, v2, header2, rest2), s1)
      == if Path(dir, name) in s.unreadable then Failed(FileReadFailed) else Done(StatusOK(OctetStream, rest[..n]), s1)
  {
    PostStoresBody(dir, name, v1, fields, rest, s, n);
    var s1 := Upload(dir, name, v1, fields, rest, s).store;
    GetServesFile(dir, name, v2, header2, rest2, s1);
  }

  /** The successful case of `PostStoresBody` on its own. */
  lemma UploadStores(dir: Bytes, name: Bytes, version: Bytes, fields: seq<Field>, rest: Bytes, s: Store, n: nat)
    requires SP !in name && SP !in version
    requires BodyLength(fields) == Ok(n) && n <= |rest|
    requires Path(dir, name) !in s.unwritable
    ensures Upload(dir, name, version, fields, rest, s) == Done(CreatedReply, s.(files := s.files[Path(dir, name) := rest[..n]]))
  {
    PostStoresBody(dir, name, version, fields, rest, s, n);
  }

  /** Uploading twice to the same name leaves only the second body: the same store as
      the second upload alone. */
  lemma RepeatedPostKeepsLatest(dir: Bytes, name: Bytes, version: Bytes, s: Store,
                                fields1: seq<Field>, rest1: Bytes, n1: nat, fields2: seq<Field>, rest2: Bytes, n2: nat)
    requires SP !in name && SP !in version
    requires BodyLength(fields1) == Ok(n1) && n1 <= |rest1|
    requires BodyLength(fields2) == Ok(n2) && n2 <= |rest2|
    requires Path(dir, name) !in s.unwritable
    ensures Upload(dir, name, version, fields1, rest1, s).Done?
    ensures Upload(dir, name, version, fields2, rest2, Upload(dir, name, version, fields1, rest1, s).store)
            == Upload(dir, name, version, fields2, rest2, s)
  {
    UploadStores(dir, name, version, fields1, rest1, s, n1);
    UploadReplaces(dir, name, version, s, Upload(dir, name, version, fields1, rest1, s).store, rest1[..n1], fields2, rest2, n2);
  }

  /** An upload gives the same outcome on a store that differs only in that file's
      former contents. */
  lemma UploadReplaces(dir: Bytes, name: Bytes, version: Bytes, s: Store, s1: Store, former: Bytes,
                       fields: seq<Field>, rest: Bytes, n: nat)
    requires SP !in name && SP !in version
    requires BodyLength(fields) == Ok(n) && n <= |rest|
    requires Path(dir, name) !in s.unwritable
    requires s1 == s.(files := s.files[Path(dir, name) := former])
    ensures Upload(dir, name, version, fields, rest, s1) == Upload(dir, name, version, fields, rest, s)
  {
    var p := Path(dir, name);
    UploadStores(dir, name, version, fields, rest, s1, n);
    UploadStores(dir, name, version, fields, rest, s, n);
    assert s.files[p := former][p := rest[..n]] == s.files[p := rest[..n]];
  }

  /** Only an upload changes the store, and then only at the file it names. */
  lemma OnlyUploadsChangeStore(dir: Bytes, input: Incoming, s: Store)
    requires ParseRequestLine(input.line).Ok?
    ensures var rl := ParseRequestLine(input.line).value;
      var o := Serve(dir, input, s);
      var p := Path(dir, TrimPrefix(rl.target, FilesPrefix));
      o.Done? && o.store != s ==>
        && RouteOf(rl.verb, rl.target) == FilePost
        && o.store.unreadable == s.unreadable && o.store.unwritable == s.unwritable
        && p in o.store.files && o.store.files == s.files[p := o.store.files[p]]
  {
    var rl := ParseRequestLine(input.line).value;
    DispatchFollowsTable(rl);
  }

  /** The header block and the body are read only by the user-agent and upload routes:
      every other route answers the same whatever follows the request line. */
  lemma OtherRoutesReadOnlyTheLine(dir: Bytes, input1: Incoming, input2: Incoming, s: Store)
    requires input1.line == input2.line && ParseRequestLine(input1.line).Ok?
    requires var rl := ParseRequestLine(input1.line).value;
      RouteOf(rl.verb, rl.target) != UserAgent && RouteOf(rl.verb, rl.target) != FilePost
    ensures Serve(dir, input1, s) == Serve(dir, input2, s)
  {
    DispatchFollowsTable(ParseRequestLine(input1.line).value);
  }

  /** Content-Length as written and as modelled agree on every header block except a
      negative length, where the source's `make` panics and the model reports an
      error. */
  lemma BodyLengthCorrectsAsWritten(fields: seq<Field>)
    ensures forall n: nat :: ContentLengthAsWritten(fields) == Length(n) <==> BodyLength(fields) == Ok(n)
    ensures ContentLengthAsWritten(fields) == ParseError <==> BodyLength(fields) == Err(InvalidContentLength)
    ensures ContentLengthAsWritten(fields) == MakePanics <==> BodyLength(fields) == Err(NegativeContentLength)
  {
  }

  /** As written, "Content-Length: -3" reaches `make([]byte, -3)`. */
  lemma NegativeLengthPanicsAsWritten()
    ensures ContentLengthAsWritten([Field(ContentLengthKey, "-3")]) == MakePanics
  {
    var fields := [Field(ContentLengthKey, "-3")];
    assert SameName(fields[0].name, ContentLengthKey);
    assert Get(fields, ContentLengthKey) == "-3";
    assert Unsigned("-3") == "3";
    assert ValueOf("3") == 3 by {
      assert ("3"[..0]) == [];
    }
  }
}
