# A verified model of a minimal HTTP/1.1 file and echo server

The server (`app/main.go`) handles one request per TCP connection. It reads the request
line and checks that splitting it on single spaces gives exactly three tokens (method,
target, version). It then picks a handler with a first-match `switch`: `/` exactly,
`GET /files/…`, `POST /files/…`, `/echo/…`, `/user-agent` exactly, and otherwise 404.
It reads the header block only for the user-agent and upload routes, and for an upload
it reads exactly `Content-Length` body bytes. It writes one hand-formatted reply. Every
error ends the connection with nothing written.

The model is in Dafny and follows that structure:

- `strings.dfy` (module `GoStrings`): Go byte strings, and `HasPrefix`, `TrimPrefix`, `Count`, `Split` and `Join` with their round trips.
- `strconv.dfy` (`StrConv`): `strconv.Atoi` on 64-bit ints and the `%d` formatting of a length (`Itoa`).
- `headers.dfy` (`Headers`): the header block and `MIMEHeader.Get`.
- `request.dfy` (`Request`): error kinds, the connection's input, and request-line parsing.
- `routing.dfy` (`Routing`): the `switch` as written (`Dispatch`) and as a route table on method and target (`RouteOf`).
- `responses.dfy` (`Responses`): the fixed replies and `statusOKResponse`. `ReadOK` is a reader for 200 replies, used to state that a reply frames its body correctly.
- `files.dfy` (`Files`): the file store, as values and as the mutable `FileSystem`.
- `handlers.dfy` (`Handlers`): each handler as a function, and `Serve`, the whole of `handleConn` as a function.
- `server.dfy` (`Server`): `application` as a class with fields `filesDir`, `requestURL` and `requestMethod`. Its `HandleConn` and handler methods read a `Reader` step by step, set the fields, write to a `Conn` and change the `FileSystem` in place. Each method is proved against the functions in `Handlers`.
- `properties.dfy` (`Properties`): end-to-end properties of `Serve`.
- `scenarios.dfy` (`Scenarios`): exact replies to particular requests.

Inputs and outside effects are parameters:

- The connection's input is a value `Incoming(line, header, rest)`: the request line, the header block (each `None` when reading it fails), and the bytes after the header block.
- The filesystem is a `Store`: a map from `Path(dir, name)` to file bytes, plus two independent sets of paths on which the filesystem reports an error other than "does not exist": one for reads and one for writes. A file may accept writes and refuse reads (mode 0200), and a name in a missing subdirectory refuses writes yet reads as absent.
- A Go string or byte slice is a sequence of `Byte`. A `Byte` is a character below 256, so ASCII literals read as written.

Behaviour of the code worth knowing:

- The root reply is `HTTP/1.1 200 OK\r\n\r\n\r\n`. That is one CRLF more than an empty 200 reply.
- `Content-Length` goes through `strconv.Atoi`. So `+5` is accepted as 5, and a negative value passes the parse (see Findings).
- When a header occurs twice, `MIMEHeader.Get` returns the first value.
- The file routes test the raw request line for `GET /files/` and `POST /files/`. `Routing.DispatchFollowsTable` proves that, for a three-token line, this is the same as testing the method and the target's prefix separately.
- A request line may have empty tokens. `"GET / "` is accepted, with an empty version.

## Model

| member | source | states |
|---|---|---|
| GoStrings.HasPrefix | app/main.go:84-92 | `strings.HasPrefix`: the string's first bytes are the prefix. It has no contract of its own; Routing.PrefixAfterToken and Routing.PrefixOfToken state what the routes need of it |
| GoStrings.TrimPrefix | app/main.go:139 | The result, with the prefix put back in front, is the input when the input starts with the prefix; otherwise the input is returned unchanged |
| GoStrings.Count | app/main.go:69-72 | The number of occurrences is 0 exactly when the byte does not occur, and is at most the length |
| GoStrings.Split | app/main.go:69 | Splitting gives exactly one piece more than there are separators, and no piece contains the separator |
| GoStrings.Join | app/main.go:69 | The pieces with one separator between neighbours: the inverse of `strings.Split`, kept as a reference definition without a contract of its own. GoStrings.JoinSplit and GoStrings.SplitJoin prove the two are inverse |
| GoStrings.JoinSplit | app/main.go:69 | Joining the pieces of a split with the separator gives back the original string |
| GoStrings.SplitJoin | app/main.go:69-72 | Splitting a join of one or more separator-free pieces gives back exactly those pieces |
| StrConv.Itoa | app/main.go:179 | `%d` of a length is a non-empty string of decimal digits with no leading zero |
| StrConv.ValueOfItoa | app/main.go:179 | The digits written for a length denote that length |
| StrConv.Atoi | app/main.go:127-130 | Accepts exactly an optional sign and one or more digits whose signed value fits in 64 bits (down to -9223372036854775808), and yields that signed value; anything else is an error |
| StrConv.AtoiItoa | app/main.go:127 | Every length up to the largest 64-bit int that `%d` writes is parsed back by `Atoi` to the same number |
| Headers.Find | app/main.go:113 | None exactly when no field has the name (ignoring case); otherwise the value of the first field with that name |
| Headers.Get | app/main.go:113 | The empty string when no field has the name; otherwise the value of the first field with that name |
| Request.ParseRequestLine | app/main.go:60-78 | An unreadable line and an empty line fail with their own errors; a line is accepted exactly when it has exactly two spaces; the three tokens are space-free and joined with single spaces give back the line |
| Request.ParseRequestLineOfText | app/main.go:69-78 | Any three space-free tokens joined by single spaces parse back into the same three tokens |
| Routing.Dispatch | app/main.go:81-102 | The `switch` as written, first match wins, as one iff per route: Root iff the target is `/`; GET files iff the target is not `/` and the raw line starts with `GET /files/`; POST files iff neither earlier case holds and the line starts with `POST /files/`; echo iff no earlier case holds and the target starts with `/echo/`; user-agent iff the target is `/user-agent` and neither file prefix matches the line; 404 iff no other case holds. Routing.DispatchFollowsTable relates it to RouteOf |
| Routing.RouteOf | app/main.go:81-102 | The route table on method and target, with disjoint conditions: Root iff the target is `/`; GET or POST files iff that method and a `/files/` target; echo iff an `/echo/` target; user-agent iff the target is `/user-agent` |
| Routing.PrefixAfterToken | app/main.go:84-88 | A line whose first token has no space starts with `w SP p` exactly when that token is `w` and the rest of the line starts with `p` |
| Routing.PrefixOfToken | app/main.go:84-88 | A space-free prefix of `t SP v` is a prefix of `t` alone |
| Routing.DispatchFollowsTable | app/main.go:81-102 | For every well-formed request line the `switch` chooses the route of the ordered table: root, GET files, POST files, echo, user-agent, not found |
| Routing.RouteIgnoresMethodOffFiles | app/main.go:82-99 | Off the `/files/` prefix, every method takes the same route, so root, echo and user-agent ignore the method |
| Responses.StatusOK | app/main.go:178-181 | `statusOKResponse`'s text: it starts with the 200 status line and the Content-Type name, and ends with the body verbatim. Responses.StatusOKFraming proves the rest of its framing |
| Responses.StatusOKFraming | app/main.go:178-181 | A 200 reply ends with the body verbatim, and its Content-Length is the body's byte length, so reading the reply gives back the content type and the body |
| Files.ReadFile | app/main.go:153-162 | A read gives the stored bytes exactly when the path is readable and present, "does not exist" exactly when it is readable and absent, and a failure otherwise |
| Files.WriteFile | app/main.go:142-144 | A write succeeds exactly on a writable path, adds that path to the files, and leaves both failure sets as they were |
| Files.ReadAfterWrite | app/main.go:142-165 | After a successful write, a read of that path gives the written bytes unless the path is unreadable, and a read of any other path gives what it gave before |
| Files.WriteOverwrites | app/main.go:142 | A second write to a path gives the same store as that write alone: no appending |
| Files.FileSystem.Read | app/main.go:153 | Reading the live filesystem gives what `ReadFile` gives for its current contents |
| Files.FileSystem.Write | app/main.go:142-144 | Writing the live filesystem succeeds as `WriteFile` does and leaves it holding the new store, or unchanged on failure |
| Handlers.EchoReply | app/main.go:168-172 | A text/plain 200 that ends with the target after `/echo/`, verbatim. Properties.EchoRepliesWithSuffix states the whole reply |
| Handlers.UserAgentReply | app/main.go:107-116 | An error exactly when the header block cannot be read; otherwise a text/plain 200 that ends with the User-Agent value. Properties.UserAgentRepliesWithHeader states the whole reply |
| Handlers.FilePath | app/main.go:139-140 | The file under the base directory that a target names: the directory is the base directory, and the name is what follows `/files/` (the whole target when it does not start with `/files/`), so the prefix and the name give back the target |
| Handlers.FileGetReply | app/main.go:150-166 | An error exactly on a read failure other than "does not exist"; exactly the 404 reply exactly when the file does not exist; otherwise a 200 that ends with the file's bytes. Properties.GetServesFile states the whole reply |
| Handlers.BodyLength | app/main.go:124-133 | 0 when Content-Length is absent or empty; otherwise the value `strconv.Atoi` gives; an error exactly when that text is not accepted by `strconv.Atoi` (not a 64-bit integer) or is negative. Properties.BodyLengthCorrectsAsWritten relates it to the code as written |
| Handlers.ContentLengthAsWritten | app/main.go:124-133 | The code as written: `make` panics exactly when the text parses to a negative number, and the handler returns a parse error exactly when the text is non-empty and not accepted by `strconv.Atoi` (not a 64-bit integer) |
| Handlers.FilePostResult | app/main.go:118-148 | An unreadable header block is an error; a success means the announced length was available and the new store is the write of exactly that many bytes; the short-body error happens exactly when fewer bytes follow than announced. Properties.PostStoresBody and Properties.PostShortBodyFails state it end to end |
| Handlers.Serve | app/main.go:56-105 | A rejected request line gives its own error; when the store changes, the line was accepted and the `switch` chose the upload route. The lemmas of `Properties` state each route's outcome |
| Properties.UnreadableOrEmptyLineFails | app/main.go:60-68 | An unreadable request line and an empty one each end the connection with their own error and nothing written |
| Properties.MalformedLineFails | app/main.go:66-74 | The request is rejected as empty or malformed exactly when the line does not have exactly two spaces |
| Properties.UnmatchedTargetIsNotFound | app/main.go:100-101 | A target that matches no route gets exactly `HTTP/1.1 404 Not Found\r\n\r\n`, not an error, and the store is unchanged |
| Properties.RootRepliesForAnyMethod | app/main.go:82-83 | Target `/` with any method gets exactly `HTTP/1.1 200 OK\r\n\r\n\r\n` |
| Properties.EchoRepliesWithSuffix | app/main.go:92-95 | `/echo/<word>` with any method gets a text/plain 200 whose body is `<word>` verbatim |
| Properties.UserAgentRepliesWithHeader | app/main.go:96-99 | `/user-agent` with any method gets a text/plain 200 whose body is the User-Agent value (empty when absent); an unreadable header block is an error |
| Properties.GetServesFile | app/main.go:84-87 | `GET /files/<name>` gives the stored bytes as application/octet-stream, exactly the 404 reply (not an error) for a missing file, and an error with nothing written on any other read failure; the store is unchanged |
| Properties.PostStoresBody | app/main.go:88-91 | An upload of announced length n that has n bytes stores exactly those n bytes at the name (all other files unchanged) and gets exactly `HTTP/1.1 201 Created\r\n\r\n`; an unwritable file is an error |
| Properties.PostWithoutLengthStoresEmptyFile | app/main.go:124-126 | An upload with no or an empty Content-Length stores an empty file |
| Properties.PostWithLength | app/main.go:124-137 | An upload announcing n bytes in decimal stores exactly the first n bytes when there are that many, and is an error with nothing stored when there are fewer |
| Properties.PostShortBodyFails | app/main.go:127-137 | An upload that announces more bytes than follow is an error, however the length is written (`+5`, `007`) and whatever file it names, because the short read comes before the write |
| Properties.PostRejectsBadLength | app/main.go:126-133 | A Content-Length that `strconv.Atoi` rejects (not a 64-bit integer), or that is negative, is an error with nothing stored or written |
| Properties.PostWithoutHeaderFails | app/main.go:119-122 | An upload whose header block cannot be read is an error |
| Properties.PostThenGet | app/main.go:139-165 | After a successful upload of a body to a name, a download of that name returns exactly that body as application/octet-stream, or a read error when the file cannot be read |
| Properties.RepeatedPostKeepsLatest | app/main.go:142 | Two uploads to the same name leave the store the second alone would leave: only the latest body |
| Properties.OnlyUploadsChangeStore | app/main.go:81-104 | A request that changes the store is an upload, and it changes only the file its target names |
| Properties.OtherRoutesReadOnlyTheLine | app/main.go:81-102 | Except on the user-agent and upload routes, the reply does not depend on the header block or the body |
| Properties.BodyLengthCorrectsAsWritten | app/main.go:124-133 | The modelled Content-Length rule agrees with the code on every header block, except that a negative length is an error instead of a panic |
| Properties.NegativeLengthPanicsAsWritten | app/main.go:127-133 | As written, `Content-Length: -3` reaches `make` with a negative length |
| Scenarios.EchoHello | app/main.go:168-171 | `GET /echo/hello HTTP/1.1` gets exactly `HTTP/1.1 200 OK\r\nContent-Type: text/plain\r\nContent-Length: 5\r\n\r\nhello` |
| Scenarios.UserAgentTestAgent | app/main.go:107-116 | A User-Agent of `test-agent` comes back as the body with Content-Length 10 |
| Scenarios.TwoTokensRejected | app/main.go:69-74 | The line `GET /` is rejected with nothing written |
| Scenarios.EmptyUpload | app/main.go:124-146 | `Content-Length: 0` on an upload stores an empty file and gets `HTTP/1.1 201 Created\r\n\r\n` |
| Server.Conn.Write | app/main.go:83 | Writing appends exactly the given bytes to what the connection has received |
| Server.Reader.constructor | app/main.go:57 | A new reader of the connection's input stands before the request line, with all of the bytes after the header block still unread |
| Server.Reader.ReadLine | app/main.go:60 | Yields the request line (or the failure to read it) and moves on to the header block |
| Server.Reader.ReadMIMEHeader | app/main.go:108-111 | Yields the header block (or the failure to read it) and moves on to the body |
| Server.Reader.ReadFull | app/main.go:133-137 | Fills the whole buffer with the next bytes of the stream and consumes them, or reports that the stream is shorter |
| Server.StatusNotFoundResponse | app/main.go:174-176 | Writes exactly the 404 reply |
| Server.StatusOKResponse | app/main.go:178-181 | Writes exactly the 200 reply for the content type and body |
| Server.Application.HandleConn | app/main.go:56-105 | Writes exactly what `Serve` answers (nothing on an error), leaves the store as `Serve` says (unchanged on an error), returns its error, and records the parsed method and target in the fields |
| Server.Application.UserAgentHandler | app/main.go:107-116 | Reads the header block and writes the User-Agent reply, or returns the read error having written nothing; the reader is left after the header block with the body unread |
| Server.Application.PostFileHandler | app/main.go:118-148 | Reads the header block and the body, stores the body and writes the 201 reply; on every error it writes nothing and leaves the store unchanged. The reader is left after the header block, with the announced number of bytes consumed when the length was accepted (all of the stream when it was shorter) and nothing consumed otherwise |
| Server.Application.FileHandler | app/main.go:150-166 | Writes the file's bytes, or the 404 reply for a missing file, or returns the read error having written nothing |
| Server.Application.EchoHandler | app/main.go:168-172 | Writes the echo reply for the recorded target and never fails |

## Left out

- Process startup: flag parsing, `net.Listen`, the accept loop, one goroutine per connection and `conn.Close` (app/main.go:18-48). These are I/O and concurrency; the model handles one connection.
- Concurrent access to the shared directory by several connections. The model has one request at a time.
- Logging (app/main.go:29, 44) and the text of the wrapped error messages. Errors are modelled as kinds.
- `textproto` internals: CR/LF stripping in `ReadLine`, header folding and value trimming in `ReadMIMEHeader`. The input arrives already split into the request line, header fields and remaining bytes. Header names are compared ignoring ASCII case, which is what canonicalisation amounts to for `User-Agent` and `Content-Length`.
- Server.Reader: its methods require the reads in the order line, header block, body, because the input is modelled in those three pieces. The server reads them in that order.
- `filepath.Join` path cleaning. A file is keyed by the pair (base directory, name after `/files/`). So names that Join would clean to the same path (`a` and `./a`) are different files here. Path traversal is not modelled.
- Filesystem failures other than "does not exist" are the store's sets of unreadable and unwritable paths, fixed for the life of the store. A write never changes who may read or write a path. A read of the directory itself (target `/files/`, empty name) fails in Go; here it fails only if that path is in the unreadable set. A write that fails after truncating the file is modelled as leaving the store unchanged.
- `conn.Write` results and partial writes. The source ignores them, and every write is modelled as complete.
- Go's `int` is taken to be 64 bits. `make([]byte, n)` can fail on a huge non-negative length; the model treats that length as an ordinary one, so the upload then fails as a short body.

## Findings

| source | as written | input that shows it | evidently intended | confidence | as-written member | corrected member |
|---|---|---|---|---|---|---|
| app/main.go:127-133 | A negative Content-Length passes `strconv.Atoi` and reaches `make([]byte, contentLength)`, which panics. Nothing recovers the panic in the connection's goroutine, so the whole server process stops | `POST /files/x HTTP/1.1` with `Content-Length: -3` | Reject a negative length like any other invalid one, ending only this connection with nothing written | not executed | Properties.NegativeLengthPanicsAsWritten | Properties.PostRejectsBadLength |
