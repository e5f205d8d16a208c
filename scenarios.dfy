/** Concrete exchanges: the exact bytes the server sends for particular requests. */
module Scenarios {
  import opened Wrappers
  import opened GoStrings
  import opened StrConv
  import opened Headers
  import opened Request
  import opened Routing
  import opened Responses
  import opened Files
  import opened Handlers
  import opened Properties

  /** "GET /echo/hello HTTP/1.1" is answered with the 5-byte body "hello". */
  lemma EchoHello(dir: Bytes, header: Option<seq<Field>>, rest: Bytes, s: Store)
    ensures Serve(dir, Incoming(Some("GET /echo/hello HTTP/1.1"), header, rest), s)
            == Done("HTTP/1.1 200 OK\r\nContent-Type: text/plain\r\nContent-Length: 5\r\n\r\nhello", s)
  {
    EchoHelloLine();
    EchoRepliesWithSuffix(dir, "GET", "hello", "HTTP/1.1", header, rest, s);
    EchoHelloReply();
  }

  lemma EchoHelloLine()
    ensures Text(RequestLine("GET", EchoPrefix + "hello", "HTTP/1.1")) == "GET /echo/hello HTTP/1.1"
  {
    assert EchoPrefix + "hello" == "/echo/hello";
  }

  lemma EchoHelloReply()
    ensures StatusOK(TextPlain, "hello") == "HTTP/1.1 200 OK\r\nContent-Type: text/plain\r\nContent-Length: 5\r\n\r\nhello"
  {
    TextPlainHead();
    HelloLength();
    HelloParts();
  }

  lemma TextPlainHead()
    ensures OKWithType + TextPlain == "HTTP/1.1 200 OK\r\nContent-Type: text/plain"
  {
  }

  lemma HelloLength()
    ensures CRLF + LengthName + Itoa(5) + CRLF + CRLF + "hello" == "\r\nContent-Length: 5\r\n\r\nhello"
  {
    assert Itoa(5) == "5";
  }

  lemma HelloParts()
    ensures "HTTP/1.1 200 OK\r\nContent-Type: text/plain" + "\r\nContent-Length: 5\r\n\r\nhello"
            == "HTTP/1.1 200 OK\r\nContent-Type: text/plain\r\nContent-Length: 5\r\n\r\nhello"
  {
  }

  /** A User-Agent of "test-agent" comes back as the body, with Content-Length 10. */
  lemma UserAgentTestAgent(dir: Bytes, rest: Bytes, s: Store)
    ensures Serve(dir, Incoming(Some("GET /user-agent HTTP/1.1"), Some([Field("User-Agent", "test-agent")]), rest), s)
            == Done("HTTP/1.1 200 OK\r\nContent-Type: text/plain\r\nContent-Length: 10\r\n\r\ntest-agent", s)
  {
    var fields := [Field("User-Agent", "test-agent")];
    UserAgentLine();
    UserAgentRepliesWithHeader(dir, "GET", "HTTP/1.1", Some(fields), rest, s);
    assert Get(fields, UserAgentKey) == "test-agent" by {
      assert SameName(fields[0].name, UserAgentKey);
    }
    TestAgentReply();
  }

  lemma UserAgentLine()
    ensures Text(RequestLine("GET", UserAgentPath, "HTTP/1.1")) == "GET /user-agent HTTP/1.1"
  {
  }

  lemma TestAgentReply()
    ensures StatusOK(TextPlain, "test-agent")
            == "HTTP/1.1 200 OK\r\nContent-Type: text/plain\r\nContent-Length: 10\r\n\r\ntest-agent"
  {
    TextPlainHead();
    TestAgentLength();
    TestAgentParts();
  }

  lemma TestAgentLength()
    ensures CRLF + LengthName + Itoa(10) + CRLF + CRLF + "test-agent" == "\r\nContent-Length: 10\r\n\r\ntest-agent"
  {
    assert Itoa(10) == "10";
  }

  lemma TestAgentParts()
    ensures "HTTP/1.1 200 OK\r\nContent-Type: text/plain" + "\r\nContent-Length: 10\r\n\r\ntest-agent"
            == "HTTP/1.1 200 OK\r\nContent-Type: text/plain\r\nContent-Length: 10\r\n\r\ntest-agent"
  {
  }

  /** A request line of two tokens closes the connection with nothing written. */
  lemma TwoTokensRejected(dir: Bytes, header: Option<seq<Field>>, rest: Bytes, s: Store)
    ensures Serve(dir, Incoming(Some("GET /"), header, rest), s) == Failed(InvalidRequestLine)
    ensures Serve(dir, Incoming(Some("GET /"), header, rest), s).Written() == []
  {
    var line: Bytes := "GET /";
    assert line[1..][1..][1..] == " /";
    assert Count(line, SP) == 1;
  }

  /** "Content-Length: 0" on an upload stores an empty file and answers 201. */
  lemma EmptyUpload(dir: Bytes, rest: Bytes, s: Store)
    requires Path(dir, "foo") !in s.unwritable
    ensures Serve(dir, Incoming(Some("POST /files/foo HTTP/1.1"), Some([Field("Content-Length", "0")]), rest), s)
            == Done("HTTP/1.1 201 Created\r\n\r\n", s.(files := s.files[Path(dir, "foo") := []]))
  {
    var fields := [Field("Content-Length", "0")];
    assert Text(RequestLine("POST", FilesPrefix + "foo", "HTTP/1.1")) == "POST /files/foo HTTP/1.1";
    assert SameName(fields[0].name, ContentLengthKey);
    assert Itoa(0) == "0";
    PostWithLength(dir, "foo", "HTTP/1.1", fields, rest, s, 0);
  }
}
