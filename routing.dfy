/** The first-match `switch` of `application.handleConn` that picks a handler. */
module Routing {
  import opened GoStrings
  import opened Request

  datatype Route = Root | FileGet | FilePost | Echo | UserAgent | NotFound

  const FilesPrefix: Bytes := "/files/"
  const EchoPrefix: Bytes := "/echo/"
  const UserAgentPath: Bytes := "/user-agent"
  const GetFilesPrefix: Bytes := "GET /files/"
  const PostFilesPrefix: Bytes := "POST /files/"

  /** The `switch` as written: the file routes test the raw request line `data`, the
      others the target `path`, top to bottom. */
  function Dispatch(data: Bytes, path: Bytes): (r: Route)
    ensures r == Root <==> path == "/"
    ensures r == FileGet <==> path != "/" && HasPrefix(data, GetFilesPrefix)
    ensures r == FilePost <==> path != "/" && !HasPrefix(data, GetFilesPrefix) && HasPrefix(data, PostFilesPrefix)
    ensures r == Echo <==>
              && path != "/" && !HasPrefix(data, GetFilesPrefix) && !HasPrefix(data, PostFilesPrefix)
              && HasPrefix(path, EchoPrefix)
    ensures r == UserAgent <==> path == UserAgentPath && !HasPrefix(data, GetFilesPrefix) && !HasPrefix(data, PostFilesPrefix)
    ensures r == NotFound <==>
              && path != "/" && !HasPrefix(data, GetFilesPrefix) && !HasPrefix(data, PostFilesPrefix)
              && !HasPrefix(path, EchoPrefix) && path != UserAgentPath
  {
    assert !HasPrefix(UserAgentPath, EchoPrefix) by {
      assert UserAgentPath[1] != EchoPrefix[1];
    }
    if path == "/" then Root
    else if HasPrefix(data, GetFilesPrefix) then FileGet
    else if HasPrefix(data, PostFilesPrefix) then FilePost
    else if HasPrefix(path, EchoPrefix) then Echo
    else if path == UserAgentPath then UserAgent
    else NotFound
  }

  /** The route table on the parsed method and target: exact "/", GET or POST under
      "/files/", any method under "/echo/", exact "/user-agent", and otherwise none. */
  function RouteOf(verb: Bytes, path: Bytes): (r: Route)
    ensures r == Root <==> path == "/"
    ensures r == FileGet <==> verb == "GET" && HasPrefix(path, FilesPrefix)
    ensures r == FilePost <==> verb == "POST" && HasPrefix(path, FilesPrefix)
    ensures r == Echo <==> HasPrefix(path, EchoPrefix)
    ensures r == UserAgent <==> path == UserAgentPath
  {
    assert !(HasPrefix(path, FilesPrefix) && HasPrefix(path, EchoPrefix)) by {
      if HasPrefix(path, FilesPrefix) {
        assert path[1] == FilesPrefix[1] != EchoPrefix[1];
      }
    }
    assert !HasPrefix(UserAgentPath, FilesPrefix) by {
      assert UserAgentPath[1] != FilesPrefix[1];
    }
    assert !HasPrefix(UserAgentPath, EchoPrefix) by {
      assert UserAgentPath[1] != EchoPrefix[1];
    }
    if path == "/" then Root
    else if verb == "GET" && HasPrefix(path, FilesPrefix) then FileGet
    else if verb == "POST" && HasPrefix(path, FilesPrefix) then FilePost
    else if HasPrefix(path, EchoPrefix) then Echo
    else if path == UserAgentPath then UserAgent
    else NotFound
  }

  /** A line whose first token is space-free starts with `w SP p` exactly when that token
      is `w` and the remainder starts with `p`. */
  lemma PrefixAfterToken(m: Bytes, rest: Bytes, w: Bytes, p: Bytes)
    requires SP !in m && SP !in w
    ensures HasPrefix(m + [SP] + rest, w + [SP] + p) <==> m == w && HasPrefix(rest, p)
  {
    var d := m + [SP] + rest;
    var q := w + [SP] + p;
    if HasPrefix(d, q) {
      assert d[|w|] == q[|w|] == SP;
      assert |m| <= |w|;
      assert d[|m|] == q[|m|] == SP;
      assert |w| <= |m|;
      assert m == d[..|m|] == q[..|w|] == w;
      assert rest[..|p|] == d[|m| + 1..|q|] == q[|w| + 1..] == p;
    }
    if m == w && HasPrefix(rest, p) {
      assert d[..|q|] == w + [SP] + rest[..|p|];
    }
  }

  /** A space-free prefix of `t SP v` is a prefix of the token `t` alone. */
  lemma PrefixOfToken(t: Bytes, v: Bytes, p: Bytes)
    requires SP !in t && SP !in p
    ensures HasPrefix(t + [SP] + v, p) <==> HasPrefix(t, p)
  {
    var d := t + [SP] + v;
    if HasPrefix(d, p) {
      assert forall i :: 0 <= i < |p| ==> d[i] == p[i] != SP;
      assert d[|t|] == SP;
    }
    if HasPrefix(t, p) {
      assert d[..|p|] == t[..|p|];
    }
  }

  /** For a well-formed request line, testing the raw line for "GET /files/" or
      "POST /files/" is testing the method and the target separately, so the `switch`
      follows the route table exactly. */
  lemma DispatchFollowsTable(rl: RequestLine)
    requires SP !in rl.verb && SP !in rl.target && SP !in rl.version
    ensures Dispatch(Text(rl), rl.target) == RouteOf(rl.verb, rl.target)
  {
    var rest := rl.target + [SP] + rl.version;
    assert Text(rl) == rl.verb + [SP] + rest;
    assert GetFilesPrefix == "GET" + [SP] + FilesPrefix;
    assert PostFilesPrefix == "POST" + [SP] + FilesPrefix;
    PrefixAfterToken(rl.verb, rest, "GET", FilesPrefix);
    PrefixAfterToken(rl.verb, rest, "POST", FilesPrefix);
    PrefixOfToken(rl.target, rl.version, FilesPrefix);
  }

  /** Only the file routes look at the method: off "/files/", every method goes the
      same way. */
  lemma RouteIgnoresMethodOffFiles(verb1: Bytes, verb2: Bytes, path: Bytes)
    requires !HasPrefix(path, FilesPrefix)
    ensures RouteOf(verb1, path) == RouteOf(verb2, path)
  {
  }
}
