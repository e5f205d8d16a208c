/** The byte-string operations of Go's `strings` package that the server uses:
    `HasPrefix`, `TrimPrefix`, `Count`, `Split` and `Join`, for a one-byte separator. */
module GoStrings {

  /** A Go byte. Go strings and byte slices are both sequences of bytes; each byte is
      written here as the character with the same code, so that ASCII literals of the
      protocol read literally. */
  type Byte = c: char | c as int < 256 witness ' '
  type Bytes = seq<Byte>

  /** The space that separates the tokens of a request line. */
  const SP: Byte := ' '

  /** `strings.HasPrefix(s, prefix)`. */
  predicate HasPrefix(s: Bytes, prefix: Bytes) {
    |prefix| <= |s| && s[..|prefix|] == prefix
  }

  /** `strings.TrimPrefix(s, prefix)`: `s` without the leading `prefix`, or `s` itself
      when it does not start with `prefix`. */
  function TrimPrefix(s: Bytes, prefix: Bytes): (r: Bytes)
    ensures HasPrefix(s, prefix) ==> prefix + r == s
    ensures !HasPrefix(s, prefix) ==> r == s
  {
    if HasPrefix(s, prefix) then s[|prefix|..] else s
  }

  /** `strings.Count(s, string(b))`: the number of occurrences of the byte `b`. */
  function Count(s: Bytes, b: Byte): (n: nat)
    ensures n <= |s|
    ensures n == 0 <==> b !in s
  {
    if s == [] then 0 else (if s[0] == b then 1 else 0) + Count(s[1..], b)
  }

  /** `strings.Split(s, string(sep))`: the pieces of `s` between occurrences of `sep`.
      There is always one piece more than there are separators; pieces may be empty. */
  function Split(s: Bytes, sep: Byte): (r: seq<Bytes>)
    ensures |r| == Count(s, sep) + 1
    ensures forall i :: 0 <= i < |r| ==> sep !in r[i]
  {
    if s == [] then [[]]
    else
      var tail := Split(s[1..], sep);
      if s[0] == sep then [[]] + tail
      else [[s[0]] + tail[0]] + tail[1..]
  }

  /** `strings.Join(parts, string(sep))`. */
  function Join(parts: seq<Bytes>, sep: Byte): Bytes {
    if |parts| == 0 then []
    else if |parts| == 1 then parts[0]
    else parts[0] + [sep] + Join(parts[1..], sep)
  }

  /** A join of three pieces, written out. */
  lemma JoinThree(a: Bytes, b: Bytes, c: Bytes, sep: Byte)
    ensures Join([a, b, c], sep) == a + [sep] + b + [sep] + c
  {
    var parts := [a, b, c];
    assert parts[1..] == [b, c];
    assert parts[1..][1..] == [c];
    assert Join([b, c], sep) == b + [sep] + c;
  }

  /** Joining the pieces of a split gives back the original string. */
  lemma {:induction false} JoinSplit(s: Bytes, sep: Byte)
    ensures Join(Split(s, sep), sep) == s
  {
    if s != [] {
      var tail := Split(s[1..], sep);
      JoinSplit(s[1..], sep);
      if s[0] == sep {
        assert ([[]] + tail)[1..] == tail;
      } else {
        var parts := [[s[0]] + tail[0]] + tail[1..];
        if |tail| > 1 {
          assert parts[1..] == tail[1..];
        }
      }
    }
  }

  /** A piece free of the separator splits into itself. */
  lemma {:induction false} SplitWord(w: Bytes, sep: Byte)
    requires sep !in w
    ensures Split(w, sep) == [w]
  {
    if w != [] {
      SplitWord(w[1..], sep);
      assert [w[0]] + w[1..] == w;
    }
  }

  /** A separator-free piece followed by the separator splits off as the first piece. */
  lemma {:induction false} SplitAfterWord(w: Bytes, sep: Byte, rest: Bytes)
    requires sep !in w
    ensures Split(w + [sep] + rest, sep) == [w] + Split(rest, sep)
  {
    var s := w + [sep] + rest;
    if w == [] {
      assert s[1..] == rest;
    } else {
      assert s[1..] == w[1..] + [sep] + rest;
      SplitAfterWord(w[1..], sep, rest);
      assert [w[0]] + w[1..] == w;
    }
  }

  /** Splitting a join of separator-free pieces gives back the pieces. */
  lemma {:induction false} SplitJoin(parts: seq<Bytes>, sep: Byte)
    requires |parts| >= 1
    requires forall i :: 0 <= i < |parts| ==> sep !in parts[i]
    ensures Split(Join(parts, sep), sep) == parts
  {
    if |parts| == 1 {
      SplitWord(parts[0], sep);
    } else {
      SplitJoin(parts[1..], sep);
      SplitAfterWord(parts[0], sep, Join(parts[1..], sep));
      assert [parts[0]] + parts[1..] == parts;
    }
  }
}
