/** Decimal integers as the server reads and writes them: `strconv.Atoi` for the incoming
    `Content-Length` value and `fmt`'s `%d` for the outgoing one. Go's `int` is taken to
    be 64 bits wide. */
module StrConv {
  import opened Wrappers
  import opened GoStrings

  const MaxInt: int := 0x7fff_ffff_ffff_ffff
  const MinInt: int := -0x8000_0000_0000_0000

  predicate IsDigit(c: Byte) {
    '0' <= c <= '9'
  }

  predicate AllDigits(s: Bytes) {
    forall i :: 0 <= i < |s| ==> IsDigit(s[i])
  }

  function DigitValue(c: Byte): (d: nat)
    requires IsDigit(c)
    ensures d < 10
  {
    c as int - '0' as int
  }

  /** The byte that denotes the decimal digit `d`. */
  function Digit(d: nat): (c: Byte)
    requires d < 10
    ensures IsDigit(c) && DigitValue(c) == d
  {
    (d + '0' as int) as char
  }

  /** The number a string of decimal digits denotes, most significant digit first. */
  function ValueOf(s: Bytes): nat
    requires AllDigits(s)
  {
    if s == [] then 0 else 10 * ValueOf(s[..|s| - 1]) + DigitValue(s[|s| - 1])
  }

  /** `%d` of a non-negative int (also `strconv.Itoa`): decimal digits, no sign, and no
      leading zero except in "0" itself. */
  function Itoa(n: nat): (r: Bytes)
    ensures |r| >= 1 && AllDigits(r)
    ensures r[0] == '0' ==> r == "0"
  {
    if n < 10 then [Digit(n)] else Itoa(n / 10) + [Digit(n % 10)]
  }

  /** The digits `Itoa` writes denote the number written. */
  lemma {:induction false} ValueOfItoa(n: nat)
    ensures ValueOf(Itoa(n)) == n
  {
    if n >= 10 {
      var s := Itoa(n);
      ValueOfItoa(n / 10);
      assert s[..|s| - 1] == Itoa(n / 10);
    }
  }

  /** The optional sign and the digits that follow it. */
  function Unsigned(s: Bytes): Bytes
    requires s != []
  {
    if s[0] == '+' || s[0] == '-' then s[1..] else s
  }

  /** `strconv.Atoi`: an optional `+` or `-` followed by one or more decimal digits, whose
      value fits in a 64-bit int; anything else is an error (None). */
  function Atoi(s: Bytes): (r: Option<int>)
    ensures r.Some? ==> MinInt <= r.value <= MaxInt
    ensures r.Some? ==> s != [] && Unsigned(s) != [] && AllDigits(Unsigned(s))
    ensures r.Some? ==> r.value == if s[0] == '-' then -(ValueOf(Unsigned(s)) as int) else ValueOf(Unsigned(s))
    ensures s != [] && Unsigned(s) != [] && AllDigits(Unsigned(s))
            && (if s[0] == '-' then ValueOf(Unsigned(s)) <= MaxInt + 1 else ValueOf(Unsigned(s)) <= MaxInt)
            ==> r.Some?
  {
    if s == [] then None
    else
      var digits := Unsigned(s);
      if digits == [] || !AllDigits(digits) then None
      else
        var v := if s[0] == '-' then -(ValueOf(digits) as int) else ValueOf(digits);
        if v < MinInt || MaxInt < v then None else Some(v)
  }

  /** The number `%d` writes parses back to the same number. */
  lemma AtoiItoa(n: nat)
    requires n <= MaxInt
    ensures Atoi(Itoa(n)) == Some(n)
  {
    ValueOfItoa(n);
  }
}
