/** The header block of a request, as `textproto.Reader.ReadMIMEHeader` delivers it, and
    `MIMEHeader.Get`. Header names are compared without regard to ASCII letter case
    (textproto canonicalises both the stored names and the looked-up key); when a name
    occurs more than once, `Get` returns the first value. */
module Headers {
  import opened Wrappers
  import opened GoStrings

  /** One `Name: value` line, already split and trimmed. */
  datatype Field = Field(name: Bytes, value: Bytes)

  function LowerAscii(c: Byte): (r: Byte)
    ensures 'A' <= c <= 'Z' ==> r as int == c as int + 32
    ensures !('A' <= c <= 'Z') ==> r == c
  {
    if 'A' <= c <= 'Z' then (c as int + 32) as char else c
  }

  /** ASCII case-insensitive equality of header names. */
  predicate SameName(a: Bytes, b: Bytes) {
    |a| == |b| && forall i :: 0 <= i < |a| ==> LowerAscii(a[i]) == LowerAscii(b[i])
  }

  /** The value of the first field named `key`, if any. */
  function Find(fields: seq<Field>, key: Bytes): (r: Option<Bytes>)
    ensures r.None? <==> forall i :: 0 <= i < |fields| ==> !SameName(fields[i].name, key)
    ensures r.Some? ==> exists i :: 0 <= i < |fields| && SameName(fields[i].name, key)
                                    && r.value == fields[i].value
                                    && forall j :: 0 <= j < i ==> !SameName(fields[j].name, key)
  {
    if fields == [] then None
    else if SameName(fields[0].name, key) then Some(fields[0].value)
    else
      var r := Find(fields[1..], key);
      assert forall i :: 1 <= i < |fields| ==> fields[i] == fields[1..][i - 1];
      r
  }

  /** `MIMEHeader.Get(key)`: the first value of `key`, or the empty string when absent. */
  function Get(fields: seq<Field>, key: Bytes): (r: Bytes)
    ensures (forall i :: 0 <= i < |fields| ==> !SameName(fields[i].name, key)) ==> r == []
    ensures forall i :: 0 <= i < |fields| && SameName(fields[i].name, key)
                        && (forall j :: 0 <= j < i ==> !SameName(fields[j].name, key))
                        ==> r == fields[i].value
  {
    Find(fields, key).GetOr([])
  }
}
