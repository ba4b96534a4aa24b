/** Bytes, byte strings and hexadecimal digits. */
module ByteStrings {
  import opened Wrappers

  type Byte = b: nat | b < 256

  type Bytes = seq<Byte>

  const LF: Byte := 10
  const CR: Byte := 13

  /** An upper-case digit. */
  function HexDigit(v: nat): (c: Byte)
    requires v < 16
    ensures HexValue(c) == Some(v)
  {
    if v < 10 then 48 + v else 55 + v
  }

  /** The value of a digit of either case. */
  function HexValue(c: Byte): (v: Option<nat>)
    ensures v.Some? ==> v.value < 16
  {
    if 48 <= c <= 57 then Some(c - 48)
    else if 65 <= c <= 70 then Some(c - 55)
    else if 97 <= c <= 102 then Some(c - 87)
    else None
  }

  /** Exactly the sixteen digits of either case have a value, their place in the table. */
  lemma HexDigits(c: Byte, d: nat)
    requires d < 16
    ensures HexValue(c) == Some(d) <==> c == "0123456789abcdef"[d] as int || c == "0123456789ABCDEF"[d] as int
    ensures HexDigit(d) == "0123456789ABCDEF"[d] as int
  {
    LowerTable(d);
    UpperTable(d);
  }

  lemma LowerTable(d: nat)
    requires d < 16
    ensures "0123456789abcdef"[d] as int == if d < 10 then 48 + d else 87 + d
  {
    var t := "0123456789abcdef";
    assert t[..10] == "0123456789" && t[10..] == "abcdef";
  }

  lemma UpperTable(d: nat)
    requires d < 16
    ensures "0123456789ABCDEF"[d] as int == if d < 10 then 48 + d else 55 + d
  {
    var t := "0123456789ABCDEF";
    assert t[..10] == "0123456789" && t[10..] == "ABCDEF";
  }

  lemma Assoc<T>(a: seq<T>, b: seq<T>, c: seq<T>)
    ensures a + b + c == a + (b + c)
  {
  }
}
