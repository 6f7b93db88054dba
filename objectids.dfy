/**
 * Document identifiers: twelve bytes, written out by `toString()` as
 * lower-case hexadecimal, two characters per byte.
 */
module ObjectIds {
  import opened Results

  newtype byte = x: int | 0 <= x < 256

  datatype ObjectId = ObjectId(bytes: seq<byte>)

  /** A stored identifier is exactly twelve bytes long. */
  predicate WellFormed(id: ObjectId) {
    |id.bytes| == 12
  }

  predicate IsHexDigit(c: char) {
    '0' <= c <= '9' || 'a' <= c <= 'f'
  }

  function HexDigit(d: nat): (c: char)
    requires d < 16
    ensures IsHexDigit(c) && HexValue(c) == d
  {
    if d < 10 then ('0' as int + d) as char else ('a' as int + d - 10) as char
  }

  function HexValue(c: char): nat
    requires IsHexDigit(c)
  {
    if c <= '9' then c as int - '0' as int else c as int - 'a' as int + 10
  }

  /** Two hex characters per byte, high nibble first. */
  function HexOfBytes(b: seq<byte>): (s: string)
    ensures |s| == 2 * |b|
    ensures forall i :: 0 <= i < |s| ==> IsHexDigit(s[i])
    decreases |b|
  {
    if b == [] then []
    else [HexDigit(b[0] as nat / 16), HexDigit(b[0] as nat % 16)] + HexOfBytes(b[1..])
  }

  /** The text `toString()` gives for an identifier. */
  function ToHexString(id: ObjectId): (s: string)
    ensures |s| == 2 * |id.bytes|
    ensures WellFormed(id) ==> |s| == 24
    ensures forall i :: 0 <= i < |s| ==> IsHexDigit(s[i])
  {
    HexOfBytes(id.bytes)
  }

  /** Reads lower-case hex text back into bytes; None on odd length or a non-hex character. */
  function ParseHex(s: string): Option<seq<byte>>
    decreases |s|
  {
    if s == [] then Some([])
    else if |s| == 1 || !IsHexDigit(s[0]) || !IsHexDigit(s[1]) then None
    else
      match ParseHex(s[2..])
      case None => None
      case Some(rest) => Some([(HexValue(s[0]) * 16 + HexValue(s[1])) as byte] + rest)
  }

  /** The hex text of an identifier reads back as the identifier's bytes. */
  lemma {:induction false} HexRoundTrip(b: seq<byte>)
    ensures ParseHex(HexOfBytes(b)) == Some(b)
    decreases |b|
  {
    if b != [] {
      var s := HexOfBytes(b);
      assert s[2..] == HexOfBytes(b[1..]);
      HexRoundTrip(b[1..]);
      assert HexValue(s[0]) * 16 + HexValue(s[1]) == b[0] as nat;
      assert [b[0]] + b[1..] == b;
    }
  }

  /** Distinct identifiers have distinct texts. */
  lemma ToHexStringInjective(x: ObjectId, y: ObjectId)
    requires ToHexString(x) == ToHexString(y)
    ensures x == y
  {
    HexRoundTrip(x.bytes);
    HexRoundTrip(y.bytes);
  }
}
