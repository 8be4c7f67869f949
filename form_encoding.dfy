/**
 * java.net.URLEncoder.encode(s, "UTF-8"), the library call beneath UrlUtil.urlEncode: the
 * application/x-www-form-urlencoded form, which keeps a-z, A-Z, 0-9, '.', '-', '*' and '_',
 * writes a space as '+', and writes every other character as the %XX triples of its UTF-8
 * bytes, with upper-case hexadecimal digits.
 *
 * The module also gives the decoding side, percent-decoding as in section 2.1 of RFC 3986
 * followed by UTF-8 decoding, which serves as the reference the encoding is proved against.
 */
module FormEncoding {
  import opened Wrappers
  import opened Text

  newtype byte = x: int | 0 <= x < 256

  /** The characters URLEncoder leaves as they are. */
  predicate IsUnreserved(c: char)
  {
    ('a' <= c <= 'z') || ('A' <= c <= 'Z') || ('0' <= c <= '9') || c == '.' || c == '-' || c == '*' || c == '_'
  }

  /** The UTF-8 encoding of one Unicode scalar value (section 3 of RFC 3629). */
  function Utf8(c: char): (r: seq<byte>)
    ensures 1 <= |r| <= 4
    ensures (c as int) < 0x80 ==> r == [c as int as byte]
  {
    var n := c as int;
    var n1 := n / 64;
    var n2 := n1 / 64;
    var n3 := n2 / 64;
    if n < 0x80 then [n as byte]
    else if n < 0x800 then [(0xC0 + n1) as byte, (0x80 + n % 64) as byte]
    else if n < 0x10000 then [(0xE0 + n2) as byte, (0x80 + n1 % 64) as byte, (0x80 + n % 64) as byte]
    else [(0xF0 + n3) as byte, (0x80 + n2 % 64) as byte, (0x80 + n1 % 64) as byte, (0x80 + n % 64) as byte]
  }

  /** One byte written as '%' and two upper-case hexadecimal digits. */
  function PercentByte(b: byte): string
  {
    ['%', HexDigit((b as int) / 16), HexDigit((b as int) % 16)]
  }

  function PercentBytes(bs: seq<byte>): string
  {
    if bs == [] then "" else PercentByte(bs[0]) + PercentBytes(bs[1..])
  }

  /** How URLEncoder writes one character. */
  function FormEncodeChar(c: char): string
  {
    if IsUnreserved(c) then [c] else if c == ' ' then "+" else PercentBytes(Utf8(c))
  }

  /** URLEncoder.encode(s, "UTF-8"). */
  function FormEncode(s: string): string
  {
    if s == [] then "" else FormEncodeChar(s[0]) + FormEncode(s[1..])
  }

  /** The value of a hexadecimal digit of either case. */
  function HexValue(c: char): (d: nat)
    ensures d < 16
  {
    if '0' <= c <= '9' then (c as int) - ('0' as int)
    else if 'A' <= c <= 'F' then (c as int) - ('A' as int) + 10
    else if 'a' <= c <= 'f' then (c as int) - ('a' as int) + 10
    else 0
  }

  predicate IsHexDigit(c: char)
  {
    ('0' <= c <= '9') || ('A' <= c <= 'F') || ('a' <= c <= 'f')
  }

  lemma HexValueOfDigit(d: nat)
    requires d < 16
    ensures IsHexDigit(HexDigit(d)) && HexValue(HexDigit(d)) == d
  {
  }

  /**
   * Percent-decoding (section 2.1 of RFC 3986) into bytes: "%XX" is the byte XX and any other
   * ASCII character stands for itself; a stray '%' or a non-ASCII character is malformed.
   */
  function PercentDecode(s: string): Option<seq<byte>>
  {
    if s == [] then Some([])
    else if s[0] == '%' then
      if |s| >= 3 && IsHexDigit(s[1]) && IsHexDigit(s[2]) then
        match PercentDecode(s[3..])
        case None => None
        case Some(rest) => Some([(HexValue(s[1]) * 16 + HexValue(s[2])) as byte] + rest)
      else None
    else if (s[0] as int) < 0x80 then
      match PercentDecode(s[1..])
      case None => None
      case Some(rest) => Some([s[0] as int as byte] + rest)
    else None
  }

  predicate IsContinuation(b: byte) { 0x80 <= b < 0xC0 }

  /** The character with the given code point, when there is one. */
  function ScalarValue(v: int): Option<char>
  {
    if 0 <= v < 0xD800 || 0xE000 <= v < 0x11_0000 then Some(v as char) else None
  }

  /** Decodes the UTF-8 sequence that starts a byte string, giving the character and its length. */
  function DecodeOne(bs: seq<byte>): Option<(char, nat)>
    requires bs != []
  {
    var b0 := bs[0] as int;
    if b0 < 0x80 then Some((b0 as char, 1))
    else if 0xC0 <= b0 < 0xE0 && |bs| >= 2 && IsContinuation(bs[1]) then
      match ScalarValue((b0 - 0xC0) * 64 + (bs[1] as int - 0x80))
      case None => None
      case Some(c) => Some((c, 2))
    else if 0xE0 <= b0 < 0xF0 && |bs| >= 3 && IsContinuation(bs[1]) && IsContinuation(bs[2]) then
      match ScalarValue(((b0 - 0xE0) * 64 + (bs[1] as int - 0x80)) * 64 + (bs[2] as int - 0x80))
      case None => None
      case Some(c) => Some((c, 3))
    else if 0xF0 <= b0 < 0xF8 && |bs| >= 4 && IsContinuation(bs[1]) && IsContinuation(bs[2]) && IsContinuation(bs[3]) then
      match ScalarValue((((b0 - 0xF0) * 64 + (bs[1] as int - 0x80)) * 64 + (bs[2] as int - 0x80)) * 64 + (bs[3] as int - 0x80))
      case None => None
      case Some(c) => Some((c, 4))
    else None
  }

  /** UTF-8 decoding of a whole byte string. */
  function Utf8Decode(bs: seq<byte>): Option<string>
    decreases |bs|
  {
    if bs == [] then Some("")
    else match DecodeOne(bs)
      case None => None
      case Some((c, n)) =>
        if n <= |bs| then
          match Utf8Decode(bs[n..])
          case None => None
          case Some(rest) => Some([c] + rest)
        else None
  }

  /** The UTF-8 encoding of a whole string. */
  function Utf8String(s: string): seq<byte>
  {
    if s == [] then [] else Utf8(s[0]) + Utf8String(s[1..])
  }

  /** Decoding reads back exactly the character that Utf8 wrote. */
  lemma DecodeOneOfUtf8(c: char, rest: seq<byte>)
    ensures DecodeOne(Utf8(c) + rest) == Some((c, |Utf8(c)|))
  {
    var n := c as int;
    var n1 := n / 64;
    var n2 := n1 / 64;
    var n3 := n2 / 64;
    assert n == n1 * 64 + n % 64;
    assert n1 == n2 * 64 + n1 % 64;
    assert n2 == n3 * 64 + n2 % 64;
    var bs := Utf8(c) + rest;
    if n < 0x80 {
    } else if n < 0x800 {
      assert bs[0] as int == 0xC0 + n1 && bs[1] as int == 0x80 + n % 64;
      assert ScalarValue(n) == Some(c);
    } else if n < 0x10000 {
      assert bs[0] as int == 0xE0 + n2 && bs[1] as int == 0x80 + n1 % 64 && bs[2] as int == 0x80 + n % 64;
      assert ((n2 * 64 + n1 % 64) * 64 + n % 64) == n;
      assert ScalarValue(n) == Some(c);
    } else {
      assert n3 < 0x11;
      assert bs[0] as int == 0xF0 + n3 && bs[1] as int == 0x80 + n2 % 64;
      assert bs[2] as int == 0x80 + n1 % 64 && bs[3] as int == 0x80 + n % 64;
      assert (((n3 * 64 + n2 % 64) * 64 + n1 % 64) * 64 + n % 64) == n;
      assert ScalarValue(n) == Some(c);
    }
  }

  /** UTF-8 decoding undoes UTF-8 encoding. */
  lemma {:induction false} Utf8RoundTrip(s: string)
    ensures Utf8Decode(Utf8String(s)) == Some(s)
  {
    if s != [] {
      var bs := Utf8String(s);
      DecodeOneOfUtf8(s[0], Utf8String(s[1..]));
      assert bs != [] && DecodeOne(bs) == Some((s[0], |Utf8(s[0])|));
      assert bs[|Utf8(s[0])|..] == Utf8String(s[1..]);
      Utf8RoundTrip(s[1..]);
      assert [s[0]] + s[1..] == s;
    }
  }

  /** Percent-decoding reads the bytes back out of their %XX triples. */
  lemma {:induction false} PercentDecodeOfPercentBytes(bs: seq<byte>, t: string, rest: seq<byte>)
    requires PercentDecode(t) == Some(rest)
    ensures PercentDecode(PercentBytes(bs) + t) == Some(bs + rest)
  {
    if bs != [] {
      var b := bs[0] as int;
      HexValueOfDigit(b / 16);
      HexValueOfDigit(b % 16);
      PercentDecodeOfPercentBytes(bs[1..], t, rest);
      var s := PercentBytes(bs) + t;
      assert s == PercentByte(bs[0]) + (PercentBytes(bs[1..]) + t);
      assert s[0] == '%' && s[1] == HexDigit(b / 16) && s[2] == HexDigit(b % 16);
      assert (HexValue(s[1]) * 16 + HexValue(s[2])) as byte == bs[0];
      assert s[3..] == PercentBytes(bs[1..]) + t;
      assert PercentDecode(s[3..]) == Some(bs[1..] + rest);
      assert IsHexDigit(s[1]) && IsHexDigit(s[2]);
      assert bs + rest == [bs[0]] + (bs[1..] + rest);
    } else {
      assert PercentBytes(bs) + t == t && bs + rest == rest;
    }
  }
}
