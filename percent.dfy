/** JavaScript's `encodeURIComponent` and `decodeURIComponent`: percent-encoding
    as in section 2.1 of RFC 3986 applied to the UTF-8 bytes (RFC 3629) of each
    character, leaving unescaped the letters, digits and - _ . ! ~ * ' ( ).
    Every WhatsApp link the storefront builds carries its text this way. */
module PercentEncoding {
  import opened Wrappers

  type Byte = b: int | 0 <= b < 256

  /** The characters `encodeURIComponent` leaves as they are. */
  predicate Unescaped(c: char) {
    ('A' <= c <= 'Z') || ('a' <= c <= 'z') || ('0' <= c <= '9')
    || c == '-' || c == '_' || c == '.' || c == '!' || c == '~' || c == '*'
    || c == '\'' || c == '(' || c == ')'
  }

  /** UTF-8 encoding of one Unicode scalar value. */
  function Utf8(c: char): (bs: seq<Byte>)
    ensures 1 <= |bs| <= 4
  {
    var n := c as int;
    if n < 0x80 then [n]
    else if n < 0x800 then [0xC0 + n / 64, 0x80 + n % 64]
    else if n < 0x10000 then [0xE0 + n / 4096, 0x80 + (n / 64) % 64, 0x80 + n % 64]
    else [0xF0 + n / 262144, 0x80 + (n / 4096) % 64, 0x80 + (n / 64) % 64, 0x80 + n % 64]
  }

  /** How many bytes a sequence starting with `b` has; 0 when `b` cannot start one. */
  function SequenceLength(b: Byte): nat {
    if b < 0x80 then 1
    else if b < 0xC0 then 0
    else if b < 0xE0 then 2
    else if b < 0xF0 then 3
    else if b < 0xF8 then 4
    else 0
  }

  predicate Continuation(b: Byte) {
    0x80 <= b < 0xC0
  }

  /** The code point a well-shaped UTF-8 sequence spells. */
  function CodePoint(bs: seq<Byte>): int
    requires 1 <= |bs| <= 4
  {
    var b: seq<int> := bs;
    if |b| == 1 then b[0]
    else if |b| == 2 then (b[0] - 0xC0) * 64 + (b[1] - 0x80)
    else if |b| == 3 then (b[0] - 0xE0) * 4096 + (b[1] - 0x80) * 64 + (b[2] - 0x80)
    else (b[0] - 0xF0) * 262144 + (b[1] - 0x80) * 4096 + (b[2] - 0x80) * 64 + (b[3] - 0x80)
  }

  /** The smallest code point that needs `len` bytes (anything below is overlong). */
  function MinCodePoint(len: nat): int {
    if len <= 1 then 0 else if len == 2 then 0x80 else if len == 3 then 0x800 else 0x10000
  }

  /** Decodes one UTF-8 sequence; None for a malformed, overlong, surrogate or
      out-of-range one. */
  function Utf8Decode(bs: seq<Byte>): Option<char> {
    if |bs| == 0 || SequenceLength(bs[0]) != |bs| then None
    else if !(forall k | 1 <= k < |bs| :: Continuation(bs[k])) then None
    else
      var n := CodePoint(bs);
      if n < MinCodePoint(|bs|) || (0xD800 <= n < 0xE000) || n >= 0x110000 then None
      else Some(n as char)
  }

  /** UTF-8 decoding undoes UTF-8 encoding. */
  lemma Utf8RoundTrip(c: char)
    ensures SequenceLength(Utf8(c)[0]) == |Utf8(c)|
    ensures Utf8Decode(Utf8(c)) == Some(c)
  {
    var n := c as int;
    if n < 0x80 {
    } else if n < 0x800 {
      Utf8TwoBytes(c);
    } else if n < 0x10000 {
      Utf8ThreeBytes(c);
    } else {
      Utf8FourBytes(c);
    }
  }

  lemma Utf8TwoBytes(c: char)
    requires 0x80 <= c as int < 0x800
    ensures SequenceLength(Utf8(c)[0]) == 2
    ensures Utf8Decode(Utf8(c)) == Some(c)
  {
    var n := c as int;
    var bs := Utf8(c);
    assert bs == [0xC0 + n / 64, 0x80 + n % 64];
    assert CodePoint(bs) == (n / 64) * 64 + n % 64 == n;
  }

  lemma Utf8ThreeBytes(c: char)
    requires 0x800 <= c as int < 0x10000
    ensures SequenceLength(Utf8(c)[0]) == 3
    ensures Utf8Decode(Utf8(c)) == Some(c)
  {
    var n := c as int;
    var bs := Utf8(c);
    var q := n / 64;
    assert n == q * 64 + n % 64;
    assert n / 4096 == q / 64;
    assert q == (q / 64) * 64 + q % 64;
    assert bs == [0xE0 + q / 64, 0x80 + q % 64, 0x80 + n % 64];
    assert CodePoint(bs) == (q / 64) * 4096 + (q % 64) * 64 + n % 64;
    assert CodePoint(bs) == n;
  }

  lemma Utf8FourBytes(c: char)
    requires 0x10000 <= c as int
    ensures SequenceLength(Utf8(c)[0]) == 4
    ensures Utf8Decode(Utf8(c)) == Some(c)
  {
    var n := c as int;
    var bs := Utf8(c);
    var q := n / 64;
    var r := q / 64;
    assert n == q * 64 + n % 64;
    assert q == r * 64 + q % 64;
    assert n / 4096 == r;
    assert n / 262144 == r / 64;
    assert r == (r / 64) * 64 + r % 64;
    assert bs == [0xF0 + r / 64, 0x80 + r % 64, 0x80 + q % 64, 0x80 + n % 64];
    assert CodePoint(bs) == (r / 64) * 262144 + (r % 64) * 4096 + (q % 64) * 64 + n % 64;
    assert CodePoint(bs) == n;
  }

  const HEX_DIGITS := "0123456789ABCDEF"

  /** The value of a hexadecimal digit in either case. */
  function HexValue(c: char): Option<nat> {
    if '0' <= c <= '9' then Some(c as int - '0' as int)
    else if 'A' <= c <= 'F' then Some(c as int - 'A' as int + 10)
    else if 'a' <= c <= 'f' then Some(c as int - 'a' as int + 10)
    else None
  }

  lemma HexDigitValue(d: nat)
    requires d < 16
    ensures HexValue(HEX_DIGITS[d]) == Some(d)
  {
  }

  /** `%XY` with upper-case hexadecimal digits. */
  function EscapeByte(b: Byte): string {
    ['%', HEX_DIGITS[b / 16], HEX_DIGITS[b % 16]]
  }

  function EscapeBytes(bs: seq<Byte>): (r: string)
    ensures |r| == 3 * |bs|
  {
    if bs == [] then "" else EscapeByte(bs[0]) + EscapeBytes(bs[1..])
  }

  function EncodeChar(c: char): string {
    if Unescaped(c) then [c] else EscapeBytes(Utf8(c))
  }

  /** What may appear in an encoded string: unescaped characters and '%'. */
  predicate UrlSafe(c: char) {
    Unescaped(c) || c == '%'
  }

  /** `encodeURIComponent(s)`; its output holds only URL-safe characters, so
      it can stand as one query value. */
  function Encode(s: string): (r: string)
    ensures forall k :: 0 <= k < |r| ==> UrlSafe(r[k])
  {
    if s == [] then ""
    else
      var head := EncodeChar(s[0]);
      assert forall k :: 0 <= k < |head| ==> UrlSafe(head[k]) by {
        if !Unescaped(s[0]) { EscapeBytesSafe(Utf8(s[0])); }
      }
      head + Encode(s[1..])
  }

  lemma {:induction false} EscapeBytesSafe(bs: seq<Byte>)
    ensures forall k :: 0 <= k < |EscapeBytes(bs)| ==> UrlSafe(EscapeBytes(bs)[k])
  {
    if bs != [] {
      EscapeBytesSafe(bs[1..]);
      var e := EscapeByte(bs[0]);
      assert forall k :: 0 <= k < 3 ==> UrlSafe(e[k]);
    }
  }

  /** Reads one `%XY` at the start of `s`. */
  function ReadByte(s: string): Option<Byte> {
    if |s| >= 3 && s[0] == '%' && HexValue(s[1]).Some? && HexValue(s[2]).Some?
       && HexValue(s[1]).value < 16 && HexValue(s[2]).value < 16
    then Some(HexValue(s[1]).value * 16 + HexValue(s[2]).value)
    else None
  }

  /** Reads `count` escaped bytes at the start of `s`. */
  function ReadBytes(s: string, count: nat): (r: Option<seq<Byte>>)
    ensures r.Some? ==> |r.value| == count && 3 * count <= |s|
  {
    if count == 0 then Some([])
    else match ReadByte(s)
      case None => None
      case Some(b) =>
        match ReadBytes(s[3..], count - 1)
        case None => None
        case Some(bs) => Some([b] + bs)
  }

  /** `decodeURIComponent(s)`; None where it throws URIError (a '%' not
      followed by two hexadecimal digits, or bytes that are not UTF-8). */
  function Decode(s: string): Option<string>
    decreases |s|
  {
    if s == [] then Some("")
    else if s[0] != '%' then
      match Decode(s[1..])
      case None => None
      case Some(t) => Some([s[0]] + t)
    else
      match ReadByte(s)
      case None => None
      case Some(lead) =>
        var count := SequenceLength(lead);
        if count == 0 then None
        else
          match ReadBytes(s, count)
          case None => None
          case Some(bs) =>
            match Utf8Decode(bs)
            case None => None
            case Some(c) =>
              match Decode(s[3 * count..])
              case None => None
              case Some(t) => Some([c] + t)
  }

  lemma ReadEscapedByte(b: Byte, t: string)
    ensures ReadByte(EscapeByte(b) + t) == Some(b)
  {
    HexDigitValue(b / 16);
    HexDigitValue(b % 16);
  }

  lemma {:induction false} ReadEscapedBytes(bs: seq<Byte>, t: string)
    ensures ReadBytes(EscapeBytes(bs) + t, |bs|) == Some(bs)
  {
    if bs != [] {
      var rest := EscapeBytes(bs[1..]) + t;
      var s := EscapeBytes(bs) + t;
      assert s == EscapeByte(bs[0]) + rest;
      ReadEscapedByte(bs[0], rest);
      ReadEscapedBytes(bs[1..], t);
      assert s[3..] == rest;
      assert ReadBytes(s, |bs|) == Some([bs[0]] + bs[1..]);
      assert [bs[0]] + bs[1..] == bs;
    }
  }

  /** Decoding reads one encoded character back off the front. */
  lemma DecodeEncodedChar(c: char, t: string)
    ensures Decode(EncodeChar(c) + t) ==
              match Decode(t) case None => None case Some(u) => Some([c] + u)
  {
    if Unescaped(c) {
      var s := EncodeChar(c) + t;
      assert s[0] == c && s[1..] == t;
    } else {
      DecodeEscapedChar(c, t);
    }
  }

  lemma DecodeEscapedChar(c: char, t: string)
    requires !Unescaped(c)
    ensures Decode(EscapeBytes(Utf8(c)) + t) ==
              match Decode(t) case None => None case Some(u) => Some([c] + u)
  {
    var bs := Utf8(c);
    var s := EscapeBytes(bs) + t;
    Utf8RoundTrip(c);
    assert s == EscapeByte(bs[0]) + (EscapeBytes(bs[1..]) + t);
    ReadEscapedByte(bs[0], EscapeBytes(bs[1..]) + t);
    assert s[0] == '%';
    assert ReadByte(s) == Some(bs[0]);
    ReadEscapedBytes(bs, t);
    assert ReadBytes(s, |bs|) == Some(bs);
    assert s[3 * |bs|..] == t;
  }

  /** `decodeURIComponent(encodeURIComponent(s)) == s` for every string. */
  lemma {:induction false} DecodeEncode(s: string)
    ensures Decode(Encode(s)) == Some(s)
  {
    if s != [] {
      DecodeEncode(s[1..]);
      DecodeEncodedChar(s[0], Encode(s[1..]));
      assert [s[0]] + s[1..] == s;
    }
  }

  /** Different texts never encode to the same string. */
  lemma EncodeInjective(s: string, t: string)
    requires Encode(s) == Encode(t)
    ensures s == t
  {
    DecodeEncode(s);
    DecodeEncode(t);
  }
}
