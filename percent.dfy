/**
 * OAuth percent-encoding: `percent(v)` applies `encodeURIComponent` and then
 * escapes the five marks `!*()'` that `encodeURIComponent` leaves literal.
 *
 * The result is compared with the encoding of section 3.6 of RFC 5849
 * (only the unreserved characters of section 2.3 of RFC 3986 stay literal,
 * every other character becomes `%XX` per UTF-8 byte, upper-case hex), and
 * a decoder shows that no two strings share an encoding.
 */
module PercentEncoding {
  import opened Results

  type Byte = b: int | 0 <= b < 256

  const HEX_UPPER: string := "0123456789ABCDEF"
  const HEX_LOWER: string := "0123456789abcdef"

  // ---------------------------------------------------------------- UTF-8

  /** The UTF-8 encoding of one Unicode scalar value. */
  function Utf8Char(c: char): (bs: seq<Byte>)
    ensures 1 <= |bs| <= 4
    ensures |bs| == 1 <==> (c as int) < 0x80
  {
    var n := c as int;
    if n < 0x80 then [n]
    else if n < 0x800 then [0xC0 + n / 0x40, 0x80 + n % 0x40]
    else if n < 0x1_0000 then [0xE0 + n / 0x1000, 0x80 + n / 0x40 % 0x40, 0x80 + n % 0x40]
    else [0xF0 + n / 0x4_0000, 0x80 + n / 0x1000 % 0x40, 0x80 + n / 0x40 % 0x40, 0x80 + n % 0x40]
  }

  /** The UTF-8 encoding of a string. */
  function Utf8(s: string): seq<Byte> {
    if s == [] then [] else Utf8Char(s[0]) + Utf8(s[1..])
  }

  /** A scalar value as a char, when it is one. */
  function ToChar(n: int): Option<char> {
    if 0 <= n < 0xD800 || 0xE000 <= n < 0x11_0000 then Some(n as char) else None
  }

  /** Decodes the first character of `bs`, with the number of bytes it took. */
  function DecodeUtf8Char(bs: seq<Byte>): (r: Option<(char, nat)>)
    requires bs != []
    ensures r.Some? ==> 1 <= r.value.1 <= |bs|
  {
    var b0 := bs[0] as int;
    if b0 < 0x80 then Some((b0 as char, 1))
    else if b0 < 0xC0 then None
    else if b0 < 0xE0 then
      if |bs| < 2 then None
      else match ToChar((b0 - 0xC0) * 0x40 + (bs[1] as int - 0x80))
        case Some(c) => Some((c, 2))
        case None => None
    else if b0 < 0xF0 then
      if |bs| < 3 then None
      else match ToChar((b0 - 0xE0) * 0x1000 + (bs[1] as int - 0x80) * 0x40 + (bs[2] as int - 0x80))
        case Some(c) => Some((c, 3))
        case None => None
    else
      if |bs| < 4 then None
      else match ToChar((b0 - 0xF0) * 0x4_0000 + (bs[1] as int - 0x80) * 0x1000 + (bs[2] as int - 0x80) * 0x40 + (bs[3] as int - 0x80))
        case Some(c) => Some((c, 4))
        case None => None
  }

  /** Decodes UTF-8 bytes into a string; `None` on a sequence it does not accept. */
  function DecodeUtf8(bs: seq<Byte>): Option<string>
    decreases |bs|
  {
    if bs == [] then Some([])
    else match DecodeUtf8Char(bs)
      case None => None
      case Some((c, len)) =>
        match DecodeUtf8(bs[len..])
        case None => None
        case Some(rest) => Some([c] + rest)
  }

  lemma Utf8CharDecodes(c: char, rest: seq<Byte>)
    ensures DecodeUtf8Char(Utf8Char(c) + rest) == Some((c, |Utf8Char(c)|))
  {
    var n := c as int;
    var bs := Utf8Char(c) + rest;
    if n < 0x80 {
    } else if n < 0x800 {
      assert (bs[0] as int - 0xC0) * 0x40 + (bs[1] as int - 0x80) == n;
    } else if n < 0x1_0000 {
      var q := n / 0x40;
      assert q / 0x40 == n / 0x1000;
      assert (bs[0] as int - 0xE0) * 0x1000 + (bs[1] as int - 0x80) * 0x40 + (bs[2] as int - 0x80)
          == (q / 0x40 * 0x40 + q % 0x40) * 0x40 + n % 0x40;
    } else {
      var q := n / 0x40;
      var q2 := q / 0x40;
      assert q2 == n / 0x1000;
      assert q2 / 0x40 == n / 0x4_0000;
      assert (bs[0] as int - 0xF0) * 0x4_0000 + (bs[1] as int - 0x80) * 0x1000 + (bs[2] as int - 0x80) * 0x40 + (bs[3] as int - 0x80)
          == ((q2 / 0x40 * 0x40 + q2 % 0x40) * 0x40 + q % 0x40) * 0x40 + n % 0x40;
    }
  }

  /** UTF-8 decoding undoes UTF-8 encoding. */
  lemma {:induction false} Utf8RoundTrip(s: string)
    ensures DecodeUtf8(Utf8(s)) == Some(s)
  {
    if s != [] {
      var bs := Utf8(s);
      Utf8CharDecodes(s[0], Utf8(s[1..]));
      assert bs[|Utf8Char(s[0])|..] == Utf8(s[1..]);
      Utf8RoundTrip(s[1..]);
      assert [s[0]] + s[1..] == s;
    }
  }

  // ------------------------------------------------------- hex escapes

  /** `%XX` with upper-case hex digits, for one byte. */
  function EscapeByte(b: Byte): string {
    ['%', HEX_UPPER[b / 16], HEX_UPPER[b % 16]]
  }

  /** `%XX` for each byte. */
  function EscapeBytes(bs: seq<Byte>): string {
    if bs == [] then [] else EscapeByte(bs[0]) + EscapeBytes(bs[1..])
  }

  /** The value of a hex digit of either case. */
  function HexValue(c: char): Option<nat> {
    if '0' <= c <= '9' then Some(c as int - '0' as int)
    else if 'A' <= c <= 'F' then Some(c as int - 'A' as int + 10)
    else if 'a' <= c <= 'f' then Some(c as int - 'a' as int + 10)
    else None
  }

  lemma HexUpperValue(d: nat)
    requires d < 16
    ensures HexValue(HEX_UPPER[d]) == Some(d)
  {
  }

  /** Lower-case hex of a byte string, as `Buffer.toString("hex")` writes it. */
  function HexLower(bs: seq<Byte>): (r: string)
    ensures |r| == 2 * |bs|
  {
    if bs == [] then [] else [HEX_LOWER[bs[0] / 16], HEX_LOWER[bs[0] % 16]] + HexLower(bs[1..])
  }

  // ---------------------------------------- the encoding the source uses

  /** The characters `encodeURIComponent` leaves literal. */
  predicate UriComponentLiteral(c: char) {
    ('A' <= c <= 'Z') || ('a' <= c <= 'z') || ('0' <= c <= '9')
    || c in "-_.!~*'()"
  }

  /** `encodeURIComponent` on one character. */
  function EncodeUriChar(c: char): string {
    if UriComponentLiteral(c) then [c] else EscapeBytes(Utf8Char(c))
  }

  /** `encodeURIComponent(s)`. */
  function EncodeUriComponent(s: string): string {
    if s == [] then [] else EncodeUriChar(s[0]) + EncodeUriComponent(s[1..])
  }

  /** The five marks the source escapes after `encodeURIComponent`. */
  predicate Mark(c: char) {
    c in "!*()'"
  }

  /** `s.replace(/[!*()']/g, c => "%" + c.charCodeAt(0).toString(16).toUpperCase())`. */
  function EscapeMarks(s: string): string {
    if s == [] then []
    else (if Mark(s[0]) then EscapeByte(s[0] as int) else [s[0]]) + EscapeMarks(s[1..])
  }

  /** `percent(v)`, on the string `v` denotes. */
  function Percent(s: string): string {
    EscapeMarks(EncodeUriComponent(s))
  }

  // ---------------------------------------- the RFC 5849 definition

  /** The unreserved characters of section 2.3 of RFC 3986. */
  predicate Unreserved(c: char) {
    ('A' <= c <= 'Z') || ('a' <= c <= 'z') || ('0' <= c <= '9') || c in "-._~"
  }

  /** One character under section 3.6 of RFC 5849. */
  function Rfc5849Char(c: char): string {
    if Unreserved(c) then [c] else EscapeBytes(Utf8Char(c))
  }

  /** A string under section 3.6 of RFC 5849. */
  function Rfc5849Encode(s: string): string {
    if s == [] then [] else Rfc5849Char(s[0]) + Rfc5849Encode(s[1..])
  }

  /** The characters an encoded string may hold: unreserved ones and `%` (hex digits are unreserved). */
  predicate EncodedChar(c: char) {
    Unreserved(c) || c == '%'
  }

  lemma HexUpperUnreserved(d: nat)
    requires d < 16
    ensures Unreserved(HEX_UPPER[d])
  {
  }

  lemma {:induction false} EscapeBytesChars(bs: seq<Byte>)
    ensures forall i :: 0 <= i < |EscapeBytes(bs)| ==> EncodedChar(EscapeBytes(bs)[i]) && !Mark(EscapeBytes(bs)[i])
  {
    if bs != [] {
      EscapeBytesChars(bs[1..]);
      var e := EscapeBytes(bs);
      assert e == EscapeByte(bs[0]) + EscapeBytes(bs[1..]);
      HexUpperUnreserved(bs[0] / 16);
      HexUpperUnreserved(bs[0] % 16);
      forall i | 0 <= i < |e| ensures EncodedChar(e[i]) && !Mark(e[i]) {
        if i >= 3 {
          assert e[i] == EscapeBytes(bs[1..])[i - 3];
        }
      }
    }
  }

  lemma {:induction false} EscapeMarksAppend(a: string, b: string)
    ensures EscapeMarks(a + b) == EscapeMarks(a) + EscapeMarks(b)
  {
    if a != [] {
      var h := if Mark(a[0]) then EscapeByte(a[0] as int) else [a[0]];
      assert (a + b)[0] == a[0];
      assert (a + b)[1..] == a[1..] + b;
      EscapeMarksAppend(a[1..], b);
      calc {
        EscapeMarks(a + b);
        h + EscapeMarks(a[1..] + b);
        h + (EscapeMarks(a[1..]) + EscapeMarks(b));
        (h + EscapeMarks(a[1..])) + EscapeMarks(b);
      }
    } else {
      assert a + b == b;
    }
  }

  lemma {:induction false} EscapeMarksNoMarks(s: string)
    requires forall i :: 0 <= i < |s| ==> !Mark(s[i])
    ensures EscapeMarks(s) == s
  {
    if s != [] {
      EscapeMarksNoMarks(s[1..]);
    }
  }

  /** One character: escaping the marks after `encodeURIComponent` gives the RFC 5849 encoding. */
  lemma EscapedUriChar(c: char)
    ensures EscapeMarks(EncodeUriChar(c)) == Rfc5849Char(c)
  {
    if UriComponentLiteral(c) {
      if Mark(c) {
        assert EscapeMarks([c]) == EscapeByte(c as int) + EscapeMarks([]);
        assert Utf8Char(c) == [c as int];
        assert EscapeBytes([c as int]) == EscapeByte(c as int) + EscapeBytes([]);
      } else {
        assert EscapeMarks([c]) == [c] + EscapeMarks([]);
      }
    } else {
      EscapeBytesChars(Utf8Char(c));
      EscapeMarksNoMarks(EscapeBytes(Utf8Char(c)));
    }
  }

  /**
   * `percent` agrees with section 3.6 of RFC 5849 on every string: escaping
   * the marks after `encodeURIComponent` leaves exactly the unreserved set literal.
   */
  lemma {:induction false} PercentIsRfc5849(s: string)
    ensures Percent(s) == Rfc5849Encode(s)
  {
    if s != [] {
      EscapeMarksAppend(EncodeUriChar(s[0]), EncodeUriComponent(s[1..]));
      EscapedUriChar(s[0]);
      PercentIsRfc5849(s[1..]);
    }
  }

  lemma {:induction false} Rfc5849Chars(s: string)
    ensures forall i :: 0 <= i < |Rfc5849Encode(s)| ==> EncodedChar(Rfc5849Encode(s)[i])
  {
    if s != [] {
      Rfc5849Chars(s[1..]);
      EscapeBytesChars(Utf8Char(s[0]));
      var e := Rfc5849Encode(s);
      var h := Rfc5849Char(s[0]);
      forall i | 0 <= i < |e| ensures EncodedChar(e[i]) {
        if i < |h| {
          assert e[i] == h[i];
        } else {
          assert e[i] == Rfc5849Encode(s[1..])[i - |h|];
        }
      }
    }
  }

  /**
   * What `percent` emits: unreserved characters, `%` and upper-case hex
   * digits only; in particular never a raw `!`, `*`, `(`, `)`, `'`, nor the
   * `&` and `=` that delimit the signature base string.
   */
  lemma PercentChars(s: string)
    ensures forall i :: 0 <= i < |Percent(s)| ==> EncodedChar(Percent(s)[i])
    ensures forall i :: 0 <= i < |Percent(s)| ==> !Mark(Percent(s)[i])
    ensures '&' !in Percent(s) && '=' !in Percent(s)
  {
    PercentIsRfc5849(s);
    Rfc5849Chars(s);
    var e := Percent(s);
    forall i | 0 <= i < |e| ensures !Mark(e[i]) && e[i] != '&' && e[i] != '=' {
      assert EncodedChar(e[i]);
    }
  }

  /** A mark becomes `%` and its upper-case hex code. */
  lemma PercentMark(c: char)
    requires Mark(c)
    ensures Percent([c]) == EscapeByte(c as int)
  {
    PercentIsRfc5849([c]);
    assert Rfc5849Encode([c]) == Rfc5849Char(c) + Rfc5849Encode([]);
    assert Utf8Char(c) == [c as int];
    assert EscapeBytes([c as int]) == EscapeByte(c as int) + EscapeBytes([]);
  }

  /** The escapes of the five marks: `%21`, `%2A`, `%28`, `%29`, `%27`. */
  lemma MarkEscapes()
    ensures EscapeByte('!' as int) == "%21" && EscapeByte('*' as int) == "%2A" && EscapeByte('(' as int) == "%28"
    ensures EscapeByte(')' as int) == "%29" && EscapeByte('\'' as int) == "%27"
  {
  }

  /** ASCII letters, digits and `-_.~` pass through unchanged; `percent` works character by character. */
  lemma {:induction false} PercentUnreserved(s: string)
    requires forall i :: 0 <= i < |s| ==> Unreserved(s[i])
    ensures Percent(s) == s
  {
    PercentIsRfc5849(s);
    if s != [] {
      PercentUnreserved(s[1..]);
      PercentIsRfc5849(s[1..]);
    }
  }

  lemma {:induction false} Rfc5849Append(a: string, b: string)
    ensures Rfc5849Encode(a + b) == Rfc5849Encode(a) + Rfc5849Encode(b)
  {
    if a != [] {
      assert (a + b)[0] == a[0];
      assert (a + b)[1..] == a[1..] + b;
      Rfc5849Append(a[1..], b);
      calc {
        Rfc5849Encode(a + b);
        Rfc5849Char(a[0]) + Rfc5849Encode(a[1..] + b);
        Rfc5849Char(a[0]) + (Rfc5849Encode(a[1..]) + Rfc5849Encode(b));
        (Rfc5849Char(a[0]) + Rfc5849Encode(a[1..])) + Rfc5849Encode(b);
      }
    } else {
      assert a + b == b;
    }
  }

  // ------------------------------------------------------------- decoding

  /** Percent-decoding into bytes; `None` for a malformed escape or a non-ASCII literal. */
  function DecodePercent(s: string): Option<seq<Byte>>
    decreases |s|
  {
    if s == [] then Some([])
    else if s[0] == '%' then
      if |s| < 3 then None
      else match (HexValue(s[1]), HexValue(s[2]))
        case (Some(hi), Some(lo)) =>
          (match DecodePercent(s[3..])
           case Some(rest) => Some([hi * 16 + lo] + rest)
           case None => None)
        case _ => None
    else if (s[0] as int) < 0x80 then
      match DecodePercent(s[1..])
      case Some(rest) => Some([s[0] as int] + rest)
      case None => None
    else None
  }

  lemma DecodeEscapeByte(b: Byte, rest: string)
    requires DecodePercent(rest).Some?
    ensures DecodePercent(EscapeByte(b) + rest) == Some([b] + DecodePercent(rest).value)
  {
    HexUpperValue(b / 16);
    HexUpperValue(b % 16);
    var s := EscapeByte(b) + rest;
    assert s[3..] == rest;
  }

  lemma {:induction false} DecodeEscapes(bs: seq<Byte>, rest: string)
    requires DecodePercent(rest).Some?
    ensures DecodePercent(EscapeBytes(bs) + rest) == Some(bs + DecodePercent(rest).value)
  {
    if bs != [] {
      DecodeEscapes(bs[1..], rest);
      var tail := EscapeBytes(bs[1..]) + rest;
      DecodeEscapeByte(bs[0], tail);
      assert EscapeBytes(bs) + rest == EscapeByte(bs[0]) + tail;
      assert [bs[0]] + (bs[1..] + DecodePercent(rest).value) == bs + DecodePercent(rest).value;
    } else {
      assert EscapeBytes(bs) + rest == rest;
      assert bs + DecodePercent(rest).value == DecodePercent(rest).value;
    }
  }

  lemma {:induction false} DecodeRfc5849(s: string)
    ensures DecodePercent(Rfc5849Encode(s)) == Some(Utf8(s))
  {
    if s != [] {
      var c := s[0];
      DecodeRfc5849(s[1..]);
      var e := Rfc5849Encode(s);
      if Unreserved(c) {
        assert e[1..] == Rfc5849Encode(s[1..]);
      } else {
        DecodeEscapes(Utf8Char(c), Rfc5849Encode(s[1..]));
      }
    }
  }

  /** Undoes `percent`: percent-decode, then UTF-8 decode. */
  function Unpercent(s: string): Option<string> {
    match DecodePercent(s)
    case Some(bs) => DecodeUtf8(bs)
    case None => None
  }

  /** `percent` loses nothing: decoding its output gives back the input. */
  lemma PercentRoundTrip(s: string)
    ensures Unpercent(Percent(s)) == Some(s)
  {
    PercentIsRfc5849(s);
    DecodeRfc5849(s);
    Utf8RoundTrip(s);
  }

  /** So two different strings never encode alike. */
  lemma PercentInjective(a: string, b: string)
    requires Percent(a) == Percent(b)
    ensures a == b
  {
    PercentRoundTrip(a);
    PercentRoundTrip(b);
  }
}
