/**
 * The application/x-www-form-urlencoded escaping that `java.net.URLEncoder.encode(s, "UTF-8")`
 * applies (HTML 4.01, section 17.13.4.1): letters, digits and `- _ . *` stay as they are, a space
 * becomes `+`, and every other character becomes the `%XY` escapes of its UTF-8 bytes, with
 * upper-case hexadecimal digits.
 *
 * The decoder below is the partner of the encoder: it undoes the escaping, and the round trip
 * `Decode(Encode(s)) == Some(s)` shows that distinct keys never share an escaped name.
 */
module FormUrlEncoding {
  import opened Optional

  /** Characters the encoder copies unchanged. */
  predicate IsUnreserved(c: char) {
    ('a' <= c <= 'z') || ('A' <= c <= 'Z') || ('0' <= c <= '9') || c == '-' || c == '_' || c == '.' || c == '*'
  }

  /** Characters that can occur in the encoder's output. */
  predicate IsEncodedChar(c: char) {
    IsUnreserved(c) || c == '+' || c == '%'
  }

  /** A Unicode scalar value: a code point that is not a surrogate. */
  predicate IsScalarValue(cp: int) {
    0 <= cp < 0xD800 || 0xE000 <= cp < 0x11_0000
  }

  predicate IsByte(b: int) {
    0 <= b < 256
  }

  /** The upper-case hexadecimal digit for `d`. */
  function HexDigit(d: int): (c: char)
    requires 0 <= d < 16
    ensures IsUnreserved(c)
  {
    if d < 10 then ('0' as int + d) as char else ('A' as int + d - 10) as char
  }

  /** The value of a hexadecimal digit of either case; None for any other character. */
  function HexValue(c: char): (r: Option<int>)
    ensures r.Some? ==> 0 <= r.value < 16
  {
    if '0' <= c <= '9' then Some(c as int - '0' as int)
    else if 'A' <= c <= 'F' then Some(c as int - 'A' as int + 10)
    else if 'a' <= c <= 'f' then Some(c as int - 'a' as int + 10)
    else None
  }

  /** The UTF-8 bytes of a code point (RFC 3629, section 3). */
  function Utf8(cp: int): (bytes: seq<int>)
    requires 0 <= cp < 0x11_0000
  {
    if cp < 0x80 then [cp]
    else if cp < 0x800 then [0xC0 + cp / 64, 0x80 + cp % 64]
    else if cp < 0x1_0000 then [0xE0 + cp / 64 / 64, 0x80 + cp / 64 % 64, 0x80 + cp % 64]
    else [0xF0 + cp / 64 / 64 / 64, 0x80 + cp / 64 / 64 % 64, 0x80 + cp / 64 % 64, 0x80 + cp % 64]
  }

  /** The number of bytes of a UTF-8 sequence whose first byte is `lead`; 0 when `lead` cannot start one. */
  function Utf8Length(lead: int): nat {
    if 0 <= lead < 0x80 then 1
    else if 0xC0 <= lead < 0xE0 then 2
    else if 0xE0 <= lead < 0xF0 then 3
    else if 0xF0 <= lead < 0xF8 then 4
    else 0
  }

  /** The code point carried by a UTF-8 sequence of one to four bytes. */
  function Utf8Value(bytes: seq<int>): int
    requires 1 <= |bytes| <= 4
  {
    if |bytes| == 1 then bytes[0]
    else if |bytes| == 2 then (bytes[0] - 0xC0) * 64 + (bytes[1] - 0x80)
    else if |bytes| == 3 then ((bytes[0] - 0xE0) * 64 + (bytes[1] - 0x80)) * 64 + (bytes[2] - 0x80)
    else (((bytes[0] - 0xF0) * 64 + (bytes[1] - 0x80)) * 64 + (bytes[2] - 0x80)) * 64 + (bytes[3] - 0x80)
  }

  /** Each byte as `%` followed by two upper-case hexadecimal digits. */
  function PercentEncode(bytes: seq<int>): (s: string)
    requires forall i :: 0 <= i < |bytes| ==> IsByte(bytes[i])
    ensures |s| == 3 * |bytes|
  {
    if bytes == [] then []
    else
      var b := bytes[0];
      assert IsByte(b);
      ['%', HexDigit(b / 16), HexDigit(b % 16)] + PercentEncode(bytes[1..])
  }

  /** The escape of one character. */
  function EncodeChar(c: char): (r: string)
    ensures 1 <= |r| <= 12
  {
    if IsUnreserved(c) then [c]
    else if c == ' ' then "+"
    else Utf8Bytes(c); PercentEncode(Utf8(c as int))
  }

  /** `URLEncoder.encode(s, "UTF-8")`. */
  function Encode(s: string): (r: string)
    ensures |s| <= |r| <= 12 * |s|
  {
    if s == [] then [] else EncodeChar(s[0]) + Encode(s[1..])
  }

  /** The byte written by the escape `%XY` at the front of `s`, if there is one. */
  function DecodeEscape(s: string): (r: Option<int>)
    ensures r.Some? ==> |s| >= 3 && IsByte(r.value)
  {
    if |s| < 3 || s[0] != '%' || HexValue(s[1]).None? || HexValue(s[2]).None? then None
    else Some(HexValue(s[1]).value * 16 + HexValue(s[2]).value)
  }

  /** Reads `n` escapes `%XY` from the front of `s`. */
  function PercentDecode(s: string, n: nat): (r: Option<seq<int>>)
    ensures r.Some? ==> |r.value| == n && 3 * n <= |s|
    ensures r.Some? ==> forall i :: 0 <= i < |r.value| ==> IsByte(r.value[i])
  {
    if n == 0 then Some([])
    else match DecodeEscape(s)
      case None => None
      case Some(b) =>
        match PercentDecode(s[3..], n - 1)
        case None => None
        case Some(rest) => Some([b] + rest)
  }

  /** Decodes the character at the front of `s`: the character and how many characters of `s` it used. */
  function DecodeChar(s: string): (r: Option<(char, nat)>)
    requires |s| > 0
    ensures r.Some? ==> 1 <= r.value.1 <= |s|
  {
    if IsUnreserved(s[0]) then Some((s[0], 1))
    else if s[0] == '+' then Some((' ', 1))
    else if s[0] != '%' then None
    else match PercentDecode(s, 1)
      case None => None
      case Some(lead) =>
        var n := Utf8Length(lead[0]);
        if n == 0 then None
        else match PercentDecode(s, n)
          case None => None
          case Some(bytes) =>
            var cp := Utf8Value(bytes);
            if IsScalarValue(cp) then Some((cp as char, 3 * n)) else None
  }

  /** Undoes `Encode`; None for text that is not a well-formed escape sequence. */
  function Decode(s: string): (r: Option<string>)
    decreases |s|
  {
    if s == [] then Some([])
    else match DecodeChar(s)
      case None => None
      case Some((c, n)) =>
        match Decode(s[n..])
        case None => None
        case Some(rest) => Some([c] + rest)
  }

  // ---- Proofs ----

  /** The UTF-8 bytes of a code point are bytes, their first byte announces their number, and they carry the code point. */
  lemma Utf8Bytes(c: char)
    ensures var bytes := Utf8(c as int);
      && 1 <= |bytes| <= 4
      && (forall i :: 0 <= i < |bytes| ==> IsByte(bytes[i]))
      && Utf8Length(bytes[0]) == |bytes|
      && Utf8Value(bytes) == c as int
  {
    var cp := c as int;
    assert cp == cp / 64 * 64 + cp % 64;
    assert cp / 64 == cp / 64 / 64 * 64 + cp / 64 % 64;
    assert cp / 64 / 64 == cp / 64 / 64 / 64 * 64 + cp / 64 / 64 % 64;
  }

  lemma HexRoundTrip(d: int)
    requires 0 <= d < 16
    ensures HexValue(HexDigit(d)) == Some(d)
  {
  }

  /** Reading back the escapes of a sequence of bytes recovers the bytes, whatever follows them. */
  lemma {:induction false} PercentRoundTrip(bytes: seq<int>, rest: string)
    requires forall i :: 0 <= i < |bytes| ==> IsByte(bytes[i])
    ensures PercentDecode(PercentEncode(bytes) + rest, |bytes|) == Some(bytes)
  {
    if bytes != [] {
      var b := bytes[0];
      var tail := PercentEncode(bytes[1..]) + rest;
      PercentEncodeFirst(bytes, rest);
      EscapeOfByte(b, tail);
      PercentRoundTrip(bytes[1..], rest);
      assert (['%', HexDigit(b / 16), HexDigit(b % 16)] + tail)[3..] == tail;
      assert [b] + bytes[1..] == bytes;
    }
  }

  /** The escape of a byte, followed by anything, is read by `DecodeEscape` as that byte. */
  lemma EscapeOfByte(b: int, tail: string)
    requires IsByte(b)
    ensures DecodeEscape(['%', HexDigit(b / 16), HexDigit(b % 16)] + tail) == Some(b)
  {
    HexRoundTrip(b / 16);
    HexRoundTrip(b % 16);
  }

  /** One escape read by `PercentDecode` is the escape read by `DecodeEscape`. */
  lemma DecodeOneEscape(s: string, b: int)
    requires DecodeEscape(s) == Some(b)
    ensures PercentDecode(s, 1) == Some([b])
  {
    assert PercentDecode(s[3..], 0) == Some([]);
    assert [b] + [] == [b];
  }

  /** The escape of a byte, followed by anything, reads back as that byte. */
  lemma DecodeEscapeOfByte(b: int, tail: string)
    requires IsByte(b)
    ensures PercentDecode(['%', HexDigit(b / 16), HexDigit(b % 16)] + tail, 1) == Some([b])
  {
    EscapeOfByte(b, tail);
    DecodeOneEscape(['%', HexDigit(b / 16), HexDigit(b % 16)] + tail, b);
  }

  /** The escapes of a non-empty byte sequence are the escape of its first byte, then the escapes of the rest. */
  lemma PercentEncodeFirst(bytes: seq<int>, rest: string)
    requires 1 <= |bytes| && forall i :: 0 <= i < |bytes| ==> IsByte(bytes[i])
    ensures IsByte(bytes[0])
    ensures PercentEncode(bytes) + rest
         == ['%', HexDigit(bytes[0] / 16), HexDigit(bytes[0] % 16)] + (PercentEncode(bytes[1..]) + rest)
  {
    assert IsByte(bytes[0]);
  }

  /** The escapes of a non-empty byte sequence start with `%`, and their first escape reads back as the first byte. */
  lemma LeadEscape(bytes: seq<int>, rest: string)
    requires 1 <= |bytes| && forall i :: 0 <= i < |bytes| ==> IsByte(bytes[i])
    ensures |PercentEncode(bytes) + rest| > 0 && (PercentEncode(bytes) + rest)[0] == '%'
    ensures PercentDecode(PercentEncode(bytes) + rest, 1) == Some([bytes[0]])
  {
    PercentEncodeFirst(bytes, rest);
    DecodeEscapeOfByte(bytes[0], PercentEncode(bytes[1..]) + rest);
  }

  /** Decoding the escapes of the UTF-8 bytes of `c` gives back `c`. */
  lemma DecodePercentChar(c: char, bytes: seq<int>, rest: string)
    requires 1 <= |bytes| <= 4 && forall i :: 0 <= i < |bytes| ==> IsByte(bytes[i])
    requires Utf8Length(bytes[0]) == |bytes| && Utf8Value(bytes) == c as int
    ensures DecodeChar(PercentEncode(bytes) + rest) == Some((c, 3 * |bytes|))
  {
    LeadEscape(bytes, rest);
    PercentRoundTrip(bytes, rest);
    DecodeEscapedChar(PercentEncode(bytes) + rest, bytes);
  }

  /** Text starting with the escapes of the UTF-8 bytes of a scalar value decodes to that value. */
  lemma DecodeEscapedChar(s: string, bytes: seq<int>)
    requires |s| > 0 && s[0] == '%' && 1 <= |bytes| <= 4
    requires PercentDecode(s, 1) == Some([bytes[0]]) && PercentDecode(s, |bytes|) == Some(bytes)
    requires Utf8Length(bytes[0]) == |bytes| && IsScalarValue(Utf8Value(bytes))
    ensures DecodeChar(s) == Some((Utf8Value(bytes) as char, 3 * |bytes|))
  {
    assert !IsUnreserved(s[0]) && s[0] != '+';
  }

  /** Decoding the escape of a character gives back that character and the length of its escape. */
  lemma DecodeCharRoundTrip(c: char, rest: string)
    ensures DecodeChar(EncodeChar(c) + rest) == Some((c, |EncodeChar(c)|))
  {
    if !IsUnreserved(c) && c != ' ' {
      Utf8Bytes(c);
      DecodePercentChar(c, Utf8(c as int), rest);
    }
  }

  /** Decoding undoes encoding. */
  lemma {:induction false} DecodeEncode(s: string)
    ensures Decode(Encode(s)) == Some(s)
  {
    if s != [] {
      var e := Encode(s);
      var head := EncodeChar(s[0]);
      DecodeCharRoundTrip(s[0], Encode(s[1..]));
      assert e == head + Encode(s[1..]);
      assert e[|head|..] == Encode(s[1..]);
      DecodeEncode(s[1..]);
      assert [s[0]] + s[1..] == s;
    }
  }

  /** Distinct keys get distinct escaped names. */
  lemma EncodeInjective(s: string, t: string)
    requires Encode(s) == Encode(t)
    ensures s == t
  {
    DecodeEncode(s);
    DecodeEncode(t);
  }

  /** Every character of the output is a letter, a digit, one of `- _ . *`, `+` or `%`. */
  lemma {:induction false} EncodedChars(s: string)
    ensures forall i :: 0 <= i < |Encode(s)| ==> IsEncodedChar(Encode(s)[i])
  {
    if s != [] {
      EncodedChars(s[1..]);
      var c := s[0];
      if !IsUnreserved(c) && c != ' ' {
        Utf8Bytes(c);
        PercentChars(Utf8(c as int));
      }
    }
  }

  lemma {:induction false} PercentChars(bytes: seq<int>)
    requires forall i :: 0 <= i < |bytes| ==> IsByte(bytes[i])
    ensures forall i :: 0 <= i < |PercentEncode(bytes)| ==> IsEncodedChar(PercentEncode(bytes)[i])
  {
    if bytes != [] {
      PercentChars(bytes[1..]);
    }
  }

  /** The escaped name contains no path separator. */
  lemma NoPathSeparator(s: string)
    ensures '/' !in Encode(s) && '\\' !in Encode(s)
  {
    EncodedChars(s);
  }
}
