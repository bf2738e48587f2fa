/**
 * JavaScript's encodeURIComponent and decodeURIComponent on well-formed strings: a `char` is a Unicode
 * scalar value, encoded as the percent-escapes of its UTF-8 bytes (section 2.1 of RFC 3986).
 */
module PercentEncoding {
  import opened Wrappers

  type Byte = b: int | 0 <= b < 256

  // ----- UTF-8 ---------------------------------------------------------------------------------------

  function Utf8(c: char): (bytes: seq<Byte>)
    ensures 1 <= |bytes| <= 4
  {
    var n := c as int;
    if n < 0x80 then [n]
    else if n < 0x800 then [0xC0 + n / 64, 0x80 + n % 64]
    else if n < 0x10000 then [0xE0 + n / 64 / 64, 0x80 + n / 64 % 64, 0x80 + n % 64]
    else [0xF0 + n / 64 / 64 / 64, 0x80 + n / 64 / 64 % 64, 0x80 + n / 64 % 64, 0x80 + n % 64]
  }

  /** How many bytes a leading byte announces; None for continuation and invalid bytes. */
  function SequenceLength(lead: Byte): (length: Option<nat>)
    ensures length.Some? ==> 1 <= length.value <= 4
  {
    if lead < 0x80 then Some(1)
    else if lead < 0xC0 then None
    else if lead < 0xE0 then Some(2)
    else if lead < 0xF0 then Some(3)
    else if lead < 0xF8 then Some(4)
    else None
  }

  predicate IsContinuation(b: Byte)
  {
    0x80 <= b < 0xC0
  }

  /** A scalar value that needs at least `least`: surrogates and overlong forms are refused. */
  function Scalar(n: int, least: int): Option<char>
  {
    if n >= least && (0 <= n < 0xD800 || 0xE000 <= n < 0x110000) then Some(n as char) else None
  }

  /** Six more bits from a continuation byte. */
  function Extend(high: int, b: int): int
  {
    high * 64 + (b - 0x80)
  }

  /** The character a sequence of announced length stands for. */
  function FromUtf8(bytes: seq<Byte>): Option<char>
    requires bytes != [] && SequenceLength(bytes[0]) == Some(|bytes|)
  {
    if exists i :: 1 <= i < |bytes| && !IsContinuation(bytes[i]) then None
    else if |bytes| == 1 then Scalar(bytes[0], 0)
    else if |bytes| == 2 then Scalar(Extend(bytes[0] - 0xC0, bytes[1]), 0x80)
    else if |bytes| == 3 then Scalar(Extend(Extend(bytes[0] - 0xE0, bytes[1]), bytes[2]), 0x800)
    else Scalar(Extend(Extend(Extend(bytes[0] - 0xF0, bytes[1]), bytes[2]), bytes[3]), 0x10000)
  }

  lemma FromToUtf8(c: char)
    ensures SequenceLength(Utf8(c)[0]) == Some(|Utf8(c)|)
    ensures FromUtf8(Utf8(c)) == Some(c)
  {
  }

  lemma ExtendParts(high: int, b: int)
    requires high >= 0 && 0x80 <= b < 0xC0
    ensures Extend(high, b) / 64 == high && 0x80 + Extend(high, b) % 64 == b && Extend(high, b) >= 0
  {
  }

  /** UTF-8 has one form for each character, and the decoder takes no other. */
  lemma ToFromUtf8(bytes: seq<Byte>)
    requires bytes != [] && SequenceLength(bytes[0]) == Some(|bytes|) && FromUtf8(bytes).Some?
    ensures Utf8(FromUtf8(bytes).value) == bytes
  {
    assert forall i :: 1 <= i < |bytes| ==> IsContinuation(bytes[i]);
    if |bytes| == 2 {
      ExtendParts(bytes[0] - 0xC0, bytes[1]);
    } else if |bytes| == 3 {
      var high: int := bytes[0] - 0xE0;
      ExtendParts(high, bytes[1]);
      ExtendParts(Extend(high, bytes[1]), bytes[2]);
    } else if |bytes| == 4 {
      var high: int := bytes[0] - 0xF0;
      ExtendParts(high, bytes[1]);
      ExtendParts(Extend(high, bytes[1]), bytes[2]);
      ExtendParts(Extend(Extend(high, bytes[1]), bytes[2]), bytes[3]);
    }
  }

  // ----- Percent escapes -----------------------------------------------------------------------------

  function HexDigit(n: int): char
    requires 0 <= n < 16
  {
    if n < 10 then ('0' as int + n) as char else ('A' as int + n - 10) as char
  }

  function HexValue(c: char): Option<int>
  {
    if '0' <= c <= '9' then Some(c as int - '0' as int)
    else if 'A' <= c <= 'F' then Some(c as int - 'A' as int + 10)
    else if 'a' <= c <= 'f' then Some(c as int - 'a' as int + 10)
    else None
  }

  function Escape(b: Byte): string
  {
    ['%', HexDigit(b / 16), HexDigit(b % 16)]
  }

  function EscapeAll(bytes: seq<Byte>): string
  {
    if bytes == [] then "" else Escape(bytes[0]) + EscapeAll(bytes[1..])
  }

  /** The byte escaped at the head of `s`, in either case of hexadecimal. */
  function ReadByte(s: string): (b: Option<Byte>)
    ensures b.Some? ==> |s| >= 3
  {
    if |s| >= 3 && s[0] == '%' && HexValue(s[1]).Some? && HexValue(s[2]).Some?
    then Some(HexValue(s[1]).value * 16 + HexValue(s[2]).value)
    else None
  }

  /** The first `n` escaped bytes of `s`. */
  function ReadBytes(s: string, n: nat): (bytes: Option<seq<Byte>>)
    ensures bytes.Some? ==> |bytes.value| == n && |s| >= 3 * n
  {
    if n == 0 then Some([])
    else
      var first := ReadByte(s);
      if first.None? then None
      else
        var rest := ReadBytes(s[3..], n - 1);
        if rest.None? then None else Some([first.value] + rest.value)
  }

  lemma HexRoundTrip(n: int)
    requires 0 <= n < 16
    ensures HexValue(HexDigit(n)) == Some(n)
  {
  }

  lemma ReadEscape(b: Byte, rest: string)
    ensures ReadByte(Escape(b) + rest) == Some(b) && (Escape(b) + rest)[3..] == rest
  {
    HexRoundTrip(b / 16);
    HexRoundTrip(b % 16);
  }

  lemma {:induction false} ReadEscapes(bytes: seq<Byte>, rest: string)
    ensures ReadBytes(EscapeAll(bytes) + rest, |bytes|) == Some(bytes)
    ensures |EscapeAll(bytes)| == 3 * |bytes|
  {
    if bytes != [] {
      var tail := EscapeAll(bytes[1..]) + rest;
      assert EscapeAll(bytes) + rest == Escape(bytes[0]) + tail;
      ReadEscape(bytes[0], tail);
      ReadEscapes(bytes[1..], rest);
      assert [bytes[0]] + bytes[1..] == bytes;
    }
  }

  // ----- Encoding ------------------------------------------------------------------------------------

  predicate IsUnreserved(c: char)
  {
    || 'A' <= c <= 'Z' || 'a' <= c <= 'z' || '0' <= c <= '9'
    || c == '-' || c == '_' || c == '.' || c == '!' || c == '~' || c == '*' || c == '\'' || c == '(' || c == ')'
  }

  function EncodeChar(c: char): string
  {
    if IsUnreserved(c) then [c] else EscapeAll(Utf8(c))
  }

  function Encode(s: string): string
  {
    if s == "" then "" else EncodeChar(s[0]) + Encode(s[1..])
  }

  // ----- Decoding ------------------------------------------------------------------------------------

  /** A decoded character and how much text it took. */
  datatype Piece = Piece(c: char, length: nat)

  /** None for unfinished and malformed sequences. */
  function DecodeChar(s: string): (piece: Option<Piece>)
    requires s != ""
    ensures piece.Some? ==> 1 <= piece.value.length <= |s|
  {
    if s[0] != '%' then Some(Piece(s[0], 1))
    else
      var lead := ReadByte(s);
      if lead.None? || SequenceLength(lead.value).None? then None
      else
        var bytes := ReadBytes(s, SequenceLength(lead.value).value);
        if bytes.None? || FromUtf8(bytes.value).None? then None
        else Some(Piece(FromUtf8(bytes.value).value, 3 * |bytes.value|))
  }

  /** None where decodeURIComponent throws. */
  function Decode(s: string): Option<string>
    decreases |s|
  {
    if s == "" then Some("")
    else
      var piece := DecodeChar(s);
      if piece.None? then None
      else
        var rest := Decode(s[piece.value.length..]);
        if rest.None? then None else Some([piece.value.c] + rest.value)
  }

  lemma FirstEscape(bytes: seq<Byte>, rest: string)
    requires bytes != []
    ensures EscapeAll(bytes) + rest != "" && (EscapeAll(bytes) + rest)[0] == '%'
    ensures ReadByte(EscapeAll(bytes) + rest) == Some(bytes[0])
  {
    var s, tail := EscapeAll(bytes) + rest, EscapeAll(bytes[1..]) + rest;
    assert s == Escape(bytes[0]) + tail;
    assert s[0] == '%';
    ReadEscape(bytes[0], tail);
  }

  lemma DecodeEscapes(s: string, c: char, bytes: seq<Byte>, rest: string)
    requires bytes != [] && SequenceLength(bytes[0]) == Some(|bytes|) && FromUtf8(bytes) == Some(c)
    requires s == EscapeAll(bytes) + rest
    ensures s != "" && DecodeChar(s) == Some(Piece(c, |EscapeAll(bytes)|))
  {
    FirstEscape(bytes, rest);
    ReadEscapes(bytes, rest);
  }

  lemma DecodeEncodedChar(c: char, rest: string)
    ensures EncodeChar(c) + rest != ""
    ensures DecodeChar(EncodeChar(c) + rest) == Some(Piece(c, |EncodeChar(c)|))
  {
    if !IsUnreserved(c) {
      FromToUtf8(c);
      DecodeEscapes(EncodeChar(c) + rest, c, Utf8(c), rest);
    }
  }

  /** decodeURIComponent undoes encodeURIComponent on every well-formed string. */
  lemma {:induction false} DecodeEncode(s: string)
    ensures Decode(Encode(s)) == Some(s)
  {
    if s != "" {
      var head, tail := EncodeChar(s[0]), Encode(s[1..]);
      DecodeEncodedChar(s[0], tail);
      assert (head + tail)[|head|..] == tail;
      DecodeEncode(s[1..]);
      assert [s[0]] + s[1..] == s;
    }
  }

  /** An escaped character is accepted only where its UTF-8 bytes are spelled out in full. */
  lemma EscapesAreCanonical(s: string)
    requires s != "" && s[0] == '%' && DecodeChar(s).Some?
    ensures var c := DecodeChar(s).value.c;
            ReadBytes(s, |Utf8(c)|) == Some(Utf8(c)) && DecodeChar(s).value.length == 3 * |Utf8(c)|
  {
    var n := SequenceLength(ReadByte(s).value).value;
    ToFromUtf8(ReadBytes(s, n).value);
  }

  // ----- The encoded alphabet ------------------------------------------------------------------------

  predicate IsSafe(c: char)
  {
    IsUnreserved(c) || c == '%'
  }

  lemma {:induction false} EscapesAreSafe(bytes: seq<Byte>)
    ensures forall c :: c in EscapeAll(bytes) ==> IsSafe(c)
  {
    if bytes != [] {
      EscapesAreSafe(bytes[1..]);
      assert IsSafe(HexDigit(bytes[0] / 16)) && IsSafe(HexDigit(bytes[0] % 16));
    }
  }

  lemma {:induction false} EncodedIsSafe(s: string)
    ensures forall c :: c in Encode(s) ==> IsSafe(c)
  {
    if s != "" {
      EncodedIsSafe(s[1..]);
      EscapesAreSafe(Utf8(s[0]));
    }
  }

  /** Encoded text holds nothing the form syntax gives a meaning to. */
  lemma EncodedHasNoSeparators(s: string)
    ensures '&' !in Encode(s) && '=' !in Encode(s) && '+' !in Encode(s) && ' ' !in Encode(s)
  {
    EncodedIsSafe(s);
  }
}
