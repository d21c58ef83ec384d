/**
 * The JavaScript built-ins `encodeURIComponent` and `decodeURIComponent`
 * (ECMAScript's Encode and Decode with an empty reserved set; the escape
 * syntax is that of section 2.1 of RFC 3986), over strings of Unicode scalar
 * values, with the UTF-8 encoding of a scalar value that both rely on.
 */
module Uri {
  import opened Wrappers

  type byte = b: int | 0 <= b < 256

  /** The message of the URIError that decodeURIComponent throws. */
  const URI_MALFORMED: string := "URI malformed"

  /** The characters encodeURIComponent leaves as they are. */
  predicate IsUnreserved(c: char) {
    ('A' <= c <= 'Z') || ('a' <= c <= 'z') || ('0' <= c <= '9')
    || c == '-' || c == '_' || c == '.' || c == '!' || c == '~'
    || c == '*' || c == '\'' || c == '(' || c == ')'
  }

  predicate IsHexDigit(c: char) {
    ('0' <= c <= '9') || ('a' <= c <= 'f') || ('A' <= c <= 'F')
  }

  function HexValue(c: char): (v: int)
    requires IsHexDigit(c)
    ensures 0 <= v < 16
  {
    if '0' <= c <= '9' then c as int - '0' as int
    else if 'a' <= c <= 'f' then c as int - 'a' as int + 10
    else c as int - 'A' as int + 10
  }

  /** The upper-case hexadecimal digit that encodeURIComponent writes. */
  function UpperHexDigit(d: int): (c: char)
    requires 0 <= d < 16
    ensures IsHexDigit(c) && IsUnreserved(c) && HexValue(c) == d
  {
    if d < 10 then ('0' as int + d) as char else ('A' as int + d - 10) as char
  }

  // ---------------------------------------------------------------- UTF-8

  /** The UTF-8 encoding of one scalar value (section 3.9 of The Unicode Standard). */
  function Utf8Char(c: char): (bs: seq<byte>)
    ensures 1 <= |bs| <= 4
    ensures (|bs| == 1) == (c as int < 0x80)
  {
    var n := c as int;
    if n < 0x80 then [n]
    else if n < 0x800 then [0xC0 + n / 64, 0x80 + n % 64]
    else if n < 0x10000 then [0xE0 + (n / 64) / 64, 0x80 + (n / 64) % 64, 0x80 + n % 64]
    else [0xF0 + ((n / 64) / 64) / 64, 0x80 + ((n / 64) / 64) % 64, 0x80 + (n / 64) % 64, 0x80 + n % 64]
  }

  /** The UTF-8 encoding of a string. */
  function Utf8(s: string): (bs: seq<byte>)
  {
    if s == [] then [] else Utf8Char(s[0]) + Utf8(s[1..])
  }

  predicate IsAscii(s: string) {
    forall i :: 0 <= i < |s| ==> s[i] as int < 0x80
  }

  /** On ASCII text UTF-8 is one byte per character, the character's code. */
  lemma {:induction false} Utf8OfAscii(s: string)
    requires IsAscii(s)
    ensures |Utf8(s)| == |s|
    ensures forall i :: 0 <= i < |s| ==> Utf8(s)[i] == s[i] as int
  {
    if s != [] {
      assert IsAscii(s[1..]) by {
        forall i | 0 <= i < |s[1..]| ensures s[1..][i] as int < 0x80 { assert s[1..][i] == s[i + 1]; }
      }
      Utf8OfAscii(s[1..]);
    }
  }

  /** Two ASCII strings with the same UTF-8 bytes are the same string. */
  lemma Utf8AsciiInjective(s: string, t: string)
    requires IsAscii(s) && IsAscii(t) && Utf8(s) == Utf8(t)
    ensures s == t
  {
    Utf8OfAscii(s);
    Utf8OfAscii(t);
    assert |s| == |t|;
    forall i | 0 <= i < |s| ensures s[i] == t[i] {
      assert s[i] as int == Utf8(s)[i] == Utf8(t)[i] == t[i] as int;
    }
  }

  // ------------------------------------------------------ encodeURIComponent

  /** One octet written as `%XY`. */
  function EscapeByte(b: byte): (e: string)
    ensures |e| == 3 && e[0] == '%'
  {
    ['%', UpperHexDigit(b / 16), UpperHexDigit(b % 16)]
  }

  function EscapeBytes(bs: seq<byte>): (e: string)
    ensures |e| == 3 * |bs|
  {
    if bs == [] then [] else EscapeByte(bs[0]) + EscapeBytes(bs[1..])
  }

  function EncodeChar(c: char): string {
    if IsUnreserved(c) then [c] else EscapeBytes(Utf8Char(c))
  }

  /** A character that can occur in the output of encodeURIComponent. */
  predicate IsEncodedChar(c: char) {
    IsUnreserved(c) || c == '%'
  }

  /**
   * `encodeURIComponent(s)`: every character outside the unreserved set is
   * replaced by the `%XY` escapes of its UTF-8 bytes. The result consists of
   * unreserved characters and `%` only, so it never holds `&` or `=`.
   */
  function EncodeURIComponent(s: string): (r: string)
    ensures forall i :: 0 <= i < |r| ==> IsEncodedChar(r[i])
  {
    if s == [] then []
    else
      var head := EncodeChar(s[0]);
      EncodeCharChars(s[0]);
      var tail := EncodeURIComponent(s[1..]);
      assert forall i :: |head| <= i < |head + tail| ==> (head + tail)[i] == tail[i - |head|];
      head + tail
  }

  lemma EncodeCharChars(c: char)
    ensures forall i :: 0 <= i < |EncodeChar(c)| ==> IsEncodedChar(EncodeChar(c)[i])
  {
    if !IsUnreserved(c) { EscapedChars(Utf8Char(c)); }
  }

  /** An encoded component is ASCII and holds neither `&` nor `=`. */
  lemma EncodedIsPlain(s: string)
    ensures '&' !in EncodeURIComponent(s) && '=' !in EncodeURIComponent(s)
    ensures IsAscii(EncodeURIComponent(s))
  {
    var r := EncodeURIComponent(s);
    assert forall i :: 0 <= i < |r| ==> r[i] != '&' && r[i] != '=' && r[i] as int < 0x80 by {
      forall i | 0 <= i < |r| ensures r[i] != '&' && r[i] != '=' && r[i] as int < 0x80 {
        assert IsEncodedChar(r[i]);
      }
    }
  }

  lemma {:induction false} EscapedChars(bs: seq<byte>)
    ensures forall i :: 0 <= i < |EscapeBytes(bs)| ==> IsEncodedChar(EscapeBytes(bs)[i])
  {
    if bs != [] {
      EscapedChars(bs[1..]);
      var e := EscapeBytes(bs);
      assert e == EscapeByte(bs[0]) + EscapeBytes(bs[1..]);
      forall i | 0 <= i < |e| ensures IsEncodedChar(e[i]) {
        if i >= 3 { assert e[i] == EscapeBytes(bs[1..])[i - 3]; }
      }
    }
  }

  /** A string made only of unreserved characters is its own encoding. */
  lemma {:induction false} EncodeUnreserved(s: string)
    requires forall i :: 0 <= i < |s| ==> IsUnreserved(s[i])
    ensures EncodeURIComponent(s) == s
  {
    if s != [] {
      EncodeUnreserved(s[1..]);
    }
  }

  // ------------------------------------------------------ decodeURIComponent

  /** The octet of a `%XY` escape at the start of `s`, if there is one. */
  function ReadEscape(s: string): (r: Option<byte>)
    ensures r.Some? ==> |s| >= 3
  {
    if |s| >= 3 && s[0] == '%' && IsHexDigit(s[1]) && IsHexDigit(s[2])
    then Some(HexValue(s[1]) * 16 + HexValue(s[2]))
    else None
  }

  /** How many octets a lead octet announces: 1 for ASCII, 2 to 4, or 0 for an invalid lead. */
  function LeadLength(b: byte): nat {
    if b < 0x80 then 1
    else if b < 0xC0 then 0
    else if b < 0xE0 then 2
    else if b < 0xF0 then 3
    else if b < 0xF8 then 4
    else 0
  }

  predicate IsContinuation(b: byte) {
    0x80 <= b < 0xC0
  }

  /** `k` further `%XY` escapes, each a continuation octet. */
  function ReadContinuations(s: string, k: nat): (r: Option<seq<byte>>)
    ensures r.Some? ==> |r.value| == k && |s| >= 3 * k
    ensures r.Some? ==> forall i :: 0 <= i < k ==> IsContinuation(r.value[i])
  {
    if k == 0 then Some([])
    else match ReadEscape(s)
      case None => None
      case Some(b) =>
        if !IsContinuation(b) then None
        else match ReadContinuations(s[3..], k - 1)
          case None => None
          case Some(rest) => Some([b] + rest)
  }

  /** The scalar value that a lead octet and its continuation octets spell. */
  function CodePoint(lead: byte, conts: seq<byte>): int
    requires 1 <= |conts| <= 3
    requires forall i :: 0 <= i < |conts| ==> IsContinuation(conts[i])
  {
    var l: int := lead;
    var c1: int := conts[0] as int - 0x80;
    if |conts| == 1 then (l - 0xC0) * 64 + c1
    else
      var c2: int := conts[1] as int - 0x80;
      if |conts| == 2 then ((l - 0xE0) * 64 + c1) * 64 + c2
      else
        var c3: int := conts[2] as int - 0x80;
        (((l - 0xF0) * 64 + c1) * 64 + c2) * 64 + c3
  }

  /** A valid UTF-8 encoding: shortest form, no surrogate, at most U+10FFFF. */
  predicate IsShortestScalar(v: int, octets: nat) {
    && (octets == 2 ==> 0x80 <= v)
    && (octets == 3 ==> 0x800 <= v && !(0xD800 <= v <= 0xDFFF))
    && (octets == 4 ==> 0x10000 <= v <= 0x10FFFF)
  }

  /**
   * The character that the escape sequence at the start of `s` decodes to,
   * and how many characters of `s` it takes, or None where
   * decodeURIComponent throws a URIError.
   */
  function DecodeEscapeSequence(s: string): (r: Option<(char, nat)>)
    ensures r.Some? ==> 3 <= r.value.1 <= |s|
  {
    match ReadEscape(s)
    case None => None
    case Some(lead) =>
      var n := LeadLength(lead);
      if n == 0 then None
      else if n == 1 then Some((lead as char, 3))
      else match ReadContinuations(s[3..], n - 1)
        case None => None
        case Some(conts) =>
          var v := CodePoint(lead, conts);
          if IsShortestScalar(v, n) && 0 <= v <= 0x10FFFF && !(0xD800 <= v <= 0xDFFF)
          then Some((v as char, 3 * n))
          else None
  }

  /**
   * `decodeURIComponent(s)`: every `%XY` escape sequence that spells a valid
   * UTF-8 encoding is replaced by its character; a malformed one fails with
   * the URIError message.
   */
  function DecodeURIComponent(s: string): (r: Result<string, string>)
    ensures r.Failure? ==> r.error == URI_MALFORMED
    ensures '%' !in s ==> r == Success(s)
    decreases |s|
  {
    if s == [] then Success([])
    else if s[0] != '%' then
      assert [s[0]] + s[1..] == s;
      match DecodeURIComponent(s[1..])
      case Success(t) => Success([s[0]] + t)
      case Failure(e) => Failure(e)
    else match DecodeEscapeSequence(s)
      case None => Failure(URI_MALFORMED)
      case Some((c, k)) =>
        match DecodeURIComponent(s[k..])
        case Success(t) => Success([c] + t)
        case Failure(e) => Failure(e)
  }

  // ------------------------------------------------------ the round trip

  lemma ReadEscapeOfEscapeByte(b: byte, t: string)
    ensures ReadEscape(EscapeByte(b) + t) == Some(b)
  {
    var s := EscapeByte(b) + t;
    assert s[1] == UpperHexDigit(b / 16) && s[2] == UpperHexDigit(b % 16);
  }

  lemma Utf8Lead(c: char)
    ensures LeadLength(Utf8Char(c)[0]) == |Utf8Char(c)|
    ensures forall i :: 1 <= i < |Utf8Char(c)| ==> IsContinuation(Utf8Char(c)[i])
  {
  }

  /** The continuation escapes of one character's UTF-8 bytes read back as those bytes. */
  lemma {:induction false} ReadContinuationsOfEscapes(bs: seq<byte>, t: string)
    requires forall i :: 0 <= i < |bs| ==> IsContinuation(bs[i])
    ensures ReadContinuations(EscapeBytes(bs) + t, |bs|) == Some(bs)
  {
    if bs != [] {
      var tail := EscapeBytes(bs[1..]) + t;
      EscapeBytesCons(bs, t);
      ReadEscapeOfEscapeByte(bs[0], tail);
      ReadContinuationsOfEscapes(bs[1..], t);
      ReadContinuationsStep(EscapeBytes(bs) + t, |bs|, bs[0], bs[1..]);
      assert [bs[0]] + bs[1..] == bs;
    }
  }

  /** The escapes of a byte sequence are those of its first byte, then those of the rest. */
  lemma EscapeBytesCons(bs: seq<byte>, t: string)
    requires bs != []
    ensures EscapeBytes(bs) + t == EscapeByte(bs[0]) + (EscapeBytes(bs[1..]) + t)
    ensures (EscapeBytes(bs) + t)[3..] == EscapeBytes(bs[1..]) + t
  {
    var x, y := EscapeByte(bs[0]), EscapeBytes(bs[1..]);
    assert EscapeBytes(bs) == x + y;
    ConcatAssoc(x, y, t);
  }

  lemma ConcatAssoc<T>(x: seq<T>, y: seq<T>, t: seq<T>)
    ensures (x + y) + t == x + (y + t)
    ensures ((x + y) + t)[|x|..] == y + t
  {
  }

  /** One step of reading continuation escapes. */
  lemma ReadContinuationsStep(s: string, k: nat, b: byte, rest: seq<byte>)
    requires k > 0 && ReadEscape(s) == Some(b) && IsContinuation(b)
    requires |s| >= 3 && ReadContinuations(s[3..], k - 1) == Some(rest)
    ensures ReadContinuations(s, k) == Some([b] + rest)
  {
  }

  /** The UTF-8 bytes of a scalar value spell that value back. */
  lemma Utf8CodePoint(c: char)
    requires c as int >= 0x80
    ensures var bs := Utf8Char(c);
      CodePoint(bs[0], bs[1..]) == c as int && IsShortestScalar(c as int, |bs|)
  {
    var n := c as int;
    var q1 := n / 64;
    var q2 := q1 / 64;
    var q3 := q2 / 64;
    assert n == q1 * 64 + n % 64;
    assert q1 == q2 * 64 + q1 % 64;
    assert q2 == q3 * 64 + q2 % 64;
  }

  /** The escapes of one reserved character decode back to that character. */
  lemma DecodeEscapedChar(c: char, t: string)
    requires !IsUnreserved(c)
    ensures DecodeEscapeSequence(EscapeBytes(Utf8Char(c)) + t) == Some((c, |EscapeBytes(Utf8Char(c))|))
  {
    var bs := Utf8Char(c);
    var s := EscapeBytes(bs) + t;
    assert s == EscapeByte(bs[0]) + (EscapeBytes(bs[1..]) + t);
    ReadEscapeOfEscapeByte(bs[0], EscapeBytes(bs[1..]) + t);
    Utf8Lead(c);
    if |bs| == 1 {
      assert bs[0] as char == c;
    } else {
      assert s[3..] == EscapeBytes(bs[1..]) + t;
      ReadContinuationsOfEscapes(bs[1..], t);
      Utf8CodePoint(c);
    }
  }

  /** Decoding consumes exactly the encoding of the first character. */
  lemma DecodeEncodedChar(c: char, t: string)
    ensures DecodeURIComponent(EncodeChar(c) + t) ==
      match DecodeURIComponent(t)
      case Success(u) => Success([c] + u)
      case Failure(e) => Failure(e)
  {
    var e := EncodeChar(c);
    var s := e + t;
    if IsUnreserved(c) {
      assert s[0] == c && s[1..] == t;
    } else {
      DecodeEscapedChar(c, t);
      assert s[|e|..] == t;
    }
  }

  /** decodeURIComponent undoes encodeURIComponent on every string. */
  lemma {:induction false} DecodeEncode(s: string)
    ensures DecodeURIComponent(EncodeURIComponent(s)) == Success(s)
  {
    if s != [] {
      assert EncodeURIComponent(s) == EncodeChar(s[0]) + EncodeURIComponent(s[1..]);
      DecodeEncodedChar(s[0], EncodeURIComponent(s[1..]));
      DecodeEncode(s[1..]);
      assert [s[0]] + s[1..] == s;
    }
  }

  /** Distinct strings have distinct encodings. */
  lemma EncodeInjective(s: string, t: string)
    requires EncodeURIComponent(s) == EncodeURIComponent(t)
    ensures s == t
  {
    DecodeEncode(s);
    DecodeEncode(t);
  }
}
