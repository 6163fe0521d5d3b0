/**
 * `encodeURIComponent` and `decodeURIComponent` as the ECMAScript Language
 * Specification defines them (the abstract operations Encode and Decode, section
 * 18.2.6 of the ES2015 edition): every character outside the unreserved set
 * A-Z a-z 0-9 - _ . ! ~ * ' ( ) is written as the UTF-8 bytes of its code point,
 * each byte as `%` and two upper-case hexadecimal digits (percent-encoding as in
 * section 2.1 of RFC 3986). Decoding accepts either case of hexadecimal digit and
 * fails (URIError) on a malformed escape or an invalid UTF-8 sequence.
 *
 * A Dafny `char` is a Unicode scalar value, so the lone surrogates on which
 * `encodeURIComponent` throws cannot occur and encoding is total.
 */
module UriCoding {
  import opened Wrappers

  type Byte = b: int | 0 <= b < 256
  type Nibble = n: int | 0 <= n < 16

  /** The characters `encodeURIComponent` copies unchanged. */
  predicate IsUnreserved(c: char) {
    ('A' <= c <= 'Z') || ('a' <= c <= 'z') || ('0' <= c <= '9') ||
    c == '-' || c == '_' || c == '.' || c == '!' || c == '~' || c == '*' ||
    c == '\'' || c == '(' || c == ')'
  }

  /** The UTF-8 encoding of one code point: one to four bytes. */
  function Utf8(c: char): (bs: seq<Byte>)
    ensures 1 <= |bs| <= 4
  {
    var cp := c as int;
    if cp < 0x80 then [cp]
    else if cp < 0x800 then [0xC0 + cp / 64, 0x80 + cp % 64]
    else if cp < 0x10000 then [0xE0 + cp / 4096, 0x80 + cp / 64 % 64, 0x80 + cp % 64]
    else [0xF0 + cp / 0x40000, 0x80 + cp / 4096 % 64, 0x80 + cp / 64 % 64, 0x80 + cp % 64]
  }

  /** The upper-case hexadecimal digit of a nibble. */
  function HexDigit(n: Nibble): (c: char)
    ensures ('0' <= c <= '9') || ('A' <= c <= 'F')
  {
    if n < 10 then ('0' as int + n) as char else ('A' as int + n - 10) as char
  }

  /** The value of a hexadecimal digit of either case. */
  function HexValue(c: char): Option<Nibble> {
    if '0' <= c <= '9' then Some(c as int - '0' as int)
    else if 'A' <= c <= 'F' then Some(c as int - 'A' as int + 10)
    else if 'a' <= c <= 'f' then Some(c as int - 'a' as int + 10)
    else None
  }

  /** Each byte as `%HH`. */
  function PercentEncode(bs: seq<Byte>): (r: string)
    ensures |r| == 3 * |bs|
    ensures forall i :: 0 <= i < |r| ==> r[i] == '%' || ('0' <= r[i] <= '9') || ('A' <= r[i] <= 'F')
    decreases |bs|
  {
    if bs == [] then []
    else ['%', HexDigit(bs[0] / 16), HexDigit(bs[0] % 16)] + PercentEncode(bs[1..])
  }

  /** One character as `encodeURIComponent` writes it. */
  function EncodeChar(c: char): (r: string)
    ensures IsUnreserved(c) ==> r == [c]
    ensures !IsUnreserved(c) ==> 3 <= |r| <= 12 && |r| % 3 == 0 && r[0] == '%'
    ensures forall i :: 0 <= i < |r| ==> IsUnreserved(r[i]) || r[i] == '%'
  {
    if IsUnreserved(c) then [c] else PercentEncode(Utf8(c))
  }

  /**
   * `encodeURIComponent(s)`. Its output consists of unreserved characters and `%`
   * only, so it never holds `&`, `=`, `#`, `+` or a space and stands for a single
   * value inside a query string.
   */
  function EncodeUriComponent(s: string): (r: string)
    ensures forall i :: 0 <= i < |r| ==> IsUnreserved(r[i]) || r[i] == '%'
    decreases |s|
  {
    if s == [] then [] else EncodeChar(s[0]) + EncodeUriComponent(s[1..])
  }

  /** The byte written by the escape `%HH` at index `k`, if there is one. */
  function EscapedByte(s: string, k: nat): (r: Option<Byte>)
    ensures r.Some? ==> k + 3 <= |s|
  {
    if k + 3 <= |s| && s[k] == '%' then
      match (HexValue(s[k + 1]), HexValue(s[k + 2]))
      case (Some(hi), Some(lo)) => Some(hi as int * 16 + lo as int)
      case _ => None
    else None
  }

  /** The six payload bits of the UTF-8 continuation byte escaped at index `k`. */
  function Continuation(s: string, k: nat): (r: Option<int>)
    ensures r.Some? ==> k + 3 <= |s| && 0 <= r.value < 64
  {
    match EscapedByte(s, k)
    case Some(b) => if 0x80 <= b < 0xC0 then Some(b - 0x80) else None
    case None => None
  }

  /**
   * The character a decoded code point stands for, with the number of characters
   * its escapes took; `None` for an overlong form, a surrogate or a value past
   * U+10FFFF, which are not valid UTF-8.
   */
  function CodePoint(cp: int, least: int, used: nat): (r: Option<(char, nat)>)
    ensures r.Some? <==> 0 <= cp && least <= cp <= 0x10FFFF && !(0xD800 <= cp <= 0xDFFF)
    ensures r.Some? ==> r.value.1 == used && r.value.0 as int == cp
  {
    if least <= cp <= 0x10FFFF && !(0xD800 <= cp <= 0xDFFF) && 0 <= cp
    then Some((cp as char, used)) else None
  }

  /**
   * The character written by the escapes at the start of `s`, and how many
   * characters of `s` they take; `None` where decodeURIComponent throws.
   */
  function DecodeEscape(s: string): (r: Option<(char, nat)>)
    ensures r.Some? ==> 3 <= r.value.1 <= |s| && r.value.1 <= 12
  {
    match EscapedByte(s, 0)
    case None => None
    case Some(b) =>
      if b < 0x80 then Some((b as char, 3))
      else if b < 0xC0 || 0xF8 <= b then None
      else if b < 0xE0 then
        match Continuation(s, 3)
        case Some(c1) => CodePoint((b - 0xC0) * 64 + c1, 0x80, 6)
        case None => None
      else if b < 0xF0 then
        match (Continuation(s, 3), Continuation(s, 6))
        case (Some(c1), Some(c2)) => CodePoint((b - 0xE0) * 4096 + c1 * 64 + c2, 0x800, 9)
        case _ => None
      else
        match (Continuation(s, 3), Continuation(s, 6), Continuation(s, 9))
        case (Some(c1), Some(c2), Some(c3)) =>
          CodePoint((b - 0xF0) * 0x40000 + c1 * 4096 + c2 * 64 + c3, 0x10000, 12)
        case _ => None
  }

  /** `decodeURIComponent(s)`; `None` stands for the URIError it throws. */
  function DecodeUriComponent(s: string): (r: Option<string>)
    ensures r.Some? ==> |r.value| <= |s|
    ensures '%' !in s ==> r == Some(s)
    decreases |s|
  {
    if s == [] then Some([])
    else if s[0] != '%' then
      assert s == [s[0]] + s[1..];
      match DecodeUriComponent(s[1..])
      case Some(t) => Some([s[0]] + t)
      case None => None
    else
      match DecodeEscape(s)
      case None => None
      case Some((c, k)) =>
        match DecodeUriComponent(s[k..])
        case Some(t) => Some([c] + t)
        case None => None
  }

  lemma HexRoundTrip(n: Nibble)
    ensures HexValue(HexDigit(n)) == Some(n)
  {
  }

  /** The escape `%HH` written for a byte reads back as that byte. */
  lemma EscapedByteOfHead(b: Byte, rest: string)
    ensures EscapedByte(['%', HexDigit(b / 16), HexDigit(b % 16)] + rest, 0) == Some(b)
  {
    HexRoundTrip(b / 16);
    HexRoundTrip(b % 16);
  }

  /** Reading an escape past three leading characters is reading it in what follows them. */
  lemma EscapedByteShift(head: string, rest: string, k: nat)
    requires |head| == 3
    ensures EscapedByte(head + rest, k + 3) == EscapedByte(rest, k)
  {
    var e := head + rest;
    if k + 3 <= |rest| {
      assert e[k + 3] == rest[k] && e[k + 4] == rest[k + 1] && e[k + 5] == rest[k + 2];
    }
  }

  /** The escape for byte `j` of `bs` reads back as that byte, whatever follows. */
  lemma {:induction false} EscapedByteOfEncoding(bs: seq<Byte>, t: string, j: nat)
    requires j < |bs|
    ensures EscapedByte(PercentEncode(bs) + t, 3 * j) == Some(bs[j])
    decreases j
  {
    var head := ['%', HexDigit(bs[0] / 16), HexDigit(bs[0] % 16)];
    var rest := PercentEncode(bs[1..]) + t;
    assert PercentEncode(bs) == head + PercentEncode(bs[1..]);
    assert PercentEncode(bs) + t == head + rest;
    if j == 0 {
      EscapedByteOfHead(bs[0], rest);
    } else {
      EscapedByteOfEncoding(bs[1..], t, j - 1);
      EscapedByteShift(head, rest, 3 * (j - 1));
    }
  }

  /** Splitting a code point into 6-bit groups and joining them again gives it back. */
  lemma SixBitGroups(cp: nat)
    ensures cp / 64 * 64 + cp % 64 == cp
    ensures cp / 4096 == cp / 64 / 64
    ensures cp / 4096 * 4096 + cp / 64 % 64 * 64 + cp % 64 == cp
    ensures cp / 0x40000 == cp / 4096 / 64
    ensures cp / 0x40000 * 0x40000 + cp / 4096 % 64 * 4096 + cp / 64 % 64 * 64 + cp % 64 == cp
  {
  }

  lemma DecodeOneByte(c: char, t: string)
    requires c as int < 0x80
    ensures DecodeEscape(PercentEncode(Utf8(c)) + t) == Some((c, 3))
  {
    EscapedByteOfEncoding(Utf8(c), t, 0);
  }

  lemma DecodeTwoBytes(c: char, t: string)
    requires 0x80 <= c as int < 0x800
    ensures DecodeEscape(PercentEncode(Utf8(c)) + t) == Some((c, 6))
  {
    var cp := c as int;
    var bs := Utf8(c);
    var s := PercentEncode(bs) + t;
    EscapedByteOfEncoding(bs, t, 0);
    EscapedByteOfEncoding(bs, t, 1);
    assert EscapedByte(s, 0) == Some(0xC0 + cp / 64);
    assert Continuation(s, 3) == Some(cp % 64);
    SixBitGroups(cp);
  }

  lemma DecodeThreeBytes(c: char, t: string)
    requires 0x800 <= c as int < 0x10000
    ensures DecodeEscape(PercentEncode(Utf8(c)) + t) == Some((c, 9))
  {
    var cp := c as int;
    var bs := Utf8(c);
    var s := PercentEncode(bs) + t;
    EscapedByteOfEncoding(bs, t, 0);
    EscapedByteOfEncoding(bs, t, 1);
    EscapedByteOfEncoding(bs, t, 2);
    assert EscapedByte(s, 0) == Some(0xE0 + cp / 4096);
    assert Continuation(s, 3) == Some(cp / 64 % 64);
    assert Continuation(s, 6) == Some(cp % 64);
    SixBitGroups(cp);
  }

  lemma DecodeFourBytes(c: char, t: string)
    requires 0x10000 <= c as int
    ensures DecodeEscape(PercentEncode(Utf8(c)) + t) == Some((c, 12))
  {
    var cp := c as int;
    var bs := Utf8(c);
    var s := PercentEncode(bs) + t;
    EscapedByteOfEncoding(bs, t, 0);
    EscapedByteOfEncoding(bs, t, 1);
    EscapedByteOfEncoding(bs, t, 2);
    EscapedByteOfEncoding(bs, t, 3);
    assert EscapedByte(s, 0) == Some(0xF0 + cp / 0x40000);
    assert Continuation(s, 3) == Some(cp / 4096 % 64);
    assert Continuation(s, 6) == Some(cp / 64 % 64);
    assert Continuation(s, 9) == Some(cp % 64);
    SixBitGroups(cp);
  }

  /** The escapes `encodeURIComponent` writes for a reserved character decode to that character. */
  lemma DecodeEscapeOfChar(c: char, t: string)
    ensures DecodeEscape(PercentEncode(Utf8(c)) + t) == Some((c, 3 * |Utf8(c)|))
  {
    var cp := c as int;
    if cp < 0x80 {
      DecodeOneByte(c, t);
    } else if cp < 0x800 {
      DecodeTwoBytes(c, t);
    } else if cp < 0x10000 {
      DecodeThreeBytes(c, t);
    } else {
      DecodeFourBytes(c, t);
    }
  }

  /** `decodeURIComponent(encodeURIComponent(s)) == s` for every string `s`. */
  lemma {:induction false} DecodeEncode(s: string)
    ensures DecodeUriComponent(EncodeUriComponent(s)) == Some(s)
    decreases |s|
  {
    if s != [] {
      var c := s[0];
      var e := EncodeChar(c);
      var rest := EncodeUriComponent(s[1..]);
      DecodeEncode(s[1..]);
      assert EncodeUriComponent(s) == e + rest;
      if IsUnreserved(c) {
        assert (e + rest)[1..] == rest;
      } else {
        DecodeEscapeOfChar(c, rest);
        assert (e + rest)[|e|..] == rest;
      }
      assert [c] + s[1..] == s;
    }
  }

  /** Distinct strings have distinct encodings. */
  lemma EncodeInjective(a: string, b: string)
    requires EncodeUriComponent(a) == EncodeUriComponent(b)
    ensures a == b
  {
    DecodeEncode(a);
    DecodeEncode(b);
  }

  /** A string of unreserved characters is its own encoding. */
  lemma {:induction false} EncodeUnreserved(s: string)
    requires forall i :: 0 <= i < |s| ==> IsUnreserved(s[i])
    ensures EncodeUriComponent(s) == s
    decreases |s|
  {
    if s != [] {
      EncodeUnreserved(s[1..]);
      assert [s[0]] + s[1..] == s;
    }
  }
}
