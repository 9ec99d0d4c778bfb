/**
 * `encodeURIComponent`: every character outside the unreserved set is written as
 * the percent-escaped bytes of its UTF-8 encoding (section 2.1 of RFC 3986,
 * section 3 of RFC 3629). The decoder exists to state the round trip.
 */
module UriEncoding {
  import opened Options
  import opened Strings

  type Byte = b: int | 0 <= b < 256

  /** The characters `encodeURIComponent` copies unchanged. */
  predicate IsUriUnreserved(c: char) {
    || IsAsciiUpper(c) || IsAsciiLower(c) || IsAsciiDigit(c)
    || c == '-' || c == '_' || c == '.' || c == '!' || c == '~'
    || c == '*' || c == '\'' || c == '(' || c == ')'
  }

  /** UTF-8 encoding of one scalar value. */
  function Utf8(c: char): (bs: seq<Byte>)
    ensures 1 <= |bs| <= 4
    ensures |bs| == 1 <==> c as int < 0x80
  {
    var cp := c as int;
    if cp < 0x80 then [cp]
    else if cp < 0x800 then [0xC0 + cp / 64, 0x80 + cp % 64]
    else if cp < 0x10000 then [0xE0 + cp / 4096, 0x80 + (cp / 64) % 64, 0x80 + cp % 64]
    else [0xF0 + cp / 262144, 0x80 + (cp / 4096) % 64, 0x80 + (cp / 64) % 64, 0x80 + cp % 64]
  }

  /** An upper-case hexadecimal digit. */
  function HexDigit(d: int): (c: char)
    requires 0 <= d < 16
    ensures IsAsciiDigit(c) || ('A' <= c <= 'F')
  {
    if d < 10 then DigitChar(d) else ('A' as int + d - 10) as char
  }

  /** The value of a hexadecimal digit of either case. */
  function HexValue(c: char): Option<int> {
    if IsAsciiDigit(c) then Some(c as int - '0' as int)
    else if 'A' <= c <= 'F' then Some(c as int - 'A' as int + 10)
    else if 'a' <= c <= 'f' then Some(c as int - 'a' as int + 10)
    else None
  }

  function PercentByte(b: Byte): string {
    ['%', HexDigit(b / 16), HexDigit(b % 16)]
  }

  function PercentBytes(bs: seq<Byte>): (r: string)
    ensures |r| == 3 * |bs|
  {
    if |bs| == 0 then [] else PercentByte(bs[0]) + PercentBytes(bs[1..])
  }

  function EncodeChar(c: char): string {
    if IsUriUnreserved(c) then [c] else PercentBytes(Utf8(c))
  }

  /**
   * `encodeURIComponent`. The result holds only unreserved characters and `%`, so
   * it never contains a query delimiter such as `&`, `=`, `#`, `+` or white space.
   */
  function EncodeUriComponent(s: string): string {
    if |s| == 0 then [] else EncodeChar(s[0]) + EncodeUriComponent(s[1..])
  }

  /**
   * The encoding holds only unreserved characters and `%`, every `%` starts an
   * escape of two hexadecimal digits, it is never shorter than the input, and it
   * leaves a string of unreserved characters unchanged.
   */
  lemma {:induction false} EncodedAlphabet(s: string)
    ensures EncodedForm(EncodeUriComponent(s))
    ensures WellEscaped(EncodeUriComponent(s))
    ensures (forall i :: 0 <= i < |s| ==> IsUriUnreserved(s[i])) ==> EncodeUriComponent(s) == s
    ensures |EncodeUriComponent(s)| >= |s|
  {
    if |s| > 0 {
      var head := EncodeChar(s[0]);
      var tail := EncodeUriComponent(s[1..]);
      EncodedAlphabet(s[1..]);
      EncodeCharForm(s[0]);
      EncodedFormAppend(head, tail);
      WellEscapedAppend(head, tail);
      assert EncodeUriComponent(s) == head + tail;
      if forall i :: 0 <= i < |s| ==> IsUriUnreserved(s[i]) {
        assert forall i :: 0 <= i < |s| - 1 ==> s[1..][i] == s[i + 1];
        assert tail == s[1..];
        assert head == [s[0]];
        assert s == [s[0]] + s[1..];
      }
    }
  }

  /** Only unreserved characters and `%`. */
  predicate EncodedForm(r: string) {
    forall i :: 0 <= i < |r| ==> IsUriUnreserved(r[i]) || r[i] == '%'
  }

  /** Every `%` is followed by two hexadecimal digits. */
  predicate WellEscaped(r: string) {
    forall i :: 0 <= i < |r| && r[i] == '%' ==> i + 2 < |r| && HexValue(r[i + 1]).Some? && HexValue(r[i + 2]).Some?
  }

  lemma WellEscapedAppend(a: string, b: string)
    requires WellEscaped(a) && WellEscaped(b)
    ensures WellEscaped(a + b)
  {
    forall i | 0 <= i < |a + b| && (a + b)[i] == '%'
      ensures i + 2 < |a + b| && HexValue((a + b)[i + 1]).Some? && HexValue((a + b)[i + 2]).Some?
    {
      if i < |a| {
        assert a[i] == '%';
        assert (a + b)[i + 1] == a[i + 1] && (a + b)[i + 2] == a[i + 2];
      } else {
        assert b[i - |a|] == '%';
        assert (a + b)[i + 1] == b[i - |a| + 1] && (a + b)[i + 2] == b[i - |a| + 2];
      }
    }
  }

  lemma EncodedFormAppend(a: string, b: string)
    requires EncodedForm(a) && EncodedForm(b)
    ensures EncodedForm(a + b)
  {
    forall i | 0 <= i < |a + b| ensures IsUriUnreserved((a + b)[i]) || (a + b)[i] == '%' {
      if i >= |a| { assert (a + b)[i] == b[i - |a|]; }
    }
  }

  /** One character encodes to at least one character of the encoded alphabet; an unreserved one to itself. */
  lemma EncodeCharForm(c: char)
    ensures EncodedForm(EncodeChar(c)) && WellEscaped(EncodeChar(c)) && |EncodeChar(c)| >= 1
    ensures IsUriUnreserved(c) ==> EncodeChar(c) == [c]
  {
    if !IsUriUnreserved(c) {
      PercentBytesShape(Utf8(c));
    }
  }

  /** The encoding never contains the pair separator `&` or the fragment mark `#`. */
  lemma NoDelimiterInEncoding(s: string)
    ensures '&' !in EncodeUriComponent(s) && '#' !in EncodeUriComponent(s)
  {
    EncodedAlphabet(s);
  }

  lemma {:induction false} PercentBytesShape(bs: seq<Byte>)
    ensures EncodedForm(PercentBytes(bs))
    ensures WellEscaped(PercentBytes(bs))
  {
    if |bs| > 0 {
      PercentBytesShape(bs[1..]);
      EncodedFormAppend(PercentByte(bs[0]), PercentBytes(bs[1..]));
      HexRoundTrip(bs[0] / 16);
      HexRoundTrip(bs[0] % 16);
      WellEscapedAppend(PercentByte(bs[0]), PercentBytes(bs[1..]));
    }
  }

  /** Reads one `%XY` escape. */
  function ReadByte(s: string): (r: Option<(Byte, string)>)
    ensures r.Some? ==> |r.value.1| < |s|
  {
    if |s| >= 3 && s[0] == '%' && HexValue(s[1]).Some? && HexValue(s[2]).Some? then
      Some((HexValue(s[1]).value * 16 + HexValue(s[2]).value, s[3..]))
    else None
  }

  /** Reads one `%XY` escape of a UTF-8 continuation byte and yields its low six bits. */
  function ReadContinuation(s: string): (r: Option<(int, string)>)
    ensures r.Some? ==> |r.value.1| < |s| && 0 <= r.value.0 < 64
  {
    var b := ReadByte(s);
    if b.Some? && 0x80 <= b.value.0 < 0xC0 then Some((b.value.0 - 0x80, b.value.1)) else None
  }

  function ScalarOf(cp: int, rest: string): Option<(char, string)> {
    if 0 <= cp < 0xD800 || 0xE000 <= cp < 0x110000 then Some((cp as char, rest)) else None
  }

  /** Decodes the escapes of one UTF-8 encoded character. */
  function DecodeEscapedChar(s: string): (r: Option<(char, string)>)
    ensures r.Some? ==> |r.value.1| < |s|
  {
    var b0 := ReadByte(s);
    if b0.None? then None
    else
      var (lead, r0) := b0.value;
      if lead < 0x80 then Some((lead as char, r0))
      else if lead < 0xC0 || 0xF8 <= lead then None
      else
        var c1 := ReadContinuation(r0);
        if c1.None? then None
        else if lead < 0xE0 then ScalarOf((lead - 0xC0) * 64 + c1.value.0, c1.value.1)
        else
          var c2 := ReadContinuation(c1.value.1);
          if c2.None? then None
          else if lead < 0xF0 then
            ScalarOf((lead - 0xE0) * 4096 + c1.value.0 * 64 + c2.value.0, c2.value.1)
          else
            var c3 := ReadContinuation(c2.value.1);
            if c3.None? then None
            else ScalarOf((lead - 0xF0) * 262144 + c1.value.0 * 4096 + c2.value.0 * 64 + c3.value.0,
                          c3.value.1)
  }

  /** `decodeURIComponent`, defined on the strings the encoder can produce. */
  function DecodeUriComponent(s: string): Option<string>
    decreases |s|
  {
    if |s| == 0 then Some([])
    else if s[0] != '%' then
      var tail := DecodeUriComponent(s[1..]);
      if tail.None? then None else Some([s[0]] + tail.value)
    else
      var d := DecodeEscapedChar(s);
      if d.None? then None
      else
        var tail := DecodeUriComponent(d.value.1);
        if tail.None? then None else Some([d.value.0] + tail.value)
  }

  lemma HexRoundTrip(d: int)
    requires 0 <= d < 16
    ensures HexValue(HexDigit(d)) == Some(d)
  {
  }

  lemma ReadPercentByte(b: Byte, rest: string)
    ensures ReadByte(PercentByte(b) + rest) == Some((b, rest))
  {
    HexRoundTrip(b / 16);
    HexRoundTrip(b % 16);
    assert (PercentByte(b) + rest)[3..] == rest;
  }

  lemma ReadContinuationByte(b: Byte, rest: string)
    requires 0x80 <= b < 0xC0
    ensures ReadContinuation(PercentByte(b) + rest) == Some((b - 0x80, rest))
  {
    ReadPercentByte(b, rest);
  }

  lemma PercentBytesCons(bs: seq<Byte>, rest: string)
    requires |bs| > 0
    ensures PercentBytes(bs) + rest == PercentByte(bs[0]) + (PercentBytes(bs[1..]) + rest)
  {
    calc {
      PercentBytes(bs) + rest;
      (PercentByte(bs[0]) + PercentBytes(bs[1..])) + rest;
      { AppendAssoc(PercentByte(bs[0]), PercentBytes(bs[1..]), rest); }
      PercentByte(bs[0]) + (PercentBytes(bs[1..]) + rest);
    }
  }

  /** The escapes of a byte sequence, one at a time. */
  lemma PercentBytesSplit(bs: seq<Byte>, rest: string)
    ensures |bs| == 2 ==> PercentBytes(bs) + rest == PercentByte(bs[0]) + (PercentByte(bs[1]) + rest)
    ensures |bs| == 3 ==>
      PercentBytes(bs) + rest == PercentByte(bs[0]) + (PercentByte(bs[1]) + (PercentByte(bs[2]) + rest))
    ensures |bs| == 4 ==>
      PercentBytes(bs) + rest
        == PercentByte(bs[0]) + (PercentByte(bs[1]) + (PercentByte(bs[2]) + (PercentByte(bs[3]) + rest)))
  {
    if 2 <= |bs| <= 4 {
      PercentBytesCons(bs, rest);
      PercentBytesCons(bs[1..], rest);
      assert bs[1..][0] == bs[1] && bs[1..][1..] == bs[2..];
      if |bs| >= 3 {
        PercentBytesCons(bs[2..], rest);
        assert bs[2..][0] == bs[2] && bs[2..][1..] == bs[3..];
        if |bs| == 4 {
          PercentBytesCons(bs[3..], rest);
          assert bs[3..][0] == bs[3] && bs[3..][1..] == [];
        }
      }
    }
  }

  lemma DecodeTwoEscapes(b0: Byte, b1: Byte, rest: string)
    requires 0xC0 <= b0 < 0xE0 && 0x80 <= b1 < 0xC0
    ensures DecodeEscapedChar(PercentByte(b0) + (PercentByte(b1) + rest))
      == ScalarOf((b0 - 0xC0) * 64 + (b1 - 0x80), rest)
  {
    ReadPercentByte(b0, PercentByte(b1) + rest);
    ReadContinuationByte(b1, rest);
  }

  lemma DecodeThreeEscapes(b0: Byte, b1: Byte, b2: Byte, rest: string)
    requires 0xE0 <= b0 < 0xF0 && 0x80 <= b1 < 0xC0 && 0x80 <= b2 < 0xC0
    ensures DecodeEscapedChar(PercentByte(b0) + (PercentByte(b1) + (PercentByte(b2) + rest)))
      == ScalarOf((b0 - 0xE0) * 4096 + (b1 - 0x80) * 64 + (b2 - 0x80), rest)
  {
    ReadPercentByte(b0, PercentByte(b1) + (PercentByte(b2) + rest));
    ReadContinuationByte(b1, PercentByte(b2) + rest);
    ReadContinuationByte(b2, rest);
  }

  lemma DecodeFourEscapes(b0: Byte, b1: Byte, b2: Byte, b3: Byte, rest: string)
    requires 0xF0 <= b0 < 0xF8 && 0x80 <= b1 < 0xC0 && 0x80 <= b2 < 0xC0 && 0x80 <= b3 < 0xC0
    ensures DecodeEscapedChar(PercentByte(b0) + (PercentByte(b1) + (PercentByte(b2) + (PercentByte(b3) + rest))))
      == ScalarOf((b0 - 0xF0) * 262144 + (b1 - 0x80) * 4096 + (b2 - 0x80) * 64 + (b3 - 0x80), rest)
  {
    ReadPercentByte(b0, PercentByte(b1) + (PercentByte(b2) + (PercentByte(b3) + rest)));
    ReadContinuationByte(b1, PercentByte(b2) + (PercentByte(b3) + rest));
    ReadContinuationByte(b2, PercentByte(b3) + rest);
    ReadContinuationByte(b3, rest);
  }

  /** Splits a code point into its six-bit groups. */
  lemma SixBitGroups(cp: int)
    requires 0 <= cp
    ensures cp == (cp / 4096) * 4096 + ((cp / 64) % 64) * 64 + cp % 64
    ensures cp == (cp / 262144) * 262144 + ((cp / 4096) % 64) * 4096 + ((cp / 64) % 64) * 64 + cp % 64
  {
    var q := cp / 64;
    assert cp == q * 64 + cp % 64;
    assert q == (q / 64) * 64 + q % 64;
    assert cp / 4096 == q / 64;
    var q2 := q / 64;
    assert q2 == (q2 / 64) * 64 + q2 % 64;
    assert cp / 262144 == q2 / 64;
  }

  /** The escapes of one character decode to that character. */
  lemma DecodeEncodedChar(c: char, rest: string)
    ensures DecodeEscapedChar(PercentBytes(Utf8(c)) + rest) == Some((c, rest))
  {
    var cp := c as int;
    if cp < 0x80 {
      ReadPercentByte(cp, rest);
    } else if cp < 0x800 {
      DecodeTwoBytes(c, rest);
    } else if cp < 0x10000 {
      DecodeThreeBytes(c, rest);
    } else {
      DecodeFourBytes(c, rest);
    }
  }

  lemma DecodeTwoBytes(c: char, rest: string)
    requires 0x80 <= c as int < 0x800
    ensures DecodeEscapedChar(PercentBytes(Utf8(c)) + rest) == Some((c, rest))
  {
    var bs := Utf8(c);
    var cp := c as int;
    PercentBytesSplit(bs, rest);
    DecodeTwoEscapes(bs[0], bs[1], rest);
    assert bs[0] - 0xC0 == cp / 64 && bs[1] - 0x80 == cp % 64;
  }

  lemma DecodeThreeBytes(c: char, rest: string)
    requires 0x800 <= c as int < 0x10000
    ensures DecodeEscapedChar(PercentBytes(Utf8(c)) + rest) == Some((c, rest))
  {
    var bs := Utf8(c);
    var cp := c as int;
    PercentBytesSplit(bs, rest);
    DecodeThreeEscapes(bs[0], bs[1], bs[2], rest);
    assert bs[0] - 0xE0 == cp / 4096 && bs[1] - 0x80 == (cp / 64) % 64 && bs[2] - 0x80 == cp % 64;
    SixBitGroups(cp);
  }

  lemma DecodeFourBytes(c: char, rest: string)
    requires 0x10000 <= c as int
    ensures DecodeEscapedChar(PercentBytes(Utf8(c)) + rest) == Some((c, rest))
  {
    var bs := Utf8(c);
    var cp := c as int;
    PercentBytesSplit(bs, rest);
    DecodeFourEscapes(bs[0], bs[1], bs[2], bs[3], rest);
    assert bs[0] - 0xF0 == cp / 262144 && bs[1] - 0x80 == (cp / 4096) % 64;
    assert bs[2] - 0x80 == (cp / 64) % 64 && bs[3] - 0x80 == cp % 64;
    SixBitGroups(cp);
  }

  /** Decoding undoes `encodeURIComponent` on every string. */
  lemma {:induction false} DecodeEncode(s: string)
    ensures DecodeUriComponent(EncodeUriComponent(s)) == Some(s)
  {
    if |s| > 0 {
      var tail := EncodeUriComponent(s[1..]);
      DecodeEncode(s[1..]);
      DecodeEncodedStep(s[0], tail, s[1..]);
      assert EncodeUriComponent(s) == EncodeChar(s[0]) + tail;
      assert [s[0]] + s[1..] == s;
    }
  }

  /** The encoding of one character, followed by any encoded rest, decodes to that character first. */
  lemma DecodeEncodedStep(c: char, tail: string, decoded: string)
    requires DecodeUriComponent(tail) == Some(decoded)
    ensures DecodeUriComponent(EncodeChar(c) + tail) == Some([c] + decoded)
  {
    if IsUriUnreserved(c) {
      DecodePlain(c, tail, decoded);
    } else {
      var bs := Utf8(c);
      var e := PercentBytes(bs) + tail;
      PercentBytesCons(bs, tail);
      DecodeEncodedChar(c, tail);
      DecodeEscapeStep(e, c, tail, decoded);
    }
  }

  /** A character other than `%` is copied. */
  lemma DecodePlain(c: char, rest: string, decoded: string)
    requires c != '%' && DecodeUriComponent(rest) == Some(decoded)
    ensures DecodeUriComponent([c] + rest) == Some([c] + decoded)
  {
    assert ([c] + rest)[1..] == rest;
  }

  /** An escaped character is decoded, then the rest. */
  lemma DecodeEscapeStep(e: string, c: char, rest: string, decoded: string)
    requires |e| > 0 && e[0] == '%' && DecodeEscapedChar(e) == Some((c, rest))
    requires DecodeUriComponent(rest) == Some(decoded)
    ensures DecodeUriComponent(e) == Some([c] + decoded)
  {
  }
}
