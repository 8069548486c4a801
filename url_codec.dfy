/**
 * PHP's `urlencode` (the encoder the filter applies to the embedded URL and
 * that `http_build_query` applies to every key and value), byte by byte,
 * and `urldecode`, its inverse, which reads such text back.
 */
module UrlCodec {
  import opened PhpStrings

  /** The bytes `urlencode` copies unchanged: ASCII letters, digits and `-_.`. */
  predicate IsUnreserved(c: Byte)
  {
    'a' <= c <= 'z' || 'A' <= c <= 'Z' || '0' <= c <= '9' || c == '-' || c == '_' || c == '.'
  }

  /** A byte `urlencode` can emit: an unreserved byte, `+` or `%`. */
  predicate IsEncodedByte(c: Byte)
  {
    IsUnreserved(c) || c == '+' || c == '%'
  }

  /** Upper-case hexadecimal digit, as in PHP's `hexchars` table. */
  function HexDigit(n: nat): (d: Byte)
    requires n < 16
    ensures IsUnreserved(d)
  {
    if n < 10 then ('0' as int + n) as char else ('A' as int + n - 10) as char
  }

  predicate IsHexDigit(c: Byte)
  {
    '0' <= c <= '9' || 'A' <= c <= 'F' || 'a' <= c <= 'f'
  }

  function HexValue(c: Byte): (n: nat)
    requires IsHexDigit(c)
    ensures n < 16
  {
    if '0' <= c <= '9' then c as int - '0' as int
    else if 'A' <= c <= 'F' then c as int - 'A' as int + 10
    else c as int - 'a' as int + 10
  }

  /** One byte of `urlencode`: kept, space as `+`, anything else as `%XX`. */
  function EncodeByte(c: Byte): (r: Bytes)
    ensures forall i :: 0 <= i < |r| ==> IsEncodedByte(r[i])
  {
    if IsUnreserved(c) then [c]
    else if c == ' ' then ['+']
    else ['%', HexDigit(c as int / 16), HexDigit(c as int % 16)]
  }

  /** `urlencode($s)`. Its output holds no `&`, `=`, `?` or `/`. */
  function UrlEncode(s: Bytes): (r: Bytes)
    ensures forall i :: 0 <= i < |r| ==> IsEncodedByte(r[i])
  {
    if s == [] then [] else EncodeByte(s[0]) + UrlEncode(s[1..])
  }

  /** `urldecode($s)`: `+` is a space, `%` with two hex digits is that byte, anything else is kept. */
  function UrlDecode(s: Bytes): Bytes
  {
    if s == [] then []
    else if s[0] == '+' then [' '] + UrlDecode(s[1..])
    else if s[0] == '%' && |s| >= 3 && IsHexDigit(s[1]) && IsHexDigit(s[2]) then
      [(HexValue(s[1]) * 16 + HexValue(s[2])) as char] + UrlDecode(s[3..])
    else [s[0]] + UrlDecode(s[1..])
  }

  lemma DecodeEncodeByte(c: Byte, rest: Bytes)
    ensures UrlDecode(EncodeByte(c) + rest) == [c] + UrlDecode(rest)
  {
    var s := EncodeByte(c) + rest;
    if IsUnreserved(c) {
      assert s[1..] == rest;
    } else if c == ' ' {
      assert s[1..] == rest;
    } else {
      assert s[3..] == rest;
      assert HexValue(s[1]) == c as int / 16;
      assert HexValue(s[2]) == c as int % 16;
    }
  }

  /** Decoding undoes encoding: the partner of `UrlEncode`. */
  lemma {:induction false} DecodeEncode(s: Bytes)
    ensures UrlDecode(UrlEncode(s)) == s
    decreases |s|
  {
    if s != [] {
      DecodeEncodeByte(s[0], UrlEncode(s[1..]));
      DecodeEncode(s[1..]);
    }
  }

  /** Encoding works byte by byte, so it distributes over concatenation. */
  lemma {:induction false} EncodeConcat(a: Bytes, b: Bytes)
    ensures UrlEncode(a + b) == UrlEncode(a) + UrlEncode(b)
    decreases |a|
  {
    if a == [] {
      assert a + b == b;
    } else {
      assert (a + b)[0] == a[0];
      assert (a + b)[1..] == a[1..] + b;
      EncodeConcat(a[1..], b);
      assert UrlEncode(a + b) == EncodeByte(a[0]) + (UrlEncode(a[1..]) + UrlEncode(b));
    }
  }

  /** Text made only of letters, digits and `-_.` is its own encoding. */
  lemma {:induction false} EncodeUnreserved(s: Bytes)
    requires forall i :: 0 <= i < |s| ==> IsUnreserved(s[i])
    ensures UrlEncode(s) == s
    decreases |s|
  {
    if s != [] {
      assert IsUnreserved(s[0]);
      EncodeUnreserved(s[1..]);
    }
  }

  /** `urlencode` escapes the path separator: `/` becomes `%2F`. */
  lemma EncodeSlash()
    ensures UrlEncode("/") == "%2F"
  {
    assert EncodeByte('/') == ['%', HexDigit(2), HexDigit(15)];
  }

  /** A path of one plain segment, `/` followed by letters, digits and `-_.`, is encoded as `%2F` and the segment. */
  lemma EncodePlainPath(page: Bytes)
    requires forall i :: 0 <= i < |page| ==> IsUnreserved(page[i])
    ensures UrlEncode("/" + page) == "%2F" + page
  {
    EncodeConcat("/", page);
    EncodeSlash();
    EncodeUnreserved(page);
  }

  /** Distinct texts have distinct encodings. */
  lemma EncodeInjective(s: Bytes, t: Bytes)
    requires UrlEncode(s) == UrlEncode(t)
    ensures s == t
  {
    DecodeEncode(s);
    DecodeEncode(t);
  }
}
