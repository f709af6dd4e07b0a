/**
 * PHP's `urlencode` / `urldecode` (percent-encoding, section 2.1 of RFC 3986, with the
 * form-encoding `+` for a space) over byte strings.
 */
module Percent {
  import Base64
  import Strings

  /** The bytes `urlencode` leaves alone. */
  predicate Unreserved(c: char) {
    ('a' <= c <= 'z') || ('A' <= c <= 'Z') || ('0' <= c <= '9') || c == '-' || c == '_' || c == '.'
  }

  function HexDigit(v: int): (c: char)
    requires 0 <= v < 16
  {
    if v < 10 then ('0' as int + v) as char else ('A' as int + v - 10) as char
  }

  /** The value of a hexadecimal digit in either case, or -1. */
  function HexValue(c: char): (v: int)
    ensures -1 <= v < 16
  {
    if '0' <= c <= '9' then c as int - '0' as int
    else if 'A' <= c <= 'F' then c as int - 'A' as int + 10
    else if 'a' <= c <= 'f' then c as int - 'a' as int + 10
    else -1
  }

  /** One byte of `urlencode`'s output (a `char` is taken modulo 256, as the byte it stands for). */
  function EncodeByte(c: char): (r: string)
  {
    if Unreserved(c) then [c]
    else if c == ' ' then "+"
    else ['%', HexDigit(c as int % 256 / 16), HexDigit(c as int % 16)]
  }

  /** `urlencode($s)`. */
  function UrlEncode(s: string): (r: string)
    decreases |s|
  {
    if |s| == 0 then "" else EncodeByte(s[0]) + UrlEncode(s[1..])
  }

  /** `urldecode($s)`: `+` is a space, `%` and two hex digits a byte, anything else itself. */
  function UrlDecode(s: string): (r: string)
    decreases |s|
  {
    if |s| == 0 then ""
    else if s[0] == '+' then " " + UrlDecode(s[1..])
    else if s[0] == '%' && |s| >= 3 && HexValue(s[1]) >= 0 && HexValue(s[2]) >= 0 then
      [(HexValue(s[1]) * 16 + HexValue(s[2])) as char] + UrlDecode(s[3..])
    else [s[0]] + UrlDecode(s[1..])
  }

  /** `urlencode` output never holds a space, so it can sit in a query string as it is. */
  lemma {:induction false} UrlEncodeNoSpace(s: string)
    ensures forall i :: 0 <= i < |UrlEncode(s)| ==> UrlEncode(s)[i] != ' '
    decreases |s|
  {
    if |s| > 0 {
      UrlEncodeNoSpace(s[1..]);
    }
  }

  /** `urlencode` output holds only unreserved bytes, `+` and `%`: never `&` or `=`. */
  lemma {:induction false} UrlEncodeChars(s: string)
    ensures forall i :: 0 <= i < |UrlEncode(s)| ==>
      Unreserved(UrlEncode(s)[i]) || UrlEncode(s)[i] == '+' || UrlEncode(s)[i] == '%'
    decreases |s|
  {
    if |s| > 0 {
      UrlEncodeChars(s[1..]);
      var e := EncodeByte(s[0]);
      assert forall i :: 0 <= i < |e| ==> Unreserved(e[i]) || e[i] == '+' || e[i] == '%';
      assert UrlEncode(s) == e + UrlEncode(s[1..]);
    }
  }

  /** A hexadecimal digit reads back as the value it was written for. */
  lemma {:induction false} HexRoundTrip(v: int)
    requires 0 <= v < 16
    ensures HexValue(HexDigit(v)) == v
  {
  }

  lemma {:induction false} DecodeEncodeByte(c: char, rest: string)
    requires c as int < 256
    ensures UrlDecode(EncodeByte(c) + rest) == [c] + UrlDecode(rest)
  {
    var e := EncodeByte(c) + rest;
    if Unreserved(c) {
      assert e[1..] == rest;
    } else if c == ' ' {
      assert e[1..] == rest;
    } else {
      var hi, lo := c as int / 16, c as int % 16;
      HexRoundTrip(hi);
      HexRoundTrip(lo);
      assert c as int % 256 == c as int;
      assert e[..3] == ['%', HexDigit(hi), HexDigit(lo)];
      assert (hi * 16 + lo) as char == c;
      assert e[3..] == rest;
    }
  }

  /** `urldecode(urlencode($s)) === $s`. */
  lemma {:induction false} UrlDecodeEncode(s: string)
    requires Base64.IsBytes(s)
    ensures UrlDecode(UrlEncode(s)) == s
    decreases |s|
  {
    if |s| > 0 {
      UrlDecodeEncode(s[1..]);
      DecodeEncodeByte(s[0], UrlEncode(s[1..]));
    }
  }

  /** `urldecode` changes nothing in a string without `%` or `+`. */
  lemma {:induction false} UrlDecodePlain(s: string)
    requires forall i :: 0 <= i < |s| ==> s[i] != '%' && s[i] != '+'
    ensures UrlDecode(s) == s
    decreases |s|
  {
    if |s| > 0 {
      UrlDecodePlain(s[1..]);
    }
  }

  /** `urldecode` of a byte string is a byte string. */
  lemma {:induction false} UrlDecodeBytes(s: string)
    requires Base64.IsBytes(s)
    ensures Base64.IsBytes(UrlDecode(s))
    decreases |s|
  {
    if |s| > 0 {
      if s[0] == '%' && |s| >= 3 && HexValue(s[1]) >= 0 && HexValue(s[2]) >= 0 {
        UrlDecodeBytes(s[3..]);
      } else {
        UrlDecodeBytes(s[1..]);
      }
    }
  }

  /** One byte of `str_replace('+', '%20', urlencode($s))`: a space is written `%20`. */
  function EncodeByteRaw(c: char): (r: string)
  {
    if c == ' ' then "%20" else EncodeByte(c)
  }

  function RawEncode(s: string): (r: string)
    decreases |s|
  {
    if |s| == 0 then "" else EncodeByteRaw(s[0]) + RawEncode(s[1..])
  }

  /** Replacing a one-character pattern works piece by piece. */
  lemma {:induction false} ReplaceAllConcat(a: string, b: string, p: char, rep: string)
    ensures Strings.ReplaceAll(a + b, [p], rep) == Strings.ReplaceAll(a, [p], rep) + Strings.ReplaceAll(b, [p], rep)
    decreases |a|
  {
    if |a| > 0 {
      assert (a + b)[..1] == a[..1] && (a + b)[1..] == a[1..] + b;
      ReplaceAllConcat(a[1..], b, p, rep);
      if a[0] == p {
        assert a[..1] == [p];
        assert Strings.ReplaceAll(a + b, [p], rep) == rep + Strings.ReplaceAll(a[1..] + b, [p], rep);
        assert Strings.ReplaceAll(a, [p], rep) == rep + Strings.ReplaceAll(a[1..], [p], rep);
      } else {
        assert a[..1] != [p];
        assert Strings.ReplaceAll(a + b, [p], rep) == [a[0]] + Strings.ReplaceAll(a[1..] + b, [p], rep);
        assert Strings.ReplaceAll(a, [p], rep) == [a[0]] + Strings.ReplaceAll(a[1..], [p], rep);
      }
    } else {
      assert a + b == b;
    }
  }

  /** Text without a `+` is left alone by the replacement. */
  lemma {:induction false} NoPlusUnchanged(s: string)
    requires forall i :: 0 <= i < |s| ==> s[i] != '+'
    ensures Strings.ReplaceAll(s, "+", "%20") == s
    decreases |s|
  {
    if |s| > 0 {
      assert s[..1] != "+" by {
        assert s[..1][0] == s[0];
      }
      NoPlusUnchanged(s[1..]);
      assert s == [s[0]] + s[1..];
    }
  }

  /** The replacement turns one byte of `urlencode` into one byte of the `%20` encoding. */
  lemma {:induction false} ReplacePlusByte(c: char)
    ensures Strings.ReplaceAll(EncodeByte(c), "+", "%20") == EncodeByteRaw(c)
  {
    var e := EncodeByte(c);
    if c == ' ' {
      assert e == "+";
      assert e[1..] == "";
    } else {
      assert forall i :: 0 <= i < |e| ==> e[i] != '+';
      NoPlusUnchanged(e);
    }
  }

  /** `urlencode` writes a space as `+` and never emits a `+` otherwise, so the replacement gives `%20` exactly for spaces. */
  lemma {:induction false} ReplacePlusOfEncode(s: string)
    ensures Strings.ReplaceAll(UrlEncode(s), "+", "%20") == RawEncode(s)
    decreases |s|
  {
    if |s| > 0 {
      ReplaceAllConcat(EncodeByte(s[0]), UrlEncode(s[1..]), '+', "%20");
      ReplacePlusOfEncode(s[1..]);
      ReplacePlusByte(s[0]);
    }
  }

  lemma {:induction false} DecodeRawByte(c: char, rest: string)
    requires c as int < 256
    ensures UrlDecode(EncodeByteRaw(c) + rest) == [c] + UrlDecode(rest)
  {
    if c == ' ' {
      var e := EncodeByteRaw(c) + rest;
      assert HexValue(e[1]) == 2 && HexValue(e[2]) == 0;
      assert e[3..] == rest;
    } else {
      DecodeEncodeByte(c, rest);
    }
  }

  lemma {:induction false} UrlDecodeRawEncode(s: string)
    requires Base64.IsBytes(s)
    ensures UrlDecode(RawEncode(s)) == s
    decreases |s|
  {
    if |s| > 0 {
      UrlDecodeRawEncode(s[1..]);
      DecodeRawByte(s[0], RawEncode(s[1..]));
    }
  }
}
