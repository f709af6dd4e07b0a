/**
 * PHP's `base64_encode` / non-strict `base64_decode` (the alphabet of section 4 of
 * RFC 4648) over byte strings: `string` values whose every `char` is below 256.
 */
module Base64 {

  predicate IsBytes(s: string) {
    forall i :: 0 <= i < |s| ==> s[i] as int < 256
  }

  const Pad: char := '='

  /** The alphabet: `A`-`Z`, `a`-`z`, `0`-`9`, `+`, `/` for the values 0 to 63. */
  function Letter(v: int): (c: char)
    requires 0 <= v < 64
    ensures c != Pad
  {
    if v < 26 then ('A' as int + v) as char
    else if v < 52 then ('a' as int + v - 26) as char
    else if v < 62 then ('0' as int + v - 52) as char
    else if v == 62 then '+'
    else '/'
  }

  /** The value of an alphabet character, or -1 for every other character. */
  function IndexOf(c: char): (v: int)
    ensures -1 <= v < 64
    ensures 0 <= v ==> Letter(v) == c
  {
    if 'A' <= c <= 'Z' then c as int - 'A' as int
    else if 'a' <= c <= 'z' then c as int - 'a' as int + 26
    else if '0' <= c <= '9' then c as int - '0' as int + 52
    else if c == '+' then 62
    else if c == '/' then 63
    else -1
  }

  lemma {:induction false} IndexOfLetter(v: int)
    requires 0 <= v < 64
    ensures IndexOf(Letter(v)) == v
  {
  }

  predicate IsSextets(q: seq<int>) {
    forall i :: 0 <= i < |q| ==> 0 <= q[i] < 64
  }

  /** RFC 4648: three bytes become four six-bit groups; a final one or two bytes become two or three. */
  function Sextets(s: string): (q: seq<int>)
    requires IsBytes(s)
    ensures IsSextets(q)
    ensures |q| == |s| / 3 * 4 + (if |s| % 3 == 0 then 0 else |s| % 3 + 1)
    decreases |s|
  {
    if |s| == 0 then []
    else
      var b0 := s[0] as int;
      if |s| == 1 then [b0 / 4, b0 % 4 * 16]
      else
        var b1 := s[1] as int;
        if |s| == 2 then [b0 / 4, b0 % 4 * 16 + b1 / 16, b1 % 16 * 4]
        else
          var b2 := s[2] as int;
          [b0 / 4, b0 % 4 * 16 + b1 / 16, b1 % 16 * 4 + b2 / 64, b2 % 64] + Sextets(s[3..])
  }

  /** The padding `base64_encode` appends so the output length is a multiple of four. */
  function Padding(n: nat): string {
    if n % 3 == 1 then "==" else if n % 3 == 2 then "=" else ""
  }

  function Chars(q: seq<int>): (r: string)
    requires IsSextets(q)
    ensures |r| == |q|
    ensures forall i :: 0 <= i < |r| ==> r[i] == Letter(q[i])
  {
    seq(|q|, i requires 0 <= i < |q| => Letter(q[i]))
  }

  /** `base64_encode($s)`. */
  function Encode(s: string): (r: string)
    requires IsBytes(s)
    ensures |r| % 4 == 0
  {
    Chars(Sextets(s)) + Padding(|s|)
  }

  /**
   * Non-strict `base64_decode`: padding and characters outside the alphabet are skipped,
   * every four remaining characters give three bytes, a final two or three give one or
   * two, and a final single character gives nothing.
   */
  function Decode(t: string): (r: string)
    ensures IsBytes(r)
  {
    FromSextets(Values(t))
  }

  /** The alphabet values of `t`, skipping every other character. */
  function Values(t: string): (q: seq<int>)
    ensures IsSextets(q)
    decreases |t|
  {
    if |t| == 0 then []
    else if IndexOf(t[0]) < 0 then Values(t[1..])
    else [IndexOf(t[0])] + Values(t[1..])
  }

  function Byte(v: int): char
    requires 0 <= v < 256
  {
    v as char
  }

  function FromSextets(q: seq<int>): (r: string)
    requires IsSextets(q)
    ensures IsBytes(r)
    decreases |q|
  {
    if |q| < 2 then []
    else
      var b0 := q[0] * 4 + q[1] / 16;
      if |q| == 2 then [Byte(b0)]
      else
        var b1 := q[1] % 16 * 16 + q[2] / 4;
        if |q| == 3 then [Byte(b0), Byte(b1)]
        else
          var b2 := q[2] % 4 * 64 + q[3];
          [Byte(b0), Byte(b1), Byte(b2)] + FromSextets(q[4..])
  }

  /** The arithmetic of one group: splitting three bytes into four sextets loses nothing. */
  lemma {:induction false} GroupRoundTrip(b0: int, b1: int, b2: int)
    requires 0 <= b0 < 256 && 0 <= b1 < 256 && 0 <= b2 < 256
    ensures (b0 / 4) * 4 + (b0 % 4 * 16 + b1 / 16) / 16 == b0
    ensures (b0 % 4 * 16 + b1 / 16) % 16 * 16 + (b1 % 16 * 4 + b2 / 64) / 4 == b1
    ensures (b1 % 16 * 4 + b2 / 64) % 4 * 64 + b2 % 64 == b2
  {
    assert b1 / 16 < 16;
    assert (b0 % 4 * 16 + b1 / 16) / 16 == b0 % 4;
    assert (b0 % 4 * 16 + b1 / 16) % 16 == b1 / 16;
    assert b2 / 64 < 4;
    assert (b1 % 16 * 4 + b2 / 64) / 4 == b1 % 16;
    assert (b1 % 16 * 4 + b2 / 64) % 4 == b2 / 64;
  }

  /** Decoding the four sextets of a full group, then the rest. */
  lemma {:induction false} FullGroup(s: string, rest: seq<int>)
    requires |s| >= 3 && IsBytes(s) && IsSextets(rest)
    ensures var b0, b1, b2 := s[0] as int, s[1] as int, s[2] as int;
      FromSextets([b0 / 4, b0 % 4 * 16 + b1 / 16, b1 % 16 * 4 + b2 / 64, b2 % 64] + rest)
      == [s[0], s[1], s[2]] + FromSextets(rest)
  {
    var b0, b1, b2 := s[0] as int, s[1] as int, s[2] as int;
    GroupRoundTrip(b0, b1, b2);
    var q := [b0 / 4, b0 % 4 * 16 + b1 / 16, b1 % 16 * 4 + b2 / 64, b2 % 64] + rest;
    assert q[4..] == rest;
  }

  lemma {:induction false} FromSextetsOfSextets(s: string)
    requires IsBytes(s)
    ensures FromSextets(Sextets(s)) == s
    decreases |s|
  {
    if |s| == 0 {
    } else if |s| < 3 {
      var b0 := s[0] as int;
      var b1 := if |s| > 1 then s[1] as int else 0;
      GroupRoundTrip(b0, b1, 0);
    } else {
      FromSextetsOfSextets(s[3..]);
      FullGroup(s, Sextets(s[3..]));
      assert s == [s[0], s[1], s[2]] + s[3..];
    }
  }

  lemma {:induction false} ValuesOfChars(q: seq<int>)
    requires IsSextets(q)
    ensures Values(Chars(q)) == q
    decreases |q|
  {
    if |q| > 0 {
      IndexOfLetter(q[0]);
      ValuesOfChars(q[1..]);
      assert Chars(q)[1..] == Chars(q[1..]);
    }
  }

  lemma {:induction false} ValuesSkipPadding(t: string, n: nat)
    ensures Values(t + Padding(n)) == Values(t)
    decreases |t|
  {
    if |t| == 0 {
      assert Values("=") == Values("") == [];
      assert Values("==") == Values("=");
      assert t + Padding(n) == Padding(n);
    } else {
      ValuesSkipPadding(t[1..], n);
      assert (t + Padding(n))[1..] == t[1..] + Padding(n);
    }
  }

  /** `base64_decode(base64_encode($s)) === $s`. */
  lemma {:induction false} DecodeEncode(s: string)
    requires IsBytes(s)
    ensures Decode(Encode(s)) == s
  {
    ValuesSkipPadding(Chars(Sextets(s)), |s|);
    ValuesOfChars(Sextets(s));
    FromSextetsOfSextets(s);
  }

  /** Every character of `base64_encode`'s output is in the alphabet or is the pad. */
  lemma {:induction false} EncodeAlphabet(s: string, i: int)
    requires IsBytes(s) && 0 <= i < |Encode(s)|
    ensures IndexOf(Encode(s)[i]) >= 0 || Encode(s)[i] == Pad
  {
    var c := Chars(Sextets(s));
    if i < |c| {
      assert Encode(s)[i] == Letter(Sextets(s)[i]);
      IndexOfLetter(Sextets(s)[i]);
    } else {
      assert Encode(s)[i] == Padding(|s|)[i - |c|];
    }
  }
}
