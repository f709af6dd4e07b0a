/**
 * The PHP string functions the core relies on, over `string` values that stand for
 * PHP byte strings (one `char` per byte).
 */
module Strings {
  import opened Wrappers

  /** PHP truthiness of a string: only "" and "0" are falsy. */
  predicate Truthy(s: string) {
    s != "" && s != "0"
  }

  /** `strpos($s, $p) === 0` (PHP 8, where the empty needle is found at 0). */
  predicate StartsWith(s: string, p: string) {
    |p| <= |s| && s[..|p|] == p
  }

  predicate EndsWith(s: string, p: string) {
    |p| <= |s| && s[|s| - |p|..] == p
  }

  /** The characters `trim` removes by default. */
  predicate IsTrimmed(c: char) {
    c == ' ' || c == '\t' || c == '\n' || c == '\r' || c == '\0' || c == '\U{0B}'
  }

  /** `trim($s) == ''`, which is what `!trim($s)` tests apart from the string "0". */
  predicate AllTrimmed(s: string) {
    forall i :: 0 <= i < |s| ==> IsTrimmed(s[i])
  }

  /** `trim($s)`: strip the default whitespace set at both ends. */
  function Trim(s: string): (r: string)
    ensures |r| <= |s|
    ensures r == "" <==> AllTrimmed(s)
    ensures r != "" ==> !IsTrimmed(r[0]) && !IsTrimmed(r[|r| - 1])
    decreases |s|
  {
    if |s| == 0 then s
    else if IsTrimmed(s[0]) then Trim(s[1..])
    else if IsTrimmed(s[|s| - 1]) then Trim(s[..|s| - 1])
    else s
  }

  /** Where `trim` cuts `s`: the result is `s[i..j]`, and everything cut off is trimmed. */
  lemma {:induction false} TrimBounds(s: string) returns (i: nat, j: nat)
    ensures i <= j <= |s| && Trim(s) == s[i..j]
    ensures AllTrimmed(s[..i]) && AllTrimmed(s[j..])
    decreases |s|
  {
    if |s| == 0 {
      i, j := 0, 0;
    } else if IsTrimmed(s[0]) {
      var i', j' := TrimBounds(s[1..]);
      i, j := i' + 1, j' + 1;
      TrimBoundsFront(s, i', j');
    } else if IsTrimmed(s[|s| - 1]) {
      i, j := TrimBounds(s[..|s| - 1]);
      TrimBoundsBack(s, i, j);
    } else {
      i, j := 0, |s|;
    }
  }

  /** A trimmed first character moves both bounds of the rest one place right. */
  lemma TrimBoundsFront(s: string, i: nat, j: nat)
    requires |s| > 0 && IsTrimmed(s[0]) && i <= j <= |s| - 1
    requires AllTrimmed(s[1..][..i]) && AllTrimmed(s[1..][j..])
    ensures s[1..][i..j] == s[i + 1..j + 1]
    ensures AllTrimmed(s[..i + 1]) && AllTrimmed(s[j + 1..])
  {
    assert s[1..][i..j] == s[i + 1..j + 1];
    assert forall k :: 1 <= k < i + 1 ==> s[k] == s[1..][..i][k - 1];
    assert s[j + 1..] == s[1..][j..];
  }

  /** A trimmed last character keeps the bounds of the rest. */
  lemma TrimBoundsBack(s: string, i: nat, j: nat)
    requires |s| > 0 && IsTrimmed(s[|s| - 1]) && i <= j <= |s| - 1
    requires AllTrimmed(s[..|s| - 1][..i]) && AllTrimmed(s[..|s| - 1][j..])
    ensures s[..|s| - 1][i..j] == s[i..j]
    ensures AllTrimmed(s[..i]) && AllTrimmed(s[j..])
  {
    var t := s[..|s| - 1];
    assert t[i..j] == s[i..j];
    assert t[..i] == s[..i];
    assert forall k :: 0 <= k < |s| - 1 - j ==> s[j..][k] == t[j..][k];
  }

  /** `trim` removes only a run of trimmed characters at each end: the result is a slice of `s`. */
  lemma TrimSlice(s: string)
    ensures exists i, j :: 0 <= i <= j <= |s| && Trim(s) == s[i..j] && AllTrimmed(s[..i]) && AllTrimmed(s[j..])
  {
    var i, j := TrimBounds(s);
  }

  /** `explode($d, $s)`: the pieces of `s` between occurrences of `d`; never empty. */
  function Split(s: string, d: char): (r: seq<string>)
    ensures |r| >= 1
    ensures forall i, j :: 0 <= i < |r| && 0 <= j < |r[i]| ==> r[i][j] != d
    decreases |s|
  {
    if |s| == 0 then [""]
    else if s[0] == d then [""] + Split(s[1..], d)
    else
      var rest := Split(s[1..], d);
      [[s[0]] + rest[0]] + rest[1..]
  }

  /** `implode($d, $parts)`. */
  function Join(parts: seq<string>, d: char): string
    decreases |parts|
  {
    if |parts| == 0 then ""
    else if |parts| == 1 then parts[0]
    else parts[0] + [d] + Join(parts[1..], d)
  }

  /** Splitting and joining again gives back the string. */
  lemma {:induction false} JoinSplit(s: string, d: char)
    ensures Join(Split(s, d), d) == s
    decreases |s|
  {
    if |s| == 0 {
    } else if s[0] == d {
      JoinSplit(s[1..], d);
      assert s == [d] + s[1..];
    } else {
      JoinSplit(s[1..], d);
      var rest := Split(s[1..], d);
      if |rest| == 1 {
        assert Join(rest, d) == rest[0];
      } else {
        assert Join(rest, d) == rest[0] + [d] + Join(rest[1..], d);
      }
      assert s == [s[0]] + s[1..];
    }
  }

  /** Joining pieces free of the delimiter and splitting again gives back the pieces. */
  lemma {:induction false} SplitJoin(parts: seq<string>, d: char)
    requires |parts| >= 1
    requires forall i, j :: 0 <= i < |parts| && 0 <= j < |parts[i]| ==> parts[i][j] != d
    ensures Split(Join(parts, d), d) == parts
    decreases |parts|, |parts[0]|
  {
    if |parts| == 1 {
      SplitNoDelimiter(parts[0], d);
    } else if |parts[0]| == 0 {
      var tail := parts[1..];
      SplitJoin(tail, d);
      assert Join(parts, d) == [d] + Join(tail, d);
      assert Join(parts, d)[1..] == Join(tail, d);
      assert parts == [""] + tail;
    } else {
      var shorter := [parts[0][1..]] + parts[1..];
      SplitJoin(shorter, d);
      var s := Join(parts, d);
      assert Join(shorter, d) == parts[0][1..] + [d] + Join(parts[1..], d);
      assert s == [parts[0][0]] + Join(shorter, d);
      assert s[1..] == Join(shorter, d);
      assert s[0] == parts[0][0] && s[0] != d;
      assert [parts[0][0]] + parts[0][1..] == parts[0];
      assert [[s[0]] + shorter[0]] + shorter[1..] == parts;
    }
  }

  /** A trailing delimiter adds one empty piece. */
  lemma {:induction false} SplitSnoc(s: string, d: char)
    ensures Split(s + [d], d) == Split(s, d) + [""]
    decreases |s|
  {
    if |s| == 0 {
      assert s + [d] == [d];
      assert Split([d], d) == [""] + Split([], d);
    } else {
      assert (s + [d])[1..] == s[1..] + [d];
      SplitSnoc(s[1..], d);
    }
  }

  /** Joining with a last empty piece ends the string with the delimiter. */
  lemma {:induction false} JoinSnoc(parts: seq<string>, d: char)
    requires |parts| > 0
    ensures Join(parts + [""], d) == Join(parts, d) + [d]
    decreases |parts|
  {
    if |parts| == 1 {
      assert parts + [""] == [parts[0], ""];
      assert Join([""], d) == "";
    } else {
      assert (parts + [""])[1..] == parts[1..] + [""];
      JoinSnoc(parts[1..], d);
    }
  }

  lemma {:induction false} SplitNoDelimiter(s: string, d: char)
    requires forall j :: 0 <= j < |s| ==> s[j] != d
    ensures Split(s, d) == [s]
    decreases |s|
  {
    if |s| > 0 {
      SplitNoDelimiter(s[1..], d);
      assert [s[0]] + s[1..] == s;
    }
  }

  /** The position of the last `c` in `s`, if any (`strrpos`). */
  function LastIndexOf(s: string, c: char): (r: Option<nat>)
    ensures r.Some? ==> (r.value < |s| && s[r.value] == c
      && forall j :: r.value < j < |s| ==> s[j] != c)
    ensures r.None? ==> forall j :: 0 <= j < |s| ==> s[j] != c
    decreases |s|
  {
    if |s| == 0 then None
    else if s[|s| - 1] == c then Some(|s| - 1)
    else LastIndexOf(s[..|s| - 1], c)
  }

  /** Appending text without `c` leaves the last `c` where it was. */
  lemma {:induction false} LastIndexOfAppend(s: string, t: string, c: char)
    requires forall j :: 0 <= j < |t| ==> t[j] != c
    ensures LastIndexOf(s + t, c) == LastIndexOf(s, c)
    decreases |t|
  {
    if |t| > 0 {
      assert (s + t)[..|s + t| - 1] == s + t[..|t| - 1];
      LastIndexOfAppend(s, t[..|t| - 1], c);
    } else {
      assert s + t == s;
    }
  }

  /** Byte-wise lexicographic order (`strcmp($a, $b) < 0`). */
  predicate Less(a: string, b: string)
    decreases |a|
  {
    if |a| == 0 then |b| > 0
    else if |b| == 0 then false
    else if a[0] != b[0] then a[0] < b[0]
    else Less(a[1..], b[1..])
  }

  lemma {:induction false} LessIrreflexive(a: string)
    ensures !Less(a, a)
    decreases |a|
  {
    if |a| > 0 {
      LessIrreflexive(a[1..]);
    }
  }

  lemma {:induction false} LessTransitive(a: string, b: string, c: string)
    requires Less(a, b) && Less(b, c)
    ensures Less(a, c)
    decreases |a|
  {
    if |a| > 0 && |b| > 0 && |c| > 0 && a[0] == b[0] && b[0] == c[0] {
      LessTransitive(a[1..], b[1..], c[1..]);
    }
  }

  lemma {:induction false} LessTotal(a: string, b: string)
    requires a != b
    ensures Less(a, b) || Less(b, a)
    decreases |a|
  {
    if |a| > 0 && |b| > 0 && a[0] == b[0] {
      assert a == [a[0]] + a[1..] && b == [b[0]] + b[1..];
      LessTotal(a[1..], b[1..]);
    }
  }

  /** The decimal digits of `n` (PHP's string conversion of a non-negative integer). */
  function NatToString(n: nat): (r: string)
    ensures |r| >= 1
    ensures forall i :: 0 <= i < |r| ==> '0' <= r[i] <= '9'
    decreases n
  {
    if n < 10 then [Digit(n)] else NatToString(n / 10) + [Digit(n % 10)]
  }

  function Digit(d: nat): (c: char)
    requires d < 10
    ensures '0' <= c <= '9' && c as int - '0' as int == d
  {
    ('0' as int + d) as char
  }

  /** The number a string of decimal digits denotes, most significant digit first. */
  function DigitsValue(s: string): int
    decreases |s|
  {
    if |s| == 0 then 0 else DigitsValue(s[..|s| - 1]) * 10 + (s[|s| - 1] as int - '0' as int)
  }

  /** `NatToString(n)` denotes `n`, and only `0` is written with a leading zero. */
  lemma {:induction false} NatToStringValue(n: nat)
    ensures DigitsValue(NatToString(n)) == n
    ensures NatToString(n)[0] == '0' ==> n == 0
    decreases n
  {
    var r := NatToString(n);
    if n < 10 {
      assert r[..0] == [];
    } else {
      NatToStringValue(n / 10);
      var p := NatToString(n / 10);
      assert r == p + [Digit(n % 10)];
      assert r[..|r| - 1] == p;
      assert r[0] == p[0];
    }
  }

  /** Different numbers get different strings. */
  lemma {:induction false} NatToStringInjective(a: nat, b: nat)
    requires NatToString(a) == NatToString(b)
    ensures a == b
  {
    NatToStringValue(a);
    NatToStringValue(b);
  }

  /** PHP's string conversion of an integer. */
  function IntToString(n: int): string {
    if n < 0 then "-" + NatToString(-n) else NatToString(n)
  }

  /**
   * `str_replace($pat, $rep, $s)`: every non-overlapping occurrence of `pat`, found
   * left to right, is replaced by `rep`.
   */
  function ReplaceAll(s: string, pat: string, rep: string): (r: string)
    requires |pat| > 0
    decreases |s|
  {
    if |s| < |pat| then s
    else if s[..|pat|] == pat then rep + ReplaceAll(s[|pat|..], pat, rep)
    else [s[0]] + ReplaceAll(s[1..], pat, rep)
  }
}
