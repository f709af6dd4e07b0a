/** What the two HTML fixups of `DOMProvider::html` (src/DOM/DOMProvider.php:226-229) do. */
module HtmlFixupProofs {
  import opened HtmlFixups

  /** Text without a `<` after `p` passes through either fixup untouched. */
  lemma {:induction false} NoTagUnchanged(s: string, p: nat, bounded: bool)
    requires p <= |s|
    requires forall i :: p <= i < |s| ==> s[i] != '<'
    ensures FixSelfClosing(s, p, bounded) == s[p..]
    ensures FixSourceClose(s, p) == s[p..]
    decreases |s| - p
  {
    if p < |s| {
      NoTagUnchanged(s, p + 1, bounded);
      assert s[p..] == [s[p]] + s[p + 1..];
    }
  }

  /** Without a `/>` there is nothing for the first fixup to close. */
  lemma {:induction false} NoSlashGtUnchanged(s: string, p: nat, bounded: bool)
    requires p <= |s|
    requires forall i :: p <= i < |s| - 1 ==> !(s[i] == '/' && s[i + 1] == '>')
    ensures FixSelfClosing(s, p, bounded) == s[p..]
    decreases |s| - p
  {
    if p < |s| {
      NoSlashGtUnchanged(s, p + 1, bounded);
      assert s[p..] == [s[p]] + s[p + 1..];
    }
  }

  /** `Lower` changes only the upper-case letters, into lower-case ones. */
  lemma {:induction false} LowerFacts(c: char)
    ensures 'A' <= c <= 'Z' ==> 'a' <= Lower(c) <= 'z'
    ensures !('A' <= c <= 'Z') ==> Lower(c) == c
  {
  }

  /** A match of the second pattern ends its start tag right before an end tag. */
  lemma {:induction false} SourceAtEmptyElement(s: string, p: nat)
    requires p < |s|
    ensures SourceAt(s, p).Hit? ==>
      var g := SourceAt(s, p).gt; g + 2 < |s| && s[g] == '>' && s[g + 1] == '<' && s[g + 2] == '/'
  {
    if SourceAt(s, p).Hit? {
      var g := SourceAt(s, p).gt;
      var e := "</source>";
      assert Lower(s[g + 1 + 0]) == e[0] && Lower(s[g + 1 + 1]) == e[1];
      LowerFacts(s[g + 1]);
      LowerFacts(s[g + 2]);
    }
  }

  /** Without an empty element `></` there is nothing for the second fixup to collapse. */
  lemma {:induction false} NoEmptyElementUnchanged(s: string, p: nat)
    requires p <= |s|
    requires forall i :: p <= i < |s| - 2 ==> !(s[i] == '>' && s[i + 1] == '<' && s[i + 2] == '/')
    ensures FixSourceClose(s, p) == s[p..]
    decreases |s| - p
  {
    if p < |s| {
      SourceAtEmptyElement(s, p);
      NoEmptyElementUnchanged(s, p + 1);
      assert s[p..] == [s[p]] + s[p + 1..];
    }
  }

  /** A tag name: ASCII word characters only. */
  predicate IsName(t: string) {
    |t| > 0 && forall k :: 0 <= k < |t| ==> IsWordChar(t[k])
  }

  /** The lower-case form of a tag name. */
  function LowerName(t: string): (r: string)
    ensures |r| == |t| && forall k :: 0 <= k < |t| ==> r[k] == Lower(t[k])
    decreases |t|
  {
    if |t| == 0 then "" else [Lower(t[0])] + LowerName(t[1..])
  }

  /** The attributes part of a self-closed tag: no `<` or `>`, and no word character first. */
  predicate IsTagRest(rest: string) {
    (forall i :: 0 <= i < |rest| ==> rest[i] != '<' && rest[i] != '>')
    && (|rest| == 0 || !IsWordChar(rest[0]))
  }

  lemma {:induction false} NamesAreLowerWords()
    ensures forall k :: 0 <= k < |NoSelfClose| ==>
      |NoSelfClose[k]| > 0 && forall j :: 0 <= j < |NoSelfClose[k]| ==> 'a' <= NoSelfClose[k][j] <= 'z'
  {
  }

  /** Every alternative differs from each later one in one of its first three characters. */
  lemma {:induction false} NamesApart(j: nat, k: nat)
    requires j < k < |NoSelfClose|
    ensures var v, w := NoSelfClose[j], NoSelfClose[k];
      |v| > 0 && |w| > 0 && (v[0] != w[0] || (|v| > 2 && |w| > 2 && (v[1] != w[1] || v[2] != w[2])))
  {
    var heads := "asntincs";
    assert forall i :: 0 <= i < 8 ==> NoSelfClose[i][0] == heads[i];
  }

  /** Where the parts of a self-closed tag sit in the string. */
  lemma {:induction false} TagShape(s: string, t: string, rest: string)
    requires s == "<" + t + rest + "/>"
    ensures |s| == |t| + |rest| + 3 && s[0] == '<'
    ensures forall j :: 0 <= j < |t| ==> s[1 + j] == t[j]
    ensures forall j :: 0 <= j < |rest| ==> s[1 + |t| + j] == rest[j]
    ensures s[|s| - 2] == '/' && s[|s| - 1] == '>'
    ensures s[..|s| - 2] == "<" + t + rest && s[1..1 + |t|] == t
  {
  }

  lemma {:induction false} FirstGtIs(s: string, q: nat, g: nat)
    requires q <= g < |s| && s[g] == '>'
    requires forall j :: q <= j < g ==> s[j] != '>'
    ensures FirstGt(s, q) == g
    decreases g - q
  {
    if q < g {
      FirstGtIs(s, q + 1, g);
    }
  }

  /** The first `>` after the name is the one of the final `/>`. */
  lemma {:induction false} TagGt(s: string, t: string, rest: string)
    requires s == "<" + t + rest + "/>" && IsTagRest(rest)
    ensures FirstGt(s, 1 + |t|) == |s| - 1
  {
    TagShape(s, t, rest);
    forall j | 1 + |t| <= j < |s| - 1
      ensures s[j] != '>'
    {
      if j < |s| - 2 {
        assert s[j] == rest[j - 1 - |t|];
      }
    }
    FirstGtIs(s, 1 + |t|, |s| - 1);
  }

  /** An alternative that does not match at the `<` hands over to the next one. */
  lemma {:induction false} SkipAlternative(s: string, p: nat, k: nat, bounded: bool)
    requires p < |s| && k < |NoSelfClose| && !MatchesAt(s, p + 1, NoSelfClose[k])
    ensures SelfClosedFrom(s, p, k, bounded) == SelfClosedFrom(s, p, k + 1, bounded)
  {
  }

  /** A lower-case alternative `v` that differs from `t` early misses at a `<` before `t`. */
  lemma {:induction false} FirstCharsMiss(s: string, t: string, v: string)
    requires |t| > 0 && |s| > |t| && forall i :: 0 <= i < |t| ==> s[1 + i] == t[i]
    requires forall i :: 0 <= i < |t| ==> 'a' <= t[i] <= 'z'
    requires |v| > 0 && (v[0] != t[0] || (|v| > 2 && |t| > 2 && (v[1] != t[1] || v[2] != t[2])))
    ensures !MatchesAt(s, 1, v)
  {
    if v[0] != t[0] {
      LowerFacts(s[1 + 0]);
      assert Lower(s[1 + 0]) != v[0];
    } else if v[1] != t[1] {
      LowerFacts(s[1 + 1]);
      assert Lower(s[1 + 1]) != v[1];
    } else {
      LowerFacts(s[1 + 2]);
      assert Lower(s[1 + 2]) != v[2];
    }
  }

  /** Every alternative before the listed name `t` at index `k` misses at the `<`. */
  lemma {:induction false} EarlierAlternativesMiss(s: string, t: string, j: nat, k: nat, bounded: bool)
    requires |t| > 0 && |s| > |t| && forall i :: 0 <= i < |t| ==> s[1 + i] == t[i]
    requires forall i :: 0 <= i < |t| ==> 'a' <= t[i] <= 'z'
    requires j <= k < |NoSelfClose| && t == NoSelfClose[k]
    ensures SelfClosedFrom(s, 0, j, bounded) == SelfClosedFrom(s, 0, k, bounded)
    decreases k - j
  {
    if j < k {
      NamesApart(j, k);
      FirstCharsMiss(s, t, NoSelfClose[j]);
      SkipAlternative(s, 0, j, bounded);
      EarlierAlternativesMiss(s, t, j + 1, k, bounded);
    }
  }

  /** A listed name at the `<` of a self-closed tag is found by the first pattern. */
  lemma {:induction false} ListedTagHit(s: string, t: string, rest: string, k: nat, bounded: bool)
    requires s == "<" + t + rest + "/>" && IsTagRest(rest)
    requires k < |NoSelfClose| && NoSelfClose[k] == t
    ensures SelfClosedFrom(s, 0, 0, bounded) == Hit(|t|, |s| - 1)
  {
    NamesAreLowerWords();
    assert forall i :: 0 <= i < |t| ==> 'a' <= t[i] <= 'z';
    TagShape(s, t, rest);
    TagGt(s, t, rest);
    EarlierAlternativesMiss(s, t, 0, k, bounded);
    assert MatchesAt(s, 1, t) by {
      forall j | 0 <= j < |t|
        ensures Lower(s[1 + j]) == t[j]
      {
        LowerFacts(s[1 + j]);
      }
    }
    var q := 1 + |t|;
    assert !IsWordChar(s[q]) by {
      if |rest| > 0 {
        assert s[q] == rest[0];
      }
    }
  }

  /** A match covering the whole string is replaced by the text before `/>`, `></` and the name. */
  lemma {:induction false} WholeMatchReplaced(s: string, len: nat, bounded: bool)
    requires 2 <= |s| && s[0] == '<' && SelfClosedFrom(s, 0, 0, bounded) == Hit(len, |s| - 1)
    ensures FixSelfClosing(s, 0, bounded) == s[..|s| - 2] + "></" + s[1..1 + len] + ">"
  {
    assert FixSelfClosing(s, |s|, bounded) == "";
  }

  /**
   * A listed tag written self-closed is opened and closed, with the attributes kept, in
   * either mode.
   */
  lemma {:induction false} ListedTagClosed(t: string, rest: string, bounded: bool)
    requires t in NoSelfClose && IsTagRest(rest)
    ensures var s := "<" + t + rest + "/>";
      FixSelfClosing(s, 0, bounded) == "<" + t + rest + "></" + t + ">"
  {
    var s := "<" + t + rest + "/>";
    var k :| 0 <= k < |NoSelfClose| && NoSelfClose[k] == t;
    ListedTagHit(s, t, rest, k, bounded);
    TagShape(s, t, rest);
    WholeMatchReplaced(s, |t|, bounded);
  }

  /** An alternative cannot match, with the word boundary, at a name that is not listed. */
  lemma {:induction false} AlternativeMisses(s: string, t: string, rest: string, k: nat)
    requires s == "<" + t + rest + "/>" && IsName(t) && IsTagRest(rest)
    requires LowerName(t) !in NoSelfClose && k < |NoSelfClose|
    ensures var q := 1 + |NoSelfClose[k]|;
      !(MatchesAt(s, 1, NoSelfClose[k]) && (q == |s| || !IsWordChar(s[q])))
  {
    var w := NoSelfClose[k];
    var q := 1 + |w|;
    TagShape(s, t, rest);
    NamesAreLowerWords();
    if |w| < |t| {
      assert s[q] == t[|w|];
    } else if |w| == |t| {
      assert MatchesAt(s, 1, w) ==> LowerName(t) == w by {
        forall j | 0 <= j < |w|
          ensures MatchesAt(s, 1, w) ==> LowerName(t)[j] == w[j]
        {
          assert s[1 + j] == t[j];
        }
      }
    } else {
      var c := s[1 + |t|];
      assert !IsWordChar(c) by {
        if |rest| > 0 {
          assert c == rest[0];
        }
      }
      LowerFacts(c);
      assert Lower(c) != w[|t|];
    }
  }

  /** With the word boundary, no alternative matches at a tag whose name is not listed. */
  lemma {:induction false} UnlistedMisses(s: string, t: string, rest: string, k: nat)
    requires s == "<" + t + rest + "/>" && IsName(t) && IsTagRest(rest)
    requires LowerName(t) !in NoSelfClose && k <= |NoSelfClose|
    ensures SelfClosedFrom(s, 0, k, true) == Miss
    decreases |NoSelfClose| - k
  {
    if k < |NoSelfClose| {
      AlternativeMisses(s, t, rest, k);
      UnlistedMisses(s, t, rest, k + 1);
    }
  }

  /**
   * The evidently intended behaviour: a self-closed tag whose name is not listed (`abbr`,
   * `article`, `audio`, ...) is left as it is.
   */
  lemma {:induction false} UnlistedTagKept(t: string, rest: string)
    requires IsName(t) && IsTagRest(rest) && LowerName(t) !in NoSelfClose
    ensures var s := "<" + t + rest + "/>"; FixSelfClosing(s, 0, true) == s
  {
    var s := "<" + t + rest + "/>";
    UnlistedMisses(s, t, rest, 0);
    TagShape(s, t, rest);
    assert forall i :: 1 <= i < |s| ==> s[i] != '<' by {
      forall i | 1 <= i < |s|
        ensures s[i] != '<'
      {
        if i < 1 + |t| {
          assert s[i] == t[i - 1];
        } else if i < |s| - 2 {
          assert s[i] == rest[i - 1 - |t|];
        }
      }
    }
    NoTagUnchanged(s, 1, true);
    assert s == [s[0]] + s[1..];
  }

  /**
   * As written, the alternative `a` is not followed by a word boundary, so `<abbr/>` is
   * taken for a self-closed `<a>`: the `<abbr>` start tag is closed by `</a>`.
   */
  lemma {:induction false} AbbrClosedAsAnchor()
    ensures FixSelfClosing("<abbr/>", 0, false) == "<abbr></a>"
  {
    var s := "<abbr/>";
    assert MatchesAt(s, 1, "a");
    assert FirstGt(s, 2) == 6;
    assert SelfClosedFrom(s, 0, 0, false) == Hit(1, 6);
    assert FixSelfClosing(s, 7, false) == "";
    assert s[0..5] == "<abbr" && s[1..2] == "a";
  }

  lemma {:induction false} SourceShape(s: string, rest: string)
    requires s == "<source" + rest + "></source>"
    ensures |s| == |rest| + 17 && s[..7] == "<source" && s[7 + |rest|] == '>'
    ensures forall j :: 0 <= j < |rest| ==> s[7 + j] == rest[j]
    ensures forall j :: 0 <= j < 6 ==> s[1 + j] == "source"[j]
    ensures forall j :: 0 <= j < 9 ==> s[8 + |rest| + j] == "</source>"[j]
    ensures s[0..7 + |rest|] == "<source" + rest && s[|s|..] == ""
  {
  }

  /** An empty `<source>` element collapses into a self-closed one, attributes kept. */
  lemma {:induction false} SourceNames(s: string, rest: string)
    requires s == "<source" + rest + "></source>"
    ensures MatchesAt(s, 1, "source") && MatchesAt(s, 8 + |rest|, "</source>")
  {
    SourceShape(s, rest);
    forall j | 0 <= j < 6
      ensures Lower(s[1 + j]) == "source"[j]
    {
      LowerFacts(s[1 + j]);
    }
    forall j | 0 <= j < 9
      ensures Lower(s[8 + |rest| + j]) == "</source>"[j]
    {
      LowerFacts(s[8 + |rest| + j]);
    }
  }

  lemma {:induction false} SourceCollapsed(rest: string)
    requires forall i :: 0 <= i < |rest| ==> rest[i] != '<' && rest[i] != '>'
    ensures FixSourceClose("<source" + rest + "></source>", 0) == "<source" + rest + " />"
  {
    var s := "<source" + rest + "></source>";
    var g := 7 + |rest|;
    SourceShape(s, rest);
    forall j | 7 <= j < g
      ensures s[j] != '>'
    {
      assert s[j] == rest[j - 7];
    }
    FirstGtIs(s, 7, g);
    SourceNames(s, rest);
    assert SourceAt(s, 0) == Hit(6, g);
    assert FixSourceClose(s, g + 10) == "";
  }
}
