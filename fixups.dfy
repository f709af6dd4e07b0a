/**
 * The two `preg_replace` fixups `DOMProvider::html` applies to serialised HTML
 * (src/DOM/DOMProvider.php:226-229), as the leftmost, non-overlapping scans PCRE performs:
 *
 * - a self-closed `<a .../>`, `<script .../>`, ... (tags that may not self-close in HTML)
 *   becomes `<a ...></a>`;
 * - an empty `<source ...></source>` becomes `<source ... />`.
 *
 * Both patterns are case-insensitive, and the closing tag repeats the name as it was matched.
 */
module HtmlFixups {
  /** ASCII lower case, as the `i` flag compares. */
  function Lower(c: char): char {
    if 'A' <= c <= 'Z' then (c as int + 32) as char else c
  }

  /** `w` (lower case) occurs at `i` of `s`, ignoring ASCII case. */
  predicate MatchesAt(s: string, i: nat, w: string) {
    i + |w| <= |s| && forall k :: 0 <= k < |w| ==> Lower(s[i + k]) == w[k]
  }

  /** A PCRE word character: what `\b` separates from a non-word character. */
  predicate IsWordChar(c: char) {
    'a' <= c <= 'z' || 'A' <= c <= 'Z' || '0' <= c <= '9' || c == '_'
  }

  /** The index of the first `>` at or after `q`, or `|s|`: where `[^>]*` must stop. */
  function FirstGt(s: string, q: nat): (g: nat)
    requires q <= |s|
    ensures q <= g <= |s|
    ensures g < |s| ==> s[g] == '>'
    ensures forall j :: q <= j < g ==> s[j] != '>'
    decreases |s| - q
  {
    if q == |s| || s[q] == '>' then q else FirstGt(s, q + 1)
  }

  /** A match at a `<`: the length of the tag name and the index of the `>` the match ends on. */
  datatype Hit = Miss | Hit(len: nat, gt: nat)

  /** The alternatives of the first pattern, in the order PCRE tries them. */
  const NoSelfClose := ["a", "script", "noscript", "table", "iframe", "noframes", "canvas", "style"]

  /**
   * Tries the alternatives from index `k` on at the `<` at `p`: the length of the name that
   * matched and the index of the `>` ending `/>`. `bounded` adds the `\b` after the name.
   */
  function SelfClosedFrom(s: string, p: nat, k: nat, bounded: bool): (r: Hit)
    requires p < |s| && k <= |NoSelfClose|
    ensures r.Hit? ==> p + 1 + r.len < r.gt < |s| && s[r.gt] == '>' && s[r.gt - 1] == '/'
    decreases |NoSelfClose| - k
  {
    if k == |NoSelfClose| then Miss
    else
      var w := NoSelfClose[k];
      var q := p + 1 + |w|;
      if MatchesAt(s, p + 1, w) && (!bounded || q == |s| || !IsWordChar(s[q])) then
        var g := FirstGt(s, q);
        if q < g < |s| && s[g - 1] == '/' then Hit(|w|, g) else SelfClosedFrom(s, p, k + 1, bounded)
      else SelfClosedFrom(s, p, k + 1, bounded)
  }

  /**
   * `preg_replace('@(<(a|script|...)[^>]*)/>@ims', '$1></$2>', s[p..])`; with `bounded` the
   * name must end at a word boundary.
   */
  function FixSelfClosing(s: string, p: nat, bounded: bool): string
    requires p <= |s|
    decreases |s| - p
  {
    if p == |s| then ""
    else if s[p] == '<' && SelfClosedFrom(s, p, 0, bounded).Hit? then
      var m := SelfClosedFrom(s, p, 0, bounded);
      s[p..m.gt - 1] + "></" + s[p + 1..p + 1 + m.len] + ">" + FixSelfClosing(s, m.gt + 1, bounded)
    else [s[p]] + FixSelfClosing(s, p + 1, bounded)
  }

  /** A match of the second pattern at `p`: the index of the `>` that ends the start tag. */
  function SourceAt(s: string, p: nat): (r: Hit)
    requires p < |s|
    ensures r.Hit? ==> p + 7 <= r.gt < |s| && MatchesAt(s, r.gt + 1, "</source>")
  {
    if s[p] == '<' && MatchesAt(s, p + 1, "source") then
      var g := FirstGt(s, p + 7);
      if g < |s| && MatchesAt(s, g + 1, "</source>") then Hit(6, g) else Miss
    else Miss
  }

  /** `preg_replace('@(<(source)[^>]*)></\2>@ims', '$1 />', s[p..])`. */
  function FixSourceClose(s: string, p: nat): string
    requires p <= |s|
    decreases |s| - p
  {
    if p == |s| then ""
    else if SourceAt(s, p).Hit? then
      var g := SourceAt(s, p).gt;
      s[p..g] + " />" + FixSourceClose(s, g + 10)
    else [s[p]] + FixSourceClose(s, p + 1)
  }
}
