/**
 * Path normalisation of `URL::setPath` (src/URL.php), as pure functions over the
 * path string. The method that runs the traversal loop is `Urls.Url.SetPath`.
 */
module UrlPaths {
  import opened Wrappers
  import opened Strings

  /** `preg_replace('@/+@', '/', $s)`: every run of slashes becomes one slash. */
  function CollapseSlashes(s: string): (r: string)
    ensures |r| <= |s|
    ensures |s| > 0 ==> |r| > 0 && r[0] == s[0]
    ensures NoDoubleSlash(r)
    decreases |s|
  {
    if |s| <= 1 then s
    else if s[0] == '/' && s[1] == '/' then CollapseSlashes(s[1..])
    else [s[0]] + CollapseSlashes(s[1..])
  }

  predicate NoDoubleSlash(s: string) {
    forall i :: 0 <= i < |s| - 1 ==> !(s[i] == '/' && s[i + 1] == '/')
  }

  /** `preg_replace('@/index\.html$@', '/', $s)`. */
  function StripIndexHtml(s: string): (r: string)
  {
    if EndsWith(s, "/index.html") then s[..|s| - |"/index.html"|] + "/" else s
  }

  /** `preg_replace('@/[^/]+$@', '/', $path)`: drop a non-empty last segment. */
  function PathDirectory(path: string): (r: string)
  {
    match LastIndexOf(path, '/')
    case Some(k) => if k < |path| - 1 then path[..k + 1] else path
    case None => path
  }

  // `preg_replace('@^.*/@', '', $path)`: the text after the last slash.
  function PathFile(path: string): (r: string)
    ensures forall i :: 0 <= i < |r| ==> r[i] != '/'
    ensures EndsWith(path, r)
    ensures r == path || path[|path| - |r| - 1] == '/'
  {
    match LastIndexOf(path, '/')
    case Some(k) => path[k + 1..]
    case None => path
  }

  /** A path's segments, as `explode('/', $path)` gives them. */
  function Segments(p: string): seq<string> {
    Split(p, '/')
  }

  /**
   * The segment array after `array_filter` dropped the "." entries: `None` is a hole
   * (a key that is no longer there), or a slot the traversal loop set to `false`.
   */
  function Marked(segs: seq<string>): (r: seq<Option<string>>)
    ensures |r| == |segs|
    ensures forall j :: 0 <= j < |r| ==> r[j] == (if segs[j] == "." then None else Some(segs[j]))
  {
    seq(|segs|, j requires 0 <= j < |segs| => if segs[j] == "." then None else Some(segs[j]))
  }

  /** `array_merge` renumbers the keys, so the holes close up. */
  function Present(segs: seq<Option<string>>): (r: seq<Option<string>>)
    ensures forall j :: 0 <= j < |r| ==> r[j].Some?
    decreases |segs|
  {
    if |segs| == 0 then []
    else if segs[0].None? then Present(segs[1..])
    else [segs[0]] + Present(segs[1..])
  }

  /** The values left after the final `array_filter`, in order. */
  function Kept(segs: seq<Option<string>>): (r: seq<string>)
    decreases |segs|
  {
    if |segs| == 0 then []
    else if segs[0].None? then Kept(segs[1..])
    else [segs[0].value] + Kept(segs[1..])
  }

  /**
   * The context's directory as `setPath` prepends it: `pathDirectory()` without its
   * trailing slash unless it is "/", exploded, with no entry filtered out.
   */
  function ContextSegments(contextPath: string): (r: seq<Option<string>>)
  {
    var dir := PathDirectory(contextPath);
    var trimmed := if dir == "/" then dir else if |dir| == 0 then dir else dir[..|dir| - 1];
    var segs := Segments(trimmed);
    seq(|segs|, j requires 0 <= j < |segs| => Some(segs[j]))
  }

  /**
   * The traversal loop `foreach ($path as $i => $e) if ($e === '..') $path[$i - 1] = $path[$i] = false;`
   * iterates over the array as it was before the loop, so slot `j` ends up cleared exactly
   * when it held ".." or the slot after it held "..".
   */
  function Resolved(segs: seq<Option<string>>): (r: seq<Option<string>>)
    ensures |r| == |segs|
    ensures forall j :: 0 <= j < |r| ==>
      (r[j] == if segs[j] == Some("..") || (j + 1 < |segs| && segs[j + 1] == Some("..")) then None else segs[j])
  {
    seq(|segs|, j requires 0 <= j < |segs| =>
      if segs[j] == Some("..") || (j + 1 < |segs| && segs[j + 1] == Some("..")) then None else segs[j])
  }

  /** The segment array `setPath` resolves: relative input is placed after the context's directory. */
  function Placed(input: string, contextPath: Option<string>): Result<seq<Option<string>>, ()>
  {
    var segs := Marked(Segments(StripIndexHtml(CollapseSlashes(input))));
    if segs[0] == Some("") then Ok(segs)
    else if contextPath.None? then Err(())
    else Ok(ContextSegments(contextPath.value) + Present(segs))
  }

  /** The final step: implode, collapse slashes, and fall back to "/" for a falsy result. */
  function Rejoin(kept: seq<string>): string {
    var p := CollapseSlashes(Join(kept, '/'));
    if Truthy(p) then p else "/"
  }

  /**
   * `setPath($input)` with `contextPath` the path of `URLFactory::context()`, if any:
   * the normalised path, or `Err` for the exception a relative input raises without a context.
   */
  function NormalizePath(input: string, contextPath: Option<string>): Result<string, ()>
  {
    match Placed(input, contextPath)
    case Err(e) => Err(e)
    case Ok(segs) => Ok(Rejoin(Kept(Resolved(segs))))
  }

  /** Whether `setPath` reads `$input` as relative (its first segment is not empty). */
  predicate IsRelative(input: string) {
    Marked(Segments(StripIndexHtml(CollapseSlashes(input))))[0] != Some("")
  }
}

module UrlPathProofs {
  import opened Wrappers
  import opened Strings
  import opened UrlPaths

  /** Splitting a string unfolds one character at a time. */
  lemma {:induction false} SplitCons(c: char, t: string)
    ensures Segments([c] + t) ==
      if c == '/' then [""] + Segments(t) else [[c] + Segments(t)[0]] + Segments(t)[1..]
  {
    assert ([c] + t)[1..] == t;
  }

  /**
   * Collapsing slashes keeps the first segment and only drops empty segments: every
   * later segment of the result is empty or a later segment of the input.
   */
  lemma {:induction false} CollapseSegments(s: string)
    ensures Segments(CollapseSlashes(s))[0] == Segments(s)[0]
    ensures forall j :: 1 <= j < |Segments(CollapseSlashes(s))| ==>
      Segments(CollapseSlashes(s))[j] == "" || Segments(CollapseSlashes(s))[j] in Segments(s)[1..]
    decreases |s|
  {
    if |s| > 1 {
      var t := s[1..];
      assert s == [s[0]] + t;
      SplitCons(s[0], t);
      CollapseSegments(t);
      if s[0] == '/' && s[1] == '/' {
        assert t == ['/'] + t[1..];
        SplitCons('/', t[1..]);
      } else {
        var ct := CollapseSlashes(t);
        assert CollapseSlashes(s) == [s[0]] + ct;
        SplitCons(s[0], ct);
      }
    }
  }

  lemma {:induction false} CollapseNoDoubleSlash(s: string)
    requires NoDoubleSlash(s)
    ensures CollapseSlashes(s) == s
    decreases |s|
  {
    if |s| > 1 {
      CollapseNoDoubleSlash(s[1..]);
      assert s == [s[0]] + s[1..];
    }
  }

  /** Ending in `/` is having `/` as the last character. */
  lemma {:induction false} EndsWithSlash(s: string)
    ensures EndsWith(s, "/") <==> |s| > 0 && s[|s| - 1] == '/'
  {
    if |s| > 0 {
      assert s[|s| - 1..] == [s[|s| - 1]];
    }
  }

  /** Collapsing keeps a trailing slash. */
  lemma {:induction false} CollapseLastSlash(s: string)
    requires EndsWith(s, "/")
    ensures EndsWith(CollapseSlashes(s), "/")
    decreases |s|
  {
    EndsWithSlash(s);
    if |s| > 1 {
      var t := s[1..];
      EndsWithSlash(t);
      CollapseLastSlash(t);
      var r := CollapseSlashes(t);
      EndsWithSlash(r);
      if !(s[0] == '/' && s[1] == '/') {
        assert CollapseSlashes(s) == [s[0]] + r;
        EndsWithSlash([s[0]] + r);
      }
    }
  }

  /** Collapsing keeps a last segment `/w`. */
  lemma {:induction false} CollapseKeepsLastSegment(s: string, w: string)
    requires forall i :: 0 <= i < |w| ==> w[i] != '/'
    requires EndsWith(s, "/" + w)
    ensures EndsWith(CollapseSlashes(s), "/" + w)
    decreases |s|
  {
    var x := "/" + w;
    if |s| == |x| {
      assert s == x;
      assert NoDoubleSlash(s);
      CollapseNoDoubleSlash(s);
    } else {
      var t := s[1..];
      EndsWithTail(s, x);
      CollapseKeepsLastSegment(t, w);
      if !(s[0] == '/' && s[1] == '/') {
        assert CollapseSlashes(s) == [s[0]] + CollapseSlashes(t);
        EndsWithCons(s[0], CollapseSlashes(t), x);
      }
    }
  }

  /** A proper suffix is a suffix of the tail. */
  lemma {:induction false} EndsWithTail(s: string, x: string)
    requires EndsWith(s, x) && |x| < |s|
    ensures EndsWith(s[1..], x)
  {
    assert s[1..][|s| - 1 - |x|..] == s[|s| - |x|..];
  }

  /** A suffix stays one when a character is put in front. */
  lemma {:induction false} EndsWithCons(c: char, r: string, x: string)
    requires EndsWith(r, x)
    ensures EndsWith([c] + r, x)
  {
    assert ([c] + r)[|r| + 1 - |x|..] == r[|r| - |x|..];
  }

  lemma {:induction false} PresentSnoc(segs: seq<Option<string>>, x: string)
    ensures Present(segs + [Some(x)]) == Present(segs) + [Some(x)]
    decreases |segs|
  {
    if |segs| == 0 {
      assert segs + [Some(x)] == [Some(x)];
    } else {
      assert (segs + [Some(x)])[1..] == segs[1..] + [Some(x)];
      PresentSnoc(segs[1..], x);
    }
  }

  lemma {:induction false} KeptSnoc(segs: seq<Option<string>>, x: string)
    ensures Kept(segs + [Some(x)]) == Kept(segs) + [x]
    decreases |segs|
  {
    if |segs| == 0 {
      assert segs + [Some(x)] == [Some(x)];
    } else {
      assert (segs + [Some(x)])[1..] == segs[1..] + [Some(x)];
      KeptSnoc(segs[1..], x);
    }
  }

  /** The segment array of an input whose collapsed form ends in a slash ends in an empty segment. */
  lemma {:induction false} PlacedEndsEmpty(input: string, contextPath: Option<string>)
    requires EndsWith(StripIndexHtml(CollapseSlashes(input)), "/")
    requires Placed(input, contextPath).Ok?
    ensures var segs := Placed(input, contextPath).value;
      |segs| > 0 && segs[|segs| - 1] == Some("")
  {
    var t := StripIndexHtml(CollapseSlashes(input));
    var t' := t[..|t| - 1];
    assert t == t' + ['/'];
    SplitSnoc(t', '/');
    var segs := Marked(Segments(t));
    var n := |segs|;
    assert segs[n - 1] == Some("");
    if segs[0] != Some("") {
      assert segs == segs[..n - 1] + [Some("")];
      PresentSnoc(segs[..n - 1], "");
    }
  }

  lemma {:induction false} StripIndexHtmlSlash(input: string)
    requires EndsWith(input, "/index.html")
    ensures EndsWith(StripIndexHtml(CollapseSlashes(input)), "/")
  {
    CollapseKeepsLastSegment(input, "index.html");
  }

  /** `setPath`'s result, when it has one, from the segment array `Placed` builds. */
  lemma {:induction false} NormalizePathOfPlaced(input: string, contextPath: Option<string>)
    requires NormalizePath(input, contextPath).Ok?
    ensures Placed(input, contextPath).Ok?
    ensures NormalizePath(input, contextPath).value == Rejoin(Kept(Resolved(Placed(input, contextPath).value)))
  {
  }

  /** Rejoining segments whose last one is empty gives a path ending in `/`. */
  lemma {:induction false} RejoinEndsWithSlash(ks: seq<string>)
    ensures EndsWith(Rejoin(ks + [""]), "/")
  {
    if |ks| > 0 {
      JoinSnoc(ks, '/');
      CollapseLastSlash(Join(ks, '/') + "/");
    } else {
      assert ks + [""] == [""];
    }
  }

  /** The traversal keeps an empty last segment. */
  lemma {:induction false} KeptEndsEmpty(segs: seq<Option<string>>)
    requires |segs| > 0 && segs[|segs| - 1] == Some("")
    ensures Kept(Resolved(segs)) == Kept(Resolved(segs)[..|segs| - 1]) + [""]
  {
    var res := Resolved(segs);
    assert res == res[..|segs| - 1] + [Some("")];
    KeptSnoc(res[..|segs| - 1], "");
  }

  /**
   * A trailing `/index.html` (after slashes are collapsed) gives a path ending in `/`:
   * it is stripped to `/`, whose empty last segment survives the traversal.
   */
  lemma {:induction false} IndexHtmlGivesDirectory(input: string, contextPath: Option<string>)
    requires EndsWith(input, "/index.html")
    requires NormalizePath(input, contextPath).Ok?
    ensures EndsWith(NormalizePath(input, contextPath).value, "/")
  {
    StripIndexHtmlSlash(input);
    NormalizePathOfPlaced(input, contextPath);
    PlacedEndsEmpty(input, contextPath);
    var segs := Placed(input, contextPath).value;
    KeptEndsEmpty(segs);
    RejoinEndsWithSlash(Kept(Resolved(segs)[..|segs| - 1]));
  }

  lemma {:induction false} KeptMember(segs: seq<Option<string>>, x: string)
    requires x in Kept(segs)
    ensures Some(x) in segs
    decreases |segs|
  {
    if segs[0].None? || segs[0].value != x {
      KeptMember(segs[1..], x);
    }
  }

  lemma {:induction false} PresentMember(segs: seq<Option<string>>, x: Option<string>)
    requires x in Present(segs)
    ensures x in segs
    decreases |segs|
  {
    if segs[0] != x {
      PresentMember(segs[1..], x);
    }
  }

  /** No segment in the array is "..", nor contains a slash. */
  predicate Clean(kept: seq<string>) {
    forall x :: x in kept ==> x != ".." && forall k :: 0 <= k < |x| ==> x[k] != '/'
  }

  /** Every entry `Placed` puts in the array is slash-free (it came out of `explode('/', …)`). */
  lemma {:induction false} PlacedSlashFree(input: string, contextPath: Option<string>, x: string)
    requires Placed(input, contextPath).Ok?
    requires Some(x) in Placed(input, contextPath).value
    ensures forall k :: 0 <= k < |x| ==> x[k] != '/'
  {
    var segs := Marked(Segments(StripIndexHtml(CollapseSlashes(input))));
    if segs[0] != Some("") && Some(x) !in ContextSegments(contextPath.value) {
      assert Some(x) in Present(segs);
      PresentMember(segs, Some(x));
    }
  }

  /** The rejoined path has exactly the segments of the kept array, up to empty ones. */
  lemma {:induction false} RejoinSegments(kept: seq<string>, x: string)
    requires Clean(kept)
    requires x in Segments(Rejoin(kept))
    ensures x == "" || x in kept
  {
    var joined := Join(kept, '/');
    var p := CollapseSlashes(joined);
    if !Truthy(p) {
      assert Segments("/") == ["", ""] by { SplitCons('/', ""); }
    } else {
      CollapseSegments(joined);
      assert |kept| > 0;
      SplitJoin(kept, '/');
      var j :| 0 <= j < |Segments(p)| && Segments(p)[j] == x;
      if j > 0 {
        assert x == "" || x in Segments(joined)[1..];
      }
    }
  }

  /**
   * After `setPath`, the path is not empty, holds no "//" and has no ".." segment;
   * an absolute input leaves no "." segment either.
   */
  lemma {:induction false} NormalizedShape(input: string, contextPath: Option<string>)
    requires NormalizePath(input, contextPath).Ok?
    ensures var p := NormalizePath(input, contextPath).value;
      && |p| > 0
      && NoDoubleSlash(p)
      && (forall x :: x in Segments(p) ==> x != "..")
      && (!IsRelative(input) ==> forall x :: x in Segments(p) ==> x != ".")
  {
    var segs := Placed(input, contextPath).value;
    var kept := Kept(Resolved(segs));
    forall x | x in kept
      ensures x != ".." && forall k :: 0 <= k < |x| ==> x[k] != '/'
      ensures !IsRelative(input) ==> x != "."
    {
      KeptMember(Resolved(segs), x);
      var j :| 0 <= j < |segs| && Resolved(segs)[j] == Some(x);
      assert segs[j] == Some(x);
      PlacedSlashFree(input, contextPath, x);
    }
    var p := NormalizePath(input, contextPath).value;
    forall x | x in Segments(p)
      ensures x != ".." && (!IsRelative(input) ==> x != ".")
    {
      RejoinSegments(kept, x);
    }
  }

  /**
   * A path that is already normal — absolute, no "//", no "." or ".." segment, not
   * ending in "/index.html" — is left unchanged by `setPath`.
   */
  predicate IsNormal(p: string) {
    && |p| > 0 && p[0] == '/'
    && NoDoubleSlash(p)
    && (forall x :: x in Segments(p) ==> x != "." && x != "..")
    && !EndsWith(p, "/index.html")
  }

  lemma {:induction false} KeptAll(segs: seq<string>)
    ensures Kept(seq(|segs|, j requires 0 <= j < |segs| => Some(segs[j]))) == segs
    decreases |segs|
  {
    if |segs| > 0 {
      var m := seq(|segs|, j requires 0 <= j < |segs| => Some(segs[j]));
      var m' := seq(|segs| - 1, j requires 0 <= j < |segs| - 1 => Some(segs[1..][j]));
      assert m[1..] == m';
      KeptAll(segs[1..]);
    }
  }

  lemma {:induction false} NormalIsFixed(p: string, contextPath: Option<string>)
    requires IsNormal(p)
    ensures NormalizePath(p, contextPath) == Ok(p)
  {
    CollapseNoDoubleSlash(p);
    var segs := Segments(p);
    assert p == ['/'] + p[1..];
    SplitCons('/', p[1..]);
    forall j | 0 <= j < |segs|
      ensures segs[j] != "." && segs[j] != ".."
    {
      assert segs[j] in Segments(p);
    }
    var m := Marked(segs);
    assert m == seq(|segs|, j requires 0 <= j < |segs| => Some(segs[j]));
    assert Resolved(m) == m;
    KeptAll(segs);
    JoinSplit(p, '/');
  }
}
