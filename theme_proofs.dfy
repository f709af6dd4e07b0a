/** Properties of the theme asset registry (src/Themes/ThemeProvider.php). */
module ThemeProofs {
  import opened Wrappers
  import opened Strings
  import opened PhpArrays
  import opened Themes

  /**
   * `addAsset` edits one key only: a falsy source or blank Asset removes it, anything else
   * stores the entry under it, in the key's old place if it had one and at the end if not.
   */
  lemma {:induction false} AssetAddedFacts(a: Assets, kind: string, source: Source, name: string, integrity: Option<string>,
                        async: bool, media: string)
    requires DistinctKeys(a)
    ensures var r := AssetAdded(a, kind, source, name, integrity, async, media);
      var id := Id(kind, name);
      DistinctKeys(r)
      && Lookup(r, id) == (if Removes(source) then None else Some(StoredEntry(kind, source, integrity, async, media)))
      && (forall j :: j != id ==> Lookup(r, j) == Lookup(a, j))
      && (Removes(source) ==> forall p :: p in r ==> p in a)
      && (!Removes(source) && HasKey(a, id) ==> |r| == |a|)
      && (!Removes(source) && HasKey(a, id) ==>
            forall i :: 0 <= i < |a| ==> r[i] == if a[i].0 == id then (id, StoredEntry(kind, source, integrity, async, media)) else a[i])
      && (!Removes(source) && !HasKey(a, id) ==> r == a + [(id, StoredEntry(kind, source, integrity, async, media))])
  {
    var id := Id(kind, name);
    var e := StoredEntry(kind, source, integrity, async, media);
    if Removes(source) {
      UnsetFacts(a, id);
      LookupFinds(Unset(a, id), id);
    } else {
      PutInPlace(a, id, e);
      forall j ensures Lookup(Put(a, id, e), j) == if j == id then Some(e) else Lookup(a, j) {
        PutLookup(a, id, e, j);
      }
    }
  }

  /** `filter` works entry by entry: what it keeps stays in its order. */
  lemma {:induction false} FilterAppend(a: Assets, b: Assets, kind: string, media: Option<string>, async: Option<bool>)
    ensures Filter(a + b, kind, media, async) == Filter(a, kind, media, async) + Filter(b, kind, media, async)
    decreases |a|
  {
    if |a| == 0 {
      assert a + b == b;
    } else {
      var h := FilterHead(a, b, kind, media, async);
      FilterAppend(a[1..], b, kind, media, async);
    }
  }

  /** What `filter` keeps of the first entry, in front of what it keeps of the rest. */
  lemma FilterHead(a: Assets, b: Assets, kind: string, media: Option<string>, async: Option<bool>) returns (h: Assets)
    requires |a| > 0
    ensures Filter(a, kind, media, async) == h + Filter(a[1..], kind, media, async)
    ensures Filter(a + b, kind, media, async) == h + Filter(a[1..] + b, kind, media, async)
  {
    h := if Matches(a[0].1, kind, media, async) then [a[0]] else [];
    assert (a + b)[1..] == a[1..] + b;
  }

  /** `filter` keeps exactly the entries that match, with their keys. */
  lemma {:induction false} FilterMembers(a: Assets, kind: string, media: Option<string>, async: Option<bool>)
    ensures forall p :: p in Filter(a, kind, media, async) <==> p in a && Matches(p.1, kind, media, async)
    decreases |a|
  {
    if |a| > 0 {
      FilterMembers(a[1..], kind, media, async);
      assert forall p :: p in a <==> p == a[0] || p in a[1..];
    }
  }

  /** Without `async`, the JS entries of a media are its blocking ones and its async ones, never both. */
  lemma {:induction false} JsSplit(a: Assets, m: string)
    ensures forall p :: (p in Filter(a, "js", Some(m), None)
      <==> p in Filter(a, "js", Some(m), Some(false)) || p in Filter(a, "js", Some(m), Some(true)))
    ensures forall p :: !(p in Filter(a, "js", Some(m), Some(false)) && p in Filter(a, "js", Some(m), Some(true)))
  {
    FilterMembers(a, "js", Some(m), None);
    FilterMembers(a, "js", Some(m), Some(false));
    FilterMembers(a, "js", Some(m), Some(true));
  }

  /** No media of `$cssMedias` begins another: their first two characters differ. */
  lemma {:induction false} CssMediasApart()
    ensures forall i :: 0 <= i < |CssMedias| ==> |CssMedias[i]| >= 2
    ensures forall i, j :: 0 <= i < j < |CssMedias| ==> CssMedias[i][..2] != CssMedias[j][..2]
  {
    var heads := ["li", "bl", "th", "al", "sc", "pr", "sp", "si", "pa"];
    assert forall i :: 0 <= i < |CssMedias| ==> CssMedias[i][..2] == heads[i];
  }

  /** A string that begins with `x` shares its first two characters. */
  lemma {:induction false} PrefixHead(m: string, x: string)
    requires |x| >= 2
    ensures StartsWith(m, x) ==> |m| >= 2 && m[..2] == x[..2]
  {
    if StartsWith(m, x) {
      assert m[..|x|][..2] == m[..2];
    }
  }

  /** No CSS entry lands in two sections of `getHeadHtml`. */
  lemma {:induction false} CssSectionsDisjoint(a: Assets, i: nat, j: nat)
    requires i < j < |CssMedias|
    ensures forall p :: !(p in Filter(a, "css", Some(CssMedias[i]), None) && p in Filter(a, "css", Some(CssMedias[j]), None))
  {
    CssMediasApart();
    FilterMembers(a, "css", Some(CssMedias[i]), None);
    FilterMembers(a, "css", Some(CssMedias[j]), None);
    forall p | p in Filter(a, "css", Some(CssMedias[i]), None)
      ensures p !in Filter(a, "css", Some(CssMedias[j]), None)
    {
      PrefixHead(p.1.media, CssMedias[i]);
      PrefixHead(p.1.media, CssMedias[j]);
    }
  }

  /** A CSS entry whose media starts with none of `$cssMedias` is never emitted. */
  lemma {:induction false} UnlistedMediaHidden(a: Assets, p: (string, Entry))
    requires forall i :: 0 <= i < |CssMedias| ==> !StartsWith(p.1.media, CssMedias[i])
    ensures forall i :: 0 <= i < |CssMedias| ==> p !in Filter(a, "css", Some(CssMedias[i]), None)
  {
    forall i | 0 <= i < |CssMedias| ensures p !in Filter(a, "css", Some(CssMedias[i]), None) {
      FilterMembers(a, "css", Some(CssMedias[i]), None);
    }
  }

  /** A media query that is no media name, such as `handheld`, is one of those. */
  lemma {:induction false} HandheldHidden(a: Assets, p: (string, Entry))
    requires p.1.media == "handheld"
    ensures forall i :: 0 <= i < |CssMedias| ==> p !in Filter(a, "css", Some(CssMedias[i]), None)
  {
    var m := p.1.media;
    forall i | 0 <= i < |CssMedias| ensures !StartsWith(m, CssMedias[i]) {
      assert m[0] == 'h';
      assert CssMedias[i][0] != 'h';
    }
    UnlistedMediaHidden(a, p);
  }

  /** The entries of all bundles, one bundle after another. */
  function Flatten(gs: seq<Assets>): Assets
    decreases |gs|
  {
    if |gs| == 0 then [] else Flatten(gs[..|gs| - 1]) + gs[|gs| - 1]
  }

  /** The bundles of `bundle_assets` hold every entry once, in the order given. */
  lemma {:induction false} GroupsFlatten(a: Assets)
    ensures Flatten(Groups(a)) == a
    decreases |a|
  {
    if |a| > 0 {
      var gs: seq<Assets> := Groups(a[..|a| - 1]);
      GroupsFlatten(a[..|a| - 1]);
      var p := a[|a| - 1];
      assert a == a[..|a| - 1] + [p];
      if |gs| > 0 && IsAsset(p.1) && |gs[|gs| - 1]| > 0 && IsAsset(gs[|gs| - 1][|gs[|gs| - 1]| - 1].1) {
        var hs := gs[..|gs| - 1] + [gs[|gs| - 1] + [p]];
        assert hs[..|hs| - 1] == gs[..|gs| - 1];
        assert Flatten(gs) == Flatten(gs[..|gs| - 1]) + gs[|gs| - 1];
      } else {
        var hs: seq<Assets> := gs + [[p]];
        assert hs[..|hs| - 1] == gs;
      }
    }
  }

  /** A bundle of several entries holds only Assets. */
  predicate AssetRuns(gs: seq<Assets>) {
    forall i, j :: 0 <= i < |gs| && 0 <= j < |gs[i]| && |gs[i]| > 1 ==> IsAsset(gs[i][j].1)
  }

  /** Neighbouring bundles never end and begin with an Asset. */
  predicate Maximal(gs: seq<Assets>)
    requires NonEmptyGroups(gs)
  {
    forall i :: 0 <= i < |gs| - 1 ==> !(IsAsset(gs[i][|gs[i]| - 1].1) && IsAsset(gs[i + 1][0].1))
  }

  /** Whether the entry `p` joins the last bundle of `gs`: both are Assets. */
  predicate Joins(gs: seq<Assets>, p: (string, Entry)) {
    |gs| > 0 && IsAsset(p.1) && |gs[|gs| - 1]| > 0 && IsAsset(gs[|gs| - 1][|gs[|gs| - 1]| - 1].1)
  }

  lemma {:induction false} JoinKeepsRuns(gs: seq<Assets>, p: (string, Entry))
    requires AssetRuns(gs) && Joins(gs, p)
    ensures AssetRuns(gs[..|gs| - 1] + [gs[|gs| - 1] + [p]])
  {
    var last := gs[|gs| - 1];
    var hs: seq<Assets> := gs[..|gs| - 1] + [last + [p]];
    forall i, j | 0 <= i < |hs| && 0 <= j < |hs[i]| && |hs[i]| > 1 ensures IsAsset(hs[i][j].1) {
      if i < |gs| - 1 {
        assert hs[i] == gs[i];
      } else if j == |last| {
        assert hs[i][j] == p;
      } else if |last| == 1 {
        assert hs[i][j] == last[|last| - 1];
      } else {
        assert hs[i][j] == gs[|gs| - 1][j];
      }
    }
  }

  lemma {:induction false} StartKeepsRuns(gs: seq<Assets>, p: (string, Entry))
    requires AssetRuns(gs)
    ensures AssetRuns(gs + [[p]])
  {
    var hs: seq<Assets> := gs + [[p]];
    forall i, j | 0 <= i < |hs| && 0 <= j < |hs[i]| && |hs[i]| > 1 ensures IsAsset(hs[i][j].1) {
      assert hs[i] == gs[i];
    }
  }

  lemma {:induction false} GroupsOfAssets(a: Assets)
    ensures AssetRuns(Groups(a))
    decreases |a|
  {
    if |a| > 0 {
      var gs: seq<Assets> := Groups(a[..|a| - 1]);
      GroupsOfAssets(a[..|a| - 1]);
      var p := a[|a| - 1];
      if Joins(gs, p) {
        assert Groups(a) == gs[..|gs| - 1] + [gs[|gs| - 1] + [p]];
        JoinKeepsRuns(gs, p);
      } else {
        assert Groups(a) == gs + [[p]];
        StartKeepsRuns(gs, p);
      }
    }
  }

  lemma {:induction false} JoinKeepsMaximal(gs: seq<Assets>, p: (string, Entry))
    requires NonEmptyGroups(gs) && Maximal(gs) && Joins(gs, p)
    ensures var hs := gs[..|gs| - 1] + [gs[|gs| - 1] + [p]]; NonEmptyGroups(hs) && Maximal(hs)
  {
    var hs := gs[..|gs| - 1] + [gs[|gs| - 1] + [p]];
    assert forall i :: 0 <= i < |hs| ==> |hs[i]| > 0 by {
      forall i | 0 <= i < |hs| ensures |hs[i]| > 0 {
        if i < |gs| - 1 {
          assert hs[i] == gs[i];
        }
      }
    }
    forall i | 0 <= i < |hs| - 1 ensures !(IsAsset(hs[i][|hs[i]| - 1].1) && IsAsset(hs[i + 1][0].1)) {
      assert hs[i] == gs[i];
      if i + 1 < |gs| - 1 {
        assert hs[i + 1] == gs[i + 1];
      } else {
        assert hs[i + 1][0] == gs[i + 1][0];
      }
    }
  }

  lemma {:induction false} StartKeepsMaximal(gs: seq<Assets>, p: (string, Entry))
    requires NonEmptyGroups(gs) && Maximal(gs) && !Joins(gs, p)
    ensures NonEmptyGroups(gs + [[p]]) && Maximal(gs + [[p]])
  {
    var hs: seq<Assets> := gs + [[p]];
    assert forall i :: 0 <= i < |hs| ==> |hs[i]| > 0 by {
      forall i | 0 <= i < |hs| ensures |hs[i]| > 0 {
        if i < |gs| {
          assert hs[i] == gs[i];
        }
      }
    }
    forall i | 0 <= i < |hs| - 1 ensures !(IsAsset(hs[i][|hs[i]| - 1].1) && IsAsset(hs[i + 1][0].1)) {
      assert hs[i] == gs[i];
      if i + 1 < |gs| {
        assert hs[i + 1] == gs[i + 1];
      }
    }
  }

  /** The runs are maximal: a bundle ends where the Assets do. */
  lemma {:induction false} GroupsMaximal(a: Assets)
    ensures NonEmptyGroups(Groups(a)) && Maximal(Groups(a))
    decreases |a|
  {
    if |a| > 0 {
      var gs: seq<Assets> := Groups(a[..|a| - 1]);
      GroupsMaximal(a[..|a| - 1]);
      var p := a[|a| - 1];
      if Joins(gs, p) {
        assert Groups(a) == gs[..|gs| - 1] + [gs[|gs| - 1] + [p]];
        JoinKeepsMaximal(gs, p);
      } else {
        assert Groups(a) == gs + [[p]];
        StartKeepsMaximal(gs, p);
      }
    }
  }

  /** With no two Assets in a row there is nothing to bundle: `bundle_assets` returns its input. */
  lemma {:induction false} SinglesUnbundled(gs: seq<Assets>, ext: string, f: (string, string) -> ThemeAsset)
    requires forall i :: 0 <= i < |gs| ==> |gs[i]| == 1
    ensures Bundled(gs, ext, f) == Flatten(gs)
    decreases |gs|
  {
    if |gs| > 0 {
      SinglesUnbundled(gs[..|gs| - 1], ext, f);
    }
  }

  /** Entries that are no Assets (URL strings) pass through the bundling step unchanged. */
  lemma {:induction false} NoAssetsNoBundling(es: Assets, bundle: bool, ext: string, host: Host)
    requires forall i :: 0 <= i < |es| ==> !IsAsset(es[i].1)
    ensures Prepared(es, bundle, ext, host) == es
  {
    var gs: seq<Assets> := Groups(es);
    GroupsNonEmpty(es);
    GroupsOfAssets(es);
    GroupsFlatten(es);
    forall i | 0 <= i < |gs| ensures |gs[i]| == 1 {
      FlattenHas(gs, i, 0);
      var k :| 0 <= k < |es| && es[k] == gs[i][0];
      assert !IsAsset(gs[i][0].1);
    }
    SinglesUnbundled(gs, ext, host.fromString);
  }

  /** Every entry of a bundle is an entry of the flattened list. */
  lemma {:induction false} FlattenHas(gs: seq<Assets>, i: nat, j: nat)
    requires i < |gs| && j < |gs[i]|
    ensures exists k :: 0 <= k < |Flatten(gs)| && Flatten(gs)[k] == gs[i][j]
    decreases |gs|
  {
    if i < |gs| - 1 {
      FlattenHas(gs[..|gs| - 1], i, j);
      var k :| 0 <= k < |Flatten(gs[..|gs| - 1])| && Flatten(gs[..|gs| - 1])[k] == gs[i][j];
      assert Flatten(gs)[k] == gs[i][j];
    } else {
      assert Flatten(gs)[|Flatten(gs[..|gs| - 1])| + j] == gs[i][j];
    }
  }

  /** Bundle number `i` becomes entry number `i`. */
  lemma {:induction false} BundledAt(gs: seq<Assets>, ext: string, f: (string, string) -> ThemeAsset, i: nat)
    requires NonEmptyGroups(gs) && i < |gs|
    ensures Bundled(gs, ext, f)[i] == BundleEntry(gs[i], i, ext, f)
    decreases |gs|
  {
    if i < |gs| - 1 {
      BundledAt(gs[..|gs| - 1], ext, f, i);
    }
  }

  /**
   * A bundle of several Assets becomes one Asset under `bundle <i>: <media>.<ext>`, with no
   * crossorigin or integrity, and the type, async flag and media of its last entry.
   */
  lemma {:induction false} BundleOfSeveral(gs: seq<Assets>, ext: string, f: (string, string) -> ThemeAsset, i: nat)
    requires NonEmptyGroups(gs) && i < |gs| && |gs[i]| > 1
    ensures var e := Bundled(gs, ext, f)[i];
      var last := gs[i][|gs[i]| - 1].1;
      e.0 == "bundle " + NatToString(i) + ": " + last.media + "." + ext
      && IsAsset(e.1) && e.1.crossorigin.None? && e.1.integrity.None?
      && e.1.kind == last.kind && e.1.async == last.async && e.1.media == last.media
  {
    BundledAt(gs, ext, f, i);
  }

  /** The running inlined size only grows, and stays within a budget it started within. */
  lemma {:induction false} CssBudget(es: Assets, start: int, max: int)
    ensures var r := CssTags(es, start, max);
      start <= r.inlined && (start <= max ==> r.inlined <= max)
    decreases |es|
  {
    if |es| > 0 {
      CssBudget(es[..|es| - 1], start, max);
    }
  }

  /** Entry `i` is inlined exactly when it is an Asset, not a library, and fits what is left. */
  lemma {:induction false} CssTagAt(es: Assets, start: int, max: int, i: nat)
    requires i < |es|
    ensures CssTags(es, start, max).tags[i]
      == if Inlines(es[i].1, CssTags(es[..i], start, max).inlined, max) then StyleTag(es[i].1) else LinkTag(es[i].1)
    decreases |es|
  {
    if i < |es| - 1 {
      CssTagAt(es[..|es| - 1], start, max, i);
      assert es[..|es| - 1][..i] == es[..i];
    } else {
      assert es[..|es| - 1] == es[..i];
    }
  }

  /** A library, or an entry given by URL, is always linked, never inlined. */
  lemma {:induction false} LibraryLinked(es: Assets, start: int, max: int, i: nat)
    requires i < |es| && (es[i].1.media == "library" || !IsAsset(es[i].1))
    ensures CssTags(es, start, max).tags[i] == LinkTag(es[i].1)
  {
    CssTagAt(es, start, max, i);
  }

  /** The sections share one budget: what they inline together stays within it. */
  lemma {:induction false} CssSectionsBudget(a: Assets, ms: seq<string>, start: int, s: Settings, host: Host)
    ensures var r := CssSections(a, ms, start, s, host);
      start <= r.inlined && (start <= s.maxInlined ==> r.inlined <= s.maxInlined)
    decreases |ms|
  {
    if |ms| > 0 {
      var p := CssSections(a, ms[..|ms| - 1], start, s, host);
      CssSectionsBudget(a, ms[..|ms| - 1], start, s, host);
      var es := Prepared(Filter(a, "css", Some(ms[|ms| - 1]), None), s.cssBundle, "css", host);
      CssBudget(es, p.inlined, s.maxInlined);
    }
  }

  /**
   * `getHeadHtml` starts its budget from nothing, whatever an earlier call inlined, and so never
   * inlines more than `theme.css.max_inlined` when that is not negative.
   */
  lemma {:induction false} HeadBudget(a: Assets, s: Settings, host: Host)
    requires s.maxInlined >= 0
    ensures 0 <= CssSections(a, CssMedias, 0, s, host).inlined <= s.maxInlined
  {
    CssSectionsBudget(a, CssMedias, 0, s, host);
  }

  /** Without the loader, section `2i` holds the blocking scripts of media `i`, and `2i+1` its async ones. */
  lemma {:induction false} JsSectionsAt(a: Assets, ms: seq<string>, s: Settings, host: Host, i: nat)
    requires i < |ms|
    ensures JsSections(a, ms, s, host)[2 * i] == JsHtmlOf(Filter(a, "js", Some(ms[i]), Some(false)), s, host)
    ensures JsSections(a, ms, s, host)[2 * i + 1] == JsHtmlOf(Filter(a, "js", Some(ms[i]), Some(true)), s, host)
    decreases |ms|
  {
    var init := ms[..|ms| - 1];
    var m := ms[|ms| - 1];
    var p := JsSections(a, init, s, host);
    var last := [JsHtmlOf(Filter(a, "js", Some(m), Some(false)), s, host), JsHtmlOf(Filter(a, "js", Some(m), Some(true)), s, host)];
    assert JsSections(a, ms, s, host) == p + last;
    if i < |ms| - 1 {
      JsSectionsAt(a, init, s, host, i);
      assert init[i] == ms[i];
      assert (p + last)[2 * i] == p[2 * i] && (p + last)[2 * i + 1] == p[2 * i + 1];
    } else {
      assert |p| == 2 * i;
    }
  }

  /**
   * The CSS section of the `i`-th media is that media's entries as tags, joined by newlines,
   * with the inlining budget the sections before it left.
   */
  lemma {:induction false} CssSectionsAt(a: Assets, ms: seq<string>, start: int, s: Settings, host: Host, i: nat)
    requires i < |ms|
    ensures CssSections(a, ms, start, s, host).tags[i]
      == Join(CssTags(CssEntries(a, ms[i], s, host), CssSections(a, ms[..i], start, s, host).inlined, s.maxInlined).tags, '\n')
    decreases |ms|
  {
    var init := ms[..|ms| - 1];
    var p := CssSections(a, init, start, s, host);
    if i < |ms| - 1 {
      CssSectionsAt(a, init, start, s, host, i);
      assert init[i] == ms[i] && init[..i] == ms[..i];
      assert CssSections(a, ms, start, s, host).tags[i] == p.tags[i];
    } else {
      assert init == ms[..i];
    }
  }

  /** `array_filter` of two lists one after the other is the two filtered lists, in order. */
  lemma {:induction false} TruthyOnlyAppend(a: seq<string>, b: seq<string>)
    ensures TruthyOnly(a + b) == TruthyOnly(a) + TruthyOnly(b)
    decreases |b|
  {
    if |b| > 0 {
      var b' := b[..|b| - 1];
      TruthyOnlyAppend(a, b');
      assert (a + b)[..|a + b| - 1] == a + b';
    } else {
      assert a + b == a;
    }
  }

  /** Resolving swaps a URL source for the Asset the repository has for it, and changes nothing else. */
  lemma {:induction false} ResolveOnlySources(a: Assets, resolve: string -> Option<ThemeAsset>)
    ensures var r := Resolve(a, resolve);
      forall i :: 0 <= i < |a| ==>
        r[i].1.(source := a[i].1.source) == a[i].1
        && (r[i].1.source != a[i].1.source ==>
              a[i].1.source.Text? && r[i].1.source.Resolved? && resolve(a[i].1.source.s) == Some(r[i].1.source.asset))
    decreases |a|
  {
    if |a| > 0 {
      ResolveOnlySources(a[..|a| - 1], resolve);
    }
  }

  /** Names made of allowed characters are kept as they are. */
  lemma {:induction false} SanitizeKeeps(name: string)
    requires forall i :: 0 <= i < |name| ==> NameChar(name[i])
    ensures Sanitize(name) == name
    decreases |name|
  {
    if |name| > 0 {
      SanitizeKeeps(name[..|name| - 1]);
      assert name == name[..|name| - 1] + [name[|name| - 1]];
    }
  }

  /** Sanitising twice is sanitising once. */
  lemma {:induction false} SanitizeIdempotent(name: string)
    ensures Sanitize(Sanitize(name)) == Sanitize(name)
  {
    SanitizeKeeps(Sanitize(name));
  }

  /** Sanitising works character by character. */
  lemma {:induction false} SanitizeAppend(x: string, y: string)
    ensures Sanitize(x + y) == Sanitize(x) + Sanitize(y)
    decreases |y|
  {
    if |y| == 0 {
      assert x + y == x;
    } else {
      var y' := y[..|y| - 1];
      SanitizeAppend(x, y');
      assert (x + y)[..|x + y| - 1] == x + y';
    }
  }

  /** The character class is case-sensitive: an upper-case letter is dropped, not lowered. */
  lemma {:induction false} UpperCaseDropped(a: string, c: char, b: string)
    requires 'A' <= c <= 'Z'
    ensures Sanitize(a + [c] + b) == Sanitize(a + b)
  {
    SanitizeAppend(a + [c], b);
    SanitizeAppend(a, [c]);
    SanitizeAppend(a, b);
    assert Sanitize([c]) == [] by { assert [c][..0] == []; }
  }



  /** With every theme directory for `name` already loaded, registering it changes nothing. */
  lemma {:induction false} RegisteredAgainUnchanged(st: Registry, dirs: seq<string>, name: string,
                                                    isFile: string -> bool, read: string -> ThemeConfig)
    requires forall i :: 0 <= i < |dirs| && isFile(dirs[i] + "/" + name + "/theme.yaml") ==> dirs[i] + "/" + name in st.loaded
    ensures ThemesRegistered(st, dirs, name, isFile, read) == st
    decreases |dirs|
  {
    if |dirs| > 0 {
      var init := dirs[..|dirs| - 1];
      forall i | 0 <= i < |init| && isFile(init[i] + "/" + name + "/theme.yaml")
        ensures init[i] + "/" + name in st.loaded
      {
        assert init[i] == dirs[i];
      }
      RegisteredAgainUnchanged(st, init, name, isFile, read);
    }
  }

  /** `registerTheme` is idempotent: registering a theme a second time changes nothing. */
  lemma RegisterThemeIdempotent(st: Registry, dirs: seq<string>, name: string, isFile: string -> bool,
                                read: string -> ThemeConfig)
    ensures var once := ThemesRegistered(st, dirs, name, isFile, read);
      ThemesRegistered(once, dirs, name, isFile, read) == once
  {
    RegisteredFinds(st, dirs, name, isFile, read);
    RegisteredAgainUnchanged(ThemesRegistered(st, dirs, name, isFile, read), dirs, name, isFile, read);
  }

  /** `basename` ignores a trailing slash, as in `registerTheme` of a name that sanitises to "". */
  lemma {:induction false} BasenameTrailingSlash(dir: string)
    ensures Basename(dir + "/") == Basename(dir)
  {
    assert (dir + "/")[..|dir|] == dir;
    assert StripSlashes(dir + "/") == StripSlashes(dir);
  }

  /** The base name of `<directory>/<name>` is the (sanitised, so slash-free) name. */
  lemma {:induction false} BasenameOfChild(dir: string, name: string)
    requires name != "" && forall k :: 0 <= k < |name| ==> name[k] != '/'
    ensures Basename(dir + "/" + name) == name
  {
    var x := dir + "/" + name;
    assert StripSlashes(x) == x by {
      assert x[|x| - 1] == name[|name| - 1];
    }
    LastIndexOfAppend(dir + "/", name, '/');
    assert x == (dir + "/") + name;
    assert LastIndexOf(dir + "/", '/') == Some(|dir|);
    assert x[|dir| + 1..] == name;
  }

  /**
   * `setPackage` keeps an existing package only when its priority is strictly greater: the
   * stored priority is the larger one and a tie goes to the newcomer. No other name changes.
   */
  lemma {:induction false} PackageSetFacts(m: map<string, Package>, name: string, p: Package)
    ensures var r := PackageSet(m, name, p);
      r.Keys == m.Keys + {name}
      && (forall n :: n in m && n != name ==> r[n] == m[n])
      && (name in m ==> r[name].priority == if m[name].priority > p.priority then m[name].priority else p.priority)
      && (r[name] == p || (name in m && m[name].priority > p.priority && r[name] == m[name]))
  {
  }

  /** Whatever the order two packages of one name arrive in, the higher priority is kept. */
  lemma {:induction false} PackagePriorityOrderFree(m: map<string, Package>, name: string, p: Package, q: Package)
    ensures PackageSet(PackageSet(m, name, p), name, q)[name].priority
      == PackageSet(PackageSet(m, name, q), name, p)[name].priority
  {
  }

  /** `jsLoader` keeps the order of its input: it splits a concatenation piece by piece. */
  lemma {:induction false} LoaderAppend(x: Assets, y: Assets)
    ensures Outside(x + y) == Outside(x) + Outside(y)
    ensures LoaderUrls(x + y, false) == LoaderUrls(x, false) + LoaderUrls(y, false)
    ensures LoaderUrls(x + y, true) == LoaderUrls(x, true) + LoaderUrls(y, true)
    decreases |y|
  {
    if |y| == 0 {
      assert x + y == x;
    } else {
      var y' := y[..|y| - 1];
      assert (x + y)[..|x + y| - 1] == x + y';
      assert (x + y)[|x + y| - 1] == y[|y| - 1];
      LoaderAppend(x, y');
    }
  }

  /** `jsLoader` partitions its entries: each is kept aside or has its URL in one of the two lists. */
  lemma {:induction false} LoaderCount(es: Assets)
    ensures |Outside(es)| + |LoaderUrls(es, false)| + |LoaderUrls(es, true)| == |es|
    decreases |es|
  {
    if |es| > 0 {
      LoaderCount(es[..|es| - 1]);
    }
  }

  /** Only non-Assets of the input are kept aside, and all of them are. */
  lemma {:induction false} OutsideMembers(es: Assets)
    ensures forall p :: p in Outside(es) ==> p in es && !IsAsset(p.1)
    ensures forall i :: 0 <= i < |es| && !IsAsset(es[i].1) ==> es[i] in Outside(es)
    decreases |es|
  {
    if |es| > 0 {
      var init := es[..|es| - 1];
      var last := es[|es| - 1];
      OutsideMembers(init);
      assert Outside(es) == Outside(init) + (if IsAsset(last.1) then [] else [last]);
      forall p | p in Outside(es) ensures p in es && !IsAsset(p.1) {
        if p in Outside(init) {
          var j :| 0 <= j < |init| && init[j] == p;
          assert es[j] == p;
        }
      }
      forall i | 0 <= i < |es| && !IsAsset(es[i].1) ensures es[i] in Outside(es) {
        if i < |init| {
          assert es[i] == init[i];
        }
      }
    }
  }

  /** The URL of every Asset entry is in the list of its `async` flag. */
  lemma {:induction false} LoaderListsAssets(es: Assets)
    ensures forall i :: 0 <= i < |es| && IsAsset(es[i].1) ==>
      es[i].1.source.asset.publicUrl in LoaderUrls(es, es[i].1.async)
    decreases |es|
  {
    if |es| > 0 {
      var init := es[..|es| - 1];
      LoaderListsAssets(init);
      forall i | 0 <= i < |es| && IsAsset(es[i].1)
        ensures es[i].1.source.asset.publicUrl in LoaderUrls(es, es[i].1.async)
      {
        var a := es[i].1.async;
        if i < |init| {
          assert es[i] == init[i];
          assert LoaderUrls(init, a) <= LoaderUrls(es, a);
        }
      }
    }
  }
}
