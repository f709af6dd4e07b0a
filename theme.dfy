/**
 * The theme asset registry of `ThemeProvider` (src/Themes/ThemeProvider.php): the keyed,
 * insertion-ordered asset table that `addAsset` edits, `filter`, `bundle_assets`, the HTML
 * of CSS and JS entries with the CSS inlining budget, `getHeadHtml`, package priority and
 * theme registration.
 *
 * A PHP array with string keys is a list of key/entry pairs with distinct keys: writing an
 * existing key replaces its entry in place, writing a new key appends it. The asset
 * repository, `getFromString`, the loader script and the theme files are functions given
 * as parameters.
 */
module Themes {
  import opened Wrappers
  import opened Strings
  import opened PhpArrays

  /** What the asset repository hands back: URL, public URL, content and size. */
  datatype ThemeAsset = ThemeAsset(url: string, publicUrl: string, content: string, size: nat)

  /** An entry's source: null/false, a URL string, or an `AssetInterface` object. */
  datatype Source = Missing | Text(s: string) | Resolved(asset: ThemeAsset)

  /** PHP truthiness of a source: an object is always truthy. */
  predicate SourceTruthy(s: Source) {
    match s
    case Missing => false
    case Text(t) => Truthy(t)
    case Resolved(_) => true
  }

  predicate OptTruthy(o: Option<string>) {
    o.Some? && Truthy(o.value)
  }

  /** One entry of `$this->assets`; `None` stands for null. */
  datatype Entry = Entry(source: Source, crossorigin: Option<string>, integrity: Option<string>,
                         kind: string, async: bool, media: string)

  type Assets = PhpArray<Entry>

  /** The key `addAsset` files an entry under. */
  function Id(kind: string, name: string): string {
    kind + "|" + name
  }

  /** The entry `addAsset` stores: an Asset's integrity is dropped; crossorigin follows integrity. */
  function StoredEntry(kind: string, source: Source, integrity: Option<string>, async: bool, media: string): (e: Entry)
    ensures e.crossorigin == Some("anonymous") <==> OptTruthy(e.integrity)
    ensures e.crossorigin.None? <==> !OptTruthy(e.integrity)
    ensures source.Resolved? ==> e.integrity.None?
    ensures e.source == source && e.kind == kind && e.async == async && e.media == media
  {
    var integ := if source.Resolved? then None else integrity;
    Entry(source, if OptTruthy(integ) then Some("anonymous") else None, integ, kind, async, media)
  }

  /** Whether `addAsset` removes rather than stores: a falsy source or blank Asset content. */
  predicate Removes(source: Source) {
    !SourceTruthy(source) || (source.Resolved? && !Truthy(Trim(source.asset.content)))
  }

  /** The table after `addAsset($kind, $source, $name, $integrity, $async, $media)`. */
  function AssetAdded(a: Assets, kind: string, source: Source, name: string, integrity: Option<string>,
                      async: bool, media: string): Assets
  {
    if Removes(source) then Unset(a, Id(kind, name))
    else Put(a, Id(kind, name), StoredEntry(kind, source, integrity, async, media))
  }

  /** The callback of `filter`. */
  predicate Matches(e: Entry, kind: string, media: Option<string>, async: Option<bool>) {
    e.kind == kind && (async.None? || e.async == async.value) && (media.None? || StartsWith(e.media, media.value))
  }

  /** `filter($type, $media, $async)`: `array_filter` keeps the matching entries, keys and order. */
  function Filter(a: Assets, kind: string, media: Option<string>, async: Option<bool>): Assets
    decreases |a|
  {
    if |a| == 0 then []
    else (if Matches(a[0].1, kind, media, async) then [a[0]] else []) + Filter(a[1..], kind, media, async)
  }

  predicate IsAsset(e: Entry) {
    e.source.Resolved?
  }

  /**
   * The `$bundles` that `bundle_assets` builds: an Asset entry joins the last bundle when
   * that bundle's last entry is an Asset too; every other entry starts a new bundle.
   */
  function Groups(a: Assets): seq<Assets>
    decreases |a|
  {
    if |a| == 0 then []
    else
      var gs := Groups(a[..|a| - 1]);
      var p := a[|a| - 1];
      if |gs| > 0 && IsAsset(p.1) && |gs[|gs| - 1]| > 0 && IsAsset(gs[|gs| - 1][|gs[|gs| - 1]| - 1].1) then
        gs[..|gs| - 1] + [gs[|gs| - 1] + [p]]
      else gs + [[p]]
  }

  /** One more entry either joins the last bundle (both Assets) or starts a new one. */
  lemma {:induction false} GroupsSnoc(a: Assets, i: nat)
    requires i < |a|
    ensures var gs := Groups(a[..i]);
      Groups(a[..i + 1]) ==
        if |gs| > 0 && IsAsset(a[i].1) && |gs[|gs| - 1]| > 0 && IsAsset(gs[|gs| - 1][|gs[|gs| - 1]| - 1].1) then
          gs[..|gs| - 1] + [gs[|gs| - 1] + [a[i]]]
        else gs + [[a[i]]]
  {
    assert a[..i + 1][..i] == a[..i];
  }

  /** No bundle is empty. */
  lemma {:induction false} GroupsNonEmpty(a: Assets)
    ensures NonEmptyGroups(Groups(a))
    decreases |a|
  {
    if |a| > 0 {
      GroupsNonEmpty(a[..|a| - 1]);
    }
  }

  function AssetOf(e: Entry): ThemeAsset {
    if e.source.Resolved? then e.source.asset else ThemeAsset("", "", "", 0)
  }

  /** The pieces of a bundle's content: a comment with each URL, its content, `;` for JS. */
  function BundleParts(g: Assets, ext: string): seq<string>
    decreases |g|
  {
    if |g| == 0 then []
    else
      var a := AssetOf(g[|g| - 1].1);
      BundleParts(g[..|g| - 1], ext) + ["/*\n" + a.url + "\n*/", a.content] + (if ext == "js" then [";"] else [])
  }

  /** What the bundle's file is called: the last entry's media and the extension. */
  function BundleFile(g: Assets, ext: string): string
    requires |g| > 0
  {
    g[|g| - 1].1.media + "." + ext
  }

  /** The entry of bundle number `k`: a single entry as it is, a longer bundle as one new Asset. */
  function BundleEntry(g: Assets, k: nat, ext: string, fromString: (string, string) -> ThemeAsset): (string, Entry)
    requires |g| > 0
  {
    if |g| == 1 then g[0]
    else
      var last := g[|g| - 1].1;
      var file := BundleFile(g, ext);
      ("bundle " + NatToString(k) + ": " + file,
       Entry(Resolved(fromString(Join(BundleParts(g, ext), '\n'), "@/~themes/" + file)), None, None,
             last.kind, last.async, last.media))
  }

  predicate NonEmptyGroups(gs: seq<Assets>) {
    forall i :: 0 <= i < |gs| ==> |gs[i]| > 0
  }

  /** `$bundled` for the first `|gs|` bundles. */
  function Bundled(gs: seq<Assets>, ext: string, fromString: (string, string) -> ThemeAsset): (r: Assets)
    requires NonEmptyGroups(gs)
    ensures |r| == |gs|
    decreases |gs|
  {
    if |gs| == 0 then []
    else Bundled(gs[..|gs| - 1], ext, fromString) + [BundleEntry(gs[|gs| - 1], |gs| - 1, ext, fromString)]
  }

  /** The configuration `cssHtml`, `jsHtml` and `getHeadHtml` read. */
  datatype Settings = Settings(cssBundle: bool, jsBundle: bool, maxInlined: int, inlineLoader: bool)

  /**
   * The collaborators: the asset lookup by URL of `getHeadHtml`, `getFromString` (content and
   * URL to an Asset), and the content of the loader script given its two URL lists.
   */
  datatype Host = Host(
    resolve: string -> Option<ThemeAsset>,
    fromString: (string, string) -> ThemeAsset,
    loader: (seq<string>, seq<string>) -> string)

  /** The medias `$mediaAliases` maps to `all`. */
  const Aliases: set<string> := {"blocking", "library", "page", "site", "theme"}

  const CssMedias := ["library", "blocking", "theme", "all", "screen", "print", "speech", "site", "page"]

  const JsMedias := ["library", "theme", "all", "site", "page"]

  /** The `media` attribute of a CSS tag: none for `all` and for the medias aliased to it. */
  function MediaAttr(media: string): (r: string)
    ensures r == "" <==> media in Aliases || media == "all"
  {
    var m := if media in Aliases then "all" else media;
    if m == "all" then "" else " media=\"" + m + "\""
  }

  function Url(e: Entry): string {
    match e.source
    case Resolved(a) => a.publicUrl
    case Text(s) => s
    case Missing => ""
  }

  function OptAttr(name: string, v: Option<string>): string {
    if OptTruthy(v) then " " + name + "=\"" + v.value + "\"" else ""
  }

  function LinkTag(e: Entry): string {
    "<link rel=\"stylesheet\" href=\"" + Url(e) + "\" type=\"text/css\"" + MediaAttr(e.media)
      + OptAttr("crossorigin", e.crossorigin) + OptAttr("integrity", e.integrity) + " />"
  }

  function StyleTag(e: Entry): string {
    "<style type=\"text/css\"" + MediaAttr(e.media) + ">\n" + AssetOf(e).content + "\n</style>"
  }

  /** Whether `cssHtml` inlines an entry when `inlined` bytes are inlined already. */
  predicate Inlines(e: Entry, inlined: int, max: int) {
    IsAsset(e) && e.media != "library" && inlined + e.source.asset.size <= max
  }

  /** Tags and the running inlined size. */
  datatype Tags = Tags(tags: seq<string>, inlined: int)

  /** The `array_walk` of `cssHtml` over entries, from the running size `start`. */
  function CssTags(es: Assets, start: int, max: int): (r: Tags)
    ensures |r.tags| == |es|
    decreases |es|
  {
    if |es| == 0 then Tags([], start)
    else
      var p := CssTags(es[..|es| - 1], start, max);
      var e := es[|es| - 1].1;
      if Inlines(e, p.inlined, max) then Tags(p.tags + [StyleTag(e)], p.inlined + e.source.asset.size)
      else Tags(p.tags + [LinkTag(e)], p.inlined)
  }

  /** One more entry: `CssTags` unfolded once at a prefix. */
  lemma CssTagsStep(es: Assets, i: nat, start: int, max: int)
    requires i < |es|
    ensures var p := CssTags(es[..i], start, max);
      var e := es[i].1;
      CssTags(es[..i + 1], start, max)
        == if Inlines(e, p.inlined, max) then Tags(p.tags + [StyleTag(e)], p.inlined + e.source.asset.size)
           else Tags(p.tags + [LinkTag(e)], p.inlined)
  {
    assert es[..i + 1][..i] == es[..i];
  }

  function ScriptTag(e: Entry): string {
    "<script src=\"" + Url(e) + "\"" + (if e.async then " async=\"true\"" else "")
      + OptAttr("crossorigin", e.crossorigin) + OptAttr("integrity", e.integrity) + "></script>"
  }

  /** One `<script>` tag per entry, in the entries' order. */
  function ScriptTags(es: Assets): (r: seq<string>)
    ensures |r| == |es|
    ensures forall i :: 0 <= i < |es| ==> r[i] == ScriptTag(es[i].1)
    decreases |es|
  {
    if |es| == 0 then []
    else
      var init := es[..|es| - 1];
      assert forall i :: 0 <= i < |init| ==> init[i] == es[i];
      ScriptTags(init) + [ScriptTag(es[|es| - 1].1)]
  }

  /** The entries after the optional bundling step. */
  function Prepared(es: Assets, bundle: bool, ext: string, host: Host): Assets {
    if bundle && NonEmptyGroups(Groups(es)) then Bundled(Groups(es), ext, host.fromString) else es
  }

  /** The HTML `jsHtml` returns. */
  function JsHtmlOf(es: Assets, s: Settings, host: Host): string {
    Join(ScriptTags(Prepared(es, s.jsBundle, "js", host)), '\n')
  }

  /** The entries of `jsLoader` that are no Assets, which it emits as ordinary tags. */
  function Outside(es: Assets): Assets
    decreases |es|
  {
    if |es| == 0 then [] else Outside(es[..|es| - 1]) + (if IsAsset(es[|es| - 1].1) then [] else [es[|es| - 1]])
  }

  /** The public URLs of the Asset entries with the given `async` flag, in order. */
  function LoaderUrls(es: Assets, async: bool): seq<string>
    decreases |es|
  {
    if |es| == 0 then []
    else
      var e := es[|es| - 1].1;
      LoaderUrls(es[..|es| - 1], async) + (if IsAsset(e) && e.async == async then [e.source.asset.publicUrl] else [])
  }

  /** `jsLoader`: the non-Assets as tags, then a script that loads the Assets in order. */
  function JsLoaderOf(es: Assets, s: Settings, host: Host): string {
    var p := Prepared(es, s.jsBundle, "js", host);
    JsHtmlOf(Outside(p), s, host) + "\n<script>" + host.loader(LoaderUrls(p, false), LoaderUrls(p, true)) + "</script>"
  }

  /** The CSS entries of one media, after the optional bundling step. */
  function CssEntries(a: Assets, m: string, s: Settings, host: Host): Assets {
    Prepared(Filter(a, "css", Some(m), None), s.cssBundle, "css", host)
  }

  /** The CSS sections of `getHeadHtml` for the medias `ms`, from the running size `start`. */
  function CssSections(a: Assets, ms: seq<string>, start: int, s: Settings, host: Host): (r: Tags)
    ensures |r.tags| == |ms|
    decreases |ms|
  {
    if |ms| == 0 then Tags([], start)
    else
      var p := CssSections(a, ms[..|ms| - 1], start, s, host);
      var o := CssTags(CssEntries(a, ms[|ms| - 1], s, host), p.inlined, s.maxInlined);
      Tags(p.tags + [Join(o.tags, '\n')], o.inlined)
  }

  /** The JS sections without the loader: per media, the blocking scripts then the async ones. */
  function JsSections(a: Assets, ms: seq<string>, s: Settings, host: Host): (r: seq<string>)
    ensures |r| == 2 * |ms|
    decreases |ms|
  {
    if |ms| == 0 then []
    else
      var m := ms[|ms| - 1];
      JsSections(a, ms[..|ms| - 1], s, host)
        + [JsHtmlOf(Filter(a, "js", Some(m), Some(false)), s, host), JsHtmlOf(Filter(a, "js", Some(m), Some(true)), s, host)]
  }

  /** `array_filter` on a list of strings. */
  function TruthyOnly(parts: seq<string>): (r: seq<string>)
    ensures forall i :: 0 <= i < |r| ==> Truthy(r[i])
    ensures forall x :: x in r ==> x in parts
    ensures forall x :: x in parts && Truthy(x) ==> x in r
    decreases |parts|
  {
    if |parts| == 0 then []
    else TruthyOnly(parts[..|parts| - 1]) + (if Truthy(parts[|parts| - 1]) then [parts[|parts| - 1]] else [])
  }

  function JsPart(a: Assets, s: Settings, host: Host): seq<string> {
    if s.inlineLoader then [JsLoaderOf(Filter(a, "js", None, None), s, host)] else JsSections(a, JsMedias, s, host)
  }

  /** The sections of `getHeadHtml`, in order, over the resolved table `a`. */
  function HeadParts(a: Assets, s: Settings, host: Host): seq<string> {
    CssSections(a, CssMedias, 0, s, host).tags + JsPart(a, s, host)
  }

  /** The `array_walk` of `getHeadHtml` that swaps URL strings for the Assets they name. */
  function Resolve(a: Assets, resolve: string -> Option<ThemeAsset>): (r: Assets)
    ensures |r| == |a| && forall i :: 0 <= i < |a| ==> r[i].0 == a[i].0
    decreases |a|
  {
    if |a| == 0 then []
    else
      var p := a[|a| - 1];
      var e := if p.1.source.Text? && resolve(p.1.source.s).Some? then p.1.(source := Resolved(resolve(p.1.source.s).value)) else p.1;
      Resolve(a[..|a| - 1], resolve) + [(p.0, e)]
  }

  /** `preg_replace('/[^a-z0-9\-_]/', '', $name)`. */
  predicate NameChar(c: char) {
    'a' <= c <= 'z' || '0' <= c <= '9' || c == '-' || c == '_'
  }

  function Sanitize(name: string): (r: string)
    ensures |r| <= |name| && forall i :: 0 <= i < |r| ==> NameChar(r[i])
    decreases |name|
  {
    if |name| == 0 then "" else Sanitize(name[..|name| - 1]) + (if NameChar(name[|name| - 1]) then [name[|name| - 1]] else "")
  }

  /** `dir` without its trailing slashes. */
  function StripSlashes(dir: string): (r: string)
    ensures r <= dir && (r == "" || r[|r| - 1] != '/')
    ensures forall k :: |r| <= k < |dir| ==> dir[k] == '/'
    decreases |dir|
  {
    if |dir| > 0 && dir[|dir| - 1] == '/' then StripSlashes(dir[..|dir| - 1]) else dir
  }

  /** `basename($dir)`: the last component of the path, trailing slashes ignored. */
  function Basename(dir: string): (r: string)
    ensures forall k :: 0 <= k < |r| ==> r[k] != '/'
  {
    var t := StripSlashes(dir);
    var i := LastIndexOf(t, '/');
    if i.Some? then t[i.value + 1..] else t
  }

  /** A theme package: its priority and the prefix of its files. */
  datatype Package = Package(priority: int, prefix: string)

  /** What `theme.yaml` holds for this model: the theme's priority and its packages' priorities. */
  datatype ThemeConfig = ThemeConfig(priority: int, packages: seq<(string, int)>)

  /** `$this->packages` after `setPackage($name, $p)`. */
  function PackageSet(m: map<string, Package>, name: string, p: Package): map<string, Package> {
    if name in m && m[name].priority > p.priority then m else m[name := p]
  }

  class ThemeProvider {
    var assets: Assets
    var packages: map<string, Package>
    var inlined: int
    var loadedThemes: seq<string>
    var directories: seq<string>

    ghost predicate Valid()
      reads this
    {
      DistinctKeys(assets)
    }

    constructor(directories: seq<string>)
      ensures Valid() && assets == [] && packages == map[] && inlined == 0 && loadedThemes == []
      ensures this.directories == directories
    {
      assets := [];
      packages := map[];
      inlined := 0;
      loadedThemes := [];
      this.directories := directories;
    }

    /** `addAsset`: file the entry under `type|name`, or remove that key. */
    method AddAsset(kind: string, source: Source, name: string, integrity: Option<string>, async: bool, media: string)
      requires Valid()
      modifies this`assets
      ensures Valid()
      ensures assets == AssetAdded(old(assets), kind, source, name, integrity, async, media)
    {
      var id := Id(kind, name);
      UnsetFacts(assets, id);
      PutInPlace(assets, id, StoredEntry(kind, source, integrity, async, media));
      if !SourceTruthy(source) {
        assets := Unset(assets, id);
        return;
      }
      var integ := integrity;
      if source.Resolved? {
        if !Truthy(Trim(source.asset.content)) {
          assets := Unset(assets, id);
          return;
        }
        integ := None;
      }
      assets := Put(assets, id, Entry(source, if OptTruthy(integ) then Some("anonymous") else None, integ, kind, async, media));
    }

    /** `addJs($name, $source, $media, ['integrity' => ..., 'async' => ...])`. */
    method AddJs(name: string, source: Source, media: string, integrity: Option<string>, async: bool)
      requires Valid()
      modifies this`assets
      ensures Valid()
      ensures assets == AssetAdded(old(assets), "js", source, name, integrity, async, media)
    {
      AddAsset("js", source, name, integrity, async, media);
    }

    /** `addCss`: CSS is never async. */
    method AddCss(name: string, source: Source, media: string, integrity: Option<string>)
      requires Valid()
      modifies this`assets
      ensures Valid()
      ensures assets == AssetAdded(old(assets), "css", source, name, integrity, false, media)
    {
      AddAsset("css", source, name, integrity, false, media);
    }

    /** `setPackage`. */
    method SetPackage(name: string, p: Package)
      modifies this`packages
      ensures packages == PackageSet(old(packages), name, p)
    {
      if name in packages {
        var existing := packages[name];
        if existing.priority > p.priority {
          return;
        }
      }
      packages := packages[name := p];
    }

    /** `doRegisterTheme($dir, $yaml)` with the file's contents `config`. */
    method DoRegisterTheme(dir: string, config: ThemeConfig)
      modifies this`loadedThemes, this`packages
      ensures dir in old(loadedThemes) ==> loadedThemes == old(loadedThemes) && packages == old(packages)
      ensures dir !in old(loadedThemes) ==> loadedThemes == old(loadedThemes) + [dir]
      ensures dir !in old(loadedThemes) ==>
        packages == PackageSet(PackagesSet(old(packages), config.packages, "@/~themes/" + Basename(dir) + "/"),
                               Basename(dir), Package(config.priority, "@/~themes/" + Basename(dir) + "/"))
      ensures Registry(loadedThemes, packages) == ThemeRegistered(Registry(old(loadedThemes), old(packages)), dir, config)
    {
      if dir in loadedThemes {
        return;
      }
      loadedThemes := loadedThemes + [dir];
      var prefix := "@/~themes/" + Basename(dir) + "/";
      var i := 0;
      while i < |config.packages|
        invariant 0 <= i <= |config.packages|
        invariant packages == PackagesSet(old(packages), config.packages[..i], prefix)
        invariant loadedThemes == old(loadedThemes) + [dir]
      {
        assert config.packages[..i + 1][..i] == config.packages[..i];
        SetPackage(config.packages[i].0, Package(config.packages[i].1, prefix));
        i := i + 1;
      }
      assert config.packages[..i] == config.packages;
      SetPackage(Basename(dir), Package(config.priority, prefix));
    }

    /**
     * `registerTheme($name)`: the sanitised name is looked up in every theme directory, and
     * each directory that has a `theme.yaml` for it is registered.
     */
    method RegisterTheme(name: string, isFile: string -> bool, read: string -> ThemeConfig)
      modifies this`loadedThemes, this`packages
      ensures forall d :: d in old(loadedThemes) ==> d in loadedThemes
      ensures forall i :: 0 <= i < |directories| ==>
        (isFile(directories[i] + "/" + Sanitize(name) + "/theme.yaml") ==> directories[i] + "/" + Sanitize(name) in loadedThemes)
      ensures forall d :: d in loadedThemes && d !in old(loadedThemes) ==>
        exists i :: 0 <= i < |directories| && d == directories[i] + "/" + Sanitize(name) && isFile(d + "/theme.yaml")
      ensures Registry(loadedThemes, packages)
        == ThemesRegistered(Registry(old(loadedThemes), old(packages)), directories, Sanitize(name), isFile, read)
    {
      var n := Sanitize(name);
      var i := 0;
      while i < |directories|
        invariant 0 <= i <= |directories|
        invariant Registry(loadedThemes, packages)
          == ThemesRegistered(Registry(old(loadedThemes), old(packages)), directories[..i], n, isFile, read)
      {
        assert directories[..i + 1][..i] == directories[..i];
        var dir := directories[i] + "/" + n;
        var yaml := dir + "/theme.yaml";
        if isFile(yaml) {
          DoRegisterTheme(dir, read(yaml));
        }
        i := i + 1;
      }
      assert directories[..i] == directories;
      var st := Registry(old(loadedThemes), old(packages));
      RegisteredKeeps(st, directories, n, isFile, read);
      RegisteredFinds(st, directories, n, isFile, read);
      RegisteredOnlyFound(st, directories, n, isFile, read);
    }

    /** The first loop of `bundle_assets`: the bundles, in order. */
    static method GroupAssets(arr: Assets) returns (bundles: seq<Assets>)
      ensures bundles == Groups(arr) && NonEmptyGroups(bundles)
    {
      bundles := [];
      var i := 0;
      while i < |arr|
        invariant 0 <= i <= |arr|
        invariant bundles == Groups(arr[..i])
      {
        var e := arr[i];
        GroupsSnoc(arr, i);
        if |bundles| > 0 && IsAsset(e.1) && |bundles[|bundles| - 1]| > 0
          && IsAsset(bundles[|bundles| - 1][|bundles[|bundles| - 1]| - 1].1) {
          bundles := bundles[..|bundles| - 1] + [bundles[|bundles| - 1] + [e]];
        } else {
          bundles := bundles + [[e]];
        }
        i := i + 1;
      }
      assert arr[..i] == arr;
      GroupsNonEmpty(arr);
    }

    /** The entry `bundle_assets` makes of bundle number `k`. */
    static method BundleOne(b: Assets, k: nat, ext: string, host: Host) returns (entry: (string, Entry))
      requires |b| > 0
      ensures entry == BundleEntry(b, k, ext, host.fromString)
    {
      if |b| == 1 {
        return b[0];
      }
      var content: seq<string> := [];
      var j := 0;
      while j < |b|
        invariant 0 <= j <= |b|
        invariant content == BundleParts(b[..j], ext)
      {
        assert b[..j + 1][..j] == b[..j];
        var a := AssetOf(b[j].1);
        content := content + ["/*\n" + a.url + "\n*/", a.content];
        if ext == "js" {
          content := content + [";"];
        }
        j := j + 1;
      }
      assert b[..j] == b;
      var e := b[|b| - 1].1;
      var file := e.media + "." + ext;
      entry := ("bundle " + NatToString(k) + ": " + file,
        Entry(Resolved(host.fromString(Join(content, '\n'), "@/~themes/" + file)), None, None, e.kind, e.async, e.media));
    }

    /** `bundle_assets($arr, $ext)`. */
    static method BundleAssets(arr: Assets, ext: string, host: Host) returns (bundled: Assets)
      ensures NonEmptyGroups(Groups(arr)) && bundled == Bundled(Groups(arr), ext, host.fromString)
    {
      var bundles := GroupAssets(arr);
      bundled := [];
      var k := 0;
      while k < |bundles|
        invariant 0 <= k <= |bundles|
        invariant bundled == Bundled(bundles[..k], ext, host.fromString)
      {
        assert bundles[..k + 1][..k] == bundles[..k];
        var entry := BundleOne(bundles[k], k, ext, host);
        bundled := bundled + [entry];
        k := k + 1;
      }
      assert bundles[..k] == bundles;
    }

    /** The `array_walk` of `cssHtml` over the entries, from the inlined size `start`. */
    static method CssWalk(es: Assets, start: int, max: int) returns (out: Tags)
      ensures out == CssTags(es, start, max)
    {
      var tags: seq<string> := [];
      var inl := start;
      var i := 0;
      while i < |es|
        invariant 0 <= i <= |es|
        invariant Tags(tags, inl) == CssTags(es[..i], start, max)
      {
        CssTagsStep(es, i, start, max);
        var e := es[i].1;
        if Inlines(e, inl, max) {
          inl := inl + e.source.asset.size;
          tags := tags + [StyleTag(e)];
        } else {
          tags := tags + [LinkTag(e)];
        }
        i := i + 1;
      }
      assert es[..i] == es;
      out := Tags(tags, inl);
    }

    /** `cssHtml($arr)`: link or inline each entry, within the inlining budget. */
    method CssHtml(arr: Assets, s: Settings, host: Host) returns (html: string)
      modifies this`inlined
      ensures var out := CssTags(Prepared(arr, s.cssBundle, "css", host), old(inlined), s.maxInlined);
        html == Join(out.tags, '\n') && inlined == out.inlined
    {
      var es := arr;
      if s.cssBundle {
        es := BundleAssets(arr, "css", host);
      }
      var out := CssWalk(es, inlined, s.maxInlined);
      inlined := out.inlined;
      html := Join(out.tags, '\n');
    }

    /** The `array_walk` of `jsHtml`: one script tag per entry. */
    static method ScriptWalk(es: Assets) returns (tags: seq<string>)
      ensures tags == ScriptTags(es)
    {
      tags := [];
      var i := 0;
      while i < |es|
        invariant 0 <= i <= |es|
        invariant tags == ScriptTags(es[..i])
      {
        assert es[..i + 1][..i] == es[..i];
        tags := tags + [ScriptTag(es[i].1)];
        i := i + 1;
      }
      assert es[..i] == es;
    }

    /** `jsHtml($arr)`. */
    static method JsHtml(arr: Assets, s: Settings, host: Host) returns (html: string)
      ensures html == JsHtmlOf(arr, s, host)
    {
      var es := arr;
      if s.jsBundle {
        es := BundleAssets(arr, "js", host);
      }
      var tags := ScriptWalk(es);
      html := Join(tags, '\n');
    }

    /** The loop of `jsLoader`: the non-Assets kept aside, the Assets' URLs split by `async`. */
    static method LoaderWalk(es: Assets) returns (outside: Assets, ordered: seq<string>, async: seq<string>)
      ensures outside == Outside(es)
      ensures ordered == LoaderUrls(es, false) && async == LoaderUrls(es, true)
    {
      outside, ordered, async := [], [], [];
      var i := 0;
      while i < |es|
        invariant 0 <= i <= |es|
        invariant outside == Outside(es[..i])
        invariant ordered == LoaderUrls(es[..i], false) && async == LoaderUrls(es[..i], true)
      {
        assert es[..i + 1][..i] == es[..i];
        var e := es[i].1;
        if IsAsset(e) {
          if e.async {
            async := async + [e.source.asset.publicUrl];
          } else {
            ordered := ordered + [e.source.asset.publicUrl];
          }
        } else {
          outside := outside + [es[i]];
        }
        i := i + 1;
      }
      assert es[..i] == es;
    }

    /** `jsLoader($arr)`: the non-Assets as tags, the Assets' URLs handed to the loader script. */
    static method JsLoader(arr: Assets, s: Settings, host: Host) returns (html: string)
      ensures html == JsLoaderOf(arr, s, host)
    {
      var es := arr;
      if s.jsBundle {
        es := BundleAssets(arr, "js", host);
      }
      assert es == Prepared(arr, s.jsBundle, "js", host);
      var outside, ordered, async := LoaderWalk(es);
      var tags := JsHtml(outside, s, host);
      html := tags + "\n<script>" + host.loader(ordered, async) + "</script>";
    }

    /** The CSS half of `getHeadHtml`: one section per media of `ms`, sharing the budget. */
    method CssSectionsHtml(a: Assets, ms: seq<string>, s: Settings, host: Host) returns (parts: seq<string>)
      modifies this`inlined
      ensures Tags(parts, inlined) == CssSections(a, ms, old(inlined), s, host)
    {
      parts := [];
      var i := 0;
      while i < |ms|
        invariant 0 <= i <= |ms|
        invariant Tags(parts, inlined) == CssSections(a, ms[..i], old(inlined), s, host)
      {
        assert ms[..i + 1][..i] == ms[..i];
        var h := CssHtml(Filter(a, "css", Some(ms[i]), None), s, host);
        parts := parts + [h];
        i := i + 1;
      }
      assert ms[..i] == ms;
    }

    /** The JS half of `getHeadHtml` without the loader: per media, blocking then async. */
    static method JsSectionsHtml(a: Assets, ms: seq<string>, s: Settings, host: Host) returns (js: seq<string>)
      ensures js == JsSections(a, ms, s, host)
    {
      js := [];
      var j := 0;
      while j < |ms|
        invariant 0 <= j <= |ms|
        invariant js == JsSections(a, ms[..j], s, host)
      {
        assert ms[..j + 1][..j] == ms[..j];
        var blocking := JsHtml(Filter(a, "js", Some(ms[j]), Some(false)), s, host);
        var async := JsHtml(Filter(a, "js", Some(ms[j]), Some(true)), s, host);
        js := js + [blocking, async];
        j := j + 1;
      }
      assert ms[..j] == ms;
    }

    /** `getHeadHtml()`: resolve sources, reset the budget, then the CSS and JS sections. */
    method GetHeadHtml(s: Settings, host: Host) returns (html: string)
      requires Valid()
      modifies this`assets, this`inlined
      ensures Valid()
      ensures assets == Resolve(old(assets), host.resolve)
      ensures html == Join(TruthyOnly(HeadParts(assets, s, host)), '\n')
      ensures inlined == CssSections(assets, CssMedias, 0, s, host).inlined
    {
      assets := Resolve(assets, host.resolve);
      inlined := 0;
      var parts := CssSectionsHtml(assets, CssMedias, s, host);
      var js: seq<string>;
      if s.inlineLoader {
        var loader := JsLoader(Filter(assets, "js", None, None), s, host);
        js := [loader];
      } else {
        js := JsSectionsHtml(assets, JsMedias, s, host);
      }
      html := Join(TruthyOnly(parts + js), '\n');
    }
  }

  /** The part of the provider's state that registering themes changes. */
  datatype Registry = Registry(loaded: seq<string>, packages: map<string, Package>)

  /** The registry after `doRegisterTheme($dir)` with the file's contents `config`. */
  function ThemeRegistered(st: Registry, dir: string, config: ThemeConfig): Registry {
    if dir in st.loaded then st
    else
      var prefix := "@/~themes/" + Basename(dir) + "/";
      Registry(st.loaded + [dir],
               PackageSet(PackagesSet(st.packages, config.packages, prefix), Basename(dir), Package(config.priority, prefix)))
  }

  /** The registry after the loop of `registerTheme` over the directories `dirs`. */
  function ThemesRegistered(st: Registry, dirs: seq<string>, name: string, isFile: string -> bool,
                            read: string -> ThemeConfig): Registry
    decreases |dirs|
  {
    if |dirs| == 0 then st
    else
      var before := ThemesRegistered(st, dirs[..|dirs| - 1], name, isFile, read);
      var dir := dirs[|dirs| - 1] + "/" + name;
      if isFile(dir + "/theme.yaml") then ThemeRegistered(before, dir, read(dir + "/theme.yaml")) else before
  }

  /** Registering never forgets a loaded theme. */
  lemma {:induction false} RegisteredKeeps(st: Registry, dirs: seq<string>, name: string, isFile: string -> bool,
                                           read: string -> ThemeConfig)
    ensures forall d :: d in st.loaded ==> d in ThemesRegistered(st, dirs, name, isFile, read).loaded
    decreases |dirs|
  {
    if |dirs| > 0 {
      RegisteredKeeps(st, dirs[..|dirs| - 1], name, isFile, read);
    }
  }

  /** Every directory holding `<name>/theme.yaml` ends up loaded. */
  lemma {:induction false} RegisteredFinds(st: Registry, dirs: seq<string>, name: string, isFile: string -> bool,
                                           read: string -> ThemeConfig)
    ensures forall i :: 0 <= i < |dirs| && isFile(dirs[i] + "/" + name + "/theme.yaml") ==>
      dirs[i] + "/" + name in ThemesRegistered(st, dirs, name, isFile, read).loaded
    decreases |dirs|
  {
    if |dirs| > 0 {
      var init := dirs[..|dirs| - 1];
      RegisteredFinds(st, init, name, isFile, read);
      forall i | 0 <= i < |dirs| && isFile(dirs[i] + "/" + name + "/theme.yaml")
        ensures dirs[i] + "/" + name in ThemesRegistered(st, dirs, name, isFile, read).loaded
      {
        if i < |init| {
          assert dirs[i] == init[i];
          assert dirs[i] + "/" + name in ThemesRegistered(st, init, name, isFile, read).loaded;
        }
      }
    }
  }

  /** Nothing is loaded but a directory holding `<name>/theme.yaml`. */
  lemma {:induction false} RegisteredOnlyFound(st: Registry, dirs: seq<string>, name: string, isFile: string -> bool,
                                               read: string -> ThemeConfig)
    ensures forall d :: d in ThemesRegistered(st, dirs, name, isFile, read).loaded && d !in st.loaded ==>
      exists i :: 0 <= i < |dirs| && d == dirs[i] + "/" + name && isFile(d + "/theme.yaml")
    decreases |dirs|
  {
    if |dirs| > 0 {
      var init := dirs[..|dirs| - 1];
      RegisteredOnlyFound(st, init, name, isFile, read);
      forall d | d in ThemesRegistered(st, dirs, name, isFile, read).loaded && d !in st.loaded
        ensures exists i :: 0 <= i < |dirs| && d == dirs[i] + "/" + name && isFile(d + "/theme.yaml")
      {
        if d in ThemesRegistered(st, init, name, isFile, read).loaded {
          var i :| 0 <= i < |init| && d == init[i] + "/" + name && isFile(d + "/theme.yaml");
          assert dirs[i] == init[i];
        } else {
          assert dirs[|dirs| - 1] + "/" + name == d;
        }
      }
    }
  }

  /** `$this->packages` after the loop of `doRegisterTheme` over the theme's packages. */
  function PackagesSet(m: map<string, Package>, ps: seq<(string, int)>, prefix: string): map<string, Package>
    decreases |ps|
  {
    if |ps| == 0 then m
    else PackageSet(PackagesSet(m, ps[..|ps| - 1], prefix), ps[|ps| - 1].0, Package(ps[|ps| - 1].1, prefix))
  }
}
