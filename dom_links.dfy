/**
 * The link listeners of `DOMProvider` (src/DOM/DOMProvider.php:63-195): `onDOMElement_a`,
 * its `_page` and `_asset` follow-ups, `prepareLinkAttribute` and `obfuscate`.
 *
 * A listener works on the attributes of the event's element, so each is a function from
 * the element to its new attributes. The page and asset repositories and the listeners of
 * the follow-up events are abstract functions; serialising a node (`saveHTML`) is one too.
 */
module DomLinks {
  import opened Wrappers
  import opened Strings
  import opened Urls
  import opened DomWalk
  import Base64

  /** A PHP byte string: every character stands for one byte. */
  type Bytes = s: string | Base64.IsBytes(s)

  /** What a page repository hands back: its URL, HTTP status and title. */
  datatype Page = Page(url: UrlView, status: int, title: string)

  /** What an asset repository hands back; `size` and `extension` are as `setAttribute` stores them. */
  datatype Asset = Asset(url: UrlView, publicUrl: string, isImage: bool, title: string,
                         extension: string, size: string, mime: string)

  datatype Source = PageSource(page: Page) | AssetSource(asset: Asset)

  /**
   * The collaborators of the link listeners: page and asset lookup by URL, the listeners of
   * the `_page`, `_asset` and `_image` follow-up events (they see the attributes and the
   * source and leave new attributes), and `saveHTML` of a node.
   */
  datatype Site = Site(
    pages: UrlView -> Option<Page>,
    assets: UrlView -> Option<Asset>,
    followUp: (string, Attrs, Source) -> Attrs,
    serialize: Node -> Bytes)

  /** The outcome of `prepareLinkAttribute`: new attributes, the event's source, the follow-up events. */
  datatype Linked = Linked(attrs: Attrs, source: Option<Source>, events: seq<string>)

  function Get(a: Attrs, name: string): string {
    if name in a then a[name] else ""
  }

  /** `data-namespace` is set to a truthy `siteNamespace()` of the matched URL. */
  function WithNamespace(a: Attrs, u: UrlView, env: Env): Attrs
    requires env.Valid()
  {
    var ns := u.SiteNamespace(env);
    if ns.Some? && Truthy(ns.value) then a["data-namespace" := ns.value] else a
  }

  /** The attributes a page link carries when the `_page` event is dispatched. */
  function PageAttrs(a: Attrs, urlAttribute: string, p: Page, pageUrl: string, env: Env): Attrs
    requires env.Valid()
  {
    var b := WithNamespace(a[urlAttribute := pageUrl]["data-link-type" := "page"], p.url, env);
    if p.status != 200 then b["data-page-status" := IntToString(p.status)] else b
  }

  /** The attributes an asset link carries when the `_asset` event is dispatched. */
  function AssetAttrs(a: Attrs, asset: Asset, env: Env): Attrs
    requires env.Valid()
  {
    WithNamespace(a["data-link-type" := "asset"], asset.url, env)
  }

  /**
   * `prepareLinkAttribute($event, $urlAttribute, $includePages, $includeAssets)` on element
   * `n`: a `data:` or falsy value is left alone; otherwise the value is parsed as a URL, a
   * page match is tried first, then an asset match.
   */
  function PrepareLink(n: Node, urlAttribute: string, includePages: bool, includeAssets: bool,
                       env: Env, site: Site): (r: Result<Linked, UrlError>)
    requires n.Element? && env.Valid()
    ensures r.Err? ==> !StartsWith(Attr(n, urlAttribute), "data:") && Truthy(Attr(n, urlAttribute))
    ensures r.Ok? ==> (r.value.source.None? <==> r.value.events == []) && |r.value.events| <= 2
    ensures r.Ok? && r.value.source.None? ==> r.value.attrs == n.attrs
    ensures r.Ok? && r.value.source.Some? ==> r.value.events[0] == "onDOMElement_" + n.tag + (if r.value.source.value.PageSource? then "_page" else "_asset")
  {
    var url := Attr(n, urlAttribute);
    if StartsWith(url, "data:") || !Truthy(url) then Ok(Linked(n.attrs, None, []))
    else
      var u :- Parsed(url, env);
      if includePages && site.pages(u).Some? then
        var p := site.pages(u).value;
        var pageUrl :- p.url.ToString(env);
        var e := "onDOMElement_" + n.tag + "_page";
        var a := PageAttrs(n.attrs, urlAttribute, p, pageUrl, env);
        Ok(Linked(site.followUp(e, a, PageSource(p)), Some(PageSource(p)), [e]))
      else if includeAssets && site.assets(u).Some? then
        var asset := site.assets(u).value;
        var e := "onDOMElement_" + n.tag + "_asset";
        var a := site.followUp(e, AssetAttrs(n.attrs, asset, env), AssetSource(asset));
        if asset.isImage then
          var i := "onDOMElement_" + n.tag + "_image";
          var b := site.followUp(i, a["data-link-type" := "image"], AssetSource(asset));
          Ok(Linked(b[urlAttribute := asset.publicUrl], Some(AssetSource(asset)), [e, i]))
        else Ok(Linked(a[urlAttribute := asset.publicUrl], Some(AssetSource(asset)), [e]))
      else Ok(Linked(n.attrs, None, []))
  }

  const ScriptOpen := "<script>document.write(atob(\""
  const ScriptClose := "\"));</script>" + "<noscript>" + "[js required]" + "</noscript>"

  /** `obfuscate($html)`: a script that writes the base64-decoded HTML. */
  function Obfuscate(html: Bytes): (r: string)
    ensures StartsWith(r, ScriptOpen) && EndsWith(r, ScriptClose)
  {
    ScriptOpen + Base64.Encode(html) + ScriptClose
  }

  /** What a browser recovers from an obfuscated link: the payload of the script, decoded. */
  function Deobfuscate(s: string): Option<string> {
    if |s| >= |ScriptOpen| + |ScriptClose| && StartsWith(s, ScriptOpen) && EndsWith(s, ScriptClose) then
      Some(Base64.Decode(s[|ScriptOpen|..|s| - |ScriptClose|]))
    else None
  }

  /** The listener's outcome on an `<a>`: new attributes, a replacement, the follow-up events. */
  datatype Anchored = Anchored(attrs: Attrs, replacement: string, events: seq<string>)

  /**
   * `onDOMElement_a`: a `mailto:` link is replaced by its obfuscated HTML (after its
   * `data-email` attribute is set to null, which stores ""); any other link gets
   * `data-host` and `data-insite` and then goes through `prepareLinkAttribute`.
   */
  function OnAnchor(n: Node, env: Env, site: Site): (r: Result<Anchored, UrlError>)
    requires n.Element? && env.Valid()
    ensures StartsWith(Attr(n, "href"), "mailto:") ==>
      r.Ok? && r.value.events == [] && r.value.attrs == n.attrs["data-email" := ""]
    ensures !StartsWith(Attr(n, "href"), "mailto:") && r.Ok? ==>
      r.value.replacement == "" && |r.value.events| <= 2
  {
    var url := Attr(n, "href");
    if StartsWith(url, "mailto:") then
      var a := n.attrs["data-email" := ""];
      Ok(Anchored(a, Obfuscate(site.serialize(WithAttrs(n, a))), []))
    else
      var u :- Parsed(url, env);
      var host :- u.Host(env);
      var a := n.attrs["data-host" := host]["data-insite" := if u.InSite(env) then "true" else "false"];
      var l :- PrepareLink(WithAttrs(n, a), "href", true, true, env, site);
      Ok(Anchored(l.attrs, "", l.events))
  }

  /** `onDOMElement_a_asset`: a title if the link has a falsy one, and the asset's metadata. */
  function OnAnchorAsset(a: Attrs, asset: Asset): (r: Attrs)
    ensures Get(r, "title") == if Truthy(Get(a, "title")) then Get(a, "title") else asset.title
    ensures Get(r, "data-extension") == asset.extension && Get(r, "data-size") == asset.size
    ensures Get(r, "type") == asset.mime
    ensures forall k :: k in a && k !in {"title", "data-extension", "data-size", "type"} ==> k in r && r[k] == a[k]
  {
    var t := if Truthy(Get(a, "title")) then a else a["title" := asset.title];
    t["data-extension" := asset.extension]["data-size" := asset.size]["type" := asset.mime]
  }

  /** `onDOMElement_a_page`: a title if the link has a falsy one. */
  function OnAnchorPage(a: Attrs, p: Page): (r: Attrs)
    ensures Get(r, "title") == if Truthy(Get(a, "title")) then Get(a, "title") else p.title
    ensures forall k :: k in a && k != "title" ==> k in r && r[k] == a[k]
  {
    if Truthy(Get(a, "title")) then a else a["title" := p.title]
  }
}
