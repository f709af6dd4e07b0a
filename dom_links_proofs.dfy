/**
 * Properties of the link listeners of `DOMProvider` (src/DOM/DOMProvider.php:63-195).
 */
module DomLinkProofs {
  import opened Wrappers
  import opened Strings
  import opened Urls
  import opened DomWalk
  import opened DomLinks
  import Base64

  /** A `data:` URL or a falsy value is not touched and no follow-up event fires. */
  lemma {:induction false} LinkLeftAlone(n: Node, urlAttribute: string, includePages: bool, includeAssets: bool, env: Env, site: Site)
    requires n.Element? && env.Valid()
    requires StartsWith(Attr(n, urlAttribute), "data:") || !Truthy(Attr(n, urlAttribute))
    ensures PrepareLink(n, urlAttribute, includePages, includeAssets, env, site) == Ok(Linked(n.attrs, None, []))
  {
  }

  /**
   * A page match wins over an asset match: with pages included, the asset repository is
   * never consulted, and exactly the `_page` follow-up fires.
   */
  lemma {:induction false} PageBeatsAsset(n: Node, urlAttribute: string, includeAssets: bool, env: Env, site: Site)
    requires n.Element? && env.Valid()
    requires !StartsWith(Attr(n, urlAttribute), "data:") && Truthy(Attr(n, urlAttribute))
    requires var u := Parsed(Attr(n, urlAttribute), env); u.Ok? && site.pages(u.value).Some?
    ensures var r := PrepareLink(n, urlAttribute, true, includeAssets, env, site);
      r == PrepareLink(n, urlAttribute, true, false, env, site.(assets := (u: UrlView) => None))
      && (r.Ok? ==>
            r.value.events == ["onDOMElement_" + n.tag + "_page"]
            && r.value.source == Some(PageSource(site.pages(Parsed(Attr(n, urlAttribute), env).value).value)))
  {
  }

  /**
   * When the `_page` event fires, the link points at the page's URL, is typed "page", and
   * carries `data-page-status` exactly when the status is not 200 (an earlier value is kept
   * otherwise).
   */
  lemma {:induction false} PageAttrsFacts(a: Attrs, urlAttribute: string, p: Page, pageUrl: string, env: Env)
    requires env.Valid()
    requires urlAttribute !in {"data-link-type", "data-namespace", "data-page-status"}
    ensures var r := PageAttrs(a, urlAttribute, p, pageUrl, env);
      Get(r, urlAttribute) == pageUrl && Get(r, "data-link-type") == "page"
      && (p.status != 200 ==> Get(r, "data-page-status") == IntToString(p.status))
      && (p.status == 200 ==> Get(r, "data-page-status") == Get(a, "data-page-status"))
      && (forall k :: k in a && k !in {urlAttribute, "data-link-type", "data-namespace", "data-page-status"}
            ==> k in r && r[k] == a[k])
  {
  }

  /**
   * An asset link is rewritten to the asset's public URL only after its follow-up events:
   * whatever their listeners do, the attribute ends as `publicUrl`; the `_image` event
   * follows `_asset` for images.
   */
  lemma {:induction false} AssetRewrittenLast(n: Node, urlAttribute: string, includePages: bool, env: Env, site: Site)
    requires n.Element? && env.Valid()
    requires !StartsWith(Attr(n, urlAttribute), "data:") && Truthy(Attr(n, urlAttribute))
    requires var u := Parsed(Attr(n, urlAttribute), env);
      u.Ok? && !(includePages && site.pages(u.value).Some?) && site.assets(u.value).Some?
    ensures var asset := site.assets(Parsed(Attr(n, urlAttribute), env).value).value;
      var r := PrepareLink(n, urlAttribute, includePages, true, env, site);
      var e := "onDOMElement_" + n.tag + "_asset";
      r.Ok? && Get(r.value.attrs, urlAttribute) == asset.publicUrl
      && r.value.source == Some(AssetSource(asset))
      && r.value.events == (if asset.isImage then [e, "onDOMElement_" + n.tag + "_image"] else [e])
  {
  }

  /** The `_asset` listeners still see the original link value and the "asset" type. */
  lemma {:induction false} AssetAttrsFacts(a: Attrs, urlAttribute: string, asset: Asset, env: Env)
    requires env.Valid()
    requires urlAttribute !in {"data-link-type", "data-namespace"}
    ensures var r := AssetAttrs(a, asset, env);
      Get(r, urlAttribute) == Get(a, urlAttribute) && Get(r, "data-link-type") == "asset"
  {
  }

  predicate NoAt(s: string) {
    forall i :: 0 <= i < |s| ==> s[i] != '@'
  }

  lemma {:induction false} NoAtConcat(a: string, b: string)
    requires NoAt(a) && NoAt(b)
    ensures NoAt(a + b)
  {
    forall i | 0 <= i < |a + b|
      ensures (a + b)[i] != '@'
    {
      if i < |a| {
        assert (a + b)[i] == a[i];
      } else {
        assert (a + b)[i] == b[i - |a|];
      }
    }
  }

  lemma {:induction false} NoAtInOpen()
    ensures NoAt(ScriptOpen)
  {
    var o1, o2 := "<script>document.", "write(atob(\"";
    assert NoAt(o1) && NoAt(o2);
    NoAtConcat(o1, o2);
    assert ScriptOpen == o1 + o2;
  }

  lemma {:induction false} NoAtInClose()
    ensures NoAt(ScriptClose)
  {
    var c1, c2, c3, c4 := "\"));</script>", "<noscript>", "[js required]", "</noscript>";
    assert NoAt(c1);
    assert NoAt(c2);
    assert NoAt(c3);
    assert NoAt(c4);
    NoAtConcat(c1, c2);
    NoAtConcat(c1 + c2, c3);
    NoAtConcat(c1 + c2 + c3, c4);
  }

  /** Neither end of the obfuscating script holds an `@`. */
  lemma {:induction false} NoAtInScript()
    ensures NoAt(ScriptOpen) && NoAt(ScriptClose)
  {
    NoAtInOpen();
    NoAtInClose();
  }

  /** An obfuscated link has no `@` left in it for an address harvester to find. */
  lemma {:induction false} ObfuscateHasNoAt(html: Bytes)
    ensures forall i :: 0 <= i < |Obfuscate(html)| ==> Obfuscate(html)[i] != '@'
  {
    var e := Base64.Encode(html);
    var r := Obfuscate(html);
    NoAtInScript();
    assert Base64.IndexOf('@') < 0;
    forall i | 0 <= i < |r|
      ensures r[i] != '@'
    {
      if |ScriptOpen| <= i < |ScriptOpen| + |e| {
        Base64.EncodeAlphabet(html, i - |ScriptOpen|);
        assert r[i] == e[i - |ScriptOpen|];
      } else if i >= |ScriptOpen| + |e| {
        assert r[i] == ScriptClose[i - |ScriptOpen| - |e|];
      }
    }
  }

  /** What the script writes is the link's HTML itself. */
  lemma {:induction false} DeobfuscateObfuscate(html: Bytes)
    ensures Deobfuscate(Obfuscate(html)) == Some(html)
  {
    var e := Base64.Encode(html);
    var r := Obfuscate(html);
    assert r[..|ScriptOpen|] == ScriptOpen;
    assert r[|r| - |ScriptClose|..] == ScriptClose;
    assert r[|ScriptOpen|..|r| - |ScriptClose|] == e;
    Base64.DecodeEncode(html);
  }

  /**
   * `onDOMElement_a` on a `mailto:` link asks only for a replacement by the obfuscated HTML
   * of the link (with `data-email` emptied); no other link is replaced.
   */
  lemma {:induction false} AnchorReplacement(n: Node, env: Env, site: Site)
    requires n.Element? && env.Valid()
    ensures var r := OnAnchor(n, env, site);
      (StartsWith(Attr(n, "href"), "mailto:") ==>
        r.Ok? && r.value.events == [] && r.value.attrs == n.attrs["data-email" := ""]
        && Deobfuscate(r.value.replacement) == Some(site.serialize(WithAttrs(n, n.attrs["data-email" := ""])))
        && (forall i :: 0 <= i < |r.value.replacement| ==> r.value.replacement[i] != '@'))
      && (!StartsWith(Attr(n, "href"), "mailto:") && r.Ok? ==> r.value.replacement == "")
  {
    if StartsWith(Attr(n, "href"), "mailto:") {
      var html := site.serialize(WithAttrs(n, n.attrs["data-email" := ""]));
      DeobfuscateObfuscate(html);
      ObfuscateHasNoAt(html);
    }
  }
}
