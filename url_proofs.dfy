/** Properties of the URL model: encoding, URL-safe base64, extensions and site namespaces. */
module UrlProofs {
  import opened Wrappers
  import opened Strings
  import opened UrlPaths
  import opened UrlPathProofs
  import opened UrlQueries
  import opened Urls
  import Base64
  import Percent

  /** `encode` does not double-encode: encoding an encoded string changes nothing. */
  lemma {:induction false} EncodeIdempotent(s: string)
    requires Base64.IsBytes(s)
    ensures Encode(Encode(s)) == Encode(s)
  {
    var d := Percent.UrlDecode(s);
    Percent.UrlDecodeBytes(s);
    Percent.ReplacePlusOfEncode(d);
    Percent.UrlDecodeRawEncode(d);
  }

  /** Cutting one `=` off a string that ends in something else leaves that string. */
  lemma {:induction false} TrimOnePad(x: string)
    requires |x| == 0 || x[|x| - 1] != '='
    ensures TrimPadding(x + "=") == x
  {
    assert (x + "=")[..|x|] == x;
  }

  /** Cutting the `=` padding off a string that ends in something else leaves that string. */
  lemma {:induction false} TrimPaddingOf(x: string, n: nat)
    requires |x| == 0 || x[|x| - 1] != '='
    ensures TrimPadding(x + Base64.Padding(n)) == x
  {
    var p := Base64.Padding(n);
    if p == "" {
      assert x + p == x;
    } else if p == "=" {
      TrimOnePad(x);
    } else {
      var y := x + "=";
      assert x + p == y + "=";
      assert (y + "=")[..|y|] == y;
      TrimOnePad(x);
    }
  }

  /** The encoded string is the standard alphabet mapped to the URL-safe one, with no padding. */
  lemma {:induction false} Base64UrlShape(data: string)
    requires Base64.IsBytes(data)
    ensures var c := Base64.Chars(Base64.Sextets(data));
      Base64UrlEncode(data) == seq(|c|, i requires 0 <= i < |c| => UrlSafe(c[i]))
  {
    var c := Base64.Chars(Base64.Sextets(data));
    var t := Base64.Encode(data);
    var m := seq(|c|, i requires 0 <= i < |c| => UrlSafe(c[i]));
    var pad := Base64.Padding(|data|);
    assert seq(|t|, i requires 0 <= i < |t| => UrlSafe(t[i])) == m + pad;
    TrimPaddingOf(m, |data|);
  }

  /** `URL::base64_encode` output holds no `+`, `/` or `=`. */
  lemma {:induction false} Base64UrlAlphabet(data: string)
    requires Base64.IsBytes(data)
    ensures forall i :: 0 <= i < |Base64UrlEncode(data)| ==>
      Base64UrlEncode(data)[i] != '+' && Base64UrlEncode(data)[i] != '/' && Base64UrlEncode(data)[i] != '='
  {
    Base64UrlShape(data);
  }

  /**
   * `URL::base64_decode` inverts `URL::base64_encode`. The `str_pad` to `strlen % 4`
   * never pads; the decoder accepts the unpadded text as it is.
   */
  lemma {:induction false} Base64UrlRoundTrip(data: string)
    requires Base64.IsBytes(data)
    ensures Base64UrlDecode(Base64UrlEncode(data)) == data
  {
    Base64UrlShape(data);
    var q := Base64.Sextets(data);
    var c := Base64.Chars(q);
    var e := Base64UrlEncode(data);
    var t := seq(|e|, i requires 0 <= i < |e| => Standard(e[i]));
    forall i | 0 <= i < |c|
      ensures t[i] == c[i]
    {
      StandardOfUrlSafe(q[i]);
    }
    assert t == c;
    assert PadRight(t, |e| % 4) == t;
    assert Base64UrlDecode(e) == Base64.Decode(c);
    Base64.ValuesOfChars(q);
    Base64.FromSextetsOfSextets(data);
  }

  /** Mapping a letter of the alphabet to the URL-safe one and back gives the letter. */
  lemma {:induction false} StandardOfUrlSafe(v: int)
    requires 0 <= v < 64
    ensures Standard(UrlSafe(Base64.Letter(v))) == Base64.Letter(v)
  {
  }

  /** The file name of a path extended by text without a slash is extended by that text. */
  lemma {:induction false} PathFileAppend(s: string, t: string)
    requires forall j :: 0 <= j < |t| ==> t[j] != '/'
    ensures PathFile(s + t) == PathFile(s) + t
  {
    LastIndexOfAppend(s, t, '/');
    match LastIndexOf(s, '/')
    case Some(k) =>
      assert (s + t)[k + 1..] == s[k + 1..] + t;
    case None =>
  }

  /** The extension of `f.e` is `e`. */
  lemma {:induction false} ExtensionOfAppend(f: string, e: string)
    requires |e| > 0 && forall i :: 0 <= i < |e| ==> IsExtensionChar(e[i])
    ensures ExtensionOf(f + ("." + e)) == Some(e)
  {
    var t := "." + e;
    LastIndexOfAppend(f + ".", e, '.');
    assert f + t == (f + ".") + e;
    assert LastIndexOf(f + ".", '.') == Some(|f|);
    assert (f + t)[|f| + 1..] == e;
  }

  /** The file name of a path ending in `.e` is truthy and has the extension `e`. */
  lemma {:induction false} FileExtension(stem: string, e: string)
    requires |e| > 0 && forall i :: 0 <= i < |e| ==> IsExtensionChar(e[i])
    ensures Truthy(PathFile(stem + ("." + e))) && ExtensionOf(PathFile(stem + ("." + e))) == Some(e)
  {
    var t := "." + e;
    assert forall j :: 0 <= j < |t| ==> t[j] != '/' by {
      forall j | 0 <= j < |t| ensures t[j] != '/' {
        if j > 0 {
          assert t[j] == e[j - 1] && IsExtensionChar(e[j - 1]);
        }
      }
    }
    PathFileAppend(stem, t);
    ExtensionOfAppend(PathFile(stem), e);
  }

  /** A path ending in `.e` has the extension `e`. */
  lemma {:induction false} ExtensionOfPathAppend(v: UrlView, stem: string, e: string)
    requires Truthy(e) && forall i :: 0 <= i < |e| ==> IsExtensionChar(e[i])
    ensures v.(path := stem + ("." + e)).Extension() == Some(e)
  {
    FileExtension(stem, e);
  }

  /** After `setExtension(e)` on a URL with an extension, `extension()` is `e`. */
  lemma {:induction false} SetExtensionSets(v: UrlView, e: string)
    requires v.Extension().Some? && Truthy(v.Extension().value)
    requires Truthy(e) && forall i :: 0 <= i < |e| ==> IsExtensionChar(e[i])
    ensures v.(path := v.PathWithExtension(e)).Extension() == Some(e)
  {
    var stem := v.path[..|v.path| - |v.Extension().value| - 1];
    assert v.PathWithExtension(e) == stem + ("." + e);
    ExtensionOfPathAppend(v, stem, e);
  }

  /** A path whose file name has no dot has no extension. */
  lemma {:induction false} NoExtensionWithoutDot(v: UrlView, p: string)
    requires forall i :: 0 <= i < |PathFile(p)| ==> PathFile(p)[i] != '.'
    ensures v.(path := p).Extension() == None
  {
    assert LastIndexOf(PathFile(p), '.') == None;
  }

  lemma {:induction false} StemHasNoDot(p: string, stem: string, ext: string)
    requires p == stem + ("." + ext)
    requires forall j :: 0 <= j < |ext| ==> IsExtensionChar(ext[j])
    requires forall i :: 0 <= i < |PathFile(p)| - |ext| - 1 ==> PathFile(p)[i] != '.'
    ensures forall i :: 0 <= i < |PathFile(stem)| ==> PathFile(stem)[i] != '.'
  {
    PathFileAppend(stem, "." + ext);
    var f := PathFile(stem);
    assert PathFile(p) == f + ("." + ext);
    forall i | 0 <= i < |f| ensures f[i] != '.' {
      assert f[i] == PathFile(p)[i];
    }
  }

  /**
   * After `setExtension('')` on a URL whose file name has a single dot, `extension()` is
   * null. Only the last suffix goes: by `SetExtensionRemovesOneSuffix` a second one
   * takes its place.
   */
  lemma {:induction false} SetExtensionRemoves(v: UrlView)
    requires v.Extension().Some? && Truthy(v.Extension().value)
    requires forall i :: 0 <= i < |PathFile(v.path)| - |v.Extension().value| - 1 ==> PathFile(v.path)[i] != '.'
    ensures v.(path := v.PathWithExtension("")).Extension() == None
  {
    var ext := v.Extension().value;
    var stem := v.path[..|v.path| - |ext| - 1];
    assert v.PathWithExtension("") == stem;
    assert v.path == stem + ("." + ext) by {
      assert EndsWith(v.path, "." + ext);
    }
    StemHasNoDot(v.path, stem, ext);
    NoExtensionWithoutDot(v, stem);
  }

  /** `setExtension('')` on `x.a.b` leaves `x.a`, whose extension is `a`. */
  lemma {:induction false} SetExtensionRemovesOneSuffix(v: UrlView, stem: string, a: string, b: string)
    requires Truthy(a) && forall i :: 0 <= i < |a| ==> IsExtensionChar(a[i])
    requires Truthy(b) && forall i :: 0 <= i < |b| ==> IsExtensionChar(b[i])
    requires v.path == (stem + ("." + a)) + ("." + b)
    ensures v.Extension() == Some(b)
    ensures v.(path := v.PathWithExtension("")).Extension() == Some(a)
  {
    ExtensionOfPathAppend(v, stem + ("." + a), b);
    assert v.(path := v.path) == v;
    assert v.path[..|v.path| - |b| - 1] == stem + ("." + a);
    ExtensionOfPathAppend(v, stem, a);
  }

  /** No character `urldecode` would change. */
  predicate Plain(s: string) {
    forall i :: 0 <= i < |s| ==> s[i] != '%' && s[i] != '+'
  }

  lemma {:induction false} NamespaceOfPrefixed(ns: string, rest: string)
    requires IsNamespace(ns)
    ensures NamespaceOf("~" + ns + "/" + rest) == Some(ns)
  {
    var p := "~" + ns + "/" + rest;
    var t := p[1..];
    assert t == ns + "/" + rest;
    assert t[|ns|] == '/';
    var k := IndexOf(t, '/');
    assert k.Some?;
    assert k.value == |ns|;
    assert t[..|ns|] == ns;
  }

  /** The path `setSiteNamespace` builds is the site's path, `~ns/` and the old `sitePath()`. */
  lemma {:induction false} NamespacedPathShape(v: UrlView, env: Env, ns: string)
    requires env.Valid() && v.InSite(env) && Truthy(ns)
    ensures v.NamespacedPath(ns, env) == env.site.value.Path() + ("~" + ns + "/" + v.SitePath(env).value)
  {
    var full := v.SiteFullPath(env).value;
    assert env.site.value.Path() + full == v.Path();
    assert v.Path()[..|v.Path()| - |full|] == env.site.value.Path();
  }

  /**
   * `setSiteNamespace(ns)` keeps `sitePath()` and makes `siteNamespace()` return `ns`, when
   * the path it builds is already normal (so `setPath` keeps it) and has nothing for
   * `path()` to decode.
   */
  lemma {:induction false} SetSiteNamespaceKeepsSitePath(v: UrlView, env: Env, ns: string)
    requires env.Valid() && v.InSite(env)
    requires IsNamespace(ns) && Truthy(ns)
    requires IsNormal(v.NamespacedPath(ns, env)) && Plain(v.NamespacedPath(ns, env))
    ensures NormalizePath(v.NamespacedPath(ns, env), env.ContextPath()).Ok?
    ensures var w := v.(path := NormalizePath(v.NamespacedPath(ns, env), env.ContextPath()).value);
      w.InSite(env) && w.SiteNamespace(env) == Some(ns) && w.SitePath(env) == v.SitePath(env)
  {
    var np := v.NamespacedPath(ns, env);
    NormalIsFixed(np, env.ContextPath());
    Percent.UrlDecodePlain(np);
    var w := v.(path := np);
    assert w.Path() == np;
    var sp := v.SitePath(env).value;
    var rest := "~" + ns + "/" + sp;
    NamespacedPathShape(v, env, ns);
    assert w.Host(env) == v.Host(env) && w.Port(env) == v.Port(env);
    assert w.InSite(env);
    assert w.SiteFullPath(env) == Some(rest);
    NamespaceOfPrefixed(ns, sp);
    assert w.SiteNamespace(env) == Some(ns);
    assert rest[|ns| + 2..] == sp;
  }

  lemma {:induction false} NoDoubleSlashSnoc(p: string)
    requires NoDoubleSlash(p) && |p| > 0 && p[|p| - 1] != '/'
    ensures NoDoubleSlash(p + "/")
  {
    var q := p + "/";
    forall i | 0 <= i < |q| - 1
      ensures !(q[i] == '/' && q[i + 1] == '/')
    {
      if i < |p| - 1 {
        assert q[i] == p[i] && q[i + 1] == p[i + 1];
      }
    }
  }

  lemma {:induction false} SegmentsSnoc(p: string)
    requires forall x :: x in Segments(p) ==> x != "." && x != ".."
    ensures forall x :: x in Segments(p + "/") ==> x != "." && x != ".."
  {
    SplitSnoc(p, '/');
    assert Segments(p + "/") == Segments(p) + [""];
  }

  /** A normal path that does not end in a slash stays normal with one appended. */
  lemma {:induction false} NormalWithSlash(p: string)
    requires IsNormal(p) && !EndsWith(p, "/")
    ensures IsNormal(p + "/")
  {
    assert p[|p| - 1] != '/' by {
      assert p[|p| - 1..] == [p[|p| - 1]];
    }
    NoDoubleSlashSnoc(p);
    SegmentsSnoc(p);
    assert (p + "/")[|p|] == '/';
    assert (p + "/")[0] == '/';
  }

  /**
   * `fixSlashes()`: a normal path that needs a slash gets exactly one appended (`setPath`
   * keeps `path() + '/'` as it is); one that does not ends in `/` or `.html`, or is the
   * favicon.
   */
  lemma {:induction false} FixSlashesAppends(p: string, contextPath: Option<string>)
    requires IsNormal(p)
    ensures NeedsSlash(p) ==> NormalizePath(p + "/", contextPath) == Ok(p + "/")
    ensures !NeedsSlash(p) ==> EndsWith(p, "/") || EndsWith(p, ".html") || p == "/favicon.ico"
  {
    if NeedsSlash(p) {
      NormalWithSlash(p);
      NormalIsFixed(p + "/", contextPath);
    }
  }

  /** A path of one segment, `/w`, is normal unless `w` is `.`, `..` or `index.html`. */
  lemma {:induction false} SingleSegmentNormal(w: string)
    requires |w| > 0 && forall i :: 0 <= i < |w| ==> w[i] != '/'
    requires w != "." && w != ".." && w != "index.html"
    ensures IsNormal("/" + w)
  {
    var p := "/" + w;
    SplitCons('/', w);
    SplitNoDelimiter(w, '/');
    assert Segments(p) == ["", w];
    NotIndexHtml(w);
  }

  /** A single segment other than `index.html` does not end the path in `/index.html`. */
  lemma {:induction false} NotIndexHtml(w: string)
    requires forall i :: 0 <= i < |w| ==> w[i] != '/'
    requires w != "index.html"
    ensures !EndsWith("/" + w, "/index.html")
  {
    var p := "/" + w;
    if |p| >= 11 {
      var k := |p| - 11;
      var tail := p[k..];
      if k > 0 {
        assert tail[0] == w[k - 1];
        assert tail[0] != "/index.html"[0];
      } else {
        assert tail[1..] == w;
        assert tail[1..] != "/index.html"[1..];
      }
    }
  }

  /** For an absolute path, the `favicon.ico` exemption as written never applies. */
  lemma {:induction false} FaviconExemptionDead(p: string)
    requires |p| > 0 && p[0] == '/'
    ensures NeedsSlashAsWritten(p) <==> NeedsSlash(p) || p == "/favicon.ico"
  {
    assert p != "favicon.ico" by {
      assert "favicon.ico"[0] == 'f';
    }
  }

  lemma {:induction false} FaviconHasNoSlash()
    ensures forall i :: 0 <= i < |"favicon.ico"| ==> "favicon.ico"[i] != '/'
  {
  }

  lemma {:induction false} FaviconFacts()
    ensures IsNormal("/favicon.ico")
    ensures !EndsWith("/favicon.ico", "/") && !EndsWith("/favicon.ico", ".html")
  {
    FaviconHasNoSlash();
    SingleSegmentNormal("favicon.ico");
    assert "/favicon.ico" == "/" + "favicon.ico";
    assert "/favicon.ico"[11] == 'o';
  }

  /**
   * As written, `fixSlashes()` compares `path()` with `favicon.ico`; `path()` of an
   * absolute URL starts with `/`, so the exemption never applies and `/favicon.ico`
   * becomes `/favicon.ico/`.
   */
  lemma {:induction false} FaviconGetsSlashAsWritten(p: string, contextPath: Option<string>)
    requires p == "/favicon.ico"
    ensures NeedsSlashAsWritten(p) && !NeedsSlash(p)
    ensures NormalizePath(p, contextPath) == Ok(p)
    ensures NormalizePath(p + "/", contextPath) == Ok(p + "/")
  {
    FaviconFacts();
    FaviconExemptionDead(p);
    NormalIsFixed(p, contextPath);
    SlashedNormalIsFixed(p, contextPath);
  }

  lemma {:induction false} SlashedNormalIsFixed(p: string, contextPath: Option<string>)
    requires IsNormal(p) && !EndsWith(p, "/")
    ensures NormalizePath(p + "/", contextPath) == Ok(p + "/")
  {
    NormalWithSlash(p);
    NormalIsFixed(p + "/", contextPath);
  }

  /** `new URL()` leaves a path without `//` or `..` segments and a query sorted by key. */
  lemma {:induction false} ParsedShape(s: string, env: Env)
    requires env.Valid() && Parsed(s, env).Ok?
    ensures var u := Parsed(s, env).value;
      && |u.path| > 0
      && NoDoubleSlash(u.path)
      && (forall x :: x in Segments(u.path) ==> x != "..")
      && SortedByKey(u.query)
  {
    var p := SplitUrl(Expanded(s, env).value);
    NormalizedShape(p.path.GetOr("/"), env.ContextPath());
    if p.query.Some? && Truthy(p.query.value) {
      KSortSorted(ParseStr(p.query.value));
    }
  }

  /** `name:rest` has the scheme `name` when no port-like number follows the colon (`mailto:x`, `tel:123456`). */
  lemma {:induction false} SchemeRecognised(name: string, rest: string)
    requires IsSchemeName(name)
    requires !(rest != "" && rest[0] != '/' && PortAfterColon(rest))
    ensures SchemeOf(name + ":" + rest) == Lead(Some(name), rest, false)
  {
    var s := name + ":" + rest;
    IndexOfFirst(name, ':', rest);
    assert s[..|name|] == name && s[|name| + 1..] == rest;
  }

  /** `host:port` with one to five digits is a host and a port, not a scheme (`a.com:80`). */
  lemma {:induction false} PortNotScheme(host: string, port: string)
    requires IsSchemeName(host) && IsDigits(port) && |port| <= 5
    ensures SchemeOf(host + ":" + port) == Lead(None, host + ":" + port, true)
  {
    var s := host + ":" + port;
    IndexOfFirst(host, ':', port);
    assert s[..|host|] == host && s[|host| + 1..] == port;
    LeadingDigitsAll(port);
  }

  lemma {:induction false} LeadingDigitsAll(s: string)
    requires forall i :: 0 <= i < |s| ==> '0' <= s[i] <= '9'
    ensures LeadingDigits(s) == |s|
    decreases |s|
  {
    if |s| > 0 {
      LeadingDigitsAll(s[1..]);
    }
  }

  /** The first `c` of `a + [c] + b`, where `a` has none, is the one after `a`. */
  lemma {:induction false} IndexOfFirst(a: string, c: char, b: string)
    requires forall j :: 0 <= j < |a| ==> a[j] != c
    ensures IndexOf(a + [c] + b, c) == Some(|a|)
    decreases |a|
  {
    if |a| > 0 {
      assert (a + [c] + b)[1..] == a[1..] + [c] + b;
      IndexOfFirst(a[1..], c, b);
    }
  }
}
