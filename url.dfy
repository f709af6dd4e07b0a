/**
 * The URL value type of src/URL.php: a class whose setters update its six fields, the
 * pure accessors and string builders over the value of those fields (`UrlView`), and
 * the ambient `URLFactory` state made explicit as an `Env`.
 */
module Urls {
  import opened Wrappers
  import opened Strings
  import opened UrlPaths
  import UrlPathProofs
  import opened UrlQueries
  import Base64
  import Percent

  /** The exceptions the URL code throws. */
  datatype UrlError =
    | NoContext   // a relative path, or a bare query or fragment, with no context URL
    | NoSite      // `host()` of a URL without a host when there is no site URL

  /**
   * The value of a URL's fields. An unset scheme or host is "" and an unset port 0:
   * the accessors treat null and these falsy values alike.
   */
  datatype UrlView = UrlView(scheme: string, host: string, port: int, path: string, query: Query, fragment: string)
  {
    /** `path()`: the stored path, URL-decoded. */
    function Path(): string {
      Percent.UrlDecode(path)
    }

    /** `host()`: the host, or the site's host; throws when there is neither. */
    function Host(env: Env): (r: Result<string, UrlError>)
      requires env.Valid()
      ensures r.Err? <==> !Truthy(host) && env.site.None?
      ensures r.Ok? ==> Truthy(r.value)
    {
      if Truthy(host) then Ok(host)
      else if env.site.None? then Err(NoSite)
      else Ok(env.site.value.host)
    }

    /** `port()`: the port, else the server's port, else the scheme's default. */
    function Port(env: Env): int {
      if port != 0 then port
      else env.serverPort.GetOr(if scheme == "https" then 443 else 80)
    }

    /** `extension()`: the lower-case alphanumeric suffix after the last dot of `pathFile()`. */
    function Extension(): (r: Option<string>)
      ensures r.Some? ==> |r.value| > 0 && (forall i :: 0 <= i < |r.value| ==> IsExtensionChar(r.value[i]))
      ensures r.Some? ==> EndsWith(PathFile(path), "." + r.value) && EndsWith(path, "." + r.value)
    {
      var file := PathFile(path);
      if !Truthy(file) then None else ExtensionOf(file)
    }

    /** `inSite()`: the site exists and host, port and path prefix agree with it. */
    predicate InSite(env: Env)
      requires env.Valid()
    {
      match env.site
      case None => false
      case Some(site) =>
        && site.host == Host(env).value
        && site.Port(env) == Port(env)
        && StartsWith(Path(), site.Path())
    }

    /** `siteFullPath()`: the path with the site's path removed, or null outside the site. */
    function SiteFullPath(env: Env): (r: Option<string>)
      requires env.Valid()
      ensures r.Some? <==> InSite(env)
      ensures r.Some? ==> env.site.value.Path() + r.value == Path()
    {
      if InSite(env) then Some(Path()[|env.site.value.Path()|..]) else None
    }

    /** `siteNamespace()`: X when `siteFullPath()` is `~X/...`. */
    function SiteNamespace(env: Env): (r: Option<string>)
      requires env.Valid()
      ensures r.Some? ==> (SiteFullPath(env).Some? && IsNamespace(r.value)
        && StartsWith(SiteFullPath(env).value, "~" + r.value + "/"))
    {
      match SiteFullPath(env)
      case None => None
      case Some(p) => if Truthy(p) then NamespaceOf(p) else None
    }

    /** `sitePath()`: `siteFullPath()` without a leading `~X/`. */
    function SitePath(env: Env): (r: Option<string>)
      requires env.Valid()
      ensures r.Some? <==> InSite(env)
      ensures var ns := SiteNamespace(env);
        if ns.Some? && Truthy(ns.value) then SiteFullPath(env) == Some("~" + ns.value + "/" + r.value)
        else r == SiteFullPath(env)
    {
      var full := SiteFullPath(env);
      var ns := SiteNamespace(env);
      if full.Some? && Truthy(full.value) && ns.Some? && Truthy(ns.value) then
        assert full.value == full.value[..|ns.value| + 2] + full.value[|ns.value| + 2..];
        Some(full.value[|ns.value| + 2..])
      else full
    }

    /**
     * The stored path `setExtension(e)` leaves: the `.ext` suffix replaced by `.e`, or
     * dropped for a falsy `e`; nothing changes when `extension()` is falsy.
     */
    function PathWithExtension(e: string): (r: string)
    {
      var ext := Extension();
      if ext.Some? && Truthy(ext.value) then
        var stem := path[..|path| - |ext.value| - 1];
        if Truthy(e) then stem + ("." + e) else stem
      else path
    }

    /**
     * The string `setSiteNamespace(ns)` hands to `setPath`: the part of `path()` before
     * `siteFullPath()`, then `~ns/` (or `/` for a falsy `ns`), then `sitePath()`.
     */
    function NamespacedPath(ns: string, env: Env): string
      requires env.Valid()
    {
      var full := SiteFullPath(env).GetOr("");
      var pre := Path()[..|Path()| - |full|];
      pre + (if Truthy(ns) then "~" + ns + "/" else "/") + SitePath(env).GetOr("")
    }

    function SchemeString(): string {
      if scheme == "" then "//" else scheme + "://"
    }

    /** `portString()`: `:port` only for http or https on a port other than the scheme's default. */
    function PortString(env: Env): (r: string)
      ensures r != "" <==> (scheme == "https" && Port(env) != 443) || (scheme == "http" && Port(env) != 80)
      ensures r != "" ==> r == ":" + IntToString(Port(env))
    {
      var p := Port(env);
      if scheme == "" && p != 443 && p != 80 then ""
      else if scheme == "https" && p != 443 then ":" + IntToString(p)
      else if scheme == "http" && p != 80 then ":" + IntToString(p)
      else ""
    }

    /** `pathString()`: the encoded path with `%2F` turned back into `/`. */
    function PathString(): string {
      ReplaceAll(Encode(Path()), "%2F", "/")
    }

    /** `queryString()`: `?` and `http_build_query`, or "" for an empty query. */
    function QueryString(): (r: string)
      ensures r == "" <==> |query| == 0
      ensures r != "" ==> r[0] == '?'
    {
      if |query| > 0 then "?" + BuildQuery(query) else ""
    }

    /** `fragmentString()`. */
    function FragmentString(): string {
      if Truthy(fragment) then "#" + Encode(fragment) else ""
    }

    /** `__toString()`; throws through `host()`. */
    function ToString(env: Env): (r: Result<string, UrlError>)
      requires env.Valid()
      ensures r.Err? <==> !Truthy(host) && env.site.None?
      ensures r.Ok? ==> StartsWith(r.value, SchemeString() + Host(env).value)
    {
      match Host(env)
      case Err(e) => Err(e)
      case Ok(h) => Ok(SchemeString() + h + PortString(env) + PathString() + QueryString() + FragmentString())
    }
  }

  /**
   * The ambient `URLFactory` state a URL is read under: the current context URL, the
   * site URL and `$_SERVER['SERVER_PORT']`.
   */
  datatype Env = Env(context: Option<UrlView>, site: Option<UrlView>, serverPort: Option<int>)
  {
    /** The site URL has a host of its own (`host()` on a site without one never returns). */
    predicate Valid() {
      site.Some? ==> Truthy(site.value.host)
    }

    function ContextPath(): Option<string> {
      if context.Some? then Some(context.value.path) else None
    }
  }

  predicate IsExtensionChar(c: char) {
    ('a' <= c <= 'z') || ('0' <= c <= '9')
  }

  // `preg_match('@\.([a-z0-9]+)$@', $file)`: only the text after the last dot can match.
  function ExtensionOf(file: string): (r: Option<string>)
    ensures r.Some? ==> |r.value| > 0 && forall i :: 0 <= i < |r.value| ==> IsExtensionChar(r.value[i])
    ensures r.Some? ==> EndsWith(file, "." + r.value)
  {
    match LastIndexOf(file, '.')
    case None => None
    case Some(k) =>
      var ext := file[k + 1..];
      if |ext| > 0 && forall i :: 0 <= i < |ext| ==> IsExtensionChar(ext[i]) then Some(ext) else None
  }

  /** A namespace: non-empty, without a slash. */
  predicate IsNamespace(x: string) {
    |x| > 0 && forall i :: 0 <= i < |x| ==> x[i] != '/'
  }

  // `preg_replace('/^~([^\/]+)\/.*$/', '$1', $path)` compared with `$path`.
  function NamespaceOf(p: string): (r: Option<string>)
    ensures r.Some? ==> IsNamespace(r.value) && StartsWith(p, "~" + r.value + "/")
  {
    if |p| > 0 && p[0] == '~' then
      match IndexOf(p[1..], '/')
      case Some(k) => if k > 0 then Some(p[1..][..k]) else None
      case None => None
    else None
  }

  /** The position of the first `c` in `s`, if any. */
  function IndexOf(s: string, c: char): (r: Option<nat>)
    ensures r.Some? ==> (r.value < |s| && s[r.value] == c && forall j :: 0 <= j < r.value ==> s[j] != c)
    ensures r.None? ==> forall j :: 0 <= j < |s| ==> s[j] != c
    decreases |s|
  {
    if |s| == 0 then None
    else if s[0] == c then Some(0)
    else match IndexOf(s[1..], c)
      case None => None
      case Some(k) => Some(k + 1)
  }

  /** `encode()`: `urlencode(urldecode($s))` with `+` written as `%20`. */
  function Encode(s: string): string {
    ReplaceAll(Percent.UrlEncode(Percent.UrlDecode(s)), "+", "%20")
  }

  /** `http_build_query`: `key=value` pairs, both URL-encoded, joined by `&`. */
  function BuildQuery(q: Query): string
    decreases |q|
  {
    if |q| == 0 then ""
    else
      var pair := Percent.UrlEncode(q[0].0) + "=" + Percent.UrlEncode(q[0].1);
      if |q| == 1 then pair else pair + "&" + BuildQuery(q[1..])
  }

  // ---- fixSlashes ----

  /**
   * The test `fixSlashes()` applies to `path()` as written: the path is not `favicon.ico`
   * and ends neither in `/` nor in `.html`.
   */
  predicate NeedsSlashAsWritten(p: string) {
    p != "favicon.ico" && !EndsWith(p, "/") && !EndsWith(p, ".html")
  }

  /** The same test with the favicon exemption on the path `path()` actually returns for it. */
  predicate NeedsSlash(p: string) {
    p != "/favicon.ico" && !EndsWith(p, "/") && !EndsWith(p, ".html")
  }

  // ---- URL-safe base64 ----

  /** `strtr($s, '+/', '-_')` on one character. */
  function UrlSafe(c: char): char {
    if c == '+' then '-' else if c == '/' then '_' else c
  }

  /** `strtr($s, '-_', '+/')` on one character. */
  function Standard(c: char): char {
    if c == '-' then '+' else if c == '_' then '/' else c
  }

  /** `rtrim($s, '=')`. */
  function TrimPadding(s: string): (r: string)
    ensures |r| == 0 || r[|r| - 1] != '='
    decreases |s|
  {
    if |s| > 0 && s[|s| - 1] == '=' then TrimPadding(s[..|s| - 1]) else s
  }

  /** `str_pad($s, $n, '=', STR_PAD_RIGHT)`: pads only up to a length greater than `|s|`. */
  function PadRight(s: string, n: int): (r: string)
    ensures |r| == if n > |s| then n else |s|
    decreases n - |s|
  {
    if n > |s| then PadRight(s + "=", n) else s
  }

  /** `URL::base64_encode`: base64 with `-` and `_` for `+` and `/`, without padding. */
  function Base64UrlEncode(data: string): (r: string)
    requires Base64.IsBytes(data)
  {
    var t := Base64.Encode(data);
    TrimPadding(seq(|t|, i requires 0 <= i < |t| => UrlSafe(t[i])))
  }

  /** `URL::base64_decode`: back to the standard alphabet, padded to `strlen % 4`, decoded. */
  function Base64UrlDecode(data: string): (r: string)
  {
    var t := seq(|data|, i requires 0 <= i < |data| => Standard(data[i]));
    Base64.Decode(PadRight(t, |data| % 4))
  }

  // ---- parse_url, parse_str and the string `new URL()` parses ----

  /** The components `parse_url` reports; a key it leaves out is `None`. */
  datatype Parts = Parts(
    scheme: Option<string>, host: Option<string>, port: Option<int>,
    path: Option<string>, query: Option<string>, fragment: Option<string>)

  /** `s` cut at its first `c`: the text before, and the text after if `c` occurs. */
  function CutAt(s: string, c: char): (r: (string, Option<string>))
    ensures r.1.None? ==> r.0 == s && forall j :: 0 <= j < |s| ==> s[j] != c
    ensures r.1.Some? ==> s == r.0 + [c] + r.1.value && forall j :: 0 <= j < |r.0| ==> r.0[j] != c
  {
    match IndexOf(s, c)
    case None => (s, None)
    case Some(k) =>
      assert s == s[..k] + [c] + s[k + 1..];
      (s[..k], Some(s[k + 1..]))
  }

  predicate IsSchemeChar(c: char) {
    ('a' <= c <= 'z') || ('A' <= c <= 'Z') || ('0' <= c <= '9') || c == '+' || c == '-' || c == '.'
  }

  /** A scheme as `parse_url` accepts one: letters, digits, `+`, `-` and `.`, at least one. */
  predicate IsSchemeName(s: string) {
    |s| > 0 && forall i :: 0 <= i < |s| ==> IsSchemeChar(s[i])
  }

  predicate IsDigits(s: string) {
    |s| > 0 && forall i :: 0 <= i < |s| ==> '0' <= s[i] <= '9'
  }

  /** The number of decimal digits at the start of `s`. */
  function LeadingDigits(s: string): (n: nat)
    ensures n <= |s| && forall i :: 0 <= i < n ==> '0' <= s[i] <= '9'
    ensures n < |s| ==> !('0' <= s[n] <= '9')
    decreases |s|
  {
    if |s| > 0 && '0' <= s[0] <= '9' then 1 + LeadingDigits(s[1..]) else 0
  }

  /** Text after `name:` that `parse_url` takes for a port: one to five digits, then the end or a `/`. */
  predicate PortAfterColon(after: string) {
    var d := LeadingDigits(after);
    1 <= d <= 5 && (d == |after| || after[d] == '/')
  }

  /** The host and port of an authority `host[:port]`. */
  function HostPort(auth: string): (r: (string, Option<int>))
    ensures r.1.None? ==> r.0 == auth
    ensures r.1.Some? ==> StartsWith(auth, r.0 + ":")
  {
    match LastIndexOf(auth, ':')
    case Some(k) =>
      if IsDigits(auth[k + 1..]) then
        assert auth[..k + 1] == auth[..k] + ":";
        (auth[..k], Some(DigitsValue(auth[k + 1..])))
      else (auth, None)
    case None => (auth, None)
  }

  /**
   * How `parse_url` reads the text before the query: a scheme and what follows its colon, or,
   * when a port-like number follows the colon, no scheme and an authority `host:port` at once.
   */
  datatype Lead = Lead(scheme: Option<string>, hier: string, authority: bool)

  /**
   * The scheme of `s`: a valid scheme name before the first `:`, unless one to five digits
   * follow the colon up to the end or a `/` (`a.com:80/x`), which make a host and a port.
   */
  function SchemeOf(s: string): (r: Lead)
    ensures r.scheme.None? ==> r.hier == s
    ensures r.scheme.Some? ==> s == r.scheme.value + ":" + r.hier && IsSchemeName(r.scheme.value)
    ensures r.scheme.Some? ==> !(r.hier != "" && r.hier[0] != '/' && PortAfterColon(r.hier))
    ensures r.authority ==> r.scheme.None?
  {
    match IndexOf(s, ':')
    case Some(k) =>
      if IsSchemeName(s[..k]) then
        var after := s[k + 1..];
        assert s == s[..k] + ":" + after;
        if after != "" && after[0] != '/' && PortAfterColon(after) then Lead(None, s, true)
        else Lead(Some(s[..k]), after, false)
      else Lead(None, s, false)
    case None => Lead(None, s, false)
  }

  /**
   * `parse_url($s)`: the fragment after the first `#`, the query after the first `?`, then
   * the scheme as `SchemeOf` reads it; an authority after `//` (or straight away in the port
   * case) runs up to the next `/`, and the rest is the path.
   */
  function SplitUrl(s: string): (p: Parts)
  {
    var (beforeFragment, fragment) := CutAt(s, '#');
    var (rest, query) := CutAt(beforeFragment, '?');
    var lead := SchemeOf(rest);
    if lead.authority || StartsWith(lead.hier, "//") then
      var (auth, path) := CutAt(if lead.authority then lead.hier else lead.hier[2..], '/');
      var (host, port) := HostPort(auth);
      Parts(lead.scheme, Some(host), port, if path.Some? then Some("/" + path.value) else None, query, fragment)
    else
      Parts(lead.scheme, None, None, if lead.hier == "" then None else Some(lead.hier), query, fragment)
  }

  /** `s` without its leading spaces. */
  function DropLeadingSpaces(s: string): (r: string)
    ensures |r| == 0 || r[0] != ' '
    ensures |r| <= |s| && r == s[|s| - |r|..]
    decreases |s|
  {
    if |s| > 0 && s[0] == ' ' then DropLeadingSpaces(s[1..]) else s
  }

  /** ` ` and `.` made `_`, as `parse_str` does in a variable name. */
  function Underscored(s: string): (r: string)
    ensures |r| == |s|
    ensures ' ' !in r && '.' !in r
    ensures forall i :: 0 <= i < |r| ==> (r[i] == s[i] || (r[i] == '_' && (s[i] == ' ' || s[i] == '.')))
    ensures '\0' !in s ==> '\0' !in r
    ensures '[' !in s ==> '[' !in r
  {
    seq(|s|, i requires 0 <= i < |s| => if s[i] == ' ' || s[i] == '.' then '_' else s[i])
  }

  /**
   * The key `parse_str` registers for a decoded name, or "" when it registers none: leading
   * spaces are dropped, the name ends at a NUL byte, and ` ` and `.` become `_` up to the first
   * `[`. A name starting with `[` is dropped; a `[` with no later `]` becomes `_` and the rest is
   * kept as it is; a `[` closed by a `]` starts an array index, kept here in the key.
   */
  function QueryKey(name: string): (k: string)
    ensures '\0' !in k
    ensures k != "" ==> k[0] != ' ' && k[0] != '['
    ensures '[' !in name ==> ' ' !in k && '.' !in k && '[' !in k
  {
    var t := NameText(name);
    match CutAt(t, '[')
    case (_, None) => Underscored(t)
    case (before, Some(after)) =>
      assert t[|before|] == '[';
      if before == "" then ""
      else if ']' in after then Underscored(before) + "[" + after
      else Underscored(before) + "_" + after
  }

  /** The name as PHP's C code reads it: without its leading spaces, and up to its first NUL. */
  function NameText(name: string): (t: string)
    ensures '\0' !in t
    ensures t != "" ==> t[0] != ' '
    ensures forall c :: c in t ==> c in name
  {
    var s := DropLeadingSpaces(name);
    var t := CutAt(s, '\0').0;
    assert t == s[..|t|];
    SliceChars(name, |name| - |s|, |name| - |s| + |t|);
    t
  }

  lemma SliceChars(s: string, i: nat, j: nat)
    requires i <= j <= |s|
    ensures forall c :: c in s[i..j] ==> c in s
  {
    forall c | c in s[i..j] ensures c in s {
      var k :| 0 <= k < j - i && s[i..j][k] == c;
      assert s[i + k] == c;
    }
  }

  /** `$arr[$k] = $v`: an existing key keeps its place and takes the new value; a new key goes last. */
  function Assign(q: Query, k: string, v: string): (r: Query)
    ensures DistinctKeys(q) ==> DistinctKeys(r)
    ensures (k, v) in r
    ensures forall i :: 0 <= i < |r| ==> r[i] == (k, v) || r[i] in q
    ensures forall i :: 0 <= i < |q| && q[i].0 != k ==> q[i] in r
    decreases |q|
  {
    if |q| == 0 then [(k, v)]
    else if q[0].0 == k then [(k, v)] + q[1..]
    else
      var rest := Assign(q[1..], k, v);
      assert forall i :: 0 <= i < |rest| ==> rest[i] == (k, v) || rest[i] in q[1..];
      [q[0]] + rest
  }

  /** One `name=value` piece of a query string, registered into `q`. */
  function Register(q: Query, piece: string): Query {
    var (name, value) := CutAt(piece, '=');
    var k := QueryKey(Percent.UrlDecode(name));
    if k == "" then q else Assign(q, k, Percent.UrlDecode(value.GetOr("")))
  }

  function RegisterAll(q: Query, pieces: seq<string>): (r: Query)
    ensures DistinctKeys(q) ==> DistinctKeys(r)
    decreases |pieces|
  {
    if |pieces| == 0 then q else RegisterAll(Register(q, pieces[0]), pieces[1..])
  }

  /** `parse_str($s, $query)`: the `&`-separated pieces registered left to right. */
  function ParseStr(s: string): (r: Query)
    ensures DistinctKeys(r)
  {
    RegisterAll([], Split(s, '&'))
  }

  /** A URL as PHP prints it into a string, and a missing one as "". */
  function Printed(u: Option<UrlView>, env: Env): Result<string, UrlError>
    requires env.Valid()
  {
    if u.None? then Ok("") else u.value.ToString(env)
  }

  /**
   * The string `new URL($s)` hands to `parse_url`. `preg_replace` converts the site and
   * the context URL to strings before it matches, so both are printed for every input.
   */
  function Expanded(s: string, env: Env): (r: Result<string, UrlError>)
    requires env.Valid()
  {
    var site :- Printed(env.site, env);
    var s1 := if StartsWith(s, "@/") then site + s[2..] else s;
    var context :- Printed(env.context, env);
    var s2 := if StartsWith(s1, "@ctx/") then context + s1[5..] else s1;
    var s3 :- QueryRelative(s2, env);
    FragmentRelative(s3, env)
  }

  /** A string starting with `?` is prefixed with the context URL without its query. */
  function QueryRelative(s: string, env: Env): Result<string, UrlError>
    requires env.Valid()
  {
    if !StartsWith(s, "?") then Ok(s)
    else if env.context.None? then Err(NoContext)
    else var c :- env.context.value.(query := []).ToString(env); Ok(c + s)
  }

  /** A string starting with `#` is prefixed with the context URL without its fragment. */
  function FragmentRelative(s: string, env: Env): Result<string, UrlError>
    requires env.Valid()
  {
    if !StartsWith(s, "#") then Ok(s)
    else if env.context.None? then Err(NoContext)
    else var c :- env.context.value.(fragment := "").ToString(env); Ok(c + s)
  }

  /** The fields `new URL($s)` ends up with, or the exception it throws. */
  function Parsed(s: string, env: Env): (r: Result<UrlView, UrlError>)
    requires env.Valid()
  {
    var str :- Expanded(s, env);
    Components(SplitUrl(str), env)
  }

  /** The fields set from the pieces `parse_url` finds in the expanded string. */
  function Components(p: Parts, env: Env): (r: Result<UrlView, UrlError>)
    requires env.Valid()
  {
    var scheme := if p.scheme.Some? && Truthy(p.scheme.value) then p.scheme.value else "";
    var host := if p.host.Some? && Truthy(p.host.value) then p.host.value else "";
    var port := if p.port.Some? && p.port.value != 0 then p.port.value else 0;
    match NormalizePath(p.path.GetOr("/"), env.ContextPath())
    case Err(_) => Err(NoContext)
    case Ok(path) =>
      var query := if p.query.Some? && Truthy(p.query.value) then KSort(ParseStr(p.query.value)) else [];
      Ok(UrlView(scheme, host, port, path, query, p.fragment.GetOr("")))
  }

  /** One more entry of the input is one more insertion. */
  lemma {:induction false} KSortStep(q: Query, i: nat)
    requires i < |q|
    ensures KSort(q[..i + 1]) == Insert(KSort(q[..i]), q[i])
  {
    var p := q[..i + 1];
    assert p[..|p| - 1] == q[..i];
    assert p[|p| - 1] == q[i];
  }

  // ---- the object ----

  /** Whether the traversal loop has cleared slot `j` once it has looked at the slots before `i`. */
  predicate ClearedBefore(segs: seq<Option<string>>, i: int, j: int)
    requires 0 <= j < |segs|
  {
    (j < i && segs[j] == Some("..")) || (j + 1 < i && j + 1 < |segs| && segs[j + 1] == Some(".."))
  }

  /** Looking at slot `i` clears it and the slot before it exactly when it holds "..". */
  lemma ClearedStep(segs: seq<Option<string>>, i: int)
    requires 0 <= i < |segs|
    ensures forall j :: 0 <= j < |segs| ==>
      (ClearedBefore(segs, i + 1, j) <==> ClearedBefore(segs, i, j) || (segs[i] == Some("..") && (j == i || j + 1 == i)))
  {
    forall j | 0 <= j < |segs|
      ensures ClearedBefore(segs, i + 1, j) <==> ClearedBefore(segs, i, j) || (segs[i] == Some("..") && (j == i || j + 1 == i))
    {
      if j + 1 == i {
        assert segs[j + 1] == segs[i];
      }
    }
  }

  /** A URL object; its setters update the six fields in place. */
  class Url {
    var scheme: string
    var host: string
    var port: int
    var path: string
    var query: Query
    var fragment: string

    function View(): UrlView
      reads this
    {
      UrlView(scheme, host, port, path, query, fragment)
    }

    /** The fields before `__construct` sets any: null, which the accessors read as "" and 0. */
    constructor Blank()
      ensures View() == UrlView("", "", 0, "", [], "")
    {
      scheme, host, port, path, query, fragment := "", "", 0, "", [], "";
    }

    /**
     * `new URL($s)`: expand the prefixes, split the string and set each component that
     * is present, the path always (as "/" when absent) and the query only when truthy.
     */
    static method Parse(s: string, env: Env) returns (r: Result<Url, UrlError>)
      requires env.Valid()
      ensures r.Ok? <==> Parsed(s, env).Ok?
      ensures r.Ok? ==> fresh(r.value) && r.value.View() == Parsed(s, env).value
      ensures r.Err? ==> r.error == Parsed(s, env).error
    {
      var expanded := Expanded(s, env);
      if expanded.Err? {
        return Err(expanded.error);
      }
      assert Parsed(s, env) == Components(SplitUrl(expanded.value), env);
      r := FromComponents(SplitUrl(expanded.value), env);
    }

    /** The setter calls of `new URL($s)` once the string is expanded. */
    static method FromComponents(p: Parts, env: Env) returns (r: Result<Url, UrlError>)
      requires env.Valid()
      ensures r.Ok? <==> Components(p, env).Ok?
      ensures r.Ok? ==> fresh(r.value) && r.value.View() == Components(p, env).value
      ensures r.Err? ==> r.error == Components(p, env).error
    {
      ghost var scheme := if p.scheme.Some? && Truthy(p.scheme.value) then p.scheme.value else "";
      ghost var host := if p.host.Some? && Truthy(p.host.value) then p.host.value else "";
      ghost var port := if p.port.Some? && p.port.value != 0 then p.port.value else 0;
      var u := new Url.Blank();
      if p.scheme.Some? && Truthy(p.scheme.value) {
        u.SetScheme(p.scheme.value);
      }
      if p.host.Some? && Truthy(p.host.value) {
        u.SetHost(p.host.value);
      }
      if p.port.Some? && p.port.value != 0 {
        u.SetPort(p.port.value);
      }
      assert u.View() == UrlView(scheme, host, port, "", [], "");
      var placed := u.SetPath(p.path.GetOr("/"), env);
      if placed.Err? {
        return Err(placed.error);
      }
      ghost var path := NormalizePath(p.path.GetOr("/"), env.ContextPath()).value;
      assert u.View() == UrlView(scheme, host, port, path, [], "");
      ghost var query := if p.query.Some? && Truthy(p.query.value) then KSort(ParseStr(p.query.value)) else [];
      assert Components(p, env) == Ok(UrlView(scheme, host, port, path, query, p.fragment.GetOr("")));
      if p.query.Some? && Truthy(p.query.value) {
        u.SetQuery(ParseStr(p.query.value));
      }
      assert u.View() == UrlView(scheme, host, port, path, query, "");
      u.SetFragment(p.fragment.GetOr(""));
      r := Ok(u);
    }

    method SetScheme(s: string)
      modifies this
      ensures View() == old(View()).(scheme := s)
    {
      scheme := s;
    }

    method SetHost(h: string)
      modifies this
      ensures View() == old(View()).(host := h)
    {
      host := h;
    }

    method SetPort(p: int)
      modifies this
      ensures View() == old(View()).(port := p)
    {
      port := p;
    }

    method SetFragment(f: string)
      modifies this
      ensures View() == old(View()).(fragment := f)
    {
      fragment := f;
    }

    /**
     * `setPath($input)`: the segment array is built by `Placed`; the traversal loop then
     * clears, for each ".." of the array as it was, that slot and the one before it.
     */
    method SetPath(input: string, env: Env) returns (r: Result<(), UrlError>)
      modifies this
      ensures r.Ok? <==> NormalizePath(input, env.ContextPath()).Ok?
      ensures r.Ok? ==> View() == old(View()).(path := NormalizePath(input, env.ContextPath()).value)
      ensures r.Err? ==> r.error == NoContext && View() == old(View())
    {
      var placed := Placed(input, env.ContextPath());
      if placed.Err? {
        return Err(NoContext);
      }
      var segs := placed.value;
      var cur := segs;
      var i := 0;
      while i < |segs|
        invariant 0 <= i <= |segs| && |cur| == |segs|
        invariant forall j :: 0 <= j < |segs| ==> cur[j] == (if ClearedBefore(segs, i, j) then None else segs[j])
        invariant unchanged(this)
      {
        if segs[i] == Some("..") {
          if i > 0 {
            cur := cur[i - 1 := None];
          }
          cur := cur[i := None];
        }
        ClearedStep(segs, i);
        i := i + 1;
      }
      assert cur == Resolved(segs);
      assert NormalizePath(input, env.ContextPath()) == Ok(Rejoin(Kept(cur)));
      path := Rejoin(Kept(cur));
      r := Ok(());
    }

    /** `setQuery($query)`: `ksort`, by inserting the entries one at a time into a sorted prefix. */
    method SetQuery(q: Query)
      requires DistinctKeys(q)
      modifies this
      ensures View() == old(View()).(query := KSort(q))
      ensures SortedByKey(query) && multiset(query) == multiset(q)
    {
      var sorted: Query := [];
      var i := 0;
      while i < |q|
        invariant 0 <= i <= |q|
        invariant sorted == KSort(q[..i])
        invariant unchanged(this)
      {
        KSortStep(q, i);
        sorted := Insert(sorted, q[i]);
        i := i + 1;
      }
      assert q[..|q|] == q;
      KSortSorted(q);
      query := sorted;
      assert query == KSort(q);
    }

    /** `setExtension($e)`. */
    method SetExtension(e: string)
      modifies this
      ensures View() == old(View()).(path := old(View()).PathWithExtension(e))
    {
      path := View().PathWithExtension(e);
    }

    /** `setSiteNamespace($ns)`: `setPath` of the path rebuilt around the new namespace. */
    method SetSiteNamespace(ns: string, env: Env) returns (r: Result<(), UrlError>)
      requires env.Valid()
      modifies this
      ensures var n := NormalizePath(old(View()).NamespacedPath(ns, env), env.ContextPath());
        && (r.Ok? <==> n.Ok?)
        && (r.Ok? ==> View() == old(View()).(path := n.value))
        && (r.Err? ==> View() == old(View()))
    {
      r := SetPath(View().NamespacedPath(ns, env), env);
    }

    /** `fixSlashes()` as written: append a slash, through `setPath`, when `NeedsSlashAsWritten`. */
    method FixSlashes(env: Env) returns (r: Result<(), UrlError>)
      modifies this
      ensures !NeedsSlashAsWritten(old(View()).Path()) ==> r.Ok? && View() == old(View())
      ensures NeedsSlashAsWritten(old(View()).Path()) ==>
        var n := NormalizePath(old(View()).Path() + "/", env.ContextPath());
        && (r.Ok? <==> n.Ok?)
        && (r.Ok? ==> View() == old(View()).(path := n.value))
        && (r.Err? ==> View() == old(View()))
    {
      var p := View().Path();
      if NeedsSlashAsWritten(p) {
        r := SetPath(p + "/", env);
      } else {
        r := Ok(());
      }
    }

    /** `fixSlashes()` with the favicon exemption on `/favicon.ico`, the path `path()` returns for it. */
    method FixSlashesCorrected(env: Env) returns (r: Result<(), UrlError>)
      modifies this
      ensures !NeedsSlash(old(View()).Path()) ==> r.Ok? && View() == old(View())
      ensures NeedsSlash(old(View()).Path()) ==>
        var n := NormalizePath(old(View()).Path() + "/", env.ContextPath());
        && (r.Ok? <==> n.Ok?)
        && (r.Ok? ==> View() == old(View()).(path := n.value))
        && (r.Err? ==> View() == old(View()))
    {
      var p := View().Path();
      if NeedsSlash(p) {
        r := SetPath(p + "/", env);
      } else {
        r := Ok(());
      }
    }
  }
}
