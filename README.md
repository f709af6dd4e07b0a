# Leafcutter core, modelled in Dafny

Leafcutter is a PHP site builder. This project models four parts of its core and proves
properties of them:

- **The URL value type** (`src/URL.php`). `new URL($s)` expands the `@/` and `@ctx/`
  prefixes and splits the string. `setPath` normalises the path against the context URL:
  it collapses slashes, strips `index.html`, resolves `.` and `..`. The module also covers:
  - the string builders and `encode`;
  - the site accessors: `inSite`, `siteFullPath`, `siteNamespace`, `sitePath`;
  - the setters, `setExtension`, `setSiteNamespace` and `fixSlashes`;
  - the URL-safe base64 pair.

  The ambient `URLFactory` state is an explicit `Env`: the context URL, the site URL and
  the server port. A URL object is the class `Urls.Url`, whose setters update its six
  fields. The pure accessors work on the value of those fields (`Urls.UrlView`).
- **The DOM transformation engine** (`src/DOM/DOMProvider.php`):
  - the recursive event walk `dispatchEvents`, which fires two events per node, skips
    "off" subtrees, begins and ends URL contexts, and applies deletes and replacements;
  - the link listeners (page, then asset, then image) and `mailto:` obfuscation;
  - `bodyOnly`, the comment context markers, the `html` pipeline and its two regex
    fixups. The pipeline as written (`DomHtml.HtmlAsWritten`) is what `onResponseReady`
    and `onPageGenerateContent_finalize` run. The corrected one (`DomHtml.HtmlCorrected`)
    walks replacements and bounds the tag fixup.

  The tree is a datatype. Listeners, repositories, `loadHTML`/`saveHTML` and
  replacement parsing are function parameters. The loops of `dispatchEvents` are
  methods, proved to compute the recursive walk that the lemmas are about.
- **The theme asset registry** (`src/Themes/ThemeProvider.php`). It is the class
  `Themes.ThemeProvider`. Its asset table is an insertion-ordered PHP array, a list of
  key/entry pairs. The model covers:
  - `addAsset`, `addJs`, `addCss` and `filter`;
  - the grouping of `bundle_assets`;
  - `cssHtml` with its inlining budget, `jsHtml`, `jsLoader` and `getHeadHtml`;
  - package priority in `setPackage`;
  - theme registration.
- **The addon registry** (`src/Addons/AddonProvider.php`). It is the class
  `Addons.AddonProvider`, with the maps `addons`, `classes`, `interfaces` and the ordered
  `provides` array. The model covers `requireInterface`, `register`, `get` and `load`.
  `load` checks interfaces and resolves requirements through the newest provider.
  Reflection is a catalog: the class name, provided names, requirements and implemented
  interfaces of each class.

Each class method is proved against a specification function of the old state (the
specification is the function its `ensures` names). The lemmas state what the source
promises about those functions.

Shared pieces:
- `wrappers.dfy` holds `Option` and `Result`.
- `strings.dfy` holds `explode`/`implode`, `trim`, `strrpos`, byte order and PHP truthiness.
- `base64.dfy` holds `base64_encode`/`base64_decode` (section 4 of RFC 4648).
- `percent.dfy` holds `urlencode`/`urldecode` (section 2.1 of RFC 3986).
- `php_array.dfy` holds ordered PHP arrays with string keys.

## Model

| member | source | states |
|---|---|---|
| Strings.Trim | src/DOM/DOMProvider.php:256-260 | `trim` leaves a result that neither starts nor ends with whitespace |
| Strings.TrimBounds | src/DOM/DOMProvider.php:256-260 | `trim` cuts a prefix and a suffix made only of whitespace: the result is the slice between the two bounds it names |
| Strings.TrimSlice | src/DOM/DOMProvider.php:256-260 | the result of `trim` is a slice of its input, and what lies outside the slice is whitespace |
| Strings.Split | src/URL.php:304 | `explode('/', $p)` gives at least one piece, no piece holds the delimiter, and the pieces joined give the input back |
| Strings.SplitJoin | src/URL.php:304-330 | exploding the implosion of delimiter-free pieces gives the pieces back |
| Strings.JoinSplit | src/URL.php:304-330 | imploding the explosion of a string gives the string back |
| Strings.SplitSnoc | src/URL.php:304 | exploding `p + "/"` gives the pieces of `p` and one more, empty piece |
| Strings.JoinSnoc | src/URL.php:330 | imploding pieces plus one more piece appends `/` and that piece |
| Strings.SplitNoDelimiter | src/URL.php:304 | a string without `/` explodes into itself alone |
| Strings.LastIndexOf | src/URL.php:276 | the index of the last occurrence of a character, or none when it does not occur |
| Strings.LastIndexOfAppend | src/URL.php:276 | appending text without the character keeps its last occurrence where it was |
| Strings.LessIrreflexive | src/URL.php:533 | the byte order `ksort` uses is irreflexive |
| Strings.LessTransitive | src/URL.php:533 | the byte order `ksort` uses is transitive |
| Strings.LessTotal | src/URL.php:533 | of two distinct keys, one is less than the other |
| Strings.NatToString | src/Themes/ThemeProvider.php:380 | the decimal numeral of a bundle number is non-empty and made of digits |
| Strings.NatToStringValue | src/Themes/ThemeProvider.php:380 | the numeral read back in decimal is the bundle number, and only 0 begins with `0` |
| Strings.NatToStringInjective | src/Themes/ThemeProvider.php:380 | different bundle numbers get different numerals, so the keys `bundle <k>: ...` differ in their number |
| Base64.IndexOf | src/URL.php:94 | a character's alphabet value is -1 or a value whose letter is that character |
| Base64.IndexOfLetter | src/URL.php:94 | the alphabet value of letter `v` is `v` |
| Base64.Sextets | src/URL.php:83 | three bytes become four six-bit groups; a final one or two bytes become two or three |
| Base64.Encode | src/URL.php:83 | `base64_encode` output has a length that is a multiple of four |
| Base64.Decode | src/URL.php:94 | non-strict `base64_decode` always yields bytes |
| Base64.FromSextetsOfSextets | src/URL.php:83-94 | regrouping the six-bit groups of a byte string gives the bytes back |
| Base64.ValuesOfChars | src/URL.php:83-94 | reading back the letters of six-bit groups gives the groups |
| Base64.ValuesSkipPadding | src/URL.php:94 | `=` padding is skipped by the decoder |
| Base64.DecodeEncode | src/URL.php:83-94 | `base64_decode(base64_encode($s)) === $s` for every byte string |
| Base64.EncodeAlphabet | src/URL.php:83 | every output character is an alphabet letter or the pad |
| Percent.UrlEncodeNoSpace | src/URL.php:165 | `urlencode` output holds no space |
| Percent.UrlEncodeChars | src/URL.php:165 | every character `urlencode` writes is unreserved, `+` or `%` |
| Percent.UrlDecodeEncode | src/URL.php:165 | `urldecode(urlencode($s)) === $s` for every byte string |
| Percent.UrlDecodePlain | src/URL.php:466-469 | `urldecode` changes nothing in a string without `%` or `+` |
| Percent.UrlDecodeBytes | src/URL.php:466-469 | `urldecode` of bytes is bytes |
| Percent.ReplacePlusOfEncode | src/URL.php:165 | replacing `+` by `%20` in `urlencode` output writes exactly the spaces as `%20` |
| Percent.UrlDecodeRawEncode | src/URL.php:165 | `urldecode` inverts the `%20`-for-space encoding too |
| UrlPaths.CollapseSlashes | src/URL.php:302 | every run of slashes becomes one: the result has no `//`, keeps the first character and is no longer than the input |
| UrlPaths.PathFile | src/URL.php:274-277 | `pathFile()` is slash-free, ends the path, and follows its last slash (or is the whole path) |
| UrlPaths.Marked | src/URL.php:305-307 | the `.` entries become holes; all others are kept in their slots |
| UrlPaths.Present | src/URL.php:318 | `array_merge` closes the holes |
| UrlPaths.Resolved | src/URL.php:321-325 | slot `j` is cleared exactly when it or the slot after it held `..` in the array as it was before the loop |
| UrlPathProofs.CollapseSegments | src/URL.php:302 | collapsing slashes keeps the first segment and only drops empty segments |
| UrlPathProofs.CollapseNoDoubleSlash | src/URL.php:302 | a path without `//` is left alone by the collapse |
| UrlPathProofs.CollapseLastSlash | src/URL.php:302 | the collapse keeps a trailing slash |
| UrlPathProofs.CollapseKeepsLastSegment | src/URL.php:302 | the collapse keeps a last segment `/w` |
| UrlPathProofs.PresentSnoc | src/URL.php:318 | closing holes works entry by entry at the end |
| UrlPathProofs.KeptSnoc | src/URL.php:326-328 | the final filter works entry by entry at the end |
| UrlPathProofs.PlacedEndsEmpty | src/URL.php:302-319 | an input ending in `/` leaves an empty last segment in the array |
| UrlPathProofs.StripIndexHtmlSlash | src/URL.php:303 | a trailing `/index.html` becomes a trailing `/` |
| UrlPathProofs.NormalizePathOfPlaced | src/URL.php:299-336 | `setPath`'s result is the placed array resolved, filtered and rejoined |
| UrlPathProofs.RejoinEndsWithSlash | src/URL.php:330-334 | rejoining segments that end in an empty one gives a path ending in `/` |
| UrlPathProofs.KeptEndsEmpty | src/URL.php:321-328 | the traversal keeps an empty last segment |
| UrlPathProofs.IndexHtmlGivesDirectory | src/URL.php:303 | an input ending in `/index.html` gives a path ending in `/` |
| UrlPathProofs.KeptMember | src/URL.php:326-328 | whatever the filter keeps was in the array |
| UrlPathProofs.PresentMember | src/URL.php:318 | whatever `array_merge` keeps was in the array |
| UrlPathProofs.PlacedSlashFree | src/URL.php:304-319 | every segment placed in the array is slash-free |
| UrlPathProofs.RejoinSegments | src/URL.php:330-331 | the rejoined path's segments are empty or were kept |
| UrlPathProofs.NormalizedShape | src/URL.php:299-336 | after `setPath` the path is non-empty, has no `//` and no `..` segment; an absolute input leaves no `.` segment either |
| UrlPathProofs.KeptAll | src/URL.php:326-328 | an array without holes is kept whole |
| UrlPathProofs.NormalIsFixed | src/URL.php:299-336 | an absolute path that is already normal is left unchanged by `setPath` |
| UrlPathExamples.DoubleTraversal | src/URL.php:321-325 | example: `/a/b/../../c` gives `/a/c`: each `..` clears only the slot before it, using the original values |
| UrlPathExamples.ParentAtRoot | src/URL.php:321-334 | example: `/../a` gives `a`: the root's empty segment is cleared too |
| UrlPathExamples.ContextRelative | src/URL.php:309-325 | example: with the context `/a/b/`, the relative input `../c` gives `/a/c` |
| UrlPathExamples.RelativeWithoutContext | src/URL.php:309-313 | example: a relative input without a context throws |
| UrlQueries.Insert | src/URL.php:533 | inserting an entry adds exactly that entry |
| UrlQueries.KSort | src/URL.php:533 | `ksort` permutes the entries |
| UrlQueries.InsertSorted | src/URL.php:533 | inserting a new key into a key-sorted list keeps it sorted |
| UrlQueries.KSortSorted | src/URL.php:533 | `ksort` of distinct keys orders them strictly |
| UrlQueries.SortedUnique | src/URL.php:533 | there is only one sorted order of a set of distinct-keyed entries |
| Urls.UrlView.Host | src/URL.php:436-446 | `host()` throws exactly when the URL has no host and there is no site; otherwise it returns a truthy host |
| Urls.UrlView.Extension | src/URL.php:128-136 | `extension()` is a non-empty `[a-z0-9]+` suffix after a dot at the end of `pathFile()` and of the path |
| Urls.UrlView.SiteFullPath | src/URL.php:260-267 | `siteFullPath()` is non-null exactly when the URL is in the site, and is then the path with the site's path removed from its front |
| Urls.UrlView.SiteNamespace | src/URL.php:205-213 | a namespace X is returned only when `siteFullPath()` starts with `~X/` and X is non-empty and slash-free |
| Urls.UrlView.SitePath | src/URL.php:190-197 | `sitePath()` is non-null exactly in the site; with a truthy namespace X, `siteFullPath()` is `~X/` followed by it, and otherwise it equals `siteFullPath()` |
| Urls.UrlView.PortString | src/URL.php:368-379 | the port is shown exactly for https on a port other than 443 and for http on a port other than 80, as `":" + port` |
| Urls.UrlView.QueryString | src/URL.php:397-404 | the query string is empty exactly for an empty query, and otherwise starts with `?` |
| QueryProofs.QueryStringParses | src/URL.php:397-404 | partner of `queryString`: `parse_str` of what follows the `?` gives the query back, for queries whose keys are distinct, non-empty and hold no space, dot, `[` or NUL |
| QueryProofs.ParseBuiltQuery | src/URL.php:400 | `parse_str(http_build_query(q))` is `q` for queries of distinct, non-empty keys without space, dot, `[` or NUL |
| QueryProofs.RegisterPieces | src/URL.php:400 | reading the `key=value` pieces one after the other rebuilds the array in order |
| QueryProofs.PlainKeyKept | src/URL.php:400 | a non-empty key without space, dot, `[` or NUL is registered by `parse_str` as it is |
| QueryProofs.UnmatchedBracketKey | src/URL.php:62 | `parse_str` turns a `[` that no `]` follows into `_` and keeps the text after it as it is |
| Urls.UrlView.ToString | src/URL.php:102-111 | the string fails exactly when the host is falsy and there is no site to take it from; otherwise it starts with the scheme and that host |
| Urls.ExtensionOf | src/URL.php:131-132 | the match is a non-empty `[a-z0-9]+` run after the last dot at the end of the file name |
| Urls.NamespaceOf | src/URL.php:208-209 | the namespace is non-empty, slash-free, and the path starts with `~` + it + `/` |
| Urls.TrimPadding | src/URL.php:83 | `rtrim($s, '=')` leaves no trailing `=` |
| Urls.PadRight | src/URL.php:94 | `str_pad` pads only up to a length greater than the string's |
| Urls.CutAt | src/URL.php:46 | cutting at the first `c`: the part before has no `c`, and the parts rebuild the string |
| Urls.HostPort | src/URL.php:46 | a port is split off only after `host:` |
| Urls.SchemeOf | src/URL.php:46 | as `parse_url` reads it: text before the first `:` that is a scheme name is the scheme, unless 1 to 5 digits then the end or a `/` follow the colon, which is a `host:port` |
| UrlProofs.SchemeRecognised | src/URL.php:46 | a scheme name followed by `:` and a rest that is not a port is split into that scheme and that rest |
| UrlProofs.PortNotScheme | src/URL.php:46 | `host:port` with a numeric port is an authority and has no scheme |
| Urls.DropLeadingSpaces | src/URL.php:62 | `parse_str` drops the leading spaces of a key |
| Urls.QueryKey | src/URL.php:62 | a registered key holds no NUL and starts with neither a space nor `[`; from a name without `[` it holds no space, dot or `[` |
| Urls.Underscored | src/URL.php:62 | spaces and dots become `_` and nothing else changes |
| Urls.NameText | src/URL.php:62 | the name read by `parse_str` holds no NUL, does not start with a space, and has only characters of the name |
| Urls.Assign | src/URL.php:62 | `$arr[$k] = $v` keeps keys distinct, holds the new pair, and keeps every other key's pair |
| Urls.RegisterAll | src/URL.php:62 | registering pieces keeps keys distinct |
| Urls.ParseStr | src/URL.php:62 | `parse_str` yields distinct keys |
| Urls.Url.Blank | src/URL.php:29 | a fresh object's fields are the null values that the accessors read as "" and 0 |
| Urls.Url.Parse | src/URL.php:29-66 | `new URL($s)` succeeds exactly when the specification `Parsed` does, giving a fresh object with those fields, and otherwise throws the same error |
| Urls.Url.FromComponents | src/URL.php:46-65 | the setter calls on the parsed components succeed exactly when the specification `Components` does, giving a fresh object with its fields; a path with no context throws the same error |
| Urls.Url.SetScheme | src/URL.php:497-500 | only the scheme changes |
| Urls.Url.SetHost | src/URL.php:508-511 | only the host changes |
| Urls.Url.SetPort | src/URL.php:519-522 | only the port changes |
| Urls.Url.SetFragment | src/URL.php:543-546 | only the fragment changes |
| Urls.Url.SetPath | src/URL.php:299-336 | the traversal loop over the segment array stores the normalised path and changes nothing else; without a context a relative input throws and changes nothing |
| Urls.Url.SetQuery | src/URL.php:531-535 | the stored query is the input sorted by key: strictly ascending and a permutation of the input |
| Urls.Url.SetExtension | src/URL.php:145-154 | only the path changes, to the path with the extension replaced or removed |
| Urls.Url.SetSiteNamespace | src/URL.php:240-246 | the path becomes `setPath` of the path rebuilt around the new namespace, and nothing else changes |
| Urls.Url.FixSlashes | src/URL.php:68-73 | as written, comparing `favicon.ico` with a path that starts with `/`: a path that needs no slash is left alone; otherwise `setPath(path + "/")` is stored |
| Urls.Url.FixSlashesCorrected | src/URL.php:68-73 | corrected: the same, with `/favicon.ico` among the paths that need no slash |
| UrlProofs.EncodeIdempotent | src/URL.php:163-166 | `encode` does not double-encode: encoding twice is encoding once |
| UrlProofs.TrimPaddingOf | src/URL.php:83 | trimming `=` removes exactly the padding |
| UrlProofs.Base64UrlShape | src/URL.php:81-84 | `URL::base64_encode` is the standard encoding mapped to `-` and `_`, without padding |
| UrlProofs.Base64UrlAlphabet | src/URL.php:81-84 | `URL::base64_encode` output holds no `+`, `/` or `=` |
| UrlProofs.Base64UrlRoundTrip | src/URL.php:81-95 | `URL::base64_decode(URL::base64_encode($s)) === $s` |
| UrlProofs.PathFileAppend | src/URL.php:274-277 | a path extended by slash-free text has its file name extended by that text |
| UrlProofs.ExtensionOfAppend | src/URL.php:131-132 | the extension of `f.e` is `e` |
| UrlProofs.ExtensionOfPathAppend | src/URL.php:128-136 | a path ending in `.e` has the extension `e` |
| UrlProofs.SetExtensionSets | src/URL.php:145-154 | after `setExtension(e)` on a URL with an extension, `extension()` is `e` |
| UrlProofs.NoExtensionWithoutDot | src/URL.php:128-136 | a file name without a dot has no extension |
| UrlProofs.SetExtensionRemoves | src/URL.php:145-154 | `setExtension('')` on a single-dot file name leaves no extension |
| UrlProofs.SetExtensionRemovesOneSuffix | src/URL.php:145-154 | `setExtension('')` removes only the last suffix: `x.a.b` gets the extension `a` |
| UrlProofs.NamespaceOfPrefixed | src/URL.php:208-209 | `~ns/rest` has the namespace `ns` |
| UrlProofs.NamespacedPathShape | src/URL.php:240-246 | the path `setSiteNamespace` builds is the site's path, `~ns/` and the old `sitePath()` |
| UrlProofs.SetSiteNamespaceKeepsSitePath | src/URL.php:190-246 | `setSiteNamespace(ns)` keeps `sitePath()` and makes `siteNamespace()` `ns`, when the rebuilt path is already normal |
| UrlProofs.NormalWithSlash | src/URL.php:68-73 | a normal path stays normal with a slash appended |
| UrlProofs.FixSlashesAppends | src/URL.php:68-73 | a normal path that needs a slash gets exactly one appended; one that does not ends in `/` or `.html`, or is the favicon |
| UrlProofs.SingleSegmentNormal | src/URL.php:299-336 | `/w` is normal unless `w` is `.`, `..` or `index.html` |
| UrlProofs.FaviconExemptionDead | src/URL.php:70 | for an absolute path, the `favicon.ico` test as written never exempts anything |
| UrlProofs.FaviconGetsSlashAsWritten | src/URL.php:68-73 | as written, `/favicon.ico` needs a slash and becomes `/favicon.ico/` |
| UrlProofs.SlashedNormalIsFixed | src/URL.php:71 | `setPath` keeps a normal path with one slash appended |
| UrlProofs.ParsedShape | src/URL.php:29-66 | `new URL()` leaves a non-empty path without `//` or `..` segments and a query sorted by key |
| DomWalk.Size | src/DOM/DOMProvider.php:314-326 | every node counts at least one toward the walk's measure |
| DomWalk.SizeAllBound | src/DOM/DOMProvider.php:314-326 | a child is smaller than the list it is in |
| DomWalk.EventNames | src/DOM/DOMProvider.php:287-296 | elements, comments and texts get two event names; other node kinds get none |
| DomWalk.Fire | src/DOM/DOMProvider.php:298-312 | the loop over the event names leaves the node's children as they were, or none after a replacement, and only appends to the trace |
| DomWalk.Walk | src/DOM/DOMProvider.php:272-331 | an "off" element is placed as it is with no events; a node with a `data-url-context` begins that context first and ends it last |
| DomWalk.WalkAll | src/DOM/DOMProvider.php:318-325 | children that are all "off" are placed as they are and nothing fires |
| DomDispatch.WalkAllStops | src/DOM/DOMProvider.php:318-325 | once a child's walk fails, the loop over the children fails with the same error |
| DomDispatch.DispatchEvents | src/DOM/DOMProvider.php:272-331 | the loops of `dispatchEvents` compute the recursive walk `Walk` |
| DomDispatch.DispatchAll | src/DOM/DOMProvider.php:318-325 | the loop over a snapshot of the children computes `WalkAll` |
| DomWalkProofs.BalancedAppend | src/DOM/DOMProvider.php:283-330 | balanced context traces stay balanced in sequence |
| DomWalkProofs.BalancedWrap | src/DOM/DOMProvider.php:283-330 | a begun context around a balanced trace, then ended, is balanced |
| DomWalkProofs.FireStep | src/DOM/DOMProvider.php:298-312 | one pass of the name loop fires the name on the current node and appends a balanced trace |
| DomWalkProofs.FireBalanced | src/DOM/DOMProvider.php:298-312 | the name loop only appends to the trace, and what it appends is balanced |
| DomWalkProofs.BalancedNode | src/DOM/DOMProvider.php:283-330 | a node's own context around its events and its children's is balanced |
| DomWalkProofs.WalkBalanced | src/DOM/DOMProvider.php:272-331 | every context the walk begins from `data-url-context` it ends, innermost first |
| DomWalkProofs.WalkAllBalanced | src/DOM/DOMProvider.php:318-325 | the same over a list of children |
| DomWalkProofs.FireContext | src/DOM/DOMProvider.php:298-312 | with listeners that leave the context alone, the name loop leaves it alone |
| DomWalkProofs.WalkContext | src/DOM/DOMProvider.php:283-330 | with such listeners, the context stack after a node's walk is the one before it |
| DomWalkProofs.WalkAllContext | src/DOM/DOMProvider.php:318-325 | the same over a list of children |
| DomWalkProofs.OffSkips | src/DOM/DOMProvider.php:278-281 | an element marked `data-leafcutter-dom-events="off"` is left as it is, with no events and no context change |
| DomWalkCases.FirePassive | src/DOM/DOMProvider.php:298-312 | with listeners that never delete or replace, every name fires and the node keeps its shape |
| DomWalkCases.WalkPassive | src/DOM/DOMProvider.php:272-331 | with such listeners, two events fire for every element, comment and text outside "off" subtrees, and the tree keeps its shape |
| DomWalkCases.WalkAllPassive | src/DOM/DOMProvider.php:318-325 | the same over a list of children |
| DomWalkCases.FireInert | src/DOM/DOMProvider.php:298-312 | listeners that only read never make the loop fail, and the node stays as it was |
| DomWalkCases.WalkInert | src/DOM/DOMProvider.php:272-331 | with such listeners the walk succeeds and places the node unchanged |
| DomWalkCases.WalkAllInert | src/DOM/DOMProvider.php:318-325 | with such listeners the walk of the children succeeds and places them unchanged |
| DomWalkCases.FireAsWritten | src/DOM/DOMProvider.php:298-312 | as written, the only way the loop fails is an edit of a node whose parent is null |
| DomWalkCases.WalkAsWritten | src/DOM/DOMProvider.php:272-331 | as written, the walk fails only on an edit of a detached node |
| DomWalkCases.WalkAllAsWritten | src/DOM/DOMProvider.php:318-325 | as written, the walk of the children fails only on an edit of a detached node |
| DomWalkCases.EventOrder | src/DOM/DOMProvider.php:283-330 | the node's context begins first, then `onDOMElement_<tag>` (or comment or text) fires on the node, then the `_<phase>` name; the context ends last |
| DomWalkCases.DeletedStillWalked | src/DOM/DOMProvider.php:298-326 | after a delete, the second event still fires on the detached node and its children are still walked; nothing is left in its place |
| DomWalkCases.DeleteThenEditFails | src/DOM/DOMProvider.php:300-311 | a delete followed by a delete or replacement of the detached node fails on the null parent |
| DomWalkCases.ReplacementNotWalked | src/DOM/DOMProvider.php:305-311 | as written, the replacement's nodes are placed but get no events; the second event goes to the emptied fragment |
| DomWalkCases.ReplacementWalked | src/DOM/DOMProvider.php:305-311 | corrected: the replacement's nodes are walked right after the event that asked for them, and what their walk leaves stays in place |
| DomLinks.OnAnchorAsset | src/DOM/DOMProvider.php:94-104 | a falsy title is replaced by the asset's; extension, size and type are set; other attributes are kept |
| DomLinks.OnAnchorPage | src/DOM/DOMProvider.php:112-119 | a falsy title is replaced by the page's; other attributes are kept |
| DomLinks.OnAnchor | src/DOM/DOMProvider.php:63-85 | a `mailto:` link asks to be replaced, with `data-email` emptied and no follow-up events; any other link is not replaced and fires at most two events |
| DomLinks.PrepareLink | src/DOM/DOMProvider.php:131-183 | only a truthy non-`data:` link can fail; a link that matches nothing is left alone; a match fires `onDOMElement_<tag>_page` or `_asset` first, and at most two events |
| DomLinks.Obfuscate | src/DOM/DOMProvider.php:191-195 | the obfuscated HTML is one `<script>` element |
| DomLinkProofs.LinkLeftAlone | src/DOM/DOMProvider.php:136-141 | a `data:` or falsy link is not touched and no follow-up event fires |
| DomLinkProofs.PageBeatsAsset | src/DOM/DOMProvider.php:143-160 | a page match wins: the asset repository is never consulted and exactly the `_page` event fires |
| DomLinkProofs.PageAttrsFacts | src/DOM/DOMProvider.php:143-158 | a page link points at the page URL, is typed `page`, and gets `data-page-status` exactly when the status is not 200 |
| DomLinkProofs.AssetRewrittenLast | src/DOM/DOMProvider.php:160-182 | an asset link fires `_asset`, then `_image` for images, and ends as the asset's public URL whatever those listeners did |
| DomLinkProofs.AssetAttrsFacts | src/DOM/DOMProvider.php:160-170 | the `_asset` listeners see the original link and the type `asset` |
| DomLinkProofs.ObfuscateHasNoAt | src/DOM/DOMProvider.php:191-195 | an obfuscated link has no `@` in it |
| DomLinkProofs.DeobfuscateObfuscate | src/DOM/DOMProvider.php:191-195 | the script writes the link's HTML back |
| DomLinkProofs.AnchorReplacement | src/DOM/DOMProvider.php:63-85 | a `mailto:` link only asks to be replaced by its obfuscated HTML, with `data-email` emptied; no other link is replaced |
| HtmlFixups.FirstGt | src/DOM/DOMProvider.php:227 | where `[^>]*` must stop: the first `>` at or after a position |
| HtmlFixups.SelfClosedFrom | src/DOM/DOMProvider.php:227 | a match of the first pattern ends in `/>` |
| HtmlFixups.SourceAt | src/DOM/DOMProvider.php:229 | a match of the second pattern is followed by `</source>` |
| HtmlFixupProofs.NoTagUnchanged | src/DOM/DOMProvider.php:227-229 | text without `<` passes both fixups untouched |
| HtmlFixupProofs.NoSlashGtUnchanged | src/DOM/DOMProvider.php:227 | text without `/>` passes the first fixup untouched |
| HtmlFixupProofs.SourceAtEmptyElement | src/DOM/DOMProvider.php:229 | the second pattern only matches a start tag followed by an end tag |
| HtmlFixupProofs.NoEmptyElementUnchanged | src/DOM/DOMProvider.php:229 | text without `></` passes the second fixup untouched |
| HtmlFixupProofs.ListedTagClosed | src/DOM/DOMProvider.php:227 | a listed tag written self-closed is opened and closed, attributes kept |
| HtmlFixupProofs.UnlistedTagKept | src/DOM/DOMProvider.php:227 | corrected: with a word boundary after the name, a self-closed unlisted tag is left as it is |
| HtmlFixupProofs.AbbrClosedAsAnchor | src/DOM/DOMProvider.php:227 | as written, `<abbr/>` is taken for a self-closed `<a>` and becomes `<abbr></a>` |
| HtmlFixupProofs.SourceCollapsed | src/DOM/DOMProvider.php:229 | an empty `<source ...></source>` becomes `<source ... />`, attributes kept |
| DomHtmlProofs.FirstTruthyFinds | src/DOM/DOMProvider.php:234-251 | the first truthy string is found, and none only when there is none |
| DomHtml.BodyOnly | src/DOM/DOMProvider.php:234-251 | the content `bodyOnly` returns from below the root is truthy |
| DomHtml.FirstBody | src/DOM/DOMProvider.php:245-249 | the search over the `<body>` elements returns only truthy content |
| DomHtml.Html | src/DOM/DOMProvider.php:204-232 | an unparsable text is returned hook-processed; as written, the only failure is an edit of a detached node; with read-only listeners the result is the saved document (or body) after the fixups |
| DomHtml.HtmlAsWritten | src/DOM/DOMProvider.php:204-232 | `html` as written: an unparsable text is returned processed, and the only failure is an edit of a detached node |
| DomHtml.HtmlCorrected | src/DOM/DOMProvider.php:204-232 | `html` with replacements walked and the tag fixup bounded: with read-only listeners, the saved output after the fixups |
| DomHtml.ResponseReady | src/DOM/DOMProvider.php:30-40 | a response not starting with `<!doctype` is left alone; processing fails only on an edit of a detached node |
| DomHtml.PageContent | src/DOM/DOMProvider.php:50-55 | a page's content fails only on an edit of a detached node; with read-only listeners it becomes its body's content after the fixups |
| DomHtmlProofs.BodyOnlyIsFirstCandidate | src/DOM/DOMProvider.php:234-251 | `bodyOnly` returns a root `<body>`'s content, else the first truthy content among the `<body>` elements in document order |
| DomHtmlProofs.BodyOnlyTruthy | src/DOM/DOMProvider.php:218-251 | below the root only truthy content counts; null comes exactly when no body has any, and `html` then falls back to the whole document |
| DomHtmlProofs.DocumentWalk | src/DOM/DOMProvider.php:272-331 | the walk of the document fires nothing on it and walks its top-level nodes |
| DomHtmlProofs.WalkFailureIsHtmlFailure | src/DOM/DOMProvider.php:204-232 | `html` fails exactly when the walk of the loaded document fails, as written and corrected |
| DomHtmlProofs.UpperCaseDoctypeUntouched | src/DOM/DOMProvider.php:32 | the test is case-sensitive: `<!DOCTYPE html>` responses are left alone |
| DomHtmlProofs.DoctypeProcessedInContext | src/DOM/DOMProvider.php:30-40 | a processed response is processed within its own URL's context |
| DomHtmlProofs.TrimPadded | src/DOM/DOMProvider.php:256-260 | `trim` removes the whitespace around a comment's text |
| DomHtmlProofs.BeginMarker | src/DOM/DOMProvider.php:256-258 | `@beginContext:<url>` (padded, on one line) begins the context of the trimmed URL |
| DomHtmlProofs.CommentPadded | src/DOM/DOMProvider.php:256-261 | whitespace around a comment does not change what it asks for |
| DomHtmlProofs.MultiLineMarkerIgnored | src/DOM/DOMProvider.php:256 | a marker whose URL runs over a line break is not recognised |
| DomHtmlProofs.EndMarker | src/DOM/DOMProvider.php:260-262 | a comment ends a context exactly when its trimmed text is `@endContext` |
| DomHtmlProofs.BeginnedUrl | src/DOM/DOMProvider.php:256-258 | a context a marker begins is never the empty string |
| PhpArrays.KeysOf | src/Themes/ThemeProvider.php:403-429 | the keys of a table, in order |
| PhpArrays.LookupFinds | src/Themes/ThemeProvider.php:403-429 | a lookup finds exactly the keys present, and their values |
| PhpArrays.PutLookup | src/Themes/ThemeProvider.php:421-428 | writing a key changes the lookup of that key only |
| PhpArrays.PutInPlace | src/Themes/ThemeProvider.php:421-428 | overwriting a key keeps its place and every other entry; a new key goes last; keys stay distinct |
| PhpArrays.UnsetFacts | src/Themes/ThemeProvider.php:405-416 | `unset` removes the key, changes no other lookup, and keeps keys distinct |
| PhpArrays.UnsetAppend | src/Themes/ThemeProvider.php:405-416 | `unset` keeps the order of what remains |
| Themes.StoredEntry | src/Themes/ThemeProvider.php:418-428 | an Asset's integrity is dropped; crossorigin is `anonymous` exactly when integrity is truthy |
| Themes.Bundled | src/Themes/ThemeProvider.php:364-390 | one output entry per bundle |
| Themes.MediaAttr | src/Themes/ThemeProvider.php:290-295 | no media attribute exactly for `all` and the medias aliased to it in the alias table (lines 17-23) |
| Themes.CssTags | src/Themes/ThemeProvider.php:287-315 | one tag per entry |
| Themes.ScriptTags | src/Themes/ThemeProvider.php:326-340 | one tag per entry, in order: tag `i` is the `<script>` tag of entry `i` |
| Themes.CssSections | src/Themes/ThemeProvider.php:218-220 | one CSS section per media |
| Themes.JsSections | src/Themes/ThemeProvider.php:227-230 | two JS sections per media |
| Themes.TruthyOnly | src/Themes/ThemeProvider.php:232 | `array_filter` keeps exactly the truthy sections: every kept one is truthy and one of the sections, and every truthy section is kept |
| ThemeProofs.TruthyOnlyAppend | src/Themes/ThemeProvider.php:232 | filtering keeps the order: the filter of two lists joined is the two filtered lists joined |
| Themes.Resolve | src/Themes/ThemeProvider.php:207-214 | resolving keeps every key in its place |
| Themes.Sanitize | src/Themes/ThemeProvider.php:63 | the sanitised name is no longer than the input and holds only `[a-z0-9\-_]` |
| Themes.ThemeProvider.constructor | src/Themes/ThemeProvider.php:45-53 | a provider starts with no assets, packages or loaded themes |
| Themes.ThemeProvider.AddAsset | src/Themes/ThemeProvider.php:403-429 | the table becomes the specification `AssetAdded` of the old one, and the other fields are unchanged |
| Themes.ThemeProvider.AddJs | src/Themes/ThemeProvider.php:393-396 | `addAsset` with the type `js` |
| Themes.ThemeProvider.AddCss | src/Themes/ThemeProvider.php:398-401 | `addAsset` with the type `css`, never async |
| Themes.ThemeProvider.SetPackage | src/Themes/ThemeProvider.php:170-178 | the packages become the specification `PackageSet` of the old ones |
| Themes.ThemeProvider.DoRegisterTheme | src/Themes/ThemeProvider.php:145-168 | an already loaded directory changes nothing; otherwise it is recorded, its packages are set, then the theme itself as a package, as `ThemeRegistered` defines |
| Themes.ThemeProvider.RegisterTheme | src/Themes/ThemeProvider.php:60-71 | every directory holding `<sanitised name>/theme.yaml` is loaded, no other is, nothing loaded is forgotten, and the loaded list and the packages are those of registering each found theme in turn |
| Themes.RegisteredKeeps | src/Themes/ThemeProvider.php:60-71 | registering never forgets a loaded directory |
| Themes.RegisteredFinds | src/Themes/ThemeProvider.php:60-71 | every directory holding the theme file ends up loaded |
| Themes.RegisteredOnlyFound | src/Themes/ThemeProvider.php:60-71 | a directory ends up loaded only if it was loaded before or holds the theme file |
| ThemeProofs.RegisteredAgainUnchanged | src/Themes/ThemeProvider.php:147-150 | registering directories already loaded changes neither the loaded list nor the packages |
| ThemeProofs.RegisterThemeIdempotent | src/Themes/ThemeProvider.php:60-71 | registering the same theme twice leaves the registry as registering it once |
| Themes.Basename | src/Themes/ThemeProvider.php:155 | `basename` ignores trailing slashes and returns the last path segment, which holds no `/` |
| Themes.StripSlashes | src/Themes/ThemeProvider.php:155 | the trailing slashes `basename` ignores: a prefix not ending in `/`, and only slashes are cut |
| ThemeProofs.BasenameTrailingSlash | src/Themes/ThemeProvider.php:155 | a trailing slash does not change the theme name |
| ThemeProofs.BasenameOfChild | src/Themes/ThemeProvider.php:63-65 | the theme directory `<dir>/<name>` is named `<name>` |
| Themes.ThemeProvider.GroupAssets | src/Themes/ThemeProvider.php:346-363 | the loop builds the bundles `Groups` defines, none empty |
| Themes.ThemeProvider.BundleOne | src/Themes/ThemeProvider.php:365-388 | the entry made of one bundle |
| Themes.ThemeProvider.BundleAssets | src/Themes/ThemeProvider.php:344-391 | `bundle_assets` is `Bundled` of the bundles |
| Themes.ThemeProvider.CssWalk | src/Themes/ThemeProvider.php:287-315 | the `array_walk` computes `CssTags` and the running inlined size |
| Themes.ThemeProvider.CssHtml | src/Themes/ThemeProvider.php:280-317 | `cssHtml` joins the tags of the prepared entries and advances the inlined counter |
| Themes.ThemeProvider.ScriptWalk | src/Themes/ThemeProvider.php:326-340 | the `array_walk` computes `ScriptTags` |
| Themes.ThemeProvider.JsHtml | src/Themes/ThemeProvider.php:319-342 | `jsHtml` is `JsHtmlOf` |
| Themes.ThemeProvider.JsLoader | src/Themes/ThemeProvider.php:235-264 | the non-Assets as tags, then the loader with the ordered and async Asset URLs |
| Themes.ThemeProvider.LoaderWalk | src/Themes/ThemeProvider.php:245-258 | the loop keeps the non-Assets aside and splits the Asset URLs into ordered and async lists, in input order, as the specification functions `Outside` and `LoaderUrls` say |
| ThemeProofs.LoaderAppend | src/Themes/ThemeProvider.php:245-258 | the loop's three lists of a concatenation are the concatenations of the lists |
| ThemeProofs.LoaderCount | src/Themes/ThemeProvider.php:245-258 | every entry lands in exactly one of the three lists |
| ThemeProofs.OutsideMembers | src/Themes/ThemeProvider.php:245-258 | an entry is kept aside exactly when it is not an Asset |
| ThemeProofs.LoaderListsAssets | src/Themes/ThemeProvider.php:245-258 | every Asset's URL is in the ordered or async list its flag names |
| Themes.ThemeProvider.CssSectionsHtml | src/Themes/ThemeProvider.php:218-220 | one section per media of `cssMedias`, sharing the budget |
| Themes.ThemeProvider.JsSectionsHtml | src/Themes/ThemeProvider.php:227-230 | per media of `jsMedias`, the blocking scripts then the async ones |
| Themes.ThemeProvider.GetHeadHtml | src/Themes/ThemeProvider.php:204-233 | sources are resolved, the budget restarts at 0, and the head is the truthy sections in order |
| ThemeProofs.AssetAddedFacts | src/Themes/ThemeProvider.php:403-429 | `addAsset` edits the key `type\|name` only: a falsy source or blank Asset removes it; anything else stores the entry in place or at the end |
| ThemeProofs.FilterAppend | src/Themes/ThemeProvider.php:266-278 | `filter` keeps order |
| ThemeProofs.FilterMembers | src/Themes/ThemeProvider.php:266-278 | `filter` keeps exactly the matching entries with their keys |
| ThemeProofs.JsSplit | src/Themes/ThemeProvider.php:227-230 | a media's JS entries are its blocking ones and its async ones, never both |
| ThemeProofs.CssMediasApart | src/Themes/ThemeProvider.php:24-34 | no media of `cssMedias` begins another |
| ThemeProofs.CssSectionsAt | src/Themes/ThemeProvider.php:218-220 | section `i` is the tags of media `i`'s entries joined by newlines, with the budget the sections before it left |
| ThemeProofs.CssSectionsDisjoint | src/Themes/ThemeProvider.php:218-220 | no CSS entry lands in two sections |
| ThemeProofs.UnlistedMediaHidden | src/Themes/ThemeProvider.php:218-220 | a CSS entry whose media starts with no listed media is never emitted |
| ThemeProofs.HandheldHidden | src/Themes/ThemeProvider.php:218-220 | example: an entry of media `handheld` lands in no CSS section, whatever the table |
| ThemeProofs.GroupsFlatten | src/Themes/ThemeProvider.php:346-363 | the bundles hold every entry once, in order |
| Themes.GroupsNonEmpty | src/Themes/ThemeProvider.php:346-363 | no bundle is empty |
| ThemeProofs.GroupsOfAssets | src/Themes/ThemeProvider.php:350-358 | a bundle of several entries holds only Assets |
| ThemeProofs.GroupsMaximal | src/Themes/ThemeProvider.php:350-358 | runs of Assets are maximal: neighbouring bundles never end and begin with an Asset |
| ThemeProofs.SinglesUnbundled | src/Themes/ThemeProvider.php:366-368 | single-entry bundles pass through unchanged |
| ThemeProofs.NoAssetsNoBundling | src/Themes/ThemeProvider.php:344-391 | entries that are no Assets pass through bundling unchanged |
| ThemeProofs.BundledAt | src/Themes/ThemeProvider.php:365-389 | bundle `i` becomes entry `i` |
| ThemeProofs.BundleOfSeveral | src/Themes/ThemeProvider.php:369-387 | a bundle of several becomes one Asset keyed `bundle <i>: <media>.<ext>`, with no crossorigin or integrity, and the last entry's type, async and media |
| ThemeProofs.CssBudget | src/Themes/ThemeProvider.php:296-304 | the inlined size only grows and stays within a budget it started within |
| ThemeProofs.CssTagAt | src/Themes/ThemeProvider.php:296-313 | an entry is inlined exactly when it is an Asset, not a library, and fits what is left |
| ThemeProofs.LibraryLinked | src/Themes/ThemeProvider.php:296-298 | a library, or an entry given by URL, is always linked |
| ThemeProofs.CssSectionsBudget | src/Themes/ThemeProvider.php:216-220 | the sections share one budget |
| ThemeProofs.HeadBudget | src/Themes/ThemeProvider.php:216-220 | `getHeadHtml` starts from 0 and never inlines more than `theme.css.max_inlined` |
| ThemeProofs.JsSectionsAt | src/Themes/ThemeProvider.php:227-230 | section `2i` holds media `i`'s blocking scripts and `2i+1` its async ones |
| ThemeProofs.ResolveOnlySources | src/Themes/ThemeProvider.php:207-214 | resolving only swaps a URL source for the Asset the repository has for it |
| ThemeProofs.SanitizeKeeps | src/Themes/ThemeProvider.php:63 | allowed names are kept as they are |
| ThemeProofs.SanitizeIdempotent | src/Themes/ThemeProvider.php:63 | sanitising twice is sanitising once |
| ThemeProofs.UpperCaseDropped | src/Themes/ThemeProvider.php:63 | the character class is case-sensitive: an upper-case letter anywhere in a name is dropped, not lowered (removing it changes nothing) |
| ThemeProofs.SanitizeAppend | src/Themes/ThemeProvider.php:63 | the name filter works character by character: filtering a concatenation is concatenating the filtered parts |
| ThemeProofs.PackageSetFacts | src/Themes/ThemeProvider.php:170-178 | an existing package is kept only when its priority is strictly greater; no other name changes |
| ThemeProofs.PackagePriorityOrderFree | src/Themes/ThemeProvider.php:170-178 | whichever order two packages of one name arrive in, the higher priority is kept |
| Addons.AddonProvider.constructor | src/Addons/AddonProvider.php:14-22 | a provider starts with empty maps |
| Addons.AddonProvider.RequireInterface | src/Addons/AddonProvider.php:24-28 | the interfaces become `InterfaceRequired` of the old ones |
| Addons.AddonProvider.Register | src/Addons/AddonProvider.php:30-45 | the state and the result are those of `Registered` |
| Addons.AddonProvider.Get | src/Addons/AddonProvider.php:47-50 | null exactly for names that are not loaded, else the loaded instance |
| Addons.AddonProvider.CheckInterfaces | src/Addons/AddonProvider.php:66-73 | the nested loops find `FirstMissing` |
| Addons.AddonProvider.FindRequirement | src/Addons/AddonProvider.php:76-83 | the reverse search finds `RequirementTarget` |
| Addons.AddonProvider.Load | src/Addons/AddonProvider.php:52-93 | the state and the result are those of `Loading`, in the mode given (as written, or with the argument looked up in `classes` first) |
| Addons.AddonProvider.LoadRequirements | src/Addons/AddonProvider.php:75-89 | the requirement loop computes `RequirementsLoaded` in the mode given |
| Addons.AddonProvider.SetNames | src/Addons/AddonProvider.php:91-93 | every name maps to the new instance |
| AddonProofs.UniqueFacts | src/Addons/AddonProvider.php:27 | `array_unique` yields distinct values, and the same ones |
| AddonProofs.UniqueOfDistinct | src/Addons/AddonProvider.php:27 | `array_unique` keeps a duplicate-free list as it is |
| AddonProofs.InterfaceRequiredFacts | src/Addons/AddonProvider.php:24-28 | the list stays duplicate-free and gains the interface; nothing else changes; a repeated call changes nothing |
| AddonProofs.InterfaceRequiredTwice | src/Addons/AddonProvider.php:24-28 | a second identical `requireInterface` call leaves the registry as it was |
| AddonProofs.RegisteredFacts | src/Addons/AddonProvider.php:30-45 | a non-addon throws and changes nothing; a loaded name is returned unchanged; otherwise `classes` and `provides` record the class |
| AddonProofs.LastProviderFacts | src/Addons/AddonProvider.php:77-82 | the most recently registered provider is found, and none only when no entry provides the name |
| AddonProofs.RequirementMissing | src/Addons/AddonProvider.php:83-88 | with no provider and no class of that name, `load` throws for the requirement |
| AddonProofs.FirstMissingFacts | src/Addons/AddonProvider.php:66-73 | a missing interface is found exactly when some name demands one the class lacks |
| AddonProofs.MissingInFacts | src/Addons/AddonProvider.php:68-72 | the first demanded interface not implemented, and none only when all are |
| AddonProofs.SetAllFacts | src/Addons/AddonProvider.php:91-93 | every listed name maps to the instance; other names are unchanged |
| AddonProofs.LoadingKeeps | src/Addons/AddonProvider.php:52-93 | loaded names are never dropped; a successful load leaves the name loaded |
| AddonProofs.RequirementsKeep | src/Addons/AddonProvider.php:74-89 | the same for the requirement loop |
| AddonProofs.LoadedIsNoop | src/Addons/AddonProvider.php:58-61 | in either mode, loading an addon whose name is already loaded returns that name and changes nothing |
| AddonProofs.LoadedNames | src/Addons/AddonProvider.php:90-93 | in either mode, after a successful load the addon's name and every name it provides map to the class found through `classes` |
| AddonProofs.CycleNeverLoads | src/Addons/AddonProvider.php:85 | in either mode, any two registered addons whose first requirements resolve to each other never load: each load ends out of fuel with the registry unchanged |
| AddonProofs.ProviderByNameFailsAsWritten | src/Addons/AddonProvider.php:55-85 | as written, a requirement provided under an addon name that is no class fails with an unknown class |
| AddonProofs.ProviderByNameLoadsCorrected | src/Addons/AddonProvider.php:55-85 | corrected, the provider is looked up in `classes` first and loads |

## Left out

- `URLFactory` (the context stack, `normalizeCurrent`) is not part of this model. The context URL, the site URL and `$_SERVER['SERVER_PORT']` are the explicit `Env`.
- `parse_url` is modelled as a split on `#`, then `?`, then the scheme and `host:port` rule of `Urls.SchemeOf`, then `//` authority and path. Not modelled: the failure for a port above 65535 or an empty host after `scheme://`, `file:///` paths, a `:` inside the query or fragment, and the port reading PHP gives after a text that is no scheme name.
- `parse_str` and `http_build_query` are modelled as `&`/`=` pieces with `urlencode`. Key names follow PHP's rules: leading spaces dropped, the name cut at NUL, ` ` and `.` made `_` before the first `[`, a leading `[` dropped, and an unmatched `[` made `_`. Arrays in queries (`a[]=1`, `a[b]=1`) are not modelled: a name with a matched `[...]` is kept as one flat key, where PHP builds a nested array.
- Urls.UrlView.ToString: no round trip with `new URL` is proved for the whole string. Only the query part has its partner (`QueryProofs.QueryStringParses`).
- QueryProofs.QueryStringParses: proved for queries whose keys are distinct, non-empty and hold no space, dot, `[` or NUL. `parse_str` rewrites such keys (spaces and dots to `_`, an unmatched `[` to `_`, a matched one to an array, the rest after a NUL dropped), so those queries do not come back as they were.
- QueryProofs.ParseBuiltQuery: the same restriction on keys as `QueryProofs.QueryStringParses`, for the same reason.
- A `$` in the regular expressions of src/URL.php:70, 131, 149-151, 208 and 303 also matches just before a final newline. Urls.ExtensionOf, Urls.NamespaceOf, Urls.Url.SetExtension, Urls.Url.FixSlashes and the path normalisation take `$` as the true end of the text. A path ending in a newline is therefore read differently from PHP.
- `urlencode`/`urldecode` work on byte strings. Multibyte characters are their bytes.
- UrlQueries.KSort: keys are ordered by bytes. PHP's default `ksort` flags compare numeric-string keys as numbers, which is not modelled.
- Urls.Url.SetQuery: requires distinct keys, which every PHP array has.
- `logString` and `scheme()` are one-line accessors and are not modelled separately.
- `activate` and `activatePackageFromConfig` are not modelled. They read YAML configuration and recurse through `require` without a guard.
- `addDirectory` is not modelled: `realpath`, `glob` and the content provider are I/O.
- `Themes.ThemeProvider.DoRegisterTheme`: the `theme.yaml` configuration is a value holding the effective priorities of the theme and its packages. The `Config` merge is not modelled.
- Null media and null configuration values are read as strings. Loose `==` comparisons are read as strict ones.
- `bundle_assets` keys its bundles `bundle <k>: ...`. The model does not rule out a collision with an original key.
- Themes.CssTags: `theme.css.max_inlined` is an integer. A missing (null) value is not modelled. PHP compares `int <= null` as booleans, so then only a running size of 0 would fit.
- URL construction errors inside `getHeadHtml` (through `new URL`) are not modelled. The asset lookup is an abstract function.
- `loader.js`, `getFromString` and the JSON encoding of `jsLoader` are abstract functions.
- `Addons.AddonProvider.Load`: the merge of the addon's default configuration, its `load()` method and its event subscribers are left out. An instance is represented by its class name.
- Reflection (`class_implements`, the static `name`/`provides`/`requires`, `new $class`) is a catalog function. Composer registration in the constructor is left to the caller.
- Cyclic addon requirements overflow the PHP stack. The model bounds the depth with `fuel` and returns `OutOfFuel`.
- libxml (`loadHTML`, `saveHTML`, `normalizeDocument`, `appendXML`) is abstract. `loadHTML` yields the top-level nodes or fails, and `normalizeDocument` is part of `saveHTML`. The option flags at src/DOM/DOMProvider.php:210 are combined with `&` and so are 0. The model does not depend on them.
- DomHtml.Html: in PHP 8 `loadHTML('')` throws a `ValueError`, which the `@` does not silence, so `html()` aborts on an empty processed text. The abstract `load` does not tell this apart from a failed load, after which the text is returned as it is.
- Listeners can change the target's attributes, ask for deletion or replacement, and begin or end a context. Changes a listener makes elsewhere in the tree are not modelled.
- DomWalk.Entered: the `data-url-context` value is pushed as written. PHP pushes `new URL($context)` resolved against the current context (src/DOM/DOMProvider.php:284), which throws when there is none (src/URL.php:309-313). Neither the resolution nor that error is modelled; the same holds for `@beginContext:` comments.
- DomWalk.Listener: a listener is a total function and cannot fail. In PHP, an exception in a listener, such as the missing site `DomLinks.OnAnchor` and `DomLinks.PrepareLink` report as `NoSite`, aborts `html()`. Those errors are computed in `DomLinks` but do not reach the walk.
- DomDispatch.DispatchEvents: in the corrected walk, chained replacements are bounded by `fuel`, and the walk then returns `OutOfFuel` where it would go on. The walk as written never recurses into a replacement and needs no bound.
- The page and asset repositories and the `_page`, `_asset` and `_image` listeners are abstract functions.

## Findings

| source | as written | input that shows it | evidently intended | confidence | as-written member | corrected member |
|---|---|---|---|---|---|---|
| src/URL.php:70 | `fixSlashes` compares `path()` with `favicon.ico`, but `path()` of an absolute URL starts with `/` | `/favicon.ico` becomes `/favicon.ico/` | the favicon keeps its path | not executed | UrlProofs.FaviconGetsSlashAsWritten | Urls.Url.FixSlashesCorrected |
| src/DOM/DOMProvider.php:305-311 | a replacement is a document fragment; `replaceChild` moves its children into the parent, and the walk then recurses into the empty fragment | a listener replacing an element with `<b>x</b>`: the `<b>` gets no events | the replacement's nodes are walked | not executed | DomWalkCases.ReplacementNotWalked | DomWalkCases.ReplacementWalked |
| src/DOM/DOMProvider.php:227 | the alternative `a` is not followed by a word boundary | `<abbr/>` becomes `<abbr></a>` | only the listed tags are closed | not executed; low, since libxml rarely emits `<abbr/>` | HtmlFixupProofs.AbbrClosedAsAnchor | HtmlFixupProofs.UnlistedTagKept |
| src/Addons/AddonProvider.php:55-63, 85 | `load` reads `name()` and `provides()` from its argument before it looks the argument up in `classes`; requirements are loaded by addon name | an addon requiring `dep-api`, provided by the addon named `dep` of class `Vendor\Dep`: `load('dep')` calls `dep::name()` | the argument is resolved through `classes` first | not executed | AddonProofs.ProviderByNameFailsAsWritten | AddonProofs.ProviderByNameLoadsCorrected |
