/**
 * The HTML pipeline of `DOMProvider` (src/DOM/DOMProvider.php:30-55, 204-264): the
 * `onResponseReady` guard, `html`, `bodyOnly` and the `onDOMComment` context markers.
 *
 * libxml is abstract: `loadHTML` is a function that yields the document's top-level nodes
 * or fails, `saveHTML` a function from a node to its markup. The event bus hooks
 * `onDOMProcess` and `onDOMReady` are functions on the HTML text.
 */
module DomHtml {
  import opened Wrappers
  import opened Strings
  import opened DomWalk
  import opened DomWalkCases
  import opened HtmlFixups

  function SaveAll(ns: seq<Node>, save: Node -> string): string
    decreases |ns|
  {
    if |ns| == 0 then "" else SaveAll(ns[..|ns| - 1], save) + save(ns[|ns| - 1])
  }

  predicate IsBody(n: Node) {
    n.Element? && n.tag == "body"
  }

  /** What `bodyOnly` returns for a `<body>`: its children's markup, one after another. */
  function BodyContent(n: Node, save: Node -> string): string {
    SaveAll(Kids(n), save)
  }

  /**
   * `bodyOnly($dom)`: the content of a `<body>` node; otherwise the first truthy result of
   * the children, in order, or null.
   */
  function BodyOnly(n: Node, save: Node -> string): (r: Option<string>)
    ensures r.Some? && !IsBody(n) ==> Truthy(r.value)
    decreases Size(n), 0, 0
  {
    if IsBody(n) then Some(BodyContent(n, save)) else FirstBody(Kids(n), 0, save)
  }

  /** The loop of `bodyOnly` over the children from index `i` on. */
  function FirstBody(ns: seq<Node>, i: nat, save: Node -> string): (r: Option<string>)
    requires i <= |ns|
    ensures r.Some? ==> Truthy(r.value)
    decreases SizeAll(ns), 1, |ns| - i
  {
    if i == |ns| then None
    else
      SizeAllBound(ns, i);
      var o := BodyOnly(ns[i], save);
      if o.Some? && Truthy(o.value) then o else FirstBody(ns, i + 1, save)
  }

  /**
   * A reference for `bodyOnly`: the contents of the `<body>` elements of the tree in
   * document order, not looking inside a `<body>`.
   */
  function Candidates(n: Node, save: Node -> string): seq<string>
    decreases Size(n), 0, 0
  {
    if IsBody(n) then [BodyContent(n, save)] else CandidatesFrom(Kids(n), 0, save)
  }

  function CandidatesFrom(ns: seq<Node>, i: nat, save: Node -> string): seq<string>
    requires i <= |ns|
    decreases SizeAll(ns), 1, |ns| - i
  {
    if i == |ns| then []
    else
      SizeAllBound(ns, i);
      Candidates(ns[i], save) + CandidatesFrom(ns, i + 1, save)
  }

  /** The first truthy string of a list. */
  function FirstTruthy(cs: seq<string>): Option<string> {
    if |cs| == 0 then None
    else if Truthy(cs[0]) then Some(cs[0])
    else FirstTruthy(cs[1..])
  }

  /** The `@beginContext:` marker's `(.+)$`: at least one character, none a line break. */
  predicate IsMarkerTail(s: string) {
    |s| > 0 && forall i :: 0 <= i < |s| ==> s[i] != '\n'
  }

  /**
   * `onDOMComment`: a comment whose trimmed text is `@beginContext:` followed by a single
   * line begins a context for that line, trimmed; `@endContext` ends the current one.
   */
  function CommentOp(data: string): ContextOp {
    MarkerOp(Trim(data))
  }

  /** The two tests of `onDOMComment` on the trimmed comment text `d`. */
  function MarkerOp(d: string): ContextOp {
    var b := "@beginContext:";
    if StartsWith(d, b) && IsMarkerTail(d[|b|..]) then Begin(Trim(d[|b|..]))
    else if d == "@endContext" then End
    else Keep
  }

  /**
   * The collaborators of `html`: the `onDOMProcess` and `onDOMReady` hooks, `loadHTML`
   * (the document's top-level nodes, or `None` when it fails), the listeners and
   * `appendXML` parsing the walk uses, and `saveHTML`.
   */
  datatype Pipeline = Pipeline(
    process: string -> string,
    load: string -> Option<seq<Node>>,
    listener: Listener,
    parse: string -> seq<Node>,
    save: Node -> string,
    ready: string -> string)

  /** The walk the pipeline runs, in the given mode (see `DomWalkCases.ReplacementWalked`). */
  function PipelineHooks(fragment: bool, b: Pipeline, mode: Mode): Hooks {
    Hooks(if fragment then "fragment" else "full", b.listener, b.parse, mode)
  }

  /** Serialisation of the walked document: all of it, or only the body of a fragment. */
  function Output(doc: Node, fragment: bool, save: Node -> string): string {
    if !fragment then save(doc)
    else
      var body := BodyOnly(doc, save);
      if body.Some? then body.value else save(doc)
  }

  /** The two regular-expression fixups `html` applies to the serialised markup. */
  function Fixups(out: string, bounded: bool): string {
    FixSourceClose(FixSelfClosing(out, 0, bounded), 0)
  }

  /**
   * `html($html, $fragment)` with the URL context stack `ctx`: the `onDOMProcess` hook,
   * parsing (its text is returned as it is when parsing fails), the walk over the document
   * in `mode`, serialisation, the two fixups (the self-closing one `bounded` or not) and the
   * `onDOMReady` hook. With listeners that leave the tree alone it is parse, serialise,
   * fix up; as written its only failure is PHP's error on a detached node.
   */
  function Html(html: string, fragment: bool, b: Pipeline, ctx: seq<string>, fuel: nat, mode: Mode, bounded: bool)
    : (r: Result<string, DomError>)
    ensures b.load(b.process(html)).None? ==> r == Ok(b.process(html))
    ensures mode == AsWritten && r.Err? ==> r.error == DetachedParent
    ensures Inert(b.listener) && b.load(b.process(html)).Some? ==>
      r == Ok(b.ready(Fixups(Output(Container(b.load(b.process(html)).value), fragment, b.save), bounded)))
  {
    var processed := b.process(html);
    var top := b.load(processed);
    if top.None? then Ok(processed)
    else
      WalkAllAsWritten(top.value, PipelineHooks(fragment, b, mode), ctx, fuel);
      WalkAllInert(top.value, PipelineHooks(fragment, b, mode), ctx, fuel);
      var k :- WalkAll(top.value, PipelineHooks(fragment, b, mode), ctx, fuel);
      var out := Output(Container(k.placed), fragment, b.save);
      Ok(b.ready(Fixups(out, bounded)))
  }

  /**
   * `html()` as the source has it: replacements are not walked (the walk then never uses
   * fuel) and the self-closing fixup has no word boundary.
   */
  function HtmlAsWritten(html: string, fragment: bool, b: Pipeline, ctx: seq<string>): (r: Result<string, DomError>)
    ensures b.load(b.process(html)).None? ==> r == Ok(b.process(html))
    ensures r.Err? ==> r.error == DetachedParent
  {
    Html(html, fragment, b, ctx, 0, AsWritten, false)
  }

  /** `html()` as evidently intended: replacements are walked and the fixup closes only the listed tags. */
  function HtmlCorrected(html: string, fragment: bool, b: Pipeline, ctx: seq<string>, fuel: nat): (r: Result<string, DomError>)
    ensures b.load(b.process(html)).None? ==> r == Ok(b.process(html))
    ensures Inert(b.listener) && b.load(b.process(html)).Some? ==>
      r == Ok(b.ready(Fixups(Output(Container(b.load(b.process(html)).value), fragment, b.save), true)))
  {
    Html(html, fragment, b, ctx, fuel, Corrected, true)
  }

  /**
   * `onResponseReady`: only content that starts with `<!doctype`, in that case, is
   * processed, within the context of the response's URL.
   */
  function ResponseReady(content: string, url: string, b: Pipeline, ctx: seq<string>): (r: Result<string, DomError>)
    ensures !StartsWith(content, "<!doctype") ==> r == Ok(content)
    ensures r.Err? ==> r.error == DetachedParent
  {
    if !StartsWith(content, "<!doctype") then Ok(content)
    else HtmlAsWritten(content, false, b, ctx + [url])
  }

  /**
   * `onPageGenerateContent_finalize`: page content is processed as a fragment, so with
   * listeners that leave the tree alone only the content of its `<body>` comes out.
   */
  function PageContent(content: string, b: Pipeline, ctx: seq<string>): (r: Result<string, DomError>)
    ensures r.Err? ==> r.error == DetachedParent
    ensures (Inert(b.listener) && b.load(b.process(content)).Some?
             && BodyOnly(Container(b.load(b.process(content)).value), b.save).Some?) ==>
      r == Ok(b.ready(Fixups(BodyOnly(Container(b.load(b.process(content)).value), b.save).value, false)))
  {
    HtmlAsWritten(content, true, b, ctx)
  }
}
