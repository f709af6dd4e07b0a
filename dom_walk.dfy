/**
 * The event walk of `DOMProvider::dispatchEvents` (src/DOM/DOMProvider.php:272-331) over a
 * document tree.
 *
 * The tree is a value. What the walk does to a node in place is returned as the nodes that
 * end up in the node's slot in its parent (`placed`): the node itself with its updated
 * attributes and walked children, nothing once it was removed, or the nodes a replacement
 * spliced in. Listeners on the event bus are one abstract function of the event name, the
 * target node and the current URL context stack; they can change the target's attributes,
 * ask for deletion or replacement, and begin or end a context.
 */
module DomWalk {
  import opened Wrappers
  import opened Strings

  type Attrs = map<string, string>

  /** `DOMElement`, `DOMComment`, `DOMText`, and every other node kind (document, fragment, ...). */
  datatype Node =
    | Element(tag: string, attrs: Attrs, children: seq<Node>)
    | Comment(data: string)
    | Text(data: string)
    | Container(children: seq<Node>)

  /** `getAttribute`: the empty string for a missing attribute or a node that is no element. */
  function Attr(n: Node, name: string): string {
    if n.Element? && name in n.attrs then n.attrs[name] else ""
  }

  function Kids(n: Node): seq<Node> {
    if n.Element? || n.Container? then n.children else []
  }

  function WithAttrs(n: Node, a: Attrs): (r: Node)
    ensures Kids(r) == Kids(n)
  {
    if n.Element? then Element(n.tag, a, n.children) else n
  }

  function WithChildren(n: Node, cs: seq<Node>): Node {
    match n
    case Element(tag, attrs, _) => Element(tag, attrs, cs)
    case Container(_) => Container(cs)
    case _ => n
  }

  function Size(n: Node): (r: nat)
    ensures r >= 1
    decreases n
  {
    match n
    case Element(_, _, cs) => 1 + SizeAll(cs)
    case Container(cs) => 1 + SizeAll(cs)
    case _ => 1
  }

  function SizeAll(ns: seq<Node>): nat
    decreases ns
  {
    if |ns| == 0 then 0 else SizeAll(ns[..|ns| - 1]) + Size(ns[|ns| - 1])
  }

  lemma {:induction false} SizeAllBound(ns: seq<Node>, i: nat)
    requires i < |ns|
    ensures Size(ns[i]) <= SizeAll(ns)
    decreases |ns|
  {
    if i < |ns| - 1 {
      SizeAllBound(ns[..|ns| - 1], i);
    }
  }

  /** The two event names of a node, in dispatch order; other node kinds have none. */
  function EventNames(n: Node, phase: string): (r: seq<string>)
    ensures n.Container? <==> |r| == 0
    ensures !n.Container? ==> |r| == 2
  {
    match n
    case Element(tag, _, _) => ["onDOMElement_" + tag, "onDOMElement_" + tag + "_" + phase]
    case Comment(_) => ["onDOMComment", "onDOMComment_" + phase]
    case Text(_) => ["onDOMText", "onDOMText_" + phase]
    case Container(_) => []
  }

  /** What a listener may do to the URL context stack of `URLFactory`. */
  datatype ContextOp = Keep | Begin(url: string) | End

  /** The state of a `DOMEvent` after dispatch: the target's attributes and the requests. */
  datatype Reaction = Reaction(attrs: Attrs, delete: bool, replacement: string, op: ContextOp)

  type Listener = (string, Node, seq<string>) -> Reaction

  /** What the walk does, in order: a dispatched event, or a context it begins or ends itself. */
  datatype Event = Fired(name: string, target: Node) | Pushed(url: string) | Popped

  datatype Visit = Visit(placed: seq<Node>, trace: seq<Event>, context: seq<string>)

  /**
   * `DetachedParent`: a delete or replacement requested for a node that already left its
   * parent, where PHP calls a method on the null `parentNode`. `OutOfFuel`: the model's
   * bound on chained replacements ran out.
   */
  datatype DomError = DetachedParent | OutOfFuel

  /**
   * `AsWritten`: a replacement is a document fragment that `replaceChild` empties into the
   * parent, so the recursive dispatch on it sees no nodes. `Corrected`: the nodes the
   * replacement put in the node's place are walked.
   */
  datatype Mode = AsWritten | Corrected

  /** The walk's fixed inputs: the phase, the event bus, `appendXML` parsing, the mode. */
  datatype Hooks = Hooks(phase: string, listener: Listener, parse: string -> seq<Node>, mode: Mode)

  function Pop(ctx: seq<string>): seq<string> {
    if |ctx| > 0 then ctx[..|ctx| - 1] else ctx
  }

  function ApplyOp(ctx: seq<string>, op: ContextOp): seq<string> {
    match op
    case Keep => ctx
    case Begin(u) => ctx + [u]
    case End => Pop(ctx)
  }

  /**
   * The state of the loop over the event names: the current `$node`, what sits in its
   * slot once it left the parent (`None` while it is still there), the trace and the
   * context stack.
   */
  datatype Firing = Firing(cur: Node, slot: Option<seq<Node>>, trace: seq<Event>, context: seq<string>)

  /** The loop over the event names, from name `i` on. */
  function Fire(names: seq<string>, i: nat, st: Firing, h: Hooks, fuel: nat): (r: Result<Firing, DomError>)
    requires i <= |names|
    ensures r.Ok? ==> Kids(r.value.cur) == Kids(st.cur) || Kids(r.value.cur) == []
    ensures r.Ok? ==> st.trace <= r.value.trace
    decreases fuel, 0, |names| - i
  {
    if i == |names| then Ok(st)
    else
      var re := h.listener(names[i], st.cur, st.context);
      var cur := WithAttrs(st.cur, re.attrs);
      var ctx := ApplyOp(st.context, re.op);
      var tr := st.trace + [Fired(names[i], st.cur)];
      if re.delete then
        if st.slot.Some? then Err(DetachedParent)
        else Fire(names, i + 1, Firing(cur, Some([]), tr, ctx), h, fuel)
      else if Truthy(re.replacement) then
        if st.slot.Some? then Err(DetachedParent)
        else if h.mode == AsWritten then
          Fire(names, i + 1, Firing(Container([]), Some(h.parse(re.replacement)), tr, ctx), h, fuel)
        else if fuel == 0 then Err(OutOfFuel)
        else
          var v :- WalkAll(h.parse(re.replacement), h, ctx, fuel - 1);
          Fire(names, i + 1, Firing(Container([]), Some(v.placed), tr + v.trace, v.context), h, fuel)
      else Fire(names, i + 1, Firing(cur, st.slot, tr, ctx), h, fuel)
  }

  predicate IsOff(n: Node) {
    n.Element? && Attr(n, "data-leafcutter-dom-events") == "off"
  }

  /** Every node of `ns` has its events switched off. */
  predicate AllOff(ns: seq<Node>)
    decreases |ns|
  {
    |ns| == 0 || (AllOff(ns[..|ns| - 1]) && IsOff(ns[|ns| - 1]))
  }

  /** The value of a node's own `data-url-context`, which the walk begins as a context. */
  function OwnUrl(n: Node): string {
    Attr(n, "data-url-context")
  }

  function Entered(n: Node, ctx: seq<string>): seq<string> {
    if Truthy(OwnUrl(n)) then ctx + [OwnUrl(n)] else ctx
  }

  function Left(n: Node, ctx: seq<string>): seq<string> {
    if Truthy(OwnUrl(n)) then Pop(ctx) else ctx
  }

  function Opening(n: Node): seq<Event> {
    if Truthy(OwnUrl(n)) then [Pushed(OwnUrl(n))] else []
  }

  function Closing(n: Node): seq<Event> {
    if Truthy(OwnUrl(n)) then [Popped] else []
  }

  /** `dispatchEvents($node, $phase)` on a node that sits in a parent. */
  function Walk(n: Node, h: Hooks, ctx: seq<string>, fuel: nat): (r: Result<Visit, DomError>)
    ensures IsOff(n) ==> r == Ok(Visit([n], [], ctx))
    ensures r.Ok? && !IsOff(n) && Truthy(OwnUrl(n)) ==>
      |r.value.trace| >= 2 && r.value.trace[0] == Pushed(OwnUrl(n)) && r.value.trace[|r.value.trace| - 1] == Popped
    decreases fuel, Size(n), 1
  {
    if IsOff(n) then Ok(Visit([n], [], ctx))
    else
      var f :- Fire(EventNames(n, h.phase), 0, Firing(n, None, Opening(n), Entered(n, ctx)), h, fuel);
      var k :- WalkAll(Kids(f.cur), h, f.context, fuel);
      var placed := if f.slot.None? then [WithChildren(f.cur, k.placed)] else f.slot.value;
      Ok(Visit(placed, f.trace + k.trace + Closing(n), Left(n, k.context)))
  }

  /** The loop over a snapshot of children: each is walked in turn, in order. */
  function WalkAll(ns: seq<Node>, h: Hooks, ctx: seq<string>, fuel: nat): (r: Result<Visit, DomError>)
    ensures AllOff(ns) ==> r == Ok(Visit(ns, [], ctx))
    decreases fuel, SizeAll(ns), 2
  {
    if |ns| == 0 then Ok(Visit([], [], ctx))
    else
      var a :- WalkAll(ns[..|ns| - 1], h, ctx, fuel);
      var b :- Walk(ns[|ns| - 1], h, a.context, fuel);
      assert ns == ns[..|ns| - 1] + [ns[|ns| - 1]];
      assert AllOff(ns) ==> a.placed + b.placed == ns;
      assert AllOff(ns) ==> a.trace + b.trace == [];
      Ok(Visit(a.placed + b.placed, a.trace + b.trace, b.context))
  }
}
