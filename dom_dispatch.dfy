/**
 * `DOMProvider::dispatchEvents` (src/DOM/DOMProvider.php:272-331) as the loops it is: the
 * loop over a node's event names, which updates `$node` as deletes and replacements happen,
 * and the loop over the snapshot of its children. Each method is proved to compute the walk
 * that `DomWalk` defines, so the properties proved of `Walk` hold of it.
 */
module DomDispatch {
  import opened Wrappers
  import opened Strings
  import opened DomWalk

  /** Once a prefix of the children fails, the whole loop fails with the same error. */
  lemma {:induction false} WalkAllStops(ns: seq<Node>, i: nat, h: Hooks, ctx: seq<string>, fuel: nat)
    requires i <= |ns| && WalkAll(ns[..i], h, ctx, fuel).Err?
    ensures WalkAll(ns, h, ctx, fuel) == WalkAll(ns[..i], h, ctx, fuel)
    decreases |ns| - i
  {
    if i < |ns| {
      assert ns[..i + 1][..i] == ns[..i];
      WalkAllStops(ns, i + 1, h, ctx, fuel);
    } else {
      assert ns[..i] == ns;
    }
  }

  /** The walk of a node; `r` is exactly `Walk(n, h, ctx, fuel)`. */
  method DispatchEvents(n: Node, h: Hooks, ctx: seq<string>, fuel: nat) returns (r: Result<Visit, DomError>)
    ensures r == Walk(n, h, ctx, fuel)
    decreases fuel, Size(n), 1
  {
    if IsOff(n) {
      return Ok(Visit([n], [], ctx));
    }
    var names := EventNames(n, h.phase);
    var start := Firing(n, None, Opening(n), Entered(n, ctx));
    var cur := n;
    var slot: Option<seq<Node>> := None;
    var trace := Opening(n);
    var context := Entered(n, ctx);
    var i := 0;
    while i < |names|
      invariant 0 <= i <= |names|
      invariant Fire(names, 0, start, h, fuel) == Fire(names, i, Firing(cur, slot, trace, context), h, fuel)
      invariant Kids(cur) == Kids(n) || Kids(cur) == []
    {
      var re := h.listener(names[i], cur, context);
      trace := trace + [Fired(names[i], cur)];
      if re.delete {
        if slot.Some? {
          return Err(DetachedParent);
        }
        cur := WithAttrs(cur, re.attrs);
        slot := Some([]);
        context := ApplyOp(context, re.op);
      } else if Truthy(re.replacement) {
        if slot.Some? {
          return Err(DetachedParent);
        }
        context := ApplyOp(context, re.op);
        if h.mode == AsWritten {
          slot := Some(h.parse(re.replacement));
        } else if fuel == 0 {
          return Err(OutOfFuel);
        } else {
          var v := DispatchAll(h.parse(re.replacement), h, context, fuel - 1);
          if v.Err? {
            return Err(v.error);
          }
          slot := Some(v.value.placed);
          trace := trace + v.value.trace;
          context := v.value.context;
        }
        cur := Container([]);
      } else {
        cur := WithAttrs(cur, re.attrs);
        context := ApplyOp(context, re.op);
      }
      i := i + 1;
    }
    var kids := Kids(cur);
    var k := DispatchAll(kids, h, context, fuel);
    if k.Err? {
      return Err(k.error);
    }
    var placed := if slot.None? then [WithChildren(cur, k.value.placed)] else slot.value;
    return Ok(Visit(placed, trace + k.value.trace + Closing(n), Left(n, k.value.context)));
  }

  /** The loop over a snapshot of nodes; `r` is exactly `WalkAll(ns, h, ctx, fuel)`. */
  method DispatchAll(ns: seq<Node>, h: Hooks, ctx: seq<string>, fuel: nat) returns (r: Result<Visit, DomError>)
    ensures r == WalkAll(ns, h, ctx, fuel)
    decreases fuel, SizeAll(ns), 2
  {
    var placed: seq<Node> := [];
    var trace: seq<Event> := [];
    var context := ctx;
    var i := 0;
    while i < |ns|
      invariant 0 <= i <= |ns|
      invariant WalkAll(ns[..i], h, ctx, fuel) == Ok(Visit(placed, trace, context))
    {
      SizeAllBound(ns, i);
      var v := DispatchEvents(ns[i], h, context, fuel);
      assert ns[..i + 1][..i] == ns[..i] && ns[..i + 1][i] == ns[i];
      if v.Err? {
        WalkAllStops(ns, i + 1, h, ctx, fuel);
        return Err(v.error);
      }
      placed := placed + v.value.placed;
      trace := trace + v.value.trace;
      context := v.value.context;
      i := i + 1;
    }
    assert ns[..i] == ns;
    return Ok(Visit(placed, trace, context));
  }
}
