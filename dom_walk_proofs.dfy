/**
 * Properties of the event walk of `DOMProvider::dispatchEvents`
 * (src/DOM/DOMProvider.php:272-331).
 */
module DomWalkProofs {
  import opened Wrappers
  import opened Strings
  import opened DomWalk

  /** The number of contexts the walk itself has begun and not yet ended. */
  function Opens(t: seq<Event>): int
    decreases |t|
  {
    if |t| == 0 then 0
    else Opens(t[..|t| - 1]) + (if t[|t| - 1].Pushed? then 1 else if t[|t| - 1].Popped? then -1 else 0)
  }

  /** The lowest number of open contexts at any point of the trace, the start included. */
  function Low(t: seq<Event>): int
    decreases |t|
  {
    if |t| == 0 then 0
    else var o := Opens(t); var l := Low(t[..|t| - 1]); if o < l then o else l
  }

  /** Every context the walk begins it ends, and it never ends one it did not begin. */
  predicate Balanced(t: seq<Event>) {
    Opens(t) == 0 && Low(t) == 0
  }

  lemma {:induction false} OpensAppend(a: seq<Event>, b: seq<Event>)
    ensures Opens(a + b) == Opens(a) + Opens(b)
    decreases |b|
  {
    if |b| == 0 {
      assert a + b == a;
    } else {
      assert (a + b)[..|a + b| - 1] == a + b[..|b| - 1];
      OpensAppend(a, b[..|b| - 1]);
    }
  }

  lemma {:induction false} LowAppend(a: seq<Event>, b: seq<Event>)
    ensures Low(a + b) == if Opens(a) + Low(b) < Low(a) then Opens(a) + Low(b) else Low(a)
    decreases |b|
  {
    if |b| == 0 {
      assert a + b == a;
      assert Low(a) <= Opens(a) by {
        LowAtMostOpens(a);
      }
    } else {
      assert (a + b)[..|a + b| - 1] == a + b[..|b| - 1];
      LowAppend(a, b[..|b| - 1]);
      OpensAppend(a, b);
    }
  }

  lemma {:induction false} LowAtMostOpens(t: seq<Event>)
    ensures Low(t) <= Opens(t) && Low(t) <= 0
    decreases |t|
  {
    if |t| > 0 {
      LowAtMostOpens(t[..|t| - 1]);
    }
  }

  lemma {:induction false} BalancedAppend(a: seq<Event>, b: seq<Event>)
    requires Balanced(a) && Balanced(b)
    ensures Balanced(a + b)
  {
    OpensAppend(a, b);
    LowAppend(a, b);
  }

  lemma {:induction false} BalancedWrap(u: string, b: seq<Event>)
    requires Balanced(b)
    ensures Balanced([Pushed(u)] + b + [Popped])
  {
    var p := [Pushed(u)];
    assert p[..0] == [];
    assert Opens(p) == 1 && Low(p) == 0;
    OpensAppend(p, b);
    LowAppend(p, b);
    var q := [Popped];
    assert q[..0] == [];
    assert Opens(q) == -1 && Low(q) == -1;
    OpensAppend(p + b, q);
    LowAppend(p + b, q);
  }

  lemma {:induction false} BalancedFired(name: string, target: Node)
    ensures Balanced([Fired(name, target)])
  {
    var t := [Fired(name, target)];
    assert t[..0] == [];
  }

  lemma {:induction false} BalancedEmpty()
    ensures Balanced([])
  {
  }

  /** One pass of the name loop: the state it hands on and what it adds to the trace. */
  lemma {:induction false} FireStep(names: seq<string>, i: nat, st: Firing, h: Hooks, fuel: nat) returns (mid: seq<Event>, next: Firing)
    requires i < |names|
    requires Fire(names, i, st, h, fuel).Ok?
    ensures Fire(names, i, st, h, fuel) == Fire(names, i + 1, next, h, fuel)
    ensures next.trace == st.trace + mid && Balanced(mid)
    ensures |mid| >= 1 && mid[0] == Fired(names[i], st.cur)
    ensures var re := h.listener(names[i], st.cur, st.context);
      h.mode == AsWritten || re.delete || !Truthy(re.replacement) ==> mid == [Fired(names[i], st.cur)]
    decreases fuel, 0, |names| - i, 0
  {
    var re := h.listener(names[i], st.cur, st.context);
    var cur := WithAttrs(st.cur, re.attrs);
    var ctx := ApplyOp(st.context, re.op);
    var ev := [Fired(names[i], st.cur)];
    var tr := st.trace + ev;
    BalancedFired(names[i], st.cur);
    if re.delete {
      mid := ev;
      next := Firing(cur, Some([]), tr, ctx);
    } else if Truthy(re.replacement) {
      if h.mode == AsWritten {
        mid := ev;
        next := Firing(Container([]), Some(h.parse(re.replacement)), tr, ctx);
      } else {
        var v := WalkAll(h.parse(re.replacement), h, ctx, fuel - 1).value;
        WalkAllBalanced(h.parse(re.replacement), h, ctx, fuel - 1);
        BalancedAppend(ev, v.trace);
        mid := ev + v.trace;
        next := Firing(Container([]), Some(v.placed), tr + v.trace, v.context);
      }
    } else {
      mid := ev;
      next := Firing(cur, st.slot, tr, ctx);
    }
  }

  /** The name loop only appends to the trace, and what it appends is balanced. */
  lemma {:induction false} FireBalanced(names: seq<string>, i: nat, st: Firing, h: Hooks, fuel: nat)
    requires i <= |names|
    requires Fire(names, i, st, h, fuel).Ok?
    ensures var f := Fire(names, i, st, h, fuel).value;
      |st.trace| <= |f.trace| && f.trace == st.trace + f.trace[|st.trace|..] && Balanced(f.trace[|st.trace|..])
    decreases fuel, 0, |names| - i, 1
  {
    var f := Fire(names, i, st, h, fuel).value;
    if i == |names| {
      assert f.trace[|st.trace|..] == [];
    } else {
      var mid, next := FireStep(names, i, st, h, fuel);
      FireBalanced(names, i + 1, next, h, fuel);
      var rest := f.trace[|next.trace|..];
      BalancedAppend(mid, rest);
      DropPrefix(f.trace, st.trace, mid, rest);
    }
  }

  lemma DropPrefix<T>(x: seq<T>, a: seq<T>, b: seq<T>, c: seq<T>)
    requires x == a + b + c
    ensures |a| <= |x| && x[|a|..] == b + c && x == a + x[|a|..]
  {
    assert x[|a|..] == b + c;
  }

  /** The trace of one node: its own begun context around its events and its children's. */
  lemma {:induction false} BalancedNode(n: Node, f: seq<Event>, k: seq<Event>)
    requires |Opening(n)| <= |f| && f == Opening(n) + f[|Opening(n)|..]
    requires Balanced(f[|Opening(n)|..]) && Balanced(k)
    ensures Balanced(f + k + Closing(n))
  {
    var d := f[|Opening(n)|..];
    BalancedAppend(d, k);
    if Truthy(OwnUrl(n)) {
      BalancedWrap(OwnUrl(n), d + k);
      assert f + k + [Popped] == [Pushed(OwnUrl(n))] + (d + k) + [Popped];
    } else {
      assert f + k + [] == d + k;
    }
  }

  /** The contexts `dispatchEvents` begins from `data-url-context` are ended, innermost first. */
  lemma {:induction false} WalkBalanced(n: Node, h: Hooks, ctx: seq<string>, fuel: nat)
    requires Walk(n, h, ctx, fuel).Ok?
    ensures Balanced(Walk(n, h, ctx, fuel).value.trace)
    decreases fuel, Size(n), 1, 0
  {
    if !IsOff(n) {
      var start := Firing(n, None, Opening(n), Entered(n, ctx));
      var f := Fire(EventNames(n, h.phase), 0, start, h, fuel).value;
      FireBalanced(EventNames(n, h.phase), 0, start, h, fuel);
      var k := WalkAll(Kids(f.cur), h, f.context, fuel).value;
      WalkAllBalanced(Kids(f.cur), h, f.context, fuel);
      BalancedNode(n, f.trace, k.trace);
    }
  }

  lemma {:induction false} WalkAllBalanced(ns: seq<Node>, h: Hooks, ctx: seq<string>, fuel: nat)
    requires WalkAll(ns, h, ctx, fuel).Ok?
    ensures Balanced(WalkAll(ns, h, ctx, fuel).value.trace)
    decreases fuel, SizeAll(ns), 2, 0
  {
    if |ns| == 0 {
      BalancedEmpty();
    } else {
      var a := WalkAll(ns[..|ns| - 1], h, ctx, fuel).value;
      WalkAllBalanced(ns[..|ns| - 1], h, ctx, fuel);
      WalkBalanced(ns[|ns| - 1], h, a.context, fuel);
      BalancedAppend(a.trace, Walk(ns[|ns| - 1], h, a.context, fuel).value.trace);
    }
  }

  /** A listener that never begins or ends a context itself. */
  ghost predicate Quiet(l: Listener) {
    forall name, n, ctx :: l(name, n, ctx).op == Keep
  }

  lemma {:induction false} FireContext(names: seq<string>, i: nat, st: Firing, h: Hooks, fuel: nat)
    requires i <= |names| && Quiet(h.listener)
    requires Fire(names, i, st, h, fuel).Ok?
    ensures Fire(names, i, st, h, fuel).value.context == st.context
    decreases fuel, 0, |names| - i
  {
    if i < |names| {
      var re := h.listener(names[i], st.cur, st.context);
      var cur := WithAttrs(st.cur, re.attrs);
      var tr := st.trace + [Fired(names[i], st.cur)];
      assert re.op == Keep;
      if re.delete {
        FireContext(names, i + 1, Firing(cur, Some([]), tr, st.context), h, fuel);
      } else if Truthy(re.replacement) {
        if h.mode == AsWritten {
          FireContext(names, i + 1, Firing(Container([]), Some(h.parse(re.replacement)), tr, st.context), h, fuel);
        } else {
          var v := WalkAll(h.parse(re.replacement), h, st.context, fuel - 1).value;
          WalkAllContext(h.parse(re.replacement), h, st.context, fuel - 1);
          FireContext(names, i + 1, Firing(Container([]), Some(v.placed), tr + v.trace, v.context), h, fuel);
        }
      } else {
        FireContext(names, i + 1, Firing(cur, st.slot, tr, st.context), h, fuel);
      }
    }
  }

  /**
   * With listeners that leave the context alone, the context stack after a node's walk is
   * the one before it: the frame a `data-url-context` begins is ended after the children.
   */
  lemma {:induction false} WalkContext(n: Node, h: Hooks, ctx: seq<string>, fuel: nat)
    requires Quiet(h.listener)
    requires Walk(n, h, ctx, fuel).Ok?
    ensures Walk(n, h, ctx, fuel).value.context == ctx
    decreases fuel, Size(n), 1
  {
    if !IsOff(n) {
      var start := Firing(n, None, Opening(n), Entered(n, ctx));
      var f := Fire(EventNames(n, h.phase), 0, start, h, fuel).value;
      FireContext(EventNames(n, h.phase), 0, start, h, fuel);
      WalkAllContext(Kids(f.cur), h, f.context, fuel);
      if Truthy(OwnUrl(n)) {
        assert (ctx + [OwnUrl(n)])[..|ctx|] == ctx;
      }
    }
  }

  lemma {:induction false} WalkAllContext(ns: seq<Node>, h: Hooks, ctx: seq<string>, fuel: nat)
    requires Quiet(h.listener)
    requires WalkAll(ns, h, ctx, fuel).Ok?
    ensures WalkAll(ns, h, ctx, fuel).value.context == ctx
    decreases fuel, SizeAll(ns), 2
  {
    if |ns| > 0 {
      var a := WalkAll(ns[..|ns| - 1], h, ctx, fuel).value;
      WalkAllContext(ns[..|ns| - 1], h, ctx, fuel);
      WalkContext(ns[|ns| - 1], h, a.context, fuel);
    }
  }

  /** An element marked `data-leafcutter-dom-events="off"` is left as it is, with no events. */
  lemma {:induction false} OffSkips(n: Node, h: Hooks, ctx: seq<string>, fuel: nat)
    requires IsOff(n)
    ensures Walk(n, h, ctx, fuel) == Ok(Visit([n], [], ctx))
  {
  }
}
