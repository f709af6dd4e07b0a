/**
 * The walk of `DOMProvider::dispatchEvents` (src/DOM/DOMProvider.php:272-331) case by
 * case: coverage when no listener edits the tree, event order, deletion, and replacement.
 */
module DomWalkCases {
  import opened Wrappers
  import opened Strings
  import opened DomWalk
  import opened DomWalkProofs

  /** Listeners that never ask for a deletion or a replacement. */
  ghost predicate Passive(l: Listener) {
    forall name, n, ctx :: !l(name, n, ctx).delete && !Truthy(l(name, n, ctx).replacement)
  }

  /** A node without its attributes: the shape of the tree. */
  function Skeleton(n: Node): Node
    decreases n
  {
    match n
    case Element(tag, _, cs) => Element(tag, map[], SkeletonAll(cs))
    case Container(cs) => Container(SkeletonAll(cs))
    case _ => n
  }

  function SkeletonAll(ns: seq<Node>): (r: seq<Node>)
    ensures |r| == |ns|
    decreases ns
  {
    if |ns| == 0 then [] else SkeletonAll(ns[..|ns| - 1]) + [Skeleton(ns[|ns| - 1])]
  }

  /** The events a walk of `n` dispatches: two per element, comment and text not under an "off" element. */
  function Eventful(n: Node): nat
    decreases n
  {
    match n
    case Element(_, _, cs) => if IsOff(n) then 0 else 2 + EventfulAll(cs)
    case Container(cs) => EventfulAll(cs)
    case _ => 2
  }

  function EventfulAll(ns: seq<Node>): nat
    decreases ns
  {
    if |ns| == 0 then 0 else EventfulAll(ns[..|ns| - 1]) + Eventful(ns[|ns| - 1])
  }

  function FiredCount(t: seq<Event>): nat
    decreases |t|
  {
    if |t| == 0 then 0 else FiredCount(t[..|t| - 1]) + (if t[|t| - 1].Fired? then 1 else 0)
  }

  lemma {:induction false} FiredCountAppend(a: seq<Event>, b: seq<Event>)
    ensures FiredCount(a + b) == FiredCount(a) + FiredCount(b)
    decreases |b|
  {
    if |b| == 0 {
      assert a + b == a;
    } else {
      assert (a + b)[..|a + b| - 1] == a + b[..|b| - 1];
      FiredCountAppend(a, b[..|b| - 1]);
    }
  }

  /** With passive listeners the name loop fires every name and keeps the node's shape. */
  lemma {:induction false} FirePassive(names: seq<string>, i: nat, st: Firing, h: Hooks, fuel: nat)
    requires i <= |names| && Passive(h.listener)
    ensures Fire(names, i, st, h, fuel).Ok?
    ensures var f := Fire(names, i, st, h, fuel).value;
      f.slot == st.slot && Skeleton(f.cur) == Skeleton(st.cur) && Kids(f.cur) == Kids(st.cur)
      && FiredCount(f.trace) == FiredCount(st.trace) + |names| - i
    decreases |names| - i
  {
    if i < |names| {
      var re := h.listener(names[i], st.cur, st.context);
      var cur := WithAttrs(st.cur, re.attrs);
      var tr := st.trace + [Fired(names[i], st.cur)];
      assert !re.delete && !Truthy(re.replacement);
      var next := Firing(cur, st.slot, tr, ApplyOp(st.context, re.op));
      assert Fire(names, i, st, h, fuel) == Fire(names, i + 1, next, h, fuel);
      FiredCountAppend(st.trace, [Fired(names[i], st.cur)]);
      assert [Fired(names[i], st.cur)][..0] == [];
      FirePassive(names, i + 1, next, h, fuel);
    }
  }

  lemma {:induction false} SkeletonRebuilt(c: Node, n: Node, ps: seq<Node>)
    requires Skeleton(c) == Skeleton(n) && SkeletonAll(ps) == SkeletonAll(Kids(n))
    ensures Skeleton(WithChildren(c, ps)) == Skeleton(n)
  {
  }

  lemma {:induction false} FiredCountNode(n: Node, f: seq<Event>, k: seq<Event>, names: nat)
    requires FiredCount(f) == FiredCount(Opening(n)) + names
    ensures FiredCount(f + k + Closing(n)) == names + FiredCount(k)
  {
    FiredCountAppend(f, k);
    FiredCountAppend(f + k, Closing(n));
    assert [Popped][..0] == [];
    assert [Pushed(OwnUrl(n))][..0] == [];
  }

  /**
   * With passive listeners, a node's walk dispatches two events for every element, comment
   * and text node not inside an "off" element, and leaves one node of the same shape in place.
   */
  lemma {:induction false} WalkPassive(n: Node, h: Hooks, ctx: seq<string>, fuel: nat)
    requires Passive(h.listener)
    ensures Walk(n, h, ctx, fuel).Ok?
    ensures var v := Walk(n, h, ctx, fuel).value;
      |v.placed| == 1 && Skeleton(v.placed[0]) == Skeleton(n) && FiredCount(v.trace) == Eventful(n)
    decreases Size(n), 1
  {
    if !IsOff(n) {
      var names := EventNames(n, h.phase);
      var start := Firing(n, None, Opening(n), Entered(n, ctx));
      FirePassive(names, 0, start, h, fuel);
      var f := Fire(names, 0, start, h, fuel).value;
      WalkAllPassive(Kids(f.cur), h, f.context, fuel);
      var k := WalkAll(Kids(f.cur), h, f.context, fuel).value;
      SkeletonRebuilt(f.cur, n, k.placed);
      assert [Pushed(OwnUrl(n))][..0] == [];
      FiredCountNode(n, f.trace, k.trace, |names|);
    }
  }

  lemma {:induction false} WalkAllPassive(ns: seq<Node>, h: Hooks, ctx: seq<string>, fuel: nat)
    requires Passive(h.listener)
    ensures WalkAll(ns, h, ctx, fuel).Ok?
    ensures var v := WalkAll(ns, h, ctx, fuel).value;
      SkeletonAll(v.placed) == SkeletonAll(ns) && FiredCount(v.trace) == EventfulAll(ns)
    decreases SizeAll(ns), 2
  {
    if |ns| > 0 {
      var init := ns[..|ns| - 1];
      WalkAllPassive(init, h, ctx, fuel);
      var a := WalkAll(init, h, ctx, fuel).value;
      WalkPassive(ns[|ns| - 1], h, a.context, fuel);
      var b := Walk(ns[|ns| - 1], h, a.context, fuel).value;
      var ps := a.placed + b.placed;
      assert ps[..|ps| - 1] == a.placed;
      FiredCountAppend(a.trace, b.trace);
    }
  }

  /**
   * A node's own events come first in its trace, right after the context it begins:
   * `names[0]` on the node as it was, then `names[1]` (unless a replacement's content was
   * walked between them); the context it begins is ended last.
   */
  lemma {:induction false} EventOrder(n: Node, h: Hooks, ctx: seq<string>, fuel: nat)
    requires !n.Container? && !IsOff(n)
    requires Walk(n, h, ctx, fuel).Ok?
    ensures var t := Walk(n, h, ctx, fuel).value.trace;
      var names := EventNames(n, h.phase);
      var p := |Opening(n)|;
      var r0 := h.listener(names[0], n, Entered(n, ctx));
      |t| >= p + 2 && t[..p] == Opening(n) && t[p] == Fired(names[0], n)
      && (h.mode == AsWritten || r0.delete || !Truthy(r0.replacement) ==>
            t[p + 1].Fired? && t[p + 1].name == names[1])
      && (Truthy(OwnUrl(n)) ==> t[|t| - 1] == Popped)
  {
    var names := EventNames(n, h.phase);
    var start := Firing(n, None, Opening(n), Entered(n, ctx));
    var mid0, next0 := FireStep(names, 0, start, h, fuel);
    var mid1, next1 := FireStep(names, 1, next0, h, fuel);
    var f := Fire(names, 0, start, h, fuel).value;
    assert f == next1;
    var k := WalkAll(Kids(f.cur), h, f.context, fuel).value;
    assert f.trace == Opening(n) + mid0 + mid1;
  }

  /**
   * After a delete, the second event is still dispatched (on the detached node) and the
   * detached node's children are still walked; nothing is left in the node's place.
   */
  lemma {:induction false} DeletedStillWalked(n: Node, h: Hooks, ctx: seq<string>, fuel: nat)
    requires !n.Container? && !IsOff(n)
    requires var names := EventNames(n, h.phase);
      var r0 := h.listener(names[0], n, Entered(n, ctx));
      var r1 := h.listener(names[1], WithAttrs(n, r0.attrs), ApplyOp(Entered(n, ctx), r0.op));
      r0.delete && !r1.delete && !Truthy(r1.replacement)
    ensures var names := EventNames(n, h.phase);
      var r0 := h.listener(names[0], n, Entered(n, ctx));
      var n1 := WithAttrs(n, r0.attrs);
      var c1 := ApplyOp(Entered(n, ctx), r0.op);
      var r1 := h.listener(names[1], n1, c1);
      var k := WalkAll(Kids(n), h, ApplyOp(c1, r1.op), fuel);
      (Walk(n, h, ctx, fuel).Ok? <==> k.Ok?)
      && (k.Ok? ==> Walk(n, h, ctx, fuel) == Ok(Visit([],
            Opening(n) + [Fired(names[0], n), Fired(names[1], n1)] + k.value.trace + Closing(n),
            Left(n, k.value.context))))
  {
    var names := EventNames(n, h.phase);
    var r0 := h.listener(names[0], n, Entered(n, ctx));
    var n1 := WithAttrs(n, r0.attrs);
    var c1 := ApplyOp(Entered(n, ctx), r0.op);
    var r1 := h.listener(names[1], n1, c1);
    var start := Firing(n, None, Opening(n), Entered(n, ctx));
    var s1 := Firing(n1, Some([]), Opening(n) + [Fired(names[0], n)], c1);
    var s2 := Firing(WithAttrs(n1, r1.attrs), Some([]), s1.trace + [Fired(names[1], n1)], ApplyOp(c1, r1.op));
    assert Fire(names, 0, start, h, fuel) == Fire(names, 1, s1, h, fuel) == Ok(s2);
    assert s2.trace == Opening(n) + [Fired(names[0], n), Fired(names[1], n1)];
  }

  /** A delete followed by a delete or replacement of the same node calls a method on a null parent. */
  lemma {:induction false} DeleteThenEditFails(n: Node, h: Hooks, ctx: seq<string>, fuel: nat)
    requires !n.Container? && !IsOff(n)
    requires var names := EventNames(n, h.phase);
      var r0 := h.listener(names[0], n, Entered(n, ctx));
      var r1 := h.listener(names[1], WithAttrs(n, r0.attrs), ApplyOp(Entered(n, ctx), r0.op));
      r0.delete && (r1.delete || Truthy(r1.replacement))
    ensures Walk(n, h, ctx, fuel) == Err(DetachedParent)
  {
    var names := EventNames(n, h.phase);
    var r0 := h.listener(names[0], n, Entered(n, ctx));
    var start := Firing(n, None, Opening(n), Entered(n, ctx));
    var s1 := Firing(WithAttrs(n, r0.attrs), Some([]), Opening(n) + [Fired(names[0], n)], ApplyOp(Entered(n, ctx), r0.op));
    assert Fire(names, 0, start, h, fuel) == Fire(names, 1, s1, h, fuel);
  }

  /**
   * As written: the replacement is a document fragment that `replaceChild` empties into the
   * parent, so the dispatch on it finds no nodes and the second event goes to the empty
   * fragment. The replacement's nodes are placed but get no events at all.
   */
  lemma {:induction false} ReplacementNotWalked(n: Node, h: Hooks, ctx: seq<string>, fuel: nat)
    requires h.mode == AsWritten && !n.Container? && !IsOff(n)
    requires var names := EventNames(n, h.phase);
      var r0 := h.listener(names[0], n, Entered(n, ctx));
      var r1 := h.listener(names[1], Container([]), ApplyOp(Entered(n, ctx), r0.op));
      !r0.delete && Truthy(r0.replacement) && !r1.delete && !Truthy(r1.replacement)
    ensures var names := EventNames(n, h.phase);
      var r0 := h.listener(names[0], n, Entered(n, ctx));
      var c1 := ApplyOp(Entered(n, ctx), r0.op);
      var r1 := h.listener(names[1], Container([]), c1);
      Walk(n, h, ctx, fuel) == Ok(Visit(h.parse(r0.replacement),
        Opening(n) + [Fired(names[0], n), Fired(names[1], Container([]))] + Closing(n),
        Left(n, ApplyOp(c1, r1.op))))
  {
    var names := EventNames(n, h.phase);
    var r0 := h.listener(names[0], n, Entered(n, ctx));
    var c1 := ApplyOp(Entered(n, ctx), r0.op);
    var r1 := h.listener(names[1], Container([]), c1);
    var start := Firing(n, None, Opening(n), Entered(n, ctx));
    var s1 := Firing(Container([]), Some(h.parse(r0.replacement)), Opening(n) + [Fired(names[0], n)], c1);
    var s2 := Firing(Container([]), s1.slot, s1.trace + [Fired(names[1], Container([]))], ApplyOp(c1, r1.op));
    assert Fire(names, 0, start, h, fuel) == Fire(names, 1, s1, h, fuel) == Ok(s2);
    assert WalkAll([], h, s2.context, fuel) == Ok(Visit([], [], s2.context));
    assert s2.trace + [] == Opening(n) + [Fired(names[0], n), Fired(names[1], Container([]))];
  }

  /**
   * Corrected: the nodes a replacement puts in the node's place are walked right after the
   * event that asked for it, and what their walk leaves is what stays in the node's place.
   */
  lemma {:induction false} ReplacementWalked(n: Node, h: Hooks, ctx: seq<string>, fuel: nat)
    requires h.mode == Corrected && fuel > 0 && !n.Container? && !IsOff(n)
    requires var names := EventNames(n, h.phase);
      var r0 := h.listener(names[0], n, Entered(n, ctx));
      var v := WalkAll(h.parse(r0.replacement), h, ApplyOp(Entered(n, ctx), r0.op), fuel - 1);
      !r0.delete && Truthy(r0.replacement) && v.Ok?
      && !h.listener(names[1], Container([]), v.value.context).delete
      && !Truthy(h.listener(names[1], Container([]), v.value.context).replacement)
    ensures var names := EventNames(n, h.phase);
      var r0 := h.listener(names[0], n, Entered(n, ctx));
      var v := WalkAll(h.parse(r0.replacement), h, ApplyOp(Entered(n, ctx), r0.op), fuel - 1).value;
      var r1 := h.listener(names[1], Container([]), v.context);
      Walk(n, h, ctx, fuel) == Ok(Visit(v.placed,
        Opening(n) + [Fired(names[0], n)] + v.trace + [Fired(names[1], Container([]))] + Closing(n),
        Left(n, ApplyOp(v.context, r1.op))))
  {
    var names := EventNames(n, h.phase);
    var r0 := h.listener(names[0], n, Entered(n, ctx));
    var c1 := ApplyOp(Entered(n, ctx), r0.op);
    var v := WalkAll(h.parse(r0.replacement), h, c1, fuel - 1).value;
    var r1 := h.listener(names[1], Container([]), v.context);
    var start := Firing(n, None, Opening(n), Entered(n, ctx));
    var s1 := Firing(Container([]), Some(v.placed), Opening(n) + [Fired(names[0], n)] + v.trace, v.context);
    var s2 := Firing(Container([]), s1.slot, s1.trace + [Fired(names[1], Container([]))], ApplyOp(v.context, r1.op));
    assert Fire(names, 0, start, h, fuel) == Fire(names, 1, s1, h, fuel) == Ok(s2);
    assert WalkAll([], h, s2.context, fuel) == Ok(Visit([], [], s2.context));
    assert s2.trace + [] == Opening(n) + [Fired(names[0], n)] + v.trace + [Fired(names[1], Container([]))];
  }

  /** Listeners that leave the tree alone: no deletion, no replacement, an element's attributes kept. */
  ghost predicate Inert(l: Listener) {
    Passive(l) && forall name, n: Node, ctx :: n.Element? ==> l(name, n, ctx).attrs == n.attrs
  }

  lemma {:induction false} FireInert(names: seq<string>, i: nat, st: Firing, h: Hooks, fuel: nat)
    requires i <= |names|
    ensures Inert(h.listener) ==>
      (Fire(names, i, st, h, fuel).Ok? && Fire(names, i, st, h, fuel).value.cur == st.cur
       && Fire(names, i, st, h, fuel).value.slot == st.slot)
    decreases |names| - i
  {
    if i < |names| && Inert(h.listener) {
      var re := h.listener(names[i], st.cur, st.context);
      assert !re.delete && !Truthy(re.replacement);
      assert WithAttrs(st.cur, re.attrs) == st.cur;
      var next := Firing(st.cur, st.slot, st.trace + [Fired(names[i], st.cur)], ApplyOp(st.context, re.op));
      assert Fire(names, i, st, h, fuel) == Fire(names, i + 1, next, h, fuel);
      FireInert(names, i + 1, next, h, fuel);
    }
  }

  /** With inert listeners a node stays in its place, unchanged. */
  lemma {:induction false} WalkInert(n: Node, h: Hooks, ctx: seq<string>, fuel: nat)
    ensures Inert(h.listener) ==> Walk(n, h, ctx, fuel).Ok? && Walk(n, h, ctx, fuel).value.placed == [n]
    decreases Size(n), 1
  {
    if !IsOff(n) && Inert(h.listener) {
      var start := Firing(n, None, Opening(n), Entered(n, ctx));
      FireInert(EventNames(n, h.phase), 0, start, h, fuel);
      var f := Fire(EventNames(n, h.phase), 0, start, h, fuel).value;
      WalkAllInert(Kids(n), h, f.context, fuel);
      assert WithChildren(n, Kids(n)) == n;
    }
  }

  /** With inert listeners the walk of a list of nodes gives the same list back. */
  lemma {:induction false} WalkAllInert(ns: seq<Node>, h: Hooks, ctx: seq<string>, fuel: nat)
    ensures Inert(h.listener) ==> WalkAll(ns, h, ctx, fuel).Ok? && WalkAll(ns, h, ctx, fuel).value.placed == ns
    decreases SizeAll(ns), 2
  {
    if |ns| > 0 && Inert(h.listener) {
      var init := ns[..|ns| - 1];
      WalkAllInert(init, h, ctx, fuel);
      var a := WalkAll(init, h, ctx, fuel).value;
      WalkInert(ns[|ns| - 1], h, a.context, fuel);
      assert init + [ns[|ns| - 1]] == ns;
    }
  }

  /**
   * As written the walk never runs out of fuel, since it does not walk replacements: its
   * only failure is a listener acting on a node that already left its parent.
   */
  lemma {:induction false} FireAsWritten(names: seq<string>, i: nat, st: Firing, h: Hooks, fuel: nat)
    requires i <= |names|
    ensures h.mode == AsWritten && Fire(names, i, st, h, fuel).Err? ==> Fire(names, i, st, h, fuel).error == DetachedParent
    decreases |names| - i
  {
    if i < |names| && h.mode == AsWritten {
      var re := h.listener(names[i], st.cur, st.context);
      var cur := WithAttrs(st.cur, re.attrs);
      var ctx := ApplyOp(st.context, re.op);
      var tr := st.trace + [Fired(names[i], st.cur)];
      if re.delete {
        FireAsWritten(names, i + 1, Firing(cur, Some([]), tr, ctx), h, fuel);
      } else if Truthy(re.replacement) {
        FireAsWritten(names, i + 1, Firing(Container([]), Some(h.parse(re.replacement)), tr, ctx), h, fuel);
      } else {
        FireAsWritten(names, i + 1, Firing(cur, st.slot, tr, ctx), h, fuel);
      }
    }
  }

  lemma {:induction false} WalkAsWritten(n: Node, h: Hooks, ctx: seq<string>, fuel: nat)
    ensures h.mode == AsWritten && Walk(n, h, ctx, fuel).Err? ==> Walk(n, h, ctx, fuel).error == DetachedParent
    decreases Size(n), 1
  {
    if !IsOff(n) && h.mode == AsWritten {
      var start := Firing(n, None, Opening(n), Entered(n, ctx));
      FireAsWritten(EventNames(n, h.phase), 0, start, h, fuel);
      var f := Fire(EventNames(n, h.phase), 0, start, h, fuel);
      if f.Ok? {
        var c := Kids(f.value.cur);
        assert c == Kids(n) || c == [];
        assert SizeAll(c) < Size(n);
        WalkAllAsWritten(c, h, f.value.context, fuel);
      }
    }
  }

  lemma {:induction false} WalkAllAsWritten(ns: seq<Node>, h: Hooks, ctx: seq<string>, fuel: nat)
    ensures h.mode == AsWritten && WalkAll(ns, h, ctx, fuel).Err? ==> WalkAll(ns, h, ctx, fuel).error == DetachedParent
    decreases SizeAll(ns), 2
  {
    if |ns| > 0 && h.mode == AsWritten {
      var init := ns[..|ns| - 1];
      WalkAllAsWritten(init, h, ctx, fuel);
      var a := WalkAll(init, h, ctx, fuel);
      if a.Ok? {
        WalkAsWritten(ns[|ns| - 1], h, a.value.context, fuel);
      }
    }
  }
}
