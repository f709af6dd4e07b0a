/** Properties of the HTML pipeline of `DOMProvider` (src/DOM/DOMProvider.php:30-55, 204-264). */
module DomHtmlProofs {
  import opened Wrappers
  import opened Strings
  import opened DomWalk
  import opened DomHtml

  /** `FirstTruthy` finds the first truthy string, and finds none only when there is none. */
  lemma {:induction false} FirstTruthyFinds(cs: seq<string>)
    ensures var r := FirstTruthy(cs);
      (r.Some? ==> exists i :: 0 <= i < |cs| && cs[i] == r.value && Truthy(cs[i])
                     && forall j :: 0 <= j < i ==> !Truthy(cs[j]))
      && (r.None? <==> forall j :: 0 <= j < |cs| ==> !Truthy(cs[j]))
    decreases |cs|
  {
    if |cs| > 0 && !Truthy(cs[0]) {
      FirstTruthyFinds(cs[1..]);
      var r := FirstTruthy(cs[1..]);
      if r.Some? {
        var i :| 0 <= i < |cs[1..]| && cs[1..][i] == r.value && Truthy(cs[1..][i])
          && forall j :: 0 <= j < i ==> !Truthy(cs[1..][j]);
        assert cs[i + 1] == r.value;
        assert forall j :: 1 <= j < i + 1 ==> cs[j] == cs[1..][j - 1];
      } else {
        assert forall j :: 1 <= j < |cs| ==> cs[j] == cs[1..][j - 1];
      }
    }
  }

  lemma {:induction false} FirstTruthyAppend(a: seq<string>, b: seq<string>)
    ensures FirstTruthy(a + b) == if FirstTruthy(a).Some? then FirstTruthy(a) else FirstTruthy(b)
    decreases |a|
  {
    if |a| == 0 {
      assert a + b == b;
    } else {
      assert (a + b)[1..] == a[1..] + b;
      FirstTruthyAppend(a[1..], b);
    }
  }

  /**
   * `bodyOnly` returns the content of the root if it is a `<body>`, and otherwise the first
   * truthy content among the `<body>` elements of the tree in document order: a `<body>`
   * whose content is "" or "0" is passed over, and so is anything inside a `<body>`.
   */
  lemma {:induction false} BodyOnlyIsFirstCandidate(n: Node, save: Node -> string)
    ensures BodyOnly(n, save) ==
      if IsBody(n) then Some(BodyContent(n, save)) else FirstTruthy(Candidates(n, save))
    decreases Size(n), 0, 0
  {
    if !IsBody(n) {
      FirstBodyIsFirstCandidate(Kids(n), 0, save);
    }
  }

  lemma {:induction false} FirstBodyIsFirstCandidate(ns: seq<Node>, i: nat, save: Node -> string)
    requires i <= |ns|
    ensures FirstBody(ns, i, save) == FirstTruthy(CandidatesFrom(ns, i, save))
    decreases SizeAll(ns), 1, |ns| - i
  {
    if i < |ns| {
      SizeAllBound(ns, i);
      BodyOnlyIsFirstCandidate(ns[i], save);
      FirstBodyIsFirstCandidate(ns, i + 1, save);
      FirstTruthyAppend(Candidates(ns[i], save), CandidatesFrom(ns, i + 1, save));
      if !IsBody(ns[i]) {
        FirstTruthyFinds(Candidates(ns[i], save));
      } else {
        var c := BodyContent(ns[i], save);
        assert [c][1..] == [];
      }
    }
  }

  /**
   * Below the root, only a truthy content counts: a fragment whose bodies are all empty
   * falls back to the whole document, as `html` does for a null `bodyOnly`.
   */
  lemma {:induction false} BodyOnlyTruthy(n: Node, save: Node -> string)
    requires !IsBody(n)
    ensures BodyOnly(n, save).Some? ==> Truthy(BodyOnly(n, save).value)
    ensures BodyOnly(n, save).None? <==> forall j :: 0 <= j < |Candidates(n, save)| ==> !Truthy(Candidates(n, save)[j])
  {
    BodyOnlyIsFirstCandidate(n, save);
    FirstTruthyFinds(Candidates(n, save));
  }

  /**
   * `dispatchEvents($dom, ...)` on the document itself fires nothing on it and walks its
   * nodes: the document after the walk holds what the nodes' walk placed.
   */
  lemma {:induction false} DocumentWalk(top: seq<Node>, h: Hooks, ctx: seq<string>, fuel: nat)
    ensures var w := Walk(Container(top), h, ctx, fuel);
      var k := WalkAll(top, h, ctx, fuel);
      (w.Ok? <==> k.Ok?)
      && (k.Ok? ==> w.value == Visit([Container(k.value.placed)], k.value.trace, k.value.context))
  {
    var n := Container(top);
    assert !IsOff(n) && Opening(n) == [] && Closing(n) == [] && Entered(n, ctx) == ctx;
    assert Left(n, ctx) == ctx;
    var start := Firing(n, None, [], ctx);
    assert Fire(EventNames(n, h.phase), 0, start, h, fuel) == Ok(start);
    var k := WalkAll(top, h, ctx, fuel);
    if k.Ok? {
      assert Left(n, k.value.context) == k.value.context;
    }
  }

  /** A failure of the walk (a listener acting on a detached node) is the failure of `html`. */
  lemma {:induction false} WalkFailureIsHtmlFailure(html: string, fragment: bool, b: Pipeline, ctx: seq<string>, fuel: nat,
                                                    mode: Mode, bounded: bool)
    requires b.load(b.process(html)).Some?
    ensures Html(html, fragment, b, ctx, fuel, mode, bounded).Err?
      <==> Walk(Container(b.load(b.process(html)).value), PipelineHooks(fragment, b, mode), ctx, fuel).Err?
  {
    DocumentWalk(b.load(b.process(html)).value, PipelineHooks(fragment, b, mode), ctx, fuel);
  }

  /** The test is case-sensitive: an upper-case `<!DOCTYPE html>` response is left alone. */
  lemma {:induction false} UpperCaseDoctypeUntouched(rest: string, url: string, b: Pipeline, ctx: seq<string>)
    ensures ResponseReady("<!DOCTYPE html>" + rest, url, b, ctx) == Ok("<!DOCTYPE html>" + rest)
  {
    var c := "<!DOCTYPE html>" + rest;
    assert c[2] == 'D' && "<!doctype"[2] == 'd';
    assert c[..9][2] != "<!doctype"[2];
  }

  /** A response that is processed is processed in the context of its own URL. */
  lemma {:induction false} DoctypeProcessedInContext(content: string, url: string, b: Pipeline, ctx: seq<string>)
    requires StartsWith(content, "<!doctype")
    ensures ResponseReady(content, url, b, ctx) == HtmlAsWritten(content, false, b, ctx + [url])
  {
  }

  /** `trim` removes leading whitespace. */
  lemma {:induction false} TrimLeading(w: string, x: string)
    requires AllTrimmed(w) && |x| > 0 && !IsTrimmed(x[0])
    ensures Trim(w + x) == Trim(x)
    decreases |w|
  {
    if |w| > 0 {
      assert (w + x)[1..] == w[1..] + x;
      TrimLeading(w[1..], x);
    } else {
      assert w + x == x;
    }
  }

  /** `trim` removes trailing whitespace from a string that starts with a kept character. */
  lemma {:induction false} TrimTrailing(x: string, w: string)
    requires AllTrimmed(w) && |x| > 0 && !IsTrimmed(x[0]) && !IsTrimmed(x[|x| - 1])
    ensures Trim(x + w) == x
    decreases |w|
  {
    if |w| > 0 {
      var s := x + w;
      assert s[..|s| - 1] == x + w[..|w| - 1];
      TrimTrailing(x, w[..|w| - 1]);
    } else {
      assert x + w == x;
    }
  }

  lemma {:induction false} TrimPadded(w1: string, x: string, w2: string)
    requires AllTrimmed(w1) && AllTrimmed(w2) && |x| > 0 && !IsTrimmed(x[0]) && !IsTrimmed(x[|x| - 1])
    ensures Trim(w1 + x + w2) == x
  {
    assert w1 + x + w2 == w1 + (x + w2);
    TrimLeading(w1, x + w2);
    TrimTrailing(x, w2);
  }

  /**
   * A comment `@beginContext:<url>` (whitespace around it ignored, the URL on one line)
   * begins the context of the URL, trimmed.
   */
  lemma {:induction false} BeginMarker(w1: string, u: string, w2: string)
    requires AllTrimmed(w1) && AllTrimmed(w2)
    requires |u| > 0 && !IsTrimmed(u[|u| - 1]) && forall i :: 0 <= i < |u| ==> u[i] != '\n'
    ensures CommentOp(w1 + ("@beginContext:" + u) + w2) == Begin(Trim(u))
  {
    var x := "@beginContext:" + u;
    assert !IsTrimmed(x[0]) && x[|x| - 1] == u[|u| - 1];
    CommentPadded(w1, x, w2);
    MarkerBegin(u);
  }

  /** Whitespace around a comment's text does not change what it asks for. */
  lemma {:induction false} CommentPadded(w1: string, x: string, w2: string)
    requires AllTrimmed(w1) && AllTrimmed(w2) && |x| > 0 && !IsTrimmed(x[0]) && !IsTrimmed(x[|x| - 1])
    ensures CommentOp(w1 + x + w2) == MarkerOp(x)
  {
    TrimPadded(w1, x, w2);
  }

  lemma {:induction false} MarkerBegin(u: string)
    requires |u| > 0 && forall i :: 0 <= i < |u| ==> u[i] != '\n'
    ensures MarkerOp("@beginContext:" + u) == Begin(Trim(u))
  {
    var x := "@beginContext:" + u;
    assert x[..14] == "@beginContext:";
    assert x[14..] == u;
  }

  /** A marker whose URL runs over a line break is not recognised. */
  lemma {:induction false} MultiLineMarkerIgnored()
    ensures CommentOp("@beginContext:/a\n/b") == Keep
  {
    var d := "@beginContext:/a\n/b";
    assert Trim(d) == d by {
      assert !IsTrimmed(d[0]) && !IsTrimmed(d[|d| - 1]);
    }
    var b := "@beginContext:";
    assert d[|b|..][2] == '\n';
  }

  /** Only the trimmed text `@endContext` ends a context. */
  lemma {:induction false} EndMarker(data: string)
    ensures CommentOp(data) == End <==> Trim(data) == "@endContext"
  {
    var d := Trim(data);
    var b := "@beginContext:";
    if d == "@endContext" {
      assert |d| < |b|;
    }
  }

  /** A context a marker begins is never the empty string. */
  lemma {:induction false} BeginnedUrl(data: string)
    requires CommentOp(data).Begin?
    ensures var u := CommentOp(data).url; |u| > 0
  {
    var d := Trim(data);
    var b := "@beginContext:";
    var tail := d[|b|..];
    assert tail[|tail| - 1] == d[|d| - 1];
    assert !AllTrimmed(tail);
  }
}
