/**
 * Worked examples of `URL::setPath` path resolution (src/URL.php:299-336), each stated
 * as a closed fact about `NormalizePath`.
 */
module UrlPathExamples {
  import opened Wrappers
  import opened Strings
  import opened UrlPaths
  import opened UrlPathProofs

  lemma {:induction false} JoinCons(x: string, rest: seq<string>)
    requires |rest| > 0
    ensures Join([x] + rest, '/') == x + "/" + Join(rest, '/')
  {
    assert ([x] + rest)[1..] == rest;
  }

  lemma {:induction false} DoubleTraversalJoin()
    ensures Join(["", "a", "b", "..", "..", "c"], '/') == "/a/b/../../c"
  {
    JoinCons("..", ["c"]);
    JoinCons("..", ["..", "c"]);
    JoinCons("b", ["..", "..", "c"]);
    JoinCons("a", ["b", "..", "..", "c"]);
    JoinCons("", ["a", "b", "..", "..", "c"]);
  }

  lemma {:induction false} DoubleTraversalMarked()
    ensures Marked(["", "a", "b", "..", "..", "c"])
      == [Some(""), Some("a"), Some("b"), Some(".."), Some(".."), Some("c")]
  {
  }

  lemma {:induction false} DoubleTraversalResolved()
    ensures Resolved([Some(""), Some("a"), Some("b"), Some(".."), Some(".."), Some("c")])
      == [Some(""), Some("a"), None, None, None, Some("c")]
  {
  }

  lemma {:induction false} DoubleTraversalKept()
    ensures Kept([Some(""), Some("a"), None, None, None, Some("c")]) == ["", "a", "c"]
  {
  }

  lemma {:induction false} DoubleTraversalInput()
    ensures StripIndexHtml(CollapseSlashes("/a/b/../../c")) == "/a/b/../../c"
  {
    CollapseNoDoubleSlash("/a/b/../../c");
  }

  lemma {:induction false} DoubleTraversalOutput()
    ensures Rejoin(["", "a", "c"]) == "/a/c"
  {
    assert Join(["", "a", "c"], '/') == "/a/c";
    CollapseNoDoubleSlash("/a/c");
  }

  /**
   * Two `..` in a row: each clears itself and the slot before it, so the second one
   * clears the first rather than climbing a second level, and `/a/b/../../c` keeps `a`.
   */
  lemma {:induction false} DoubleTraversal(contextPath: Option<string>)
    ensures NormalizePath("/a/b/../../c", contextPath) == Ok("/a/c")
  {
    DoubleTraversalJoin();
    SplitJoin(["", "a", "b", "..", "..", "c"], '/');
    DoubleTraversalInput();
    DoubleTraversalMarked();
    DoubleTraversalResolved();
    DoubleTraversalKept();
    DoubleTraversalOutput();
  }

  lemma {:induction false} ParentAtRootJoin()
    ensures Join(["", "..", "a"], '/') == "/../a"
  {
    JoinCons("..", ["a"]);
    JoinCons("", ["..", "a"]);
  }

  lemma {:induction false} ParentAtRootMarked()
    ensures Marked(["", "..", "a"]) == [Some(""), Some(".."), Some("a")]
  {
  }

  lemma {:induction false} ParentAtRootResolved()
    ensures Resolved([Some(""), Some(".."), Some("a")]) == [None, None, Some("a")]
  {
  }

  lemma {:induction false} ParentAtRootInput()
    ensures StripIndexHtml(CollapseSlashes("/../a")) == "/../a"
  {
    CollapseNoDoubleSlash("/../a");
  }

  lemma {:induction false} ParentAtRootOutput()
    ensures Rejoin(Kept([None, None, Some("a")])) == "a"
  {
    assert Kept([None, None, Some("a")]) == ["a"];
    CollapseNoDoubleSlash("a");
  }

  /** A `..` right after the root clears the root's empty segment too: the result is relative. */
  lemma {:induction false} ParentAtRoot(contextPath: Option<string>)
    ensures NormalizePath("/../a", contextPath) == Ok("a")
  {
    ParentAtRootJoin();
    SplitJoin(["", "..", "a"], '/');
    ParentAtRootInput();
    ParentAtRootMarked();
    ParentAtRootResolved();
    ParentAtRootOutput();
  }

  lemma {:induction false} ContextRelativeInput()
    ensures Segments(StripIndexHtml(CollapseSlashes("../c"))) == ["..", "c"]
  {
    CollapseNoDoubleSlash("../c");
    assert StripIndexHtml("../c") == "../c";
    JoinCons("..", ["c"]);
    assert Join(["c"], '/') == "c";
    assert Join(["..", "c"], '/') == "../c";
    SplitJoin(["..", "c"], '/');
  }

  lemma {:induction false} ContextRelativeDirectory()
    ensures ContextSegments("/a/b/") == [Some(""), Some("a"), Some("b")]
  {
    assert LastIndexOf("/a/b/", '/') == Some(4);
    assert PathDirectory("/a/b/") == "/a/b/";
    assert "/a/b/"[..4] == "/a/b";
    JoinCons("a", ["b"]);
    assert Join(["b"], '/') == "b";
    assert Join(["a", "b"], '/') == "a/b";
    JoinCons("", ["a", "b"]);
    assert Join(["", "a", "b"], '/') == "/a/b";
    SplitJoin(["", "a", "b"], '/');
  }

  lemma {:induction false} ContextRelativePlaced()
    ensures Placed("../c", Some("/a/b/")) == Ok([Some(""), Some("a"), Some("b"), Some(".."), Some("c")])
  {
    ContextRelativeInput();
    ContextRelativeDirectory();
    assert Marked(["..", "c"]) == [Some(".."), Some("c")];
    assert Present([Some("c")]) == [Some("c")];
    assert Present([Some(".."), Some("c")]) == [Some(".."), Some("c")];
    assert Marked(Segments(StripIndexHtml(CollapseSlashes("../c"))))[0] != Some("");
    assert ContextSegments("/a/b/") + Present(Marked(["..", "c"]))
      == [Some(""), Some("a"), Some("b"), Some(".."), Some("c")];
  }

  /**
   * A relative input is placed after the context's directory: with the context `/a/b/`,
   * `../c` climbs out of `b` and gives `/a/c`.
   */
  lemma {:induction false} ContextRelative()
    ensures NormalizePath("../c", Some("/a/b/")) == Ok("/a/c")
  {
    ContextRelativePlaced();
    assert Resolved([Some(""), Some("a"), Some("b"), Some(".."), Some("c")])
      == [Some(""), Some("a"), None, None, Some("c")];
    assert Kept([Some(""), Some("a"), None, None, Some("c")]) == ["", "a", "c"];
    DoubleTraversalOutput();
  }

  /** Without a context, a relative input is refused. */
  lemma {:induction false} RelativeWithoutContext()
    ensures NormalizePath("../c", None).Err?
  {
    ContextRelativeInput();
    assert Marked(["..", "c"])[0] == Some("..");
  }
}
