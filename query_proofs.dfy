/**
 * `parse_str` reads back what `http_build_query` writes (src/URL.php): the query string of a
 * URL parses to its query.
 */
module QueryProofs {
  import opened Wrappers
  import opened Strings
  import opened UrlQueries
  import opened Urls
  import opened UrlProofs
  import Base64
  import Percent

  /** A name `parse_str` registers as it is: not empty, and no space, `.`, `[` or NUL. */
  predicate PlainKey(k: string) {
    k != "" && forall i :: 0 <= i < |k| ==> k[i] != ' ' && k[i] != '.' && k[i] != '[' && k[i] != '\0'
  }

  /** A plain key and its value, both byte strings, as PHP strings are. */
  predicate PlainEntry(e: (string, string)) {
    PlainKey(e.0) && Base64.IsBytes(e.0) && Base64.IsBytes(e.1)
  }

  /** A query `http_build_query` can write and `parse_str` read back: distinct plain keys. */
  predicate PlainQuery(q: Query) {
    DistinctKeys(q) && forall i :: 0 <= i < |q| ==> PlainEntry(q[i])
  }

  /** One `key=value` piece of `http_build_query`. */
  function Piece(e: (string, string)): string {
    Percent.UrlEncode(e.0) + "=" + Percent.UrlEncode(e.1)
  }

  function Pieces(q: Query): (r: seq<string>)
    ensures |r| == |q|
    decreases |q|
  {
    if |q| == 0 then [] else [Piece(q[0])] + Pieces(q[1..])
  }

  /** `http_build_query` is the pieces joined by `&`. */
  lemma {:induction false} BuildQueryJoins(q: Query)
    ensures BuildQuery(q) == Join(Pieces(q), '&')
    decreases |q|
  {
    if |q| > 1 {
      BuildQueryJoins(q[1..]);
      assert Pieces(q)[1..] == Pieces(q[1..]);
    }
  }

  /** No piece holds `&`, and its key part none of `=`. */
  lemma {:induction false} PieceChars(e: (string, string))
    ensures forall j :: 0 <= j < |Piece(e)| ==> Piece(e)[j] != '&'
    ensures forall j :: 0 <= j < |Percent.UrlEncode(e.0)| ==> Percent.UrlEncode(e.0)[j] != '='
  {
    Percent.UrlEncodeChars(e.0);
    Percent.UrlEncodeChars(e.1);
  }

  /** A plain key is its own `parse_str` key. */
  lemma {:induction false} PlainKeyKept(k: string)
    requires PlainKey(k)
    ensures QueryKey(k) == k
  {
    assert DropLeadingSpaces(k) == k;
    assert NameText(k) == k;
    assert Underscored(k) == k;
  }

  /**
   * A `[` that no `]` follows is not an array index: it becomes `_`, and the text after it is
   * kept as it is, spaces and dots included.
   */
  lemma {:induction false} UnmatchedBracketKey(k: string, rest: string)
    requires PlainKey(k)
    requires forall i :: 0 <= i < |rest| ==> rest[i] != ']' && rest[i] != '\0'
    ensures QueryKey(k + "[" + rest) == k + "_" + rest
  {
    var name := k + "[" + rest;
    assert DropLeadingSpaces(name) == name;
    assert CutAt(name, '\0') == (name, None);
    assert NameText(name) == name;
    assert name[|k|] == '[' && name[..|k|] == k && name[|k| + 1..] == rest;
    assert IndexOf(name, '[') == Some(|k|);
    assert CutAt(name, '[') == (k, Some(rest));
    assert Underscored(k) == k;
  }

  /** A key not yet present is appended. */
  lemma {:induction false} AssignNew(q: Query, k: string, v: string)
    requires forall i :: 0 <= i < |q| ==> q[i].0 != k
    ensures Assign(q, k, v) == q + [(k, v)]
    decreases |q|
  {
    if |q| > 0 {
      AssignNew(q[1..], k, v);
      AssignStep(q, k, v);
      ConsSnoc(q, (k, v));
    }
  }

  lemma AssignStep(q: Query, k: string, v: string)
    requires |q| > 0 && q[0].0 != k
    ensures Assign(q, k, v) == [q[0]] + Assign(q[1..], k, v)
  {
  }

  /** Registering the piece of a new plain entry appends that entry. */
  lemma {:induction false} RegisterPiece(acc: Query, e: (string, string))
    requires PlainEntry(e) && forall i :: 0 <= i < |acc| ==> acc[i].0 != e.0
    ensures Register(acc, Piece(e)) == acc + [e]
  {
    var name := Percent.UrlEncode(e.0);
    var value := Percent.UrlEncode(e.1);
    PieceChars(e);
    IndexOfFirst(name, '=', value);
    assert Piece(e) == name + ['='] + value;
    assert CutAt(Piece(e), '=') == (name, Some(value)) by {
      assert Piece(e)[..|name|] == name && Piece(e)[|name| + 1..] == value;
    }
    Percent.UrlDecodeEncode(e.0);
    Percent.UrlDecodeEncode(e.1);
    PlainKeyKept(e.0);
    AssignNew(acc, e.0, e.1);
  }

  lemma PlainTail(q: Query)
    requires PlainQuery(q) && |q| > 0
    ensures PlainQuery(q[1..])
  {
    forall i | 0 <= i < |q[1..]| ensures PlainEntry(q[1..][i]) {
      assert q[1..][i] == q[i + 1];
    }
  }

  /** Registering the pieces of a plain query after `acc`, which shares no key with it, appends it. */
  lemma {:induction false} RegisterPieces(acc: Query, q: Query)
    requires PlainQuery(q)
    requires forall i, j :: 0 <= i < |acc| && 0 <= j < |q| ==> acc[i].0 != q[j].0
    ensures RegisterAll(acc, Pieces(q)) == acc + q
    decreases |q|
  {
    if |q| > 0 {
      var ps := Pieces(q);
      assert ps[0] == Piece(q[0]) && ps[1..] == Pieces(q[1..]);
      assert RegisterAll(acc, ps) == RegisterAll(Register(acc, ps[0]), ps[1..]);
      assert forall i :: 0 <= i < |acc| ==> acc[i].0 != q[0].0;
      RegisterPiece(acc, q[0]);
      var acc' := acc + [q[0]];
      forall i, j | 0 <= i < |acc'| && 0 <= j < |q[1..]| ensures acc'[i].0 != q[1..][j].0 {
        assert q[1..][j] == q[j + 1];
        if i == |acc| {
          assert acc'[i] == q[0];
        } else {
          assert acc'[i] == acc[i];
        }
      }
      PlainTail(q);
      RegisterPieces(acc', q[1..]);
      ShiftFirst(acc, q);
    }
  }

  lemma ShiftFirst<T>(a: seq<T>, q: seq<T>)
    requires |q| > 0
    ensures (a + [q[0]]) + q[1..] == a + q
  {
    assert q == [q[0]] + q[1..];
  }

  lemma ConsSnoc<T>(q: seq<T>, e: T)
    requires |q| > 0
    ensures [q[0]] + (q[1..] + [e]) == q + [e]
  {
    assert q == [q[0]] + q[1..];
  }

  /** `parse_str(http_build_query($q))` gives `$q` back, for distinct plain keys. */
  lemma {:induction false} ParseBuiltQuery(q: Query)
    requires PlainQuery(q)
    ensures ParseStr(BuildQuery(q)) == q
  {
    BuildQueryJoins(q);
    if |q| == 0 {
      assert Split("", '&') == [""];
      assert CutAt("", '=') == ("", None);
      assert QueryKey(Percent.UrlDecode("")) == "";
    } else {
      forall i, j | 0 <= i < |Pieces(q)| && 0 <= j < |Pieces(q)[i]| ensures Pieces(q)[i][j] != '&' {
        PiecesAt(q, i);
        PieceChars(q[i]);
      }
      SplitJoin(Pieces(q), '&');
      RegisterPieces([], q);
    }
  }

  lemma {:induction false} PiecesAt(q: Query, i: nat)
    requires i < |q|
    ensures Pieces(q)[i] == Piece(q[i])
    decreases i
  {
    if i > 0 {
      PiecesAt(q[1..], i - 1);
    }
  }

  /** The query string of a URL parses back to its query (`?` and all). */
  lemma QueryStringParses(u: UrlView)
    requires PlainQuery(u.query)
    ensures u.QueryString() == "" <==> u.query == []
    ensures u.QueryString() != "" ==> ParseStr(u.QueryString()[1..]) == u.query
  {
    if |u.query| > 0 {
      assert u.QueryString()[1..] == BuildQuery(u.query);
      ParseBuiltQuery(u.query);
    }
  }
}
