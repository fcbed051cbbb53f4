/**
 * Process configuration as the core sees it: the local node name (the host
 * name), the running application's name, node identity and the list of
 * remote host names to connect to.
 */
module UConfig {
  import opened Wrappers
  import opened Decimal

  /** nodeName() and appName(): both come from the environment and are fixed for a run. */
  datatype Config = Config(nodeName: string, appName: string)

  /** isLocalNode: exact, case-sensitive equality with the local node name. */
  predicate IsLocalNode(cfg: Config, n: string)
  {
    n == cfg.nodeName
  }

  /**
   * Exactly one name is local: the configured node name. There is no
   * alias, so "localhost" is local only on a node that is named so.
   */
  lemma IsLocalNodeExact(cfg: Config, n: string, m: string)
    ensures IsLocalNode(cfg, cfg.nodeName)
    ensures IsLocalNode(cfg, n) && IsLocalNode(cfg, m) ==> n == m
    ensures IsLocalNode(cfg, "localhost") <==> cfg.nodeName == "localhost"
  {
  }

  // IsSpace (from Decimal) is also what ECMAScript's \s matches in the ASCII range.

  /** Index of the first comma, if any. */
  function FindComma(s: string): (r: Option<nat>)
    ensures r.None? <==> ',' !in s
    ensures r.Some? ==> r.value < |s| && s[r.value] == ',' && ',' !in s[..r.value]
  {
    if |s| == 0 then None
    else if s[0] == ',' then Some(0)
    else
      match FindComma(s[1..])
      case None => None
      case Some(k) =>
        assert s[1..][..k] == s[1..k + 1];
        assert s[..k + 1] == [s[0]] + s[1..k + 1];
        Some(k + 1)
  }

  /** The pieces of s between commas, commas dropped. */
  function CommaPieces(s: string): (r: seq<string>)
    ensures |r| > 0
    ensures forall i :: 0 <= i < |r| ==> ',' !in r[i]
    decreases |s|
  {
    match FindComma(s)
    case None => [s]
    case Some(k) => [s[..k]] + CommaPieces(s[k + 1..])
  }

  /** xs joined with commas: the inverse of CommaPieces. */
  function JoinCommas(xs: seq<string>): string
    requires |xs| > 0
  {
    if |xs| == 1 then xs[0] else xs[0] + "," + JoinCommas(xs[1..])
  }

  function TrimLeft(s: string): (r: string)
    ensures |r| <= |s| && r == s[|s| - |r|..]
    ensures |r| > 0 ==> !IsSpace(r[0])
  {
    if |s| > 0 && IsSpace(s[0]) then TrimLeft(s[1..]) else s
  }

  function TrimRight(s: string): (r: string)
    ensures |r| <= |s| && r == s[..|r|]
    ensures |r| > 0 ==> !IsSpace(r[|r| - 1])
  {
    if |s| > 0 && IsSpace(s[|s| - 1]) then TrimRight(s[..|s| - 1]) else s
  }

  /**
   * One token of the split: whitespace that touches a comma belongs to the
   * separator, so a piece loses its leading whitespace when a comma precedes
   * it and its trailing whitespace when a comma follows it.
   */
  function Token(piece: string, afterComma: bool, beforeComma: bool): string
  {
    var l := if afterComma then TrimLeft(piece) else piece;
    if beforeComma then TrimRight(l) else l
  }

  lemma TokenHasNoComma(piece: string, afterComma: bool, beforeComma: bool)
    requires ',' !in piece
    ensures ',' !in Token(piece, afterComma, beforeComma)
  {
    var l := if afterComma then TrimLeft(piece) else piece;
    assert ',' !in l;
  }

  /** Each piece turned into its token; the first has no comma before it, the last none after it. */
  function Tokens(pieces: seq<string>): (toks: seq<string>)
    ensures |toks| == |pieces|
    ensures forall i :: 0 <= i < |toks| ==> toks[i] == Token(pieces[i], i > 0, i < |pieces| - 1)
  {
    seq(|pieces|, i requires 0 <= i < |pieces| => Token(pieces[i], i > 0, i < |pieces| - 1))
  }

  /**
   * remotes(): the configured value split by the regular expression
   * \s*([,])\s* used as a separator (token iterator with submatch -1). The
   * iterator yields every piece before a separator, even an empty one, and
   * the piece after the last separator only when it is not empty.
   */
  function Remotes(s: string): (r: seq<string>)
    ensures forall i :: 0 <= i < |r| ==> ',' !in r[i]
  {
    var pieces := CommaPieces(s);
    var n := |pieces|;
    var toks := Tokens(pieces);
    assert forall i :: 0 <= i < n ==> ',' !in toks[i] by {
      forall i | 0 <= i < n
        ensures ',' !in toks[i]
      {
        TokenHasNoComma(pieces[i], i > 0, i < n - 1);
      }
    }
    if n > 1 && toks[n - 1] == "" then toks[..n - 1] else toks
  }

  /** Cutting at commas loses nothing: joining the pieces gives the input back. */
  lemma {:induction false} JoinCommaPieces(s: string)
    ensures JoinCommas(CommaPieces(s)) == s
    decreases |s|
  {
    match FindComma(s)
    case None =>
    case Some(k) =>
      JoinCommaPieces(s[k + 1..]);
      var rest := CommaPieces(s[k + 1..]);
      assert CommaPieces(s) == [s[..k]] + rest;
      assert ([s[..k]] + rest)[1..] == rest;
      assert s == s[..k] + "," + s[k + 1..];
  }

  lemma {:induction false} FindCommaOfJoin(x: string, y: string)
    requires ',' !in x
    ensures FindComma(x + "," + y) == Some(|x|)
    decreases |x|
  {
    var s := x + "," + y;
    if |x| > 0 {
      assert s[0] == x[0];
      assert s[1..] == x[1..] + "," + y;
      FindCommaOfJoin(x[1..], y);
    }
  }

  /** Joining comma-free pieces and cutting again gives the same pieces. */
  lemma {:induction false} CommaPiecesOfJoin(xs: seq<string>)
    requires |xs| > 0
    requires forall i :: 0 <= i < |xs| ==> ',' !in xs[i]
    ensures CommaPieces(JoinCommas(xs)) == xs
    decreases |xs|
  {
    if |xs| == 1 {
      assert FindComma(xs[0]).None?;
    } else {
      var more := xs[1..];
      var tail := JoinCommas(more);
      var s := xs[0] + "," + tail;
      var k := |xs[0]|;
      assert JoinCommas(xs) == s;
      FindCommaOfJoin(xs[0], tail);
      assert CommaPieces(s) == [s[..k]] + CommaPieces(s[k + 1..]);
      assert s[..k] == xs[0];
      assert s[k + 1..] == tail;
      assert forall i :: 0 <= i < |more| ==> more[i] == xs[i + 1];
      CommaPiecesOfJoin(more);
      assert xs == [xs[0]] + more;
    }
  }

  lemma TrimLeftNoSpace(s: string)
    requires |s| == 0 || !IsSpace(s[0])
    ensures TrimLeft(s) == s
  {
  }

  lemma TrimRightNoSpace(s: string)
    requires |s| == 0 || !IsSpace(s[|s| - 1])
    ensures TrimRight(s) == s
  {
  }

  /** A list of host names in canonical form: what Remotes can give back unchanged. */
  ghost predicate Canonical(xs: seq<string>)
  {
    && |xs| > 0
    && (forall i :: 0 <= i < |xs| ==> ',' !in xs[i])
    && (forall i :: 0 < i < |xs| ==> |xs[i]| == 0 || !IsSpace(xs[i][0]))
    && (forall i :: 0 <= i < |xs| - 1 ==> |xs[i]| == 0 || !IsSpace(xs[i][|xs[i]| - 1]))
    && (|xs| == 1 || xs[|xs| - 1] != "")
  }

  lemma TokenOfTrimmed(piece: string, afterComma: bool, beforeComma: bool)
    requires afterComma ==> |piece| == 0 || !IsSpace(piece[0])
    requires beforeComma ==> |piece| == 0 || !IsSpace(piece[|piece| - 1])
    ensures Token(piece, afterComma, beforeComma) == piece
  {
    if afterComma {
      TrimLeftNoSpace(piece);
    }
    if beforeComma {
      TrimRightNoSpace(piece);
    }
  }

  lemma TokensOfCanonical(xs: seq<string>)
    requires Canonical(xs)
    ensures Tokens(xs) == xs
  {
    var n := |xs|;
    var toks := Tokens(xs);
    forall i | 0 <= i < n
      ensures toks[i] == xs[i]
    {
      TokenOfTrimmed(xs[i], i > 0, i < n - 1);
    }
  }

  /**
   * Remotes inverts joining with commas: names that hold no comma, have no
   * whitespace next to a separator and do not end in an empty name come back
   * exactly as they were listed.
   */
  lemma RemotesOfJoin(xs: seq<string>)
    requires Canonical(xs)
    ensures Remotes(JoinCommas(xs)) == xs
  {
    CommaPiecesOfJoin(xs);
    TokensOfCanonical(xs);
  }

  /** Two names around one comma: the first loses its trailing whitespace, the second its leading whitespace. */
  lemma PiecesOfTwo(x: string, y: string)
    requires ',' !in x && ',' !in y
    ensures CommaPieces(x + "," + y) == [x, y]
  {
    var pieces := [x, y];
    assert pieces[1..] == [y];
    assert JoinCommas(pieces) == x + "," + y;
    CommaPiecesOfJoin(pieces);
  }

  lemma TokensOfTwo(x: string, y: string)
    ensures Tokens([x, y]) == [TrimRight(x), TrimLeft(y)]
  {
    var toks := Tokens([x, y]);
    assert toks[0] == Token(x, false, true) == TrimRight(x);
    assert toks[1] == Token(y, true, false) == TrimLeft(y);
  }

  lemma RemotesOfTwo(x: string, y: string)
    requires ',' !in x && ',' !in y
    requires TrimLeft(y) != ""
    ensures Remotes(x + "," + y) == [TrimRight(x), TrimLeft(y)]
  {
    PiecesOfTwo(x, y);
    TokensOfTwo(x, y);
  }

  /** Whitespace that does not touch a comma is kept: " a, b " gives " a" and "b ". */
  lemma RemotesKeepsOuterSpace()
    ensures Remotes(" a, b ") == [" a", "b "]
  {
    assert " a, b " == " a" + "," + " b ";
    TrimRightNoSpace(" a");
    assert " b "[1..] == "b ";
    TrimLeftNoSpace("b ");
    assert TrimLeft(" b ") == "b ";
    RemotesOfTwo(" a", " b ");
  }

  /** Whitespace on both sides of a comma goes with the comma. */
  lemma RemotesDropsSeparatorSpace()
    ensures Remotes("a \t,  b") == ["a", "b"]
  {
    assert "a \t,  b" == "a \t" + "," + "  b";
    assert "a \t"[..2] == "a ";
    assert "a "[..1] == "a";
    TrimRightNoSpace("a");
    assert TrimRight("a \t") == "a";
    assert "  b"[1..] == " b";
    assert " b"[1..] == "b";
    TrimLeftNoSpace("b");
    assert TrimLeft("  b") == "b";
    RemotesOfTwo("a \t", "  b");
  }
}
