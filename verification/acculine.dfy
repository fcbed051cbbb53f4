/**
 * The line accumulator: receives a character stream block by block and cuts
 * it into newline-terminated lines (commands), carrying the unterminated
 * tail of one block over to the next.
 */
module AccuLine {
  import opened Wrappers

  /**
   * cmd: the unterminated remainder collected so far (m_cmd);
   * cur: what is left of the current block (m_curline).
   */
  datatype Accu = Accu(cmd: string, cur: string)

  const Empty: Accu := Accu("", "")

  /** The remainder never holds a line break: only newline-free pieces are appended to it. */
  ghost predicate Valid(a: Accu) {
    '\n' !in a.cmd
  }

  /** find_first_of('\n'): the index of the first line break, if any. */
  function FindEol(s: string): (r: Option<nat>)
    ensures r.None? <==> '\n' !in s
    ensures r.Some? ==> r.value < |s| && s[r.value] == '\n' && '\n' !in s[..r.value]
  {
    if |s| == 0 then None
    else if s[0] == '\n' then Some(0)
    else
      match FindEol(s[1..])
      case None => None
      case Some(k) =>
        assert s[1..][..k] == s[1..k + 1];
        assert s[..k + 1] == [s[0]] + s[1..k + 1];
        Some(k + 1)
  }

  /** Remember the next block for processing; the remainder is kept. */
  function AddNewInput(a: Accu, input: string): (r: Accu)
    ensures r.cmd == a.cmd && r.cur == input
    ensures Valid(a) ==> Valid(r)
  {
    a.(cur := input)
  }

  /**
   * Take the next complete line. None when the current block is exhausted or
   * holds no line break (then the whole block joins the remainder).
   */
  function GetNextCmd(a: Accu): (r: (Option<string>, Accu))
    // empty block: nothing happens
    ensures a.cur == "" ==> r == (None, a)
    // no line break: the block moves into the remainder
    ensures '\n' !in a.cur ==> r == (None, Accu(a.cmd + a.cur, ""))
    // a line break: remainder ++ prefix is returned, consumed through the '\n'
    ensures '\n' in a.cur ==>
      && r.0.Some?
      && r.1.cmd == ""
      && |r.1.cur| < |a.cur|
      && a.cmd + a.cur == r.0.value + "\n" + r.1.cur
      && r.0.value == a.cmd + a.cur[..|a.cur| - |r.1.cur| - 1]
      && '\n' !in a.cur[..|a.cur| - |r.1.cur| - 1]
    // returned lines never carry a line break
    ensures Valid(a) ==> Valid(r.1) && (r.0.Some? ==> '\n' !in r.0.value)
  {
    if a.cur == "" then
      assert a.cmd + a.cur == a.cmd;
      (None, a)
    else
      match FindEol(a.cur)
      case None => (None, Accu(a.cmd + a.cur, ""))
      case Some(k) =>
        var line := a.cmd + a.cur[..k];
        assert a.cur == a.cur[..k] + "\n" + a.cur[k + 1..];
        (Some(line), Accu("", a.cur[k + 1..]))
  }

  /** Each line followed by its '\n', all concatenated: the text the lines came from. */
  function Unlines(lines: seq<string>): string
  {
    if |lines| == 0 then "" else lines[0] + "\n" + Unlines(lines[1..])
  }

  lemma {:induction false} UnlinesAppend(lines: seq<string>, line: string)
    ensures Unlines(lines + [line]) == Unlines(lines) + line + "\n"
  {
    var t := lines + [line];
    if |lines| == 0 {
      assert t == [line];
      assert Unlines(t) == line + "\n" + Unlines([]);
    } else {
      assert t[0] == lines[0];
      assert t[1..] == lines[1..] + [line];
      UnlinesAppend(lines[1..], line);
      assert Unlines(t) == lines[0] + "\n" + Unlines(t[1..]);
      assert Unlines(lines) == lines[0] + "\n" + Unlines(lines[1..]);
    }
  }

  lemma DrainStep(l: string, more: seq<string>)
    ensures Unlines([l] + more) == l + "\n" + Unlines(more)
  {
    assert ([l] + more)[1..] == more;
  }

  /**
   * Call GetNextCmd until it answers None (the while loop of every caller),
   * collecting the complete lines.
   */
  function Drain(a: Accu): (r: (seq<string>, Accu))
    ensures r.1.cur == ""
    decreases |a.cur|
  {
    var step := GetNextCmd(a);
    if step.0.None? then ([], step.1)
    else
      var rest := Drain(step.1);
      ([step.0.value] + rest.0, rest.1)
  }

  /** Draining one block loses nothing: the lines with their '\n' plus the new remainder are the old remainder plus the block. */
  lemma {:induction false} DrainConserves(a: Accu)
    ensures Unlines(Drain(a).0) + Drain(a).1.cmd == a.cmd + a.cur
    decreases |a.cur|
  {
    var step := GetNextCmd(a);
    if step.0.Some? {
      var l := step.0.value;
      DrainConserves(step.1);
      var rest := Drain(step.1);
      assert Drain(a) == ([l] + rest.0, rest.1);
      DrainStep(l, rest.0);
      assert step.1.cmd == "";
      assert Unlines(rest.0) + rest.1.cmd == step.1.cur;
      assert a.cmd + a.cur == l + "\n" + step.1.cur;
      Regroup(l + "\n", "", Unlines(rest.0), rest.1.cmd, l + "\n", step.1.cur);
    } else {
      assert Drain(a) == ([], step.1);
      assert step.1.cmd == a.cmd + a.cur;
    }
  }

  /** Lines handed out by a drain never contain a line break, and the remainder stays clean. */
  lemma {:induction false} DrainLinesHaveNoEol(a: Accu)
    requires Valid(a)
    ensures Valid(Drain(a).1)
    ensures forall i :: 0 <= i < |Drain(a).0| ==> '\n' !in Drain(a).0[i]
    decreases |a.cur|
  {
    var step := GetNextCmd(a);
    if step.0.Some? {
      DrainLinesHaveNoEol(step.1);
      var rest := Drain(step.1);
      assert Drain(a) == ([step.0.value] + rest.0, rest.1);
    }
  }

  /** Feed the blocks one after the other, draining after each. */
  function Feed(a: Accu, blocks: seq<string>): (r: (seq<string>, Accu))
    decreases |blocks|
  {
    if |blocks| == 0 then ([], a)
    else
      var (lines, a1) := Drain(AddNewInput(a, blocks[0]));
      var (more, a2) := Feed(a1, blocks[1..]);
      (lines + more, a2)
  }

  function Concat(blocks: seq<string>): string
  {
    if |blocks| == 0 then "" else blocks[0] + Concat(blocks[1..])
  }

  lemma {:induction false} UnlinesConcat(xs: seq<string>, ys: seq<string>)
    ensures Unlines(xs + ys) == Unlines(xs) + Unlines(ys)
  {
    if |xs| == 0 {
      assert xs + ys == ys;
    } else {
      assert (xs + ys)[1..] == xs[1..] + ys;
      UnlinesConcat(xs[1..], ys);
    }
  }

  /** Splicing two conservation equations that share the carried remainder. */
  lemma Regroup(u1: string, c1: string, u2: string, c2: string, x: string, y: string)
    requires u1 + c1 == x
    requires u2 + c2 == c1 + y
    ensures (u1 + u2) + c2 == x + y
  {
    calc {
      (u1 + u2) + c2;
      u1 + (u2 + c2);
      u1 + (c1 + y);
      (u1 + c1) + y;
    }
  }

  /**
   * Conservation: after the last block is drained, the returned lines (each
   * with its '\n') followed by the remainder are exactly the input stream.
   */
  lemma {:induction false} FeedConserves(a: Accu, blocks: seq<string>)
    requires a.cur == ""
    ensures Unlines(Feed(a, blocks).0) + Feed(a, blocks).1.cmd == a.cmd + Concat(blocks)
    ensures Feed(a, blocks).1.cur == ""
    decreases |blocks|
  {
    if |blocks| > 0 {
      var (lines, a1) := Drain(AddNewInput(a, blocks[0]));
      DrainConserves(AddNewInput(a, blocks[0]));
      FeedConserves(a1, blocks[1..]);
      var (more, a2) := Feed(a1, blocks[1..]);
      UnlinesConcat(lines, more);
      assert Feed(a, blocks) == (lines + more, a2);
      Regroup(Unlines(lines), a1.cmd, Unlines(more), a2.cmd, a.cmd + blocks[0], Concat(blocks[1..]));
      assert Concat(blocks) == blocks[0] + Concat(blocks[1..]);
    }
  }

  /** From a fresh accumulator, the whole stream is the lines plus the unterminated tail. */
  lemma FeedFromEmpty(blocks: seq<string>)
    ensures Unlines(Feed(Empty, blocks).0) + Feed(Empty, blocks).1.cmd == Concat(blocks)
  {
    FeedConserves(Empty, blocks);
  }

  /** A block that starts with a newline-free line and its '\n' hands out exactly that line, glued to the remainder. */
  lemma NextCmdOfLine(cmd: string, line: string, rest: string)
    requires '\n' !in line
    ensures GetNextCmd(Accu(cmd, line + "\n" + rest)) == (Some(cmd + line), Accu("", rest))
  {
    var s := line + "\n" + rest;
    assert s[|line|] == '\n';
    assert forall j :: 0 <= j < |line| ==> s[j] == line[j];
    var k := FindEol(s).value;
    assert forall j :: |line| < j <= |s| ==> s[..j][|line|] == '\n';
    assert k == |line|;
    assert s[..|line|] == line;
    assert s[|line| + 1..] == rest;
  }

  /** An empty line is returned as "" and not skipped. */
  lemma EmptyLineIsReturned(a: Accu)
    requires a.cmd == ""
    requires |a.cur| > 0 && a.cur[0] == '\n'
    ensures GetNextCmd(a) == (Some(""), Accu("", a.cur[1..]))
  {
    assert FindEol(a.cur) == Some(0);
  }

  lemma EmptyLinesExample()
    ensures Drain(Accu("", "\n\n")).0 == ["", ""]
  {
    EmptyLineIsReturned(Accu("", "\n\n"));
    EmptyLineIsReturned(Accu("", "\n"));
  }
}
