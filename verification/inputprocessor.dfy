/**
 * The input processor: cuts the byte stream into lines, turns each line
 * into a message and gates the first message of a connection through the
 * authentication policy.
 */
module InputProcessor {
  import opened Wrappers
  import opened PTree
  import opened UConfig
  import opened Messages
  import A = AccuLine

  /** What the processor signals, in order. */
  datatype Event =
    | Rejected                  // s_rejected: the first message failed authentication
    | Authenticated(msg: Msg)   // s_auth: the first message passed
    | Dispatched(msg: Msg)      // s_dispatch: a message handed on

  /**
   * acc: the line accumulator; header: a header waiting for its raw-body
   * line (m_header); peer: the authenticated source, node "" until then.
   */
  datatype Proc = Proc(acc: A.Accu, header: Option<Tree>, peer: Addr)

  const Initial: Proc := Proc(A.Empty, None, Addr("", ""))

  /** auth(): authenticated once a peer node is known. */
  predicate Authenticated?(p: Proc)
  {
    p.peer.node != ""
  }

  /**
   * The peer policy of auth(msg). A message with an empty source
   * application or node is refused. The relay ("userver") refuses a local
   * relay (a loop to itself) and any remote peer that is not a relay; any
   * other application accepts only the relay of its own node.
   */
  function AuthPolicy(from: Addr, cfg: Config): (ok: bool)
    // both fields of the source are needed
    ensures ok ==> from.app != "" && from.node != ""
    // one end of an accepted connection is always a relay
    ensures ok ==> cfg.appName == "userver" || from.app == "userver"
    // a relay never accepts a relay of its own node
    ensures ok && cfg.appName == "userver" && from.app == "userver" ==> !IsLocalNode(cfg, from.node)
    // a relay is accepted by an application of its node and by a relay of another node
    ensures from.app == "userver" && from.node != "" && (IsLocalNode(cfg, from.node) != (cfg.appName == "userver")) ==> ok
  {
    if from.app == "" || from.node == "" then false
    else
      var isLocal := IsLocalNode(cfg, from.node);
      if cfg.appName == "userver" then
        if isLocal then from.app != "userver" else from.app == "userver"
      else
        isLocal && from.app == "userver"
  }

  /** The policy stated per role, without its branch structure. */
  lemma AuthPolicyCases(from: Addr, cfg: Config)
    ensures cfg.appName == "userver" ==>
      (AuthPolicy(from, cfg) <==>
        from.app != "" && from.node != "" && ((from.node == cfg.nodeName) != (from.app == "userver")))
    ensures cfg.appName != "userver" ==>
      (AuthPolicy(from, cfg) <==> from.node != "" && from == Addr("userver", cfg.nodeName))
    ensures from.app == "" || from.node == "" ==> !AuthPolicy(from, cfg)
  {
  }

  /**
   * processMsg: before authentication the message is checked by the policy;
   * a refusal signals Rejected and drops the message, an acceptance records
   * the peer, signals Authenticated and dispatches the same message. After
   * authentication every message is dispatched directly.
   */
  function ProcessMsg(p: Proc, m: Msg, cfg: Config): (r: (Proc, seq<Event>))
    ensures r.0.acc == p.acc && r.0.header == p.header
    ensures Authenticated?(p) ==> r == (p, [Dispatched(m)])
    ensures !Authenticated?(p) && !AuthPolicy(m.from, cfg) ==> r == (p, [Rejected])
    ensures !Authenticated?(p) && AuthPolicy(m.from, cfg) ==>
      r.0.peer == m.from && Authenticated?(r.0) && r.1 == [Authenticated(m), Dispatched(m)]
    ensures Authenticated?(p) ==> Authenticated?(r.0)
    ensures forall e :: e in r.1 ==> e.Rejected? || e.msg == m
  {
    if Authenticated?(p) then (p, [Dispatched(m)])
    else if !AuthPolicy(m.from, cfg) then (p, [Rejected])
    else (p.(peer := m.from), [Authenticated(m), Dispatched(m)])
  }

  /** The message a header line carrying a "body" child stands for: the child becomes the body. */
  function SplitBody(t: Tree, cfg: Config): (m: Msg)
    ensures m.header == EraseChild(t, BodyKey) && m.body == Parsed(Child(t, BodyKey))
    ensures !HasChild(m.header, BodyKey)
    ensures Cached(m, cfg)
  {
    Incoming(EraseChild(t, BodyKey), Parsed(Child(t, BodyKey)), cfg)
  }

  /**
   * One pass of the loop body of processNewInput on one complete line. dec
   * is read_json on one line (None when it throws). Returns the new state,
   * false when a header line failed to parse, and the events.
   */
  function HandleLine(p: Proc, line: string, dec: string -> Option<Tree>, cfg: Config): (r: (Proc, bool, seq<Event>))
    ensures r.0.acc == p.acc
    ensures r.1 ==> r.0.header.None?
    ensures !r.1 ==> r.0.header == Some(EmptyTree) && r.0.peer == p.peer && r.2 == []
    ensures p.header.None? ==> (r.1 <==> dec(line).Some?)
    ensures Authenticated?(p) ==> r.0.peer == p.peer
  {
    if p.header.None? then
      match dec(line)
      // m_header was set to an empty tree before read_json threw
      case None => (p.(header := Some(EmptyTree)), false, [])
      case Some(t) =>
        // m_header.reset() runs whether or not a body was found
        var p1 := p.(header := None);
        if HasChild(t, BodyKey) then
          var (p2, ev) := ProcessMsg(p1, SplitBody(t, cfg), cfg);
          (p2, true, ev)
        else
          (p1, true, [])
    else
      // a pending header takes this line as its raw body
      var (p2, ev) := ProcessMsg(p.(header := None), Incoming(p.header.value, Raw(line), cfg), cfg);
      (p2, true, ev)
  }

  /** The while loop of processNewInput over the lines left in the accumulator; it stops at the first parse failure. */
  function Pump(p: Proc, dec: string -> Option<Tree>, cfg: Config): (r: (Proc, bool, seq<Event>))
    ensures !r.1 ==> r.0.header == Some(EmptyTree)
    ensures p.header.None? && r.1 ==> r.0.header.None? && r.0.acc == A.Drain(p.acc).1
    ensures r.1 ==> r.0.header.None? || r.0.header == p.header
    ensures Authenticated?(p) ==> r.0.peer == p.peer
    decreases |p.acc.cur|
  {
    var step := A.GetNextCmd(p.acc);
    if step.0.None? then
      (p.(acc := step.1), true, [])
    else
      var h := HandleLine(p.(acc := step.1), step.0.value, dec, cfg);
      if !h.1 then h
      else
        var rest := Pump(h.0, dec, cfg);
        (rest.0, rest.1, h.2 + rest.2)
  }

  /** Every line of lines is well-formed JSON for dec. */
  ghost predicate AllParse(dec: string -> Option<Tree>, lines: seq<string>) {
    forall i :: 0 <= i < |lines| ==> dec(lines[i]).Some?
  }

  lemma AllParseCons(dec: string -> Option<Tree>, l: string, rest: seq<string>)
    ensures AllParse(dec, [l] + rest) <==> dec(l).Some? && AllParse(dec, rest)
  {
    var ls := [l] + rest;
    if dec(l).Some? && AllParse(dec, rest) {
      forall i | 0 <= i < |ls| ensures dec(ls[i]).Some? {
        if i > 0 { assert ls[i] == rest[i - 1]; }
      }
    }
    if AllParse(dec, ls) {
      assert dec(ls[0]).Some?;
      forall i | 0 <= i < |rest| ensures dec(rest[i]).Some? {
        assert ls[i + 1] == rest[i];
      }
    }
  }

  lemma PumpUnfold(p: Proc, dec: string -> Option<Tree>, cfg: Config)
    requires A.GetNextCmd(p.acc).0.Some?
    ensures var step := A.GetNextCmd(p.acc);
      var h := HandleLine(p.(acc := step.1), step.0.value, dec, cfg);
      && A.Drain(p.acc).0 == [step.0.value] + A.Drain(step.1).0
      && Pump(p, dec, cfg).1 == (h.1 && Pump(h.0, dec, cfg).1)
  {
  }

  /** With no header pending, the loop runs to the end exactly when every complete line parses. */
  lemma {:induction false} PumpOkIffLinesParse(p: Proc, dec: string -> Option<Tree>, cfg: Config)
    requires p.header.None?
    ensures Pump(p, dec, cfg).1 <==> AllParse(dec, A.Drain(p.acc).0)
    decreases |p.acc.cur|
  {
    var step := A.GetNextCmd(p.acc);
    if step.0.Some? {
      var line := step.0.value;
      var h := HandleLine(p.(acc := step.1), line, dec, cfg);
      PumpUnfold(p, dec, cfg);
      AllParseCons(dec, line, A.Drain(step.1).0);
      if h.1 {
        PumpOkIffLinesParse(h.0, dec, cfg);
      }
    } else {
      assert A.Drain(p.acc).0 == [];
    }
  }

  /**
   * The index of the first line dec cannot read, or |lines| when every
   * line reads.
   */
  function FirstFailure(dec: string -> Option<Tree>, lines: seq<string>): (k: nat)
    ensures k <= |lines|
    ensures AllParse(dec, lines[..k])
    ensures k < |lines| ==> dec(lines[k]).None?
  {
    if |lines| == 0 then 0
    else if dec(lines[0]).None? then 0
    else
      var k' := FirstFailure(dec, lines[1..]);
      assert lines[..k' + 1] == [lines[0]] + lines[1..][..k'];
      AllParseCons(dec, lines[0], lines[1..][..k']);
      k' + 1
  }

  /**
   * Reference for the loop body applied to a list of lines, one after the
   * other, independent of the accumulator: the final state and the events.
   */
  function HandleLines(p: Proc, lines: seq<string>, dec: string -> Option<Tree>, cfg: Config): (r: (Proc, seq<Event>))
    ensures r.0.acc == p.acc
    decreases |lines|
  {
    if |lines| == 0 then (p, [])
    else
      var h := HandleLine(p, lines[0], dec, cfg);
      var rest := HandleLines(h.0, lines[1..], dec, cfg);
      (rest.0, h.2 + rest.1)
  }

  /** The accumulator plays no part in handling lines. */
  lemma {:induction false} HandleLinesIgnoresAcc(p: Proc, x: A.Accu, lines: seq<string>, dec: string -> Option<Tree>, cfg: Config)
    ensures HandleLines(p.(acc := x), lines, dec, cfg) == (HandleLines(p, lines, dec, cfg).0.(acc := x), HandleLines(p, lines, dec, cfg).1)
    decreases |lines|
  {
    if |lines| > 0 {
      var h := HandleLine(p, lines[0], dec, cfg);
      var hx := HandleLine(p.(acc := x), lines[0], dec, cfg);
      assert hx == (h.0.(acc := x), h.1, h.2);
      HandleLinesIgnoresAcc(h.0, x, lines[1..], dec, cfg);
    }
  }

  lemma HandleLinesCons(p: Proc, l: string, more: seq<string>, dec: string -> Option<Tree>, cfg: Config)
    ensures var h := HandleLine(p, l, dec, cfg);
      var rest := HandleLines(h.0, more, dec, cfg);
      HandleLines(p, [l] + more, dec, cfg) == (rest.0, h.2 + rest.1)
  {
    assert ([l] + more)[0] == l;
    assert ([l] + more)[1..] == more;
  }

  /** The loop, run from p, handles exactly the lines before the first unreadable one and leaves the lines after it unread. */
  ghost predicate StopsAtFirstFailure(p: Proc, dec: string -> Option<Tree>, cfg: Config)
  {
    var L := A.Drain(p.acc).0;
    var k := FirstFailure(dec, L);
    var r := Pump(p, dec, cfg);
    var ref := HandleLines(p, L[..k], dec, cfg);
    && (r.1 <==> k == |L|)
    && r.2 == ref.1
    && r.0.peer == ref.0.peer
    && (!r.1 ==> A.Drain(r.0.acc).0 == L[k + 1..])
  }

  /** No line left: nothing is handled. */
  lemma StopsAtEnd(p: Proc, dec: string -> Option<Tree>, cfg: Config)
    requires A.GetNextCmd(p.acc).0.None?
    ensures StopsAtFirstFailure(p, dec, cfg)
  {
    var L := A.Drain(p.acc).0;
    assert L == [];
    assert L[..0] == [];
  }

  /** The first line does not parse: the loop stops before handling anything. */
  lemma StopsAtFirstLine(p: Proc, dec: string -> Option<Tree>, cfg: Config)
    requires p.header.None?
    requires A.GetNextCmd(p.acc).0.Some? && dec(A.GetNextCmd(p.acc).0.value).None?
    ensures StopsAtFirstFailure(p, dec, cfg)
  {
    var step := A.GetNextCmd(p.acc);
    var L := A.Drain(p.acc).0;
    PumpUnfold(p, dec, cfg);
    assert L[0] == step.0.value && L[1..] == A.Drain(step.1).0;
    assert FirstFailure(dec, L) == 0;
    assert L[..0] == [];
  }

  /** The first failure of a list whose head parses is one past that of its tail. */
  lemma FirstFailureCons(dec: string -> Option<Tree>, line: string, more: seq<string>)
    requires dec(line).Some?
    ensures var L := [line] + more;
      var k := FirstFailure(dec, more);
      && FirstFailure(dec, L) == k + 1
      && L[..k + 1] == [line] + more[..k]
      && (k < |more| ==> L[k + 2..] == more[k + 1..])
  {
    var L := [line] + more;
    assert L[0] == line && L[1..] == more;
    ConsSlices(line, more, FirstFailure(dec, more));
  }

  lemma ConsSlices<T>(x: T, more: seq<T>, k: nat)
    requires k <= |more|
    ensures ([x] + more)[..k + 1] == [x] + more[..k]
    ensures k < |more| ==> ([x] + more)[k + 2..] == more[k + 1..]
  {
  }

  /** Handling a list of lines is handling its head, wherever the accumulator stands, then its tail. */
  lemma HandleLinesFirst(p: Proc, x: A.Accu, line: string, more: seq<string>, dec: string -> Option<Tree>, cfg: Config)
    ensures var h := HandleLine(p.(acc := x), line, dec, cfg);
      var ref := HandleLines(p, [line] + more, dec, cfg);
      var ref' := HandleLines(h.0, more, dec, cfg);
      ref.1 == h.2 + ref'.1 && ref.0.peer == ref'.0.peer
  {
    var hp := HandleLine(p, line, dec, cfg);
    assert HandleLine(p.(acc := x), line, dec, cfg) == (hp.0.(acc := x), hp.1, hp.2);
    HandleLinesCons(p, line, more, dec, cfg);
    HandleLinesIgnoresAcc(hp.0, x, more, dec, cfg);
  }

  /** The first line parses: the loop handles it and goes on as from the state it leaves. */
  lemma StopsAfterFirstLine(p: Proc, dec: string -> Option<Tree>, cfg: Config)
    requires p.header.None?
    requires A.GetNextCmd(p.acc).0.Some? && dec(A.GetNextCmd(p.acc).0.value).Some?
    requires var step := A.GetNextCmd(p.acc);
      StopsAtFirstFailure(HandleLine(p.(acc := step.1), step.0.value, dec, cfg).0, dec, cfg)
    ensures StopsAtFirstFailure(p, dec, cfg)
  {
    var step := A.GetNextCmd(p.acc);
    var line := step.0.value;
    var h := HandleLine(p.(acc := step.1), line, dec, cfg);
    var L' := A.Drain(step.1).0;
    PumpUnfold(p, dec, cfg);
    PumpStep(p, dec, cfg);
    var k' := FirstFailure(dec, L');
    FirstFailureCons(dec, line, L');
    HandleLinesFirst(p, step.1, line, L'[..k'], dec, cfg);
    assert h.0.acc == step.1;
  }

  lemma {:induction false} StopsAtFirstFailureHolds(p: Proc, dec: string -> Option<Tree>, cfg: Config)
    requires p.header.None?
    ensures StopsAtFirstFailure(p, dec, cfg)
    decreases |p.acc.cur|
  {
    var step := A.GetNextCmd(p.acc);
    if step.0.None? {
      StopsAtEnd(p, dec, cfg);
    } else if dec(step.0.value).None? {
      StopsAtFirstLine(p, dec, cfg);
    } else {
      var h := HandleLine(p.(acc := step.1), step.0.value, dec, cfg);
      StopsAtFirstFailureHolds(h.0, dec, cfg);
      StopsAfterFirstLine(p, dec, cfg);
    }
  }

  /**
   * The loop stops at the first line that does not parse: with no header
   * pending, it handles exactly the lines before it, reports failure, and
   * leaves that line's successors unread in the accumulator. When every
   * line parses it handles them all.
   */
  lemma PumpStopsAtFirstFailure(p: Proc, dec: string -> Option<Tree>, cfg: Config)
    requires p.header.None?
    ensures var L := A.Drain(p.acc).0;
      var k := FirstFailure(dec, L);
      var r := Pump(p, dec, cfg);
      var ref := HandleLines(p, L[..k], dec, cfg);
      && (r.1 <==> k == |L|)
      && r.2 == ref.1
      && r.0.peer == ref.0.peer
      && (!r.1 ==> A.Drain(r.0.acc).0 == L[k + 1..])
  {
    StopsAtFirstFailureHolds(p, dec, cfg);
  }

  /**
   * processNewInput: take the block and handle every complete line in it.
   * With no header pending it succeeds exactly when every complete line
   * parses; the unterminated tail stays in the accumulator.
   */
  function ProcessNewInput(p: Proc, input: string, dec: string -> Option<Tree>, cfg: Config): (r: (Proc, bool, seq<Event>))
    ensures p.header.None? ==> (r.1 <==> AllParse(dec, A.Drain(A.AddNewInput(p.acc, input)).0))
    ensures p.header.None? && r.1 ==> r.0.header.None? && r.0.acc == A.Drain(A.AddNewInput(p.acc, input)).1
    ensures !r.1 ==> r.0.header == Some(EmptyTree)
    ensures r.1 ==> r.0.header.None? || r.0.header == p.header
    ensures Authenticated?(p) ==> r.0.peer == p.peer
  {
    var p1 := p.(acc := A.AddNewInput(p.acc, input));
    if p.header.None? then
      PumpOkIffLinesParse(p1, dec, cfg);
      Pump(p1, dec, cfg)
    else
      Pump(p1, dec, cfg)
  }

  /**
   * processNewInput returns at the first line that does not parse: only
   * the lines before it are handled, and the lines after it stay in the
   * accumulator unread. When every line parses, all are handled in order.
   */
  lemma ProcessNewInputStopsAtFirstFailure(p: Proc, input: string, dec: string -> Option<Tree>, cfg: Config)
    requires p.header.None?
    ensures var L := A.Drain(A.AddNewInput(p.acc, input)).0;
      var k := FirstFailure(dec, L);
      var r := ProcessNewInput(p, input, dec, cfg);
      var ref := HandleLines(p, L[..k], dec, cfg);
      && (r.1 <==> k == |L|)
      && r.2 == ref.1
      && r.0.peer == ref.0.peer
      && (!r.1 ==> A.Drain(r.0.acc).0 == L[k + 1..])
      && (r.1 ==> r.2 == HandleLines(p, L, dec, cfg).1)
  {
    var p1 := p.(acc := A.AddNewInput(p.acc, input));
    var L := A.Drain(p1.acc).0;
    PumpStopsAtFirstFailure(p1, dec, cfg);
    HandleLinesIgnoresAcc(p, p1.acc, L[..FirstFailure(dec, L)], dec, cfg);
    assert L[..|L|] == L;
  }

  /** dec reads back every tree enc writes. */
  ghost predicate Codec(enc: Tree -> string, dec: string -> Option<Tree>)
  {
    forall t :: dec(enc(t)) == Some(t)
  }

  /**
   * A message that move_tostr sends as one line: a structured, non-empty
   * body, no "body" key of its own in the header, cached fields in step
   * with the header.
   */
  ghost predicate OneLine(m: Msg, cfg: Config)
  {
    && m.body.Parsed?
    && m.body.tree != EmptyTree
    && !HasChild(m.header, BodyKey)
    && Cached(m, cfg)
  }

  /** The wire text of a sequence of messages, each written by move_tostr. */
  function Frames(ms: seq<Msg>, enc: Tree -> string): string
  {
    if |ms| == 0 then "" else MoveToStr(ms[0], enc) + Frames(ms[1..], enc)
  }

  function Dispatches(ms: seq<Msg>): (r: seq<Event>)
    ensures |r| == |ms| && forall i :: 0 <= i < |ms| ==> r[i] == Dispatched(ms[i])
  {
    if |ms| == 0 then [] else [Dispatched(ms[0])] + Dispatches(ms[1..])
  }

  /** The receiving side rebuilds exactly the message move_tostr wrote. */
  lemma ReceiveOneLine(m: Msg, enc: Tree -> string, dec: string -> Option<Tree>, cfg: Config)
    requires Codec(enc, dec)
    requires OneLine(m, cfg)
    ensures var t := PutChild(m.header, BodyKey, m.body.tree);
      dec(enc(t)) == Some(t) && HasChild(t, BodyKey) && SplitBody(t, cfg) == m
  {
    var t := PutChild(m.header, BodyKey, m.body.tree);
    assert dec(enc(t)) == Some(t);
    ChildOfPutChild(m.header, BodyKey, m.body.tree);
    EraseOfPutChild(m.header, BodyKey, m.body.tree);
    EraseAbsentChild(m.header, BodyKey);
  }

  /** The first frame of a stream is one line: the encoded tree with its "body" child. */
  lemma FramesCons(ms: seq<Msg>, enc: Tree -> string, cfg: Config)
    requires Compact(enc) && |ms| > 0 && ms[0].body.Parsed?
    ensures var t := PutChild(ms[0].header, BodyKey, ms[0].body.tree);
      Frames(ms, enc) == enc(t) + "\n" + Frames(ms[1..], enc) && '\n' !in enc(t)
  {
  }

  /** An authenticated processor dispatches the message of a one-line frame and keeps its state. */
  lemma HandleOneLine(p: Proc, m: Msg, enc: Tree -> string, dec: string -> Option<Tree>, cfg: Config)
    requires Codec(enc, dec)
    requires Authenticated?(p) && p.header.None?
    requires OneLine(m, cfg)
    ensures HandleLine(p, enc(PutChild(m.header, BodyKey, m.body.tree)), dec, cfg) == (p, true, [Dispatched(m)])
  {
    ReceiveOneLine(m, enc, dec, cfg);
  }

  /** Pump after one line that was handled successfully. */
  lemma PumpStep(p: Proc, dec: string -> Option<Tree>, cfg: Config)
    requires A.GetNextCmd(p.acc).0.Some?
    ensures var step := A.GetNextCmd(p.acc);
      var h := HandleLine(p.(acc := step.1), step.0.value, dec, cfg);
      var rest := Pump(h.0, dec, cfg);
      h.1 ==> Pump(p, dec, cfg) == (rest.0, rest.1, h.2 + rest.2)
  {
  }

  /** One frame off the front of the stream: its message is dispatched, then the rest is pumped. */
  lemma PumpFramesStep(p: Proc, ms: seq<Msg>, enc: Tree -> string, dec: string -> Option<Tree>, cfg: Config)
    requires Codec(enc, dec) && Compact(enc)
    requires Authenticated?(p) && p.header.None?
    requires |ms| > 0 && OneLine(ms[0], cfg)
    ensures var rest := Pump(p.(acc := A.Accu("", Frames(ms[1..], enc))), dec, cfg);
      Pump(p.(acc := A.Accu("", Frames(ms, enc))), dec, cfg) == (rest.0, rest.1, [Dispatched(ms[0])] + rest.2)
  {
    var q := p.(acc := A.Accu("", Frames(ms, enc)));
    var m := ms[0];
    var line := enc(PutChild(m.header, BodyKey, m.body.tree));
    var tail := Frames(ms[1..], enc);
    FramesCons(ms, enc, cfg);
    A.NextCmdOfLine("", line, tail);
    assert "" + line == line;
    var p1 := p.(acc := A.Accu("", tail));
    assert A.GetNextCmd(q.acc) == (Some(line), p1.acc);
    HandleOneLine(p1, m, enc, dec, cfg);
    PumpStep(q, dec, cfg);
  }

  /** Every message of ms is sent as one line. */
  ghost predicate AllOneLine(ms: seq<Msg>, cfg: Config)
    decreases |ms|
  {
    |ms| > 0 ==> OneLine(ms[0], cfg) && AllOneLine(ms[1..], cfg)
  }

  lemma {:induction false} AllOneLineOfForall(ms: seq<Msg>, cfg: Config)
    requires forall i :: 0 <= i < |ms| ==> OneLine(ms[i], cfg)
    ensures AllOneLine(ms, cfg)
    decreases |ms|
  {
    if |ms| > 0 {
      var tail := ms[1..];
      assert forall i :: 0 <= i < |tail| ==> tail[i] == ms[i + 1];
      AllOneLineOfForall(tail, cfg);
    }
  }

  /** The two halves of one step of the round trip put together. */
  lemma DispatchesCons(p: Proc, ms: seq<Msg>, first: (Proc, bool, seq<Event>), rest: (Proc, bool, seq<Event>))
    requires |ms| > 0
    requires first == (rest.0, rest.1, [Dispatched(ms[0])] + rest.2)
    requires rest == (p, true, Dispatches(ms[1..]))
    ensures first == (p, true, Dispatches(ms))
  {
  }

  lemma {:induction false} PumpFramesAll(p: Proc, ms: seq<Msg>, enc: Tree -> string, dec: string -> Option<Tree>, cfg: Config)
    requires Codec(enc, dec) && Compact(enc)
    requires Authenticated?(p) && p.header.None? && p.acc == A.Empty
    requires AllOneLine(ms, cfg)
    ensures Pump(p.(acc := A.Accu("", Frames(ms, enc))), dec, cfg) == (p, true, Dispatches(ms))
    decreases |ms|
  {
    if |ms| == 0 {
      assert p.(acc := A.Accu("", Frames(ms, enc))) == p;
    } else {
      PumpFramesStep(p, ms, enc, dec, cfg);
      PumpFramesAll(p, ms[1..], enc, dec, cfg);
      DispatchesCons(p, ms, Pump(p.(acc := A.Accu("", Frames(ms, enc))), dec, cfg),
                     Pump(p.(acc := A.Accu("", Frames(ms[1..], enc))), dec, cfg));
    }
  }

  /**
   * Round trip over a connection: once authenticated, a stream of messages
   * written by move_tostr is dispatched message by message, in order and
   * unchanged, and the processor comes back to the same state.
   */
  lemma PumpFrames(p: Proc, ms: seq<Msg>, enc: Tree -> string, dec: string -> Option<Tree>, cfg: Config)
    requires Codec(enc, dec) && Compact(enc)
    requires Authenticated?(p) && p.header.None? && p.acc == A.Empty
    requires forall i :: 0 <= i < |ms| ==> OneLine(ms[i], cfg)
    ensures Pump(p.(acc := A.Accu("", Frames(ms, enc))), dec, cfg) == (p, true, Dispatches(ms))
  {
    AllOneLineOfForall(ms, cfg);
    PumpFramesAll(p, ms, enc, dec, cfg);
  }

  /**
   * The same round trip through processNewInput: the whole stream handed
   * over as one block is dispatched message by message, the call returns
   * true, and the processor is left as it was.
   */
  lemma ReceiveFrames(p: Proc, ms: seq<Msg>, enc: Tree -> string, dec: string -> Option<Tree>, cfg: Config)
    requires Codec(enc, dec) && Compact(enc)
    requires Authenticated?(p) && p.header.None? && p.acc == A.Empty
    requires forall i :: 0 <= i < |ms| ==> OneLine(ms[i], cfg)
    ensures ProcessNewInput(p, Frames(ms, enc), dec, cfg) == (p, true, Dispatches(ms))
  {
    PumpFrames(p, ms, enc, dec, cfg);
    assert A.AddNewInput(p.acc, Frames(ms, enc)) == A.Accu("", Frames(ms, enc));
  }

  /** No event carries a message with a raw body. */
  ghost predicate NoRawBodies(evs: seq<Event>)
  {
    forall e :: e in evs ==> e.Rejected? || e.msg.body.Parsed?
  }

  /**
   * With no header pending, every message the loop produces has a
   * structured body: a header line without "body" is dropped, so the next
   * line is read as a header again and never as a raw body.
   */
  lemma {:induction false} PumpNoRawBodies(p: Proc, dec: string -> Option<Tree>, cfg: Config)
    requires p.header.None?
    ensures NoRawBodies(Pump(p, dec, cfg).2)
    decreases |p.acc.cur|
  {
    var step := A.GetNextCmd(p.acc);
    if step.0.Some? {
      var h := HandleLine(p.(acc := step.1), step.0.value, dec, cfg);
      assert NoRawBodies(h.2);
      if h.1 {
        PumpStep(p, dec, cfg);
        PumpNoRawBodies(h.0, dec, cfg);
      }
    }
  }

  /** A header line without "body" is consumed and leaves nothing behind: the loop goes on with the next line. */
  lemma HeaderOnlyLineDropped(p: Proc, line: string, rest: string, dec: string -> Option<Tree>, cfg: Config)
    requires p.header.None? && p.acc.cmd == "" && '\n' !in line
    requires dec(line).Some? && !HasChild(dec(line).value, BodyKey)
    ensures Pump(p.(acc := A.Accu("", line + "\n" + rest)), dec, cfg) == Pump(p.(acc := A.Accu("", rest)), dec, cfg)
  {
    var q := p.(acc := A.Accu("", line + "\n" + rest));
    var p1 := p.(acc := A.Accu("", rest));
    A.NextCmdOfLine("", line, rest);
    assert "" + line == line;
    assert A.GetNextCmd(q.acc) == (Some(line), p1.acc);
    assert HandleLine(p1, line, dec, cfg) == (p1, true, []);
    PumpStep(q, dec, cfg);
    var rest := Pump(p1, dec, cfg);
    assert Pump(q, dec, cfg) == (rest.0, rest.1, [] + rest.2);
    assert [] + rest.2 == rest.2;
  }

  /** The last line of a block, parsed as a header. */
  lemma LastLineAsHeader(p: Proc, line: string, dec: string -> Option<Tree>, cfg: Config)
    requires p.header.None? && p.acc.cmd == "" && '\n' !in line
    ensures var r := Pump(p.(acc := A.Accu("", line + "\n")), dec, cfg);
      && (dec(line).None? ==> r == (p.(acc := A.Empty, header := Some(EmptyTree)), false, []))
      && (dec(line).Some? && !HasChild(dec(line).value, BodyKey) ==> r == (p.(acc := A.Empty), true, []))
  {
    assert line + "\n" == line + "\n" + "";
    A.NextCmdOfLine("", line, "");
    assert "" + line == line;
    var q := p.(acc := A.Accu("", line + "\n"));
    if dec(line).Some? {
      PumpStep(q, dec, cfg);
    }
  }

  /**
   * The header line of a raw-body frame is dropped and its body line is
   * parsed as the next header: the raw body is never delivered.
   */
  lemma RawFrameBodyReadAsHeader(p: Proc, m: Msg, enc: Tree -> string, dec: string -> Option<Tree>, cfg: Config)
    requires Codec(enc, dec) && Compact(enc)
    requires p.header.None? && p.acc == A.Empty
    requires m.body.Raw? && '\n' !in m.body.bytes && !HasChild(m.header, BodyKey)
    ensures var r := ProcessNewInput(p, Str(m, enc), dec, cfg);
      && (dec(m.body.bytes).None? ==> r == (p.(header := Some(EmptyTree)), false, []))
      && (dec(m.body.bytes).Some? && !HasChild(dec(m.body.bytes).value, BodyKey) ==> r == (p, true, []))
  {
    var line := enc(m.header);
    var bytes := m.body.bytes;
    assert '\n' !in line;
    assert Str(m, enc) == line + "\n" + (bytes + "\n");
    HeaderOnlyLineDropped(p, line, bytes + "\n", dec, cfg);
    LastLineAsHeader(p, bytes, dec, cfg);
  }

  /** The only header that can be pending is the empty tree a failed parse leaves behind. */
  ghost predicate PendingEmpty(p: Proc)
  {
    p.header.None? || p.header == Some(EmptyTree)
  }

  lemma ProcessNewInputKeepsPendingEmpty(p: Proc, input: string, dec: string -> Option<Tree>, cfg: Config)
    requires PendingEmpty(p)
    ensures PendingEmpty(ProcessNewInput(p, input, dec, cfg).0)
  {
  }

  /** Blocks handed to processNewInput one by one, stopping at the first failure as the session's reader does. */
  function Run(p: Proc, blocks: seq<string>, dec: string -> Option<Tree>, cfg: Config): (r: (Proc, bool, seq<Event>))
    ensures !r.1 ==> r.0.header == Some(EmptyTree)
    ensures Authenticated?(p) ==> r.0.peer == p.peer
    ensures PendingEmpty(p) ==> PendingEmpty(r.0)
    decreases |blocks|
  {
    if |blocks| == 0 then (p, true, [])
    else
      var (p1, ok, ev) := ProcessNewInput(p, blocks[0], dec, cfg);
      if !ok then (p1, false, ev)
      else
        var (p2, ok2, ev2) := Run(p1, blocks[1..], dec, cfg);
        (p2, ok2, ev + ev2)
  }

  /**
   * Over a connection that stops reading at the first failure, no header is
   * ever pending after a successful block, so the raw-body branch is never
   * taken and every message carries a structured body.
   */
  lemma {:induction false} RunNoRawBodies(p: Proc, blocks: seq<string>, dec: string -> Option<Tree>, cfg: Config)
    requires p.header.None?
    ensures Run(p, blocks, dec, cfg).1 ==> Run(p, blocks, dec, cfg).0.header.None?
    ensures NoRawBodies(Run(p, blocks, dec, cfg).2)
    decreases |blocks|
  {
    if |blocks| > 0 {
      var p1 := p.(acc := A.AddNewInput(p.acc, blocks[0]));
      PumpNoRawBodies(p1, dec, cfg);
      var (q, ok, ev) := ProcessNewInput(p, blocks[0], dec, cfg);
      if ok {
        RunNoRawBodies(q, blocks[1..], dec, cfg);
      }
    }
  }
}
