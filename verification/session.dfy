/**
 * One connection as an event machine: a FIFO of serialized frames written
 * one at a time, a read loop feeding the input processor, and the start-up
 * that queues the authentication message.
 */
module Sessions {
  import opened Wrappers
  import opened PTree
  import opened UConfig
  import opened Decimal
  import opened Messages
  import IP = InputProcessor

  /**
   * What the session needs from its surroundings: the configuration, the
   * process id, and the JSON writer and reader of one tree.
   */
  datatype Env = Env(cfg: Config, pid: nat, enc: Tree -> string, dec: string -> Option<Tree>)

  /**
   * queue: frames not yet fully written (m_outQueue); writing: a write of
   * the front frame is in flight; reading: a read is pending; open: the
   * socket is not closed; proc: the input processor; sent: frames written,
   * in order; msg1: the first, authenticating message.
   */
  datatype Session = Session(queue: seq<string>, writing: bool, reading: bool, open: bool,
                             proc: IP.Proc, sent: seq<string>, msg1: Msg)

  /** What the session signals to its owner. */
  datatype Signal =
    | Auth(msg: Msg)              // s_auth after a successful first message
    | Dispatch(msg: Msg)          // s_dispatch
    | ConnectError(host: string)  // s_connect_error

  /** The constructor: nothing queued, nothing in flight, the placeholder first message. */
  function NewSession(cfg: Config): (s: Session)
    ensures s.queue == [] && !s.writing && !s.reading && s.open && s.sent == []
    ensures s.proc == IP.Initial
  {
    Session([], false, false, true, IP.Initial, [], Incoming(EmptyTree, Raw(""), cfg))
  }

  /** At most one write is in flight, and only while there is a frame to write. */
  ghost predicate Valid(s: Session)
  {
    s.writing ==> s.queue != []
  }

  /** do_write: with an empty queue nothing happens; otherwise a write of the front frame starts. */
  function DoWrite(s: Session): (r: Session)
    ensures s.queue == [] ==> r == s
    ensures s.queue != [] ==> r == s.(writing := true)
  {
    if s.queue == [] then s else s.(writing := true)
  }

  /**
   * putOutQueue: the frame goes to the back of the queue; a write starts
   * only when the queue was empty before.
   */
  function PutOutQueue(s: Session, frame: string): (r: Session)
    ensures r.queue == s.queue + [frame]
    ensures r.sent == s.sent && r.reading == s.reading && r.open == s.open && r.proc == s.proc && r.msg1 == s.msg1
    ensures r.writing <==> s.writing || s.queue == []
    ensures Valid(s) ==> Valid(r)
  {
    var wasEmpty := s.queue == [];
    var s1 := s.(queue := s.queue + [frame]);
    if wasEmpty then DoWrite(s1) else s1
  }

  /** A new write is started only when none was in flight. */
  lemma PutOutQueueOneWrite(s: Session, frame: string)
    requires Valid(s)
    ensures s.queue == [] ==> !s.writing && PutOutQueue(s, frame).writing
    ensures s.queue != [] ==> PutOutQueue(s, frame).writing == s.writing
  {
  }

  /** putOutQueue of a message: a copy goes out with str(), a moved message with move_tostr(). */
  function PutMsg(s: Session, m: Msg, byMove: bool, enc: Tree -> string): (r: Session)
    ensures r == PutOutQueue(s, if byMove then MoveToStr(m, enc) else Str(m, enc))
  {
    PutOutQueue(s, if byMove then MoveToStr(m, enc) else Str(m, enc))
  }

  /**
   * Completion of the write in flight. Success: the front frame is on the
   * wire and popped, and the next write starts if frames remain. Failure:
   * the queue is kept and no further write is started.
   */
  function WriteDone(s: Session, ok: bool): (r: Session)
    requires s.writing && s.queue != []
    ensures ok ==> r.sent == s.sent + [s.queue[0]] && r.queue == s.queue[1..]
    ensures ok ==> (r.writing <==> r.queue != [])
    ensures !ok ==> r == s.(writing := false)
    ensures r.sent + r.queue == s.sent + s.queue
    ensures Valid(r)
  {
    if !ok then s.(writing := false)
    else
      var s1 := s.(queue := s.queue[1..], sent := s.sent + [s.queue[0]], writing := false);
      assert s1.sent + s1.queue == s.sent + s.queue;
      if s1.queue == [] then s1 else DoWrite(s1)
  }

  /** After a failed write, later frames only pile up: no write is ever started again. */
  lemma {:induction false} StallAfterWriteError(s: Session, frames: seq<string>)
    requires s.writing && s.queue != []
    ensures var r := PutAll(WriteDone(s, false), frames);
      !r.writing && r.sent == s.sent && r.queue == s.queue + frames
    decreases |frames|
  {
    if |frames| > 0 {
      var s1 := WriteDone(s, false);
      var s2 := PutOutQueue(s1, frames[0]);
      assert s2 == s.(queue := s.queue + [frames[0]], writing := false);
      StallAfterWriteErrorFrom(s2, frames[1..]);
      assert s.queue + [frames[0]] + frames[1..] == s.queue + frames;
    }
  }

  lemma {:induction false} StallAfterWriteErrorFrom(s: Session, frames: seq<string>)
    requires !s.writing && s.queue != []
    ensures var r := PutAll(s, frames);
      !r.writing && r.sent == s.sent && r.queue == s.queue + frames
    decreases |frames|
  {
    if |frames| == 0 {
      assert s.queue + frames == s.queue;
    } else {
      var s2 := PutOutQueue(s, frames[0]);
      StallAfterWriteErrorFrom(s2, frames[1..]);
      assert s.queue + [frames[0]] + frames[1..] == s.queue + frames;
    }
  }

  /** putOutQueue of each frame in turn. */
  function PutAll(s: Session, frames: seq<string>): Session
    decreases |frames|
  {
    if |frames| == 0 then s else PutAll(PutOutQueue(s, frames[0]), frames[1..])
  }

  /** The authentication message: no destination, from this application, with body auth.pid. */
  function AuthMsg(env: Env): (m: Msg)
    ensures m.body == Parsed(map[["auth", "pid"] := ToDecimal(env.pid)])
    ensures m.from == Addr(env.cfg.appName, env.cfg.nodeName) && m.destType == Service
  {
    ToDest(Addr("", ""), map[["auth", "pid"] := ToDecimal(env.pid)], env.cfg)
  }

  /** start: the authentication message is queued (moved, so as one line), then the first read is issued. */
  function Start(s: Session, env: Env): (r: Session)
    ensures r == PutOutQueue(s, MoveToStr(AuthMsg(env), env.enc)).(reading := true)
  {
    var s1 := PutMsg(s, AuthMsg(env), true, env.enc);
    s1.(reading := true)
  }

  /** connectHandler: a failed connect reports the host name and never starts the session; success starts it. */
  function ConnectDone(s: Session, ok: bool, host: string, env: Env): (r: (Session, seq<Signal>))
    ensures !ok ==> r == (s, [ConnectError(host)])
    ensures ok ==> r == (Start(s, env), [])
  {
    if ok then (Start(s, env), []) else (s, [ConnectError(host)])
  }

  /** The signal an event of the processor becomes: s_auth and s_dispatch are passed on, a rejection is not. */
  function SignalOf(e: IP.Event): (r: seq<Signal>)
    ensures e.Rejected? <==> r == []
    ensures e.Authenticated? ==> r == [Auth(e.msg)]
    ensures e.Dispatched? ==> r == [Dispatch(e.msg)]
  {
    match e
    case Rejected => []
    case Authenticated(m) => [Auth(m)]
    case Dispatched(m) => [Dispatch(m)]
  }

  /** Reference: the signals of a list of events, in order. */
  function Signals(evs: seq<IP.Event>): (r: seq<Signal>)
    ensures (forall i :: 0 <= i < |evs| ==> !evs[i].Rejected?) ==>
      |r| == |evs| && forall i :: 0 <= i < |evs| ==> [r[i]] == SignalOf(evs[i])
    decreases |evs|
  {
    if |evs| == 0 then [] else SignalOf(evs[0]) + Signals(evs[1..])
  }

  /**
   * The processor's events as the session handles them: a rejection closes
   * the socket, an authentication records the first message (m_msg1) and
   * is passed on, a dispatch is passed on.
   */
  function HandleEvents(s: Session, evs: seq<IP.Event>): (r: (Session, seq<Signal>))
    ensures r.0.queue == s.queue && r.0.writing == s.writing && r.0.sent == s.sent
    ensures r.0.reading == s.reading && r.0.proc == s.proc
    ensures (exists i :: 0 <= i < |evs| && evs[i].Rejected?) ==> !r.0.open
    ensures (forall i :: 0 <= i < |evs| ==> !evs[i].Rejected?) ==> r.0.open == s.open
    ensures r.1 == Signals(evs)
    ensures (forall i :: 0 <= i < |evs| ==> !evs[i].Authenticated?) ==> r.0.msg1 == s.msg1
    ensures forall i :: 0 <= i < |evs| && evs[i].Authenticated? && (forall j :: i < j < |evs| ==> !evs[j].Authenticated?) ==>
      r.0.msg1 == evs[i].msg
    decreases |evs|
  {
    if |evs| == 0 then (s, [])
    else
      var (s1, sig1) := match evs[0]
        case Rejected => (s.(open := false), [])
        case Authenticated(m) => (s.(msg1 := m), [Auth(m)])
        case Dispatched(m) => (s, [Dispatch(m)]);
      var (s2, sig2) := HandleEvents(s1, evs[1..]);
      assert forall i :: 0 <= i < |evs[1..]| ==> evs[1..][i] == evs[i + 1];
      (s2, sig1 + sig2)
  }

  /**
   * Completion of the pending read. An error ends reading; received text
   * goes to the processor, and reading goes on only if it handled every
   * line.
   */
  function ReadDone(s: Session, ok: bool, data: string, env: Env): (r: (Session, seq<Signal>))
    ensures !ok ==> r == (s.(reading := false), [])
    ensures ok ==> r.0.reading == IP.ProcessNewInput(s.proc, data, env.dec, env.cfg).1
    ensures ok ==> r.0.proc == IP.ProcessNewInput(s.proc, data, env.dec, env.cfg).0
    ensures ok ==> r.1 == Signals(IP.ProcessNewInput(s.proc, data, env.dec, env.cfg).2)
    ensures r.0.queue == s.queue && r.0.sent == s.sent && r.0.writing == s.writing
  {
    if !ok then (s.(reading := false), [])
    else
      var (p, more, evs) := IP.ProcessNewInput(s.proc, data, env.dec, env.cfg);
      var (s1, sigs) := HandleEvents(s.(proc := p), evs);
      (s1.(reading := more), sigs)
  }

  /**
   * End to end over one read: an authenticated session that receives a
   * stream of frames written by move_tostr signals a dispatch of each
   * message, in order, keeps reading, and its processor is unchanged.
   */
  lemma ReadFrames(s: Session, ms: seq<Msg>, env: Env)
    requires IP.Codec(env.enc, env.dec) && Compact(env.enc)
    requires IP.Authenticated?(s.proc) && s.proc.header.None? && s.proc.acc == IP.Initial.acc
    requires forall i :: 0 <= i < |ms| ==> IP.OneLine(ms[i], env.cfg)
    ensures var r := ReadDone(s, true, IP.Frames(ms, env.enc), env);
      && r.0.reading && r.0.proc == s.proc
      && |r.1| == |ms| && forall i :: 0 <= i < |ms| ==> r.1[i] == Dispatch(ms[i])
  {
    IP.ReceiveFrames(s.proc, ms, env.enc, env.dec, env.cfg);
    SignalsOfDispatches(ms);
  }

  /** Dispatch events become dispatch signals, one for one. */
  lemma SignalsOfDispatches(ms: seq<Msg>)
    ensures |Signals(IP.Dispatches(ms))| == |ms|
    ensures forall i :: 0 <= i < |ms| ==> Signals(IP.Dispatches(ms))[i] == Dispatch(ms[i])
  {
    var evs := IP.Dispatches(ms);
    var sigs := Signals(evs);
    assert forall i :: 0 <= i < |evs| ==> !evs[i].Rejected?;
    assert forall i :: 0 <= i < |ms| ==> [sigs[i]] == [Dispatch(ms[i])];
  }

  /** disconnect: close the socket. */
  function Disconnect(s: Session): (r: Session)
    ensures r == s.(open := false)
  {
    s.(open := false)
  }

  /** The events the outside world delivers to a session. */
  datatype Event =
    | StartEv
    | Put(frame: string)
    | WriteCompleted(ok: bool)
    | ConnectCompleted(ok: bool, host: string)
    | ReadCompleted(ok: bool, data: string)
    | Close

  /** One event. A write completion with no write in flight cannot occur and is ignored. */
  function Step(s: Session, e: Event, env: Env): (r: (Session, seq<Signal>))
    ensures s.sent <= r.0.sent && |r.0.sent| <= |s.sent| + 1
    ensures !e.ReadCompleted? ==> r.0.proc == s.proc
    ensures e.Put? || e.WriteCompleted? || e.StartEv? || e.Close? ==> r.1 == []
  {
    match e
    case StartEv => (Start(s, env), [])
    case Put(f) => (PutOutQueue(s, f), [])
    case WriteCompleted(ok) => if s.writing && s.queue != [] then (WriteDone(s, ok), []) else (s, [])
    case ConnectCompleted(ok, host) => ConnectDone(s, ok, host, env)
    case ReadCompleted(ok, data) => ReadDone(s, ok, data, env)
    case Close => (Disconnect(s), [])
  }

  /** The frames an event puts on the queue. */
  function Enqueued(e: Event, env: Env): seq<string>
  {
    match e
    case StartEv => [MoveToStr(AuthMsg(env), env.enc)]
    case Put(f) => [f]
    case ConnectCompleted(ok, _) => if ok then [MoveToStr(AuthMsg(env), env.enc)] else []
    case _ => []
  }

  /** Queuing one frame, in whatever way, keeps the invariant and appends that frame. */
  lemma QueueOneKeeps(s: Session, r: Session, f: string)
    requires Valid(s)
    requires r == PutOutQueue(s, f).(reading := r.reading)
    ensures Valid(r) && r.sent + r.queue == s.sent + s.queue + [f]
  {
  }

  /** A step that leaves queue, writes and sent frames alone keeps everything. */
  lemma QueueUntouchedKeeps(s: Session, r: Session)
    requires Valid(s)
    requires r.queue == s.queue && r.sent == s.sent && r.writing == s.writing
    ensures Valid(r) && r.sent + r.queue == s.sent + s.queue + []
  {
    assert s.sent + s.queue + [] == s.sent + s.queue;
  }

  lemma WriteStepKeeps(s: Session, ok: bool, env: Env)
    requires Valid(s)
    ensures var r := Step(s, WriteCompleted(ok), env).0;
      Valid(r) && r.sent + r.queue == s.sent + s.queue + []
  {
    assert s.sent + s.queue + [] == s.sent + s.queue;
  }

  lemma ReadStepKeeps(s: Session, ok: bool, data: string, env: Env)
    requires Valid(s)
    ensures var r := Step(s, ReadCompleted(ok, data), env).0;
      Valid(r) && r.sent + r.queue == s.sent + s.queue + []
  {
    var r := ReadDone(s, ok, data, env).0;
    QueueUntouchedKeeps(s, r);
  }

  /** Every step keeps at most one write in flight, and keeps written plus queued frames equal to what was put in, in order. */
  lemma StepKeeps(s: Session, e: Event, env: Env)
    requires Valid(s)
    ensures Valid(Step(s, e, env).0)
    ensures Step(s, e, env).0.sent + Step(s, e, env).0.queue == s.sent + s.queue + Enqueued(e, env)
  {
    var r := Step(s, e, env).0;
    match e
    case StartEv =>
      QueueOneKeeps(s, r, MoveToStr(AuthMsg(env), env.enc));
    case Put(f) =>
      QueueOneKeeps(s, r, f);
    case WriteCompleted(ok) =>
      WriteStepKeeps(s, ok, env);
    case ConnectCompleted(ok, host) =>
      if ok {
        QueueOneKeeps(s, r, MoveToStr(AuthMsg(env), env.enc));
      } else {
        QueueUntouchedKeeps(s, r);
      }
    case ReadCompleted(ok, data) =>
      ReadStepKeeps(s, ok, data, env);
    case Close =>
      QueueUntouchedKeeps(s, r);
  }

  /** Events delivered one after the other. The wire only grows: what was written stays written. */
  function Run(s: Session, evs: seq<Event>, env: Env): (r: Session)
    ensures s.sent <= r.sent
    ensures |r.sent| <= |s.sent| + |evs|
    decreases |evs|
  {
    if |evs| == 0 then s else Run(Step(s, evs[0], env).0, evs[1..], env)
  }

  function AllEnqueued(evs: seq<Event>, env: Env): seq<string>
    decreases |evs|
  {
    if |evs| == 0 then [] else Enqueued(evs[0], env) + AllEnqueued(evs[1..], env)
  }

  lemma RunCons(s: Session, evs: seq<Event>, env: Env)
    requires |evs| > 0
    ensures Run(s, evs, env) == Run(Step(s, evs[0], env).0, evs[1..], env)
    ensures AllEnqueued(evs, env) == Enqueued(evs[0], env) + AllEnqueued(evs[1..], env)
  {
  }

  lemma AppendAssoc(a: seq<string>, b: seq<string>, c: seq<string>)
    ensures (a + b) + c == a + (b + c)
  {
  }

  /**
   * FIFO over any run: the frames on the wire followed by those still
   * queued are exactly the frames put in, in the order they were put in,
   * and never more than one write is in flight.
   */
  lemma {:induction false} RunFifo(s: Session, evs: seq<Event>, env: Env)
    requires Valid(s)
    ensures Valid(Run(s, evs, env))
    ensures Run(s, evs, env).sent + Run(s, evs, env).queue == s.sent + s.queue + AllEnqueued(evs, env)
    decreases |evs|
  {
    if |evs| > 0 {
      var s1 := Step(s, evs[0], env).0;
      StepKeeps(s, evs[0], env);
      RunFifo(s1, evs[1..], env);
      RunCons(s, evs, env);
      AppendAssoc(s.sent + s.queue, Enqueued(evs[0], env), AllEnqueued(evs[1..], env));
    }
  }

  /** Starting a fresh session puts the authentication frame on the queue, starts writing it, and issues the first read. */
  lemma StartQueuesAuthFirst(cfg: Config, env: Env)
    ensures var s := Start(NewSession(cfg), env);
      s.queue == [MoveToStr(AuthMsg(env), env.enc)] && s.writing && s.reading
  {
  }
}
