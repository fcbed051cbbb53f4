/**
 * The outgoing connection manager of the relay: a status machine per remote
 * host name, a periodic tick that starts name resolution, and the decision
 * of how many sessions to open once a name has been resolved.
 */
module Outgoing {
  import opened Wrappers
  import opened UConfig
  import opened Decimal

  /** Points of the steady clock, in nanoseconds. */
  type Time = int

  const NanosPerSecond: int := 1_000_000_000

  /** The manager's timing constants, in seconds. */
  const RefreshHostStatusSec: int := 15
  const DelayReconnectSec: int := 30
  const ActionTimeoutSec: int := 15

  datatype HostStatus = Initial | Resolving | ResolvingError | Connecting | ConnectionError | Connected | Closed

  /** RemoteHostToConnect: the host name, the service (port as text), the status with the time it was set, and the number of sessions wanted. */
  datatype RemoteHost = RemoteHost(hostname: string, service: string, status: HostStatus, statusChangeTS: Time, wanted: nat)

  /** The constructor: status initial, timestamp now. */
  function NewRemoteHost(hostname: string, service: string, wanted: nat, now: Time): (rh: RemoteHost)
    ensures rh.status == Initial && rh.statusChangeTS == now
    ensures rh.hostname == hostname && rh.service == service && rh.wanted == wanted
  {
    RemoteHost(hostname, service, Initial, now, wanted)
  }

  /** setStatus: the status is set and the timestamp refreshed, even when the status does not change. */
  function SetStatus(rh: RemoteHost, hs: HostStatus, now: Time): (r: RemoteHost)
    ensures r.status == hs && r.statusChangeTS == now
    ensures r.hostname == rh.hostname && r.service == rh.service && r.wanted == rh.wanted
  {
    rh.(status := hs, statusChangeTS := now)
  }

  /** duration_cast to seconds: truncation toward zero. */
  function WholeSeconds(d: int): (s: int)
    ensures d >= 0 ==> s >= 0 && s * NanosPerSecond <= d < (s + 1) * NanosPerSecond
  {
    if d >= 0 then d / NanosPerSecond else -((-d) / NanosPerSecond)
  }

  /** The tick's rule for one host: resolve an initial host, and a failed or closed one once its status is more than the reconnect delay old. */
  function ShouldResolve(rh: RemoteHost, now: Time): (due: bool)
    // a new host is always due, a resolving, connecting or connected one never
    ensures rh.status == Initial ==> due
    ensures rh.status in {Resolving, Connecting, Connected} ==> !due
    // a failed or closed host waits more than the reconnect delay, from its last status change
    ensures due && rh.status != Initial ==> now - rh.statusChangeTS >= (DelayReconnectSec + 1) * NanosPerSecond
  {
    match rh.status
    case Initial => true
    case ConnectionError => WholeSeconds(now - rh.statusChangeTS) > DelayReconnectSec
    case ResolvingError => WholeSeconds(now - rh.statusChangeTS) > DelayReconnectSec
    case Closed => WholeSeconds(now - rh.statusChangeTS) > DelayReconnectSec
    case _ => false
  }

  /**
   * On a monotonic clock the reconnect delay counts whole seconds: a failed
   * host is retried exactly when at least 31 full seconds have passed.
   */
  lemma RetryDelay(rh: RemoteHost, now: Time)
    requires rh.status in {ConnectionError, ResolvingError, Closed}
    requires now >= rh.statusChangeTS
    ensures ShouldResolve(rh, now) <==> now - rh.statusChangeTS >= (DelayReconnectSec + 1) * NanosPerSecond
  {
  }

  /** m_connectTo: host name -> its state, with the port and the default number of sessions. */
  datatype Manager = Manager(connectTo: map<string, RemoteHost>, port: nat, wanted: nat)

  /**
   * startConnecting(hname): the local node is never a target; a host already
   * registered keeps its entry (emplace does not overwrite).
   */
  function StartConnectingHost(m: Manager, cfg: Config, hname: string, now: Time): (r: Manager)
    ensures r.port == m.port && r.wanted == m.wanted
    ensures IsLocalNode(cfg, hname) || hname in m.connectTo ==> r == m
    ensures !IsLocalNode(cfg, hname) && hname !in m.connectTo ==>
      r.connectTo == m.connectTo[hname := NewRemoteHost(hname, ToDecimal(m.port), m.wanted, now)]
    ensures hname in r.connectTo <==> !IsLocalNode(cfg, hname) || hname in m.connectTo
  {
    if IsLocalNode(cfg, hname) || hname in m.connectTo then m
    else m.(connectTo := m.connectTo[hname := NewRemoteHost(hname, ToDecimal(m.port), m.wanted, now)])
  }

  /** Registering a host twice is the same as once, whenever the second call happens. */
  lemma StartConnectingHostIdempotent(m: Manager, cfg: Config, hname: string, t1: Time, t2: Time)
    ensures var once := StartConnectingHost(m, cfg, hname, t1);
      StartConnectingHost(once, cfg, hname, t2) == once
  {
  }

  /** startResolving: the status becomes resolving (the resolution itself is asynchronous and not modelled). */
  function StartResolving(rh: RemoteHost, now: Time): (r: RemoteHost)
    ensures r == SetStatus(rh, Resolving, now)
  {
    SetStatus(rh, Resolving, now)
  }

  /**
   * startConnecting(): one tick over every registered host. Returns the new
   * table and the hosts whose resolution was started.
   */
  function Tick(m: Manager, now: Time): (r: (Manager, set<string>))
    ensures r.0.port == m.port && r.0.wanted == m.wanted
    ensures r.0.connectTo.Keys == m.connectTo.Keys
    ensures forall h :: h in r.1 <==> h in m.connectTo && ShouldResolve(m.connectTo[h], now)
    ensures forall h :: h in r.1 ==> r.0.connectTo[h] == SetStatus(m.connectTo[h], Resolving, now)
    ensures forall h :: h in m.connectTo && h !in r.1 ==> r.0.connectTo[h] == m.connectTo[h]
  {
    var table := map h | h in m.connectTo ::
      if ShouldResolve(m.connectTo[h], now) then StartResolving(m.connectTo[h], now) else m.connectTo[h];
    var started := set h | h in m.connectTo && ShouldResolve(m.connectTo[h], now);
    (m.(connectTo := table), started)
  }

  /** A second tick at the same moment starts nothing and changes nothing: every host picked up is now resolving. */
  lemma TickIdempotent(m: Manager, now: Time)
    ensures var (m1, _) := Tick(m, now);
      Tick(m1, now) == (m1, {})
  {
    var (m1, _) := Tick(m, now);
    var (m2, s2) := Tick(m1, now);
    assert s2 == {} by {
      forall h | h in m1.connectTo
        ensures !ShouldResolve(m1.connectTo[h], now)
      {
      }
    }
    assert m2.connectTo == m1.connectTo;
  }

  /** A host that failed or closed is taken up again by the first tick after the reconnect delay. */
  lemma ReconnectAfterDelay(m: Manager, h: string, now: Time)
    requires h in m.connectTo && m.connectTo[h].status in {ConnectionError, ResolvingError, Closed}
    requires now - m.connectTo[h].statusChangeTS >= (DelayReconnectSec + 1) * NanosPerSecond
    ensures h in Tick(m, now).1 && Tick(m, now).0.connectTo[h].status == Resolving
  {
    RetryDelay(m.connectTo[h], now);
  }

  /** What a session of the IP's bucket tells the manager. */
  datatype SessionInfo = SessionInfo(outgoing: bool, authenticated: bool, peerNode: string)

  /** Side effects of connectResolved, in order. k numbers the sessions created by one call. */
  datatype Effect =
    | Poke                  // pull the next tick forward
    | Announce(k: nat)      // s_sessionCreated(session k)
    | WatchClose(k: nat)    // hook session k's close signal: status closed, then poke
    | StartConnection(k: nat)

  /** Outgoing sessions in the bucket. */
  function OutgoingCount(ss: seq<SessionInfo>): (n: nat)
    ensures n <= |ss|
  {
    if |ss| == 0 then 0
    else OutgoingCount(ss[..|ss| - 1]) + (if ss[|ss| - 1].outgoing then 1 else 0)
  }

  /** Outgoing sessions still waiting for authentication. */
  function UnauthCount(ss: seq<SessionInfo>): (n: nat)
    ensures n <= OutgoingCount(ss)
  {
    if |ss| == 0 then 0
    else UnauthCount(ss[..|ss| - 1]) + (if ss[|ss| - 1].outgoing && !ss[|ss| - 1].authenticated then 1 else 0)
  }

  /** A session that shows the host fully connected: outgoing, authenticated, and its peer node reported fully connected. */
  predicate ShowsConnected(s: SessionInfo, connected: string -> Option<bool>)
  {
    s.outgoing && s.authenticated && connected(s.peerNode) == Some(true)
  }

  predicate AnyConnected(ss: seq<SessionInfo>, connected: string -> Option<bool>)
  {
    exists i | 0 <= i < |ss| :: ShowsConnected(ss[i], connected)
  }

  /** The outcome of connectResolved. */
  datatype Decision = AlreadyConnected | Wait | Create(n: nat)

  /**
   * The decision, stated on the whole bucket: no bucket or an empty one
   * creates the wanted number; a bucket showing the node fully connected
   * creates nothing; with at least the wanted number of outgoing sessions,
   * wait if one is unauthenticated and create one more otherwise; below
   * the wanted number, create the shortfall. Incoming sessions are never
   * counted.
   */
  function Decide(bucket: Option<seq<SessionInfo>>, wanted: nat, connected: string -> Option<bool>): (d: Decision)
    ensures bucket.None? || bucket.value == [] ==> d == Create(wanted)
    ensures d == AlreadyConnected <==> bucket.Some? && AnyConnected(bucket.value, connected)
    ensures d == Wait ==> bucket.Some? && OutgoingCount(bucket.value) >= wanted && UnauthCount(bucket.value) > 0
    // after creating, the outgoing sessions reach the wanted count, or exceed the count by one
    ensures d.Create? && bucket.Some? && bucket.value != [] ==>
      OutgoingCount(bucket.value) + d.n == (if OutgoingCount(bucket.value) < wanted then wanted else OutgoingCount(bucket.value) + 1)
  {
    if bucket.None? || bucket.value == [] then Create(wanted)
    else
      var ss := bucket.value;
      if AnyConnected(ss, connected) then AlreadyConnected
      else if OutgoingCount(ss) >= wanted then
        (if UnauthCount(ss) > 0 then Wait else Create(1))
      else Create(wanted - OutgoingCount(ss))
  }

  /** The effects of creating n sessions: each is announced, watched, then connected. */
  function CreationEffects(n: nat): (r: seq<Effect>)
    ensures |r| == 3 * n
    ensures forall k :: 0 <= k < n ==> r[3 * k] == Announce(k) && r[3 * k + 1] == WatchClose(k) && r[3 * k + 2] == StartConnection(k)
  {
    if n == 0 then [] else CreationEffects(n - 1) + [Announce(n - 1), WatchClose(n - 1), StartConnection(n - 1)]
  }

  /**
   * The scan of connectResolved over the IP's bucket: count outgoing and
   * unauthenticated outgoing sessions, stopping at the first session that
   * shows the host fully connected (an unknown node is logged as impossible
   * and skipped).
   */
  method ScanBucket(ss: seq<SessionInfo>, connected: string -> Option<bool>)
    returns (found: bool, sessions: nat, unauthsessions: nat)
    ensures found <==> AnyConnected(ss, connected)
    ensures !found ==> sessions == OutgoingCount(ss) && unauthsessions == UnauthCount(ss)
  {
    sessions := 0;
    unauthsessions := 0;
    var i := 0;
    while i < |ss|
      invariant i <= |ss|
      invariant sessions == OutgoingCount(ss[..i]) && unauthsessions == UnauthCount(ss[..i])
      invariant forall j :: 0 <= j < i ==> !ShowsConnected(ss[j], connected)
    {
      var sit := ss[i];
      assert ss[..i + 1][..i] == ss[..i];
      if sit.outgoing {
        sessions := sessions + 1;
        if !sit.authenticated {
          unauthsessions := unauthsessions + 1;
        } else if connected(sit.peerNode) == Some(true) {
          assert ShowsConnected(ss[i], connected);
          return true, sessions, unauthsessions;
        }
      }
      i := i + 1;
    }
    assert ss[..i] == ss;
    return false, sessions, unauthsessions;
  }

  /** The creation loop: n sessions, each announced, watched for closing, then connected. */
  method CreateSessions(n: nat) returns (effects: seq<Effect>)
    ensures effects == CreationEffects(n)
  {
    effects := [];
    var k := 0;
    while k < n
      invariant k <= n
      invariant effects == CreationEffects(k)
    {
      effects := effects + [Announce(k), WatchClose(k), StartConnection(k)];
      k := k + 1;
    }
  }

  /**
   * connectResolved. resolved is false when the resolution failed; bucket is
   * the IP's entry in the session index (None when there is none);
   * connected is the node index query (none: unknown node, false: partly
   * connected, true: fully connected). Returns the host's new state, the
   * number of sessions created and the effects.
   */
  method ConnectResolved(rh: RemoteHost, resolved: bool, bucket: Option<seq<SessionInfo>>,
                         connected: string -> Option<bool>, now: Time)
    returns (r: RemoteHost, created: nat, effects: seq<Effect>)
    ensures r.hostname == rh.hostname && r.service == rh.service && r.wanted == rh.wanted
    ensures !resolved ==> r == SetStatus(rh, ResolvingError, now) && created == 0 && effects == [Poke]
    ensures resolved ==> match Decide(bucket, rh.wanted, connected)
      case AlreadyConnected =>
        created == 0 && effects == [] && r.status == Connected
        && (rh.status == Connected ==> r == rh)
      case Wait =>
        created == 0 && effects == [] && r.status == Connecting
        && (rh.status == Connecting ==> r == rh)
      case Create(n) =>
        created == n && effects == CreationEffects(n) && r == SetStatus(rh, Connecting, now)
  {
    if !resolved {
      r := SetStatus(rh, ResolvingError, now);
      return r, 0, [Poke];
    }
    var toCreate := 0;
    if bucket.None? || bucket.value == [] {
      toCreate := rh.wanted;
    } else {
      var found, sessions, unauthsessions := ScanBucket(bucket.value, connected);
      if found {
        r := if rh.status != Connected then SetStatus(rh, Connected, now) else rh;
        return r, 0, [];
      }
      if sessions >= rh.wanted {
        if unauthsessions > 0 {
          r := if rh.status != Connecting then SetStatus(rh, Connecting, now) else rh;
          return r, 0, [];
        }
        toCreate := 1;
      } else {
        toCreate := rh.wanted - sessions;
      }
    }
    r := SetStatus(rh, Connecting, now);
    effects := CreateSessions(toCreate);
    created := toCreate;
  }

  /** A session created by the manager closing: the host is marked closed and the next tick is pulled forward. */
  function OnCreatedSessionClosed(rh: RemoteHost, now: Time): (r: (RemoteHost, seq<Effect>))
    ensures r.0 == SetStatus(rh, Closed, now) && r.1 == [Poke]
  {
    (SetStatus(rh, Closed, now), [Poke])
  }

  /** Incoming sessions in a non-empty bucket do not change the decision. */
  lemma {:induction false} IncomingIgnored(ss: seq<SessionInfo>, s: SessionInfo, wanted: nat, connected: string -> Option<bool>)
    requires |ss| > 0 && !s.outgoing
    ensures Decide(Some(ss + [s]), wanted, connected) == Decide(Some(ss), wanted, connected)
  {
    var t := ss + [s];
    assert t[..|t| - 1] == ss;
    assert AnyConnected(t, connected) ==> AnyConnected(ss, connected) by {
      if AnyConnected(t, connected) {
        var i :| 0 <= i < |t| && ShowsConnected(t[i], connected);
        assert i < |ss| && t[i] == ss[i];
      }
    }
    assert AnyConnected(ss, connected) ==> AnyConnected(t, connected) by {
      if AnyConnected(ss, connected) {
        var i :| 0 <= i < |ss| && ShowsConnected(ss[i], connected);
        assert t[i] == ss[i];
      }
    }
  }

  /** Only a fully connected answer counts: "unknown" and "partly connected" lead to the same decision. */
  lemma OnlyFullyConnectedCounts(bucket: Option<seq<SessionInfo>>, wanted: nat, c1: string -> Option<bool>, c2: string -> Option<bool>)
    requires forall n :: c1(n) == Some(true) <==> c2(n) == Some(true)
    ensures Decide(bucket, wanted, c1) == Decide(bucket, wanted, c2)
  {
    if bucket.Some? {
      var ss := bucket.value;
      assert forall i :: 0 <= i < |ss| ==> (ShowsConnected(ss[i], c1) <==> ShowsConnected(ss[i], c2));
    }
  }

  /**
   * Creating sessions never takes the outgoing count past the wanted number
   * while one of them is unauthenticated; below the wanted number it ends
   * exactly at it.
   */
  lemma CreationBound(ss: seq<SessionInfo>, wanted: nat, connected: string -> Option<bool>)
    requires |ss| > 0
    ensures Decide(Some(ss), wanted, connected).Create? ==>
      var n := Decide(Some(ss), wanted, connected).n;
      && (OutgoingCount(ss) < wanted ==> OutgoingCount(ss) + n == wanted)
      && (OutgoingCount(ss) + n > wanted ==> UnauthCount(ss) == 0 && n == 1)
  {
  }
}
