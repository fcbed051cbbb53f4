/**
 * The relay's tables: sessions indexed by remote IP, the local applications
 * by name, and the channels to remote nodes; and how it routes each kind of
 * message. Sessions and channels are opaque: the server's decisions are
 * returned as actions.
 */
module NetServer {
  import opened Wrappers
  import opened UConfig
  import opened Messages

  type SessionId = nat
  type Ip = string

  /** At most this many sessions from one address are started. */
  const MaxConnectionsWithAddr: nat := 10

  /** ipToSession: remote IP -> its sessions; locals: application name -> its session; channels: the remote nodes with a channel. */
  datatype Server = Server(ipToSession: map<Ip, set<SessionId>>, locals: map<string, SessionId>, channels: set<string>)

  /** What the server asks of sessions and channels. */
  datatype Action =
    | StartSession(id: SessionId)
    | GracefulClose(id: SessionId, reason: string)
    | Enqueue(id: SessionId, msg: Msg)             // putOutQueue on a local session
    | ChannelSend(node: string, msg: Msg)          // send on the channel to a node
    | ChannelAdd(node: string, id: SessionId)      // addSession on the channel to a node
    | TakeOver(id: SessionId, from: SessionId)     // takeOverMessages from an older session
    | ReArm                                        // accept the next connection

  /** The sessions of an IP; operator[] reads a missing entry as empty. */
  function Bucket(srv: Server, ip: Ip): set<SessionId>
  {
    if ip in srv.ipToSession then srv.ipToSession[ip] else {}
  }

  /** onSessionCreated: the session joins its IP's set. */
  function OnSessionCreated(srv: Server, id: SessionId, ip: Ip): (r: Server)
    ensures ip in r.ipToSession && r.ipToSession[ip] == Bucket(srv, ip) + {id}
    ensures forall q :: q != ip ==> (q in r.ipToSession <==> q in srv.ipToSession)
    ensures forall q :: q != ip && q in r.ipToSession ==> r.ipToSession[q] == srv.ipToSession[q]
    ensures r.locals == srv.locals && r.channels == srv.channels
  {
    srv.(ipToSession := srv.ipToSession[ip := Bucket(srv, ip) + {id}])
  }

  /** onSessionClosed: the session leaves its IP's set (which stays, possibly empty). */
  function OnSessionClosed(srv: Server, id: SessionId, ip: Ip): (r: Server)
    ensures ip in r.ipToSession && r.ipToSession[ip] == Bucket(srv, ip) - {id}
    ensures forall q :: q != ip ==> (q in r.ipToSession <==> q in srv.ipToSession)
    ensures forall q :: q != ip && q in r.ipToSession ==> r.ipToSession[q] == srv.ipToSession[q]
    ensures r.locals == srv.locals && r.channels == srv.channels
  {
    srv.(ipToSession := srv.ipToSession[ip := Bucket(srv, ip) - {id}])
  }

  /** A fresh session that is created and then closed leaves its IP's set as it was. */
  lemma CreatedThenClosed(srv: Server, id: SessionId, ip: Ip)
    requires id !in Bucket(srv, ip)
    ensures Bucket(OnSessionClosed(OnSessionCreated(srv, id, ip), id, ip), ip) == Bucket(srv, ip)
  {
  }

  /**
   * The accept handler: on success the new session is indexed first, then
   * refused if its IP now has more than the maximum, else started; the
   * acceptor is always re-armed.
   */
  function Accept(srv: Server, ok: bool, id: SessionId, ip: Ip): (r: (Server, seq<Action>))
    ensures !ok ==> r == (srv, [ReArm])
    ensures ok ==> r.0 == OnSessionCreated(srv, id, ip)
    ensures ok ==> |r.1| == 2 && r.1[1] == ReArm
    ensures ok ==> (r.1[0] == StartSession(id) <==> |Bucket(r.0, ip)| <= MaxConnectionsWithAddr)
    ensures ok ==> (r.1[0].GracefulClose? <==> |Bucket(r.0, ip)| > MaxConnectionsWithAddr)
  {
    if !ok then (srv, [ReArm])
    else
      var s1 := OnSessionCreated(srv, id, ip);
      if |Bucket(s1, ip)| > MaxConnectionsWithAddr then
        (s1, [GracefulClose(id, "connection refused: too many connections"), ReArm])
      else
        (s1, [StartSession(id), ReArm])
  }

  /** A new session is started only while its IP has at most the maximum number of indexed sessions, itself included. */
  lemma AcceptCap(srv: Server, id: SessionId, ip: Ip)
    requires id !in Bucket(srv, ip)
    ensures Accept(srv, true, id, ip).1[0] == StartSession(id) <==> |Bucket(srv, ip)| < MaxConnectionsWithAddr
  {
    assert |Bucket(srv, ip) + {id}| == |Bucket(srv, ip)| + 1;
  }

  /** route: no routing rules yet; every node is reached directly. */
  function Route(target: string): (r: Option<string>)
    ensures r == Some(target)
  {
    Some(target)
  }

  /** findAddRemote: the channel to node, created when missing. */
  function FindAddRemote(srv: Server, node: string): (r: Server)
    ensures r.channels == srv.channels + {node}
    ensures node in srv.channels ==> r == srv
    ensures r.ipToSession == srv.ipToSession && r.locals == srv.locals
  {
    if node in srv.channels then srv else srv.(channels := srv.channels + {node})
  }

  lemma FindAddRemoteIdempotent(srv: Server, node: string)
    ensures FindAddRemote(FindAddRemote(srv, node), node) == FindAddRemote(srv, node)
  {
  }

  /** handleLocalMsg: to the local session named by the destination application, or dropped. */
  function HandleLocalMsg(srv: Server, m: Msg): (r: seq<Action>)
    ensures m.dest.app in srv.locals ==> r == [Enqueue(srv.locals[m.dest.app], m)]
    ensures m.dest.app !in srv.locals ==> r == []
  {
    if m.dest.app in srv.locals then [Enqueue(srv.locals[m.dest.app], m)] else []
  }

  /** handleLocalBroadcastMsg: one copy to every local session. */
  function HandleLocalBroadcastMsg(srv: Server, m: Msg): (r: set<Action>)
    ensures forall a :: a in r <==> exists app :: app in srv.locals && a == Enqueue(srv.locals[app], m)
  {
    set app | app in srv.locals :: Enqueue(srv.locals[app], m)
  }

  /** handleBroadcastMsg: one copy to every remote channel. */
  function HandleBroadcastMsg(srv: Server, m: Msg): (r: set<Action>)
    ensures forall a :: a in r <==> exists n :: n in srv.channels && a == ChannelSend(n, m)
    ensures |r| == |srv.channels|
  {
    var r := set n | n in srv.channels :: ChannelSend(n, m);
    assert r == ChannelSends(srv.channels, m);
    ChannelSendsCount(srv.channels, m);
    r
  }

  function ChannelSends(nodes: set<string>, m: Msg): set<Action>
  {
    set n | n in nodes :: ChannelSend(n, m)
  }

  /** One send per channel: distinct nodes give distinct sends. */
  lemma {:induction false} ChannelSendsCount(nodes: set<string>, m: Msg)
    ensures |ChannelSends(nodes, m)| == |nodes|
    decreases |nodes|
  {
    if nodes != {} {
      var n :| n in nodes;
      var rest := nodes - {n};
      ChannelSendsCount(rest, m);
      assert ChannelSends(nodes, m) == ChannelSends(rest, m) + {ChannelSend(n, m)};
      assert ChannelSend(n, m) !in ChannelSends(rest, m);
    }
  }

  /** handleRemoteMsg: to the channel of the routed node, created if needed. */
  function HandleRemoteMsg(srv: Server, m: Msg): (r: (Server, seq<Action>))
    ensures r.0 == FindAddRemote(srv, m.dest.node)
    ensures m.dest.node in r.0.channels
    ensures r.1 == [ChannelSend(m.dest.node, m)]
  {
    match Route(m.dest.node)
    case None => (srv, [])
    case Some(via) => (FindAddRemote(srv, via), [ChannelSend(via, m)])
  }

  /**
   * auth: a local peer takes over the messages of an earlier session of the
   * same application and replaces it in the table; a remote peer's session
   * joins the channel to its node. peer is the input processor's
   * authenticated peer: peerApp and peerNode are its fields, and
   * peerIsLocal is IsLocalNode of its node.
   */
  function Auth(srv: Server, id: SessionId, peer: Addr, cfg: Config): (r: (Server, seq<Action>))
    ensures IsLocalNode(cfg, peer.node) ==>
      && r.0.locals == srv.locals[peer.app := id]
      && r.0.channels == srv.channels && r.0.ipToSession == srv.ipToSession
      && r.1 == (if peer.app in srv.locals then [TakeOver(id, srv.locals[peer.app])] else [])
    ensures !IsLocalNode(cfg, peer.node) ==>
      r.0 == FindAddRemote(srv, peer.node) && r.1 == [ChannelAdd(peer.node, id)]
  {
    if IsLocalNode(cfg, peer.node) then
      var acts := if peer.app in srv.locals then [TakeOver(id, srv.locals[peer.app])] else [];
      (srv.(locals := srv.locals[peer.app := id]), acts)
    else
      (FindAddRemote(srv, peer.node), [ChannelAdd(peer.node, id)])
  }

  /** After a local application authenticates, its messages go to the new session only. */
  lemma LocalMsgAfterAuth(srv: Server, id: SessionId, peer: Addr, cfg: Config, m: Msg)
    requires IsLocalNode(cfg, peer.node) && m.dest.app == peer.app
    ensures HandleLocalMsg(Auth(srv, id, peer, cfg).0, m) == [Enqueue(id, m)]
  {
  }

  /** After a remote peer authenticates, a message for its node goes to its channel without creating another. */
  lemma RemoteMsgAfterAuth(srv: Server, id: SessionId, peer: Addr, cfg: Config, m: Msg)
    requires !IsLocalNode(cfg, peer.node) && m.dest.node == peer.node
    ensures var s1 := Auth(srv, id, peer, cfg).0;
      HandleRemoteMsg(s1, m) == (s1, [ChannelSend(peer.node, m)])
  {
  }
}
