/**
 * The leaf side of the fabric: an application talks to the network only
 * through the relay ("userver") of its own node, over one channel.
 */
module NetLeaf {
  import opened Wrappers
  import opened UConfig
  import opened Messages
  import O = Outgoing
  import IP = InputProcessor

  type SessionId = nat

  /** What the leaf asks of its channel and sessions. */
  datatype Action =
    | GracefulClose(id: SessionId, reason: string)
    | ChannelAdd(id: SessionId)
    | ChannelSend(msg: Msg)

  /** The relay's application name, and the only peer a leaf accepts. */
  const RelayApp: string := "userver"

  /**
   * NetLeaf::auth: a peer on another node, or a local peer that is not the
   * relay, is closed; the local relay joins the channel. peer is the input
   * processor's authenticated peer, and peerIsLocal is IsLocalNode of its node.
   */
  function LeafAuth(cfg: Config, id: SessionId, peer: Addr): (r: seq<Action>)
    ensures r == [ChannelAdd(id)] <==> IsLocalNode(cfg, peer.node) && peer.app == RelayApp
    ensures r != [ChannelAdd(id)] ==> r == [GracefulClose(id, "remote connection refused")]
  {
    if !IsLocalNode(cfg, peer.node) then [GracefulClose(id, "remote connection refused")]
    else if peer.app != RelayApp then [GracefulClose(id, "remote connection refused")]
    else [ChannelAdd(id)]
  }

  /** In a leaf application, every peer the input processor authenticated is also accepted by the leaf. */
  lemma LeafAcceptsProcessorPeers(cfg: Config, id: SessionId, peer: Addr)
    requires cfg.appName != RelayApp
    requires IP.AuthPolicy(peer, cfg)
    ensures LeafAuth(cfg, id, peer) == [ChannelAdd(id)]
  {
    IP.AuthPolicyCases(peer, cfg);
  }

  /** send: the message goes to the channel unchanged. */
  function LeafSend(m: Msg): (r: seq<Action>)
    ensures |r| == 1 && r[0].ChannelSend? && r[0].msg == m
  {
    [ChannelSend(m)]
  }

  /** The host name the leaf connects to, and how many sessions it wants. */
  const LeafTarget: string := "localhost"
  const LeafWanted: nat := 1

  /** The constructor's outgoing manager: one session wanted, target "localhost" registered. */
  function LeafOutgoing(cfg: Config, port: nat, now: O.Time): (m: O.Manager)
    ensures m.port == port && m.wanted == LeafWanted
    ensures LeafTarget in m.connectTo <==> !IsLocalNode(cfg, LeafTarget)
    ensures LeafTarget in m.connectTo ==> m.connectTo[LeafTarget].status == O.Initial && m.connectTo[LeafTarget].wanted == LeafWanted
    ensures forall h :: h in m.connectTo ==> h == LeafTarget
  {
    O.StartConnectingHost(O.Manager(map[], port, LeafWanted), cfg, LeafTarget, now)
  }

  /** The leaf's node-connected callback: whatever node is asked about, the answer is the channel's state. */
  function LeafConnected(channelConnected: bool): (f: string -> Option<bool>)
    ensures forall n :: f(n) == Some(channelConnected)
  {
    (n: string) => Some(channelConnected)
  }

  /** With a connected channel, any authenticated outgoing session to localhost makes the manager stop creating sessions. */
  lemma LeafConnectedStops(ss: seq<O.SessionInfo>, i: nat)
    requires i < |ss| && ss[i].outgoing && ss[i].authenticated
    ensures O.Decide(Some(ss), LeafWanted, LeafConnected(true)) == O.AlreadyConnected
  {
    assert O.ShowsConnected(ss[i], LeafConnected(true));
  }

  /** A leaf started on a host literally named "localhost" registers no target and never connects. */
  lemma LeafOnLocalhostNode(cfg: Config, port: nat, now: O.Time)
    requires cfg.nodeName == LeafTarget
    ensures LeafOutgoing(cfg, port, now).connectTo == map[]
  {
  }
}
