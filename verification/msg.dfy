/**
 * Messages: a property-tree header plus a raw or structured body, with the
 * cached source address, destination address and destination type derived
 * from the header.
 */
module Messages {
  import opened PTree
  import opened UConfig

  datatype DestType = Local | Remote | Broadcast | LocalBroadcast | Service

  /** An (application, node) pair; an empty field means unset. */
  datatype Addr = Addr(app: string, node: string)

  /** The body: raw characters received after a header line, or a tree. */
  datatype Body = Raw(bytes: string) | Parsed(tree: Tree)

  /** A message with its cached fields (m_destType, m_dest, m_from). */
  datatype Msg = Msg(header: Tree, body: Body, destType: DestType, dest: Addr, from: Addr)

  const FromN: Path := ["from", "n"]
  const FromA: Path := ["from", "a"]
  const ToN: Path := ["to", "n"]
  const ToA: Path := ["to", "a"]
  const BodyKey: string := "body"

  /**
   * The destination rule applied by updateDest to to.n (node) and to.a
   * (application), each "" when missing, against the local node name.
   */
  function Classify(toN: string, toA: string, nodeName: string): (d: DestType)
    ensures d == Service <==> toN == "" && toA == ""
    ensures d == LocalBroadcast <==> toN != "" && toN == nodeName && toA == "*"
    ensures d == Broadcast <==> toN == "*" && toN != nodeName
    ensures d == Remote <==> toN != "" && toN != "*" && toN != nodeName
    ensures d == Local <==> (toN == "" && toA != "") || (toN != "" && toN == nodeName && toA != "*")
  {
    if toA == "" && toN == "" then Service
    else if toN == "" then Local
    else if toN == nodeName then (if toA == "*" then LocalBroadcast else Local)
    else if toN == "*" then Broadcast
    else Remote
  }

  /** Addr(to.a, to.n) with missing fields read as "". */
  function HeaderDest(h: Tree): Addr
  {
    Addr(Get(h, ToA, ""), Get(h, ToN, ""))
  }

  /** Addr(from.a, from.n) with missing fields read as "". */
  function HeaderFrom(h: Tree): Addr
  {
    Addr(Get(h, FromA, ""), Get(h, FromN, ""))
  }

  /** The cached fields agree with the header. */
  ghost predicate Cached(m: Msg, cfg: Config)
  {
    && m.dest == HeaderDest(m.header)
    && m.destType == Classify(m.dest.node, m.dest.app, cfg.nodeName)
    && m.from == HeaderFrom(m.header)
  }

  /** updateDest: recompute the destination and its type from the header. */
  function UpdateDest(m: Msg, cfg: Config): (r: Msg)
    ensures r.header == m.header && r.body == m.body && r.from == m.from
    ensures r.dest == HeaderDest(m.header)
    ensures r.destType == Service <==> Get(m.header, ToN, "") == "" && Get(m.header, ToA, "") == ""
    ensures m.from == HeaderFrom(m.header) ==> Cached(r, cfg)
  {
    var dest := HeaderDest(m.header);
    m.(dest := dest, destType := Classify(dest.node, dest.app, cfg.nodeName))
  }

  /** updateFrom: recompute the source address from the header. */
  function UpdateFrom(m: Msg): (r: Msg)
    ensures r.header == m.header && r.body == m.body && r.dest == m.dest && r.destType == m.destType
    ensures r.from == HeaderFrom(m.header)
  {
    m.(from := HeaderFrom(m.header))
  }

  /** The constructors for a received message: the cached fields start out consistent. */
  function Incoming(h: Tree, b: Body, cfg: Config): (m: Msg)
    ensures m.header == h && m.body == b
    ensures Cached(m, cfg)
  {
    UpdateDest(UpdateFrom(Msg(h, b, Local, Addr("", ""), Addr("", ""))), cfg)
  }

  /** "localhost" in a destination stands for the local node. */
  function ResolveNode(node: string, cfg: Config): string
  {
    if node == "localhost" then cfg.nodeName else node
  }

  /**
   * setDest: when both fields of dest are set, write them to to.n / to.a
   * ("localhost" replaced by the node name); otherwise leave the header
   * alone. The destination type is recomputed either way.
   */
  function SetDest(m: Msg, dest: Addr, cfg: Config): (r: Msg)
    ensures dest.app != "" && dest.node != "" ==>
      && Get(r.header, ToN, "") == ResolveNode(dest.node, cfg)
      && Get(r.header, ToA, "") == dest.app
      && forall p :: p != ToN && p != ToA ==> Get(r.header, p, "") == Get(m.header, p, "")
    ensures !(dest.app != "" && dest.node != "") ==> r.header == m.header
    ensures r.dest == HeaderDest(r.header)
    ensures r.destType == Classify(r.dest.node, r.dest.app, cfg.nodeName)
    ensures r.body == m.body && r.from == m.from
    ensures Cached(m, cfg) ==> Cached(r, cfg)
  {
    var h := if dest.app != "" && dest.node != ""
      then Put(Put(m.header, ToN, ResolveNode(dest.node, cfg)), ToA, dest.app)
      else m.header;
    assert HeaderFrom(h) == HeaderFrom(m.header);
    UpdateDest(m.(header := h), cfg)
  }

  /** setFromLocal: this node and this application become the source. */
  function SetFromLocal(m: Msg, cfg: Config): (r: Msg)
    ensures r.from == Addr(cfg.appName, cfg.nodeName)
    ensures HeaderFrom(r.header) == r.from
    ensures forall p :: p != FromN && p != FromA ==> Get(r.header, p, "") == Get(m.header, p, "")
    ensures r.body == m.body && r.dest == m.dest && r.destType == m.destType
    ensures Cached(m, cfg) ==> Cached(r, cfg)
  {
    var h := Put(Put(m.header, FromN, cfg.nodeName), FromA, cfg.appName);
    assert HeaderDest(h) == HeaderDest(m.header);
    m.(header := h, from := Addr(cfg.appName, cfg.nodeName))
  }

  /** Msg(dest, body): a new structured message from this application. */
  function ToDest(dest: Addr, body: Tree, cfg: Config): (m: Msg)
    ensures Cached(m, cfg)
    ensures m.from == Addr(cfg.appName, cfg.nodeName) && m.body == Parsed(body)
    ensures dest.app != "" && dest.node != "" ==> m.dest == Addr(dest.app, ResolveNode(dest.node, cfg))
    ensures !(dest.app != "" && dest.node != "") ==> m.dest == Addr("", "") && m.destType == Service
  {
    var m0 := Msg(EmptyTree, Parsed(body), Service, Addr("", ""), Addr("", ""));
    SetDest(SetFromLocal(m0, cfg), dest, cfg)
  }

  /** Msg(dest, other): forward another message from here to dest; all cached fields are recomputed. */
  function Forward(dest: Addr, other: Msg, cfg: Config): (m: Msg)
    ensures Cached(m, cfg)
    ensures m.from == Addr(cfg.appName, cfg.nodeName) && m.body == other.body
    ensures dest.app != "" && dest.node != "" ==> m.dest == Addr(dest.app, ResolveNode(dest.node, cfg))
    ensures !(dest.app != "" && dest.node != "") ==> m.dest == HeaderDest(other.header)
  {
    var m1 := SetFromLocal(other, cfg);
    assert HeaderDest(m1.header) == HeaderDest(other.header);
    SetDest(m1, dest, cfg)
  }

  predicate IsBroadcast(m: Msg) { m.destType == Broadcast }
  predicate IsLocal(m: Msg) { m.destType == Local }
  predicate IsRemote(m: Msg) { m.destType == Remote }
  predicate IsLocalBroadcast(m: Msg) { m.destType == LocalBroadcast }

  /** fromLocal: the source node is this node. */
  predicate FromLocal(m: Msg, cfg: Config) { IsLocalNode(cfg, m.from.node) }

  /**
   * For a message whose cached fields agree with its header, the tests
   * read the header: to.n "*" (not the local node) is a broadcast, the
   * local node with to.a "*" a local broadcast, another non-empty node a
   * remote message; exactly one of the four tests or the service case
   * holds; fromLocal tests from.n.
   */
  lemma DestPredicates(m: Msg, cfg: Config)
    requires Cached(m, cfg)
    ensures var n := Get(m.header, ToN, ""); var a := Get(m.header, ToA, "");
      && (IsBroadcast(m) <==> n == "*" && n != cfg.nodeName)
      && (IsLocalBroadcast(m) <==> n != "" && n == cfg.nodeName && a == "*")
      && (IsRemote(m) <==> n != "" && n != "*" && n != cfg.nodeName)
      && (IsLocal(m) <==> (n == "" && a != "") || (n != "" && n == cfg.nodeName && a != "*"))
    ensures !IsBroadcast(m) && !IsLocalBroadcast(m) && !IsRemote(m) && !IsLocal(m) <==> m.destType == Service
    ensures FromLocal(m, cfg) <==> IsLocalNode(cfg, Get(m.header, FromN, ""))
  {
  }

  /** Every message built or forwarded here tests as coming from the local node. */
  lemma FromLocalOfOwnMessages(m: Msg, dest: Addr, body: Tree, cfg: Config)
    ensures FromLocal(SetFromLocal(m, cfg), cfg)
    ensures FromLocal(ToDest(dest, body, cfg), cfg)
    ensures FromLocal(Forward(dest, m, cfg), cfg)
  {
  }

  /** write_json(os, tree, false): the compact text of the tree, then a line break. */
  function WriteJson(enc: Tree -> string, t: Tree): string
  {
    enc(t) + "\n"
  }

  /** Compact JSON never contains a raw line break (they are escaped inside strings). */
  ghost predicate Compact(enc: Tree -> string)
  {
    forall t :: '\n' !in enc(t)
  }

  /**
   * str(): a raw body goes out as the header line, the body characters and a
   * line break; a structured body as the header line then the body line.
   */
  function Str(m: Msg, enc: Tree -> string): (r: string)
    ensures m.body.Raw? ==> r == enc(m.header) + "\n" + m.body.bytes + "\n"
    ensures m.body.Parsed? ==> r == enc(m.header) + "\n" + enc(m.body.tree) + "\n"
  {
    match m.body
    case Raw(bytes) => WriteJson(enc, m.header) + bytes + "\n"
    case Parsed(t) => WriteJson(enc, m.header) + WriteJson(enc, t)
  }

  /**
   * move_tostr(): like str() for a raw body; a structured body is hung under
   * the header key "body" and the whole tree goes out as one line.
   */
  function MoveToStr(m: Msg, enc: Tree -> string): (r: string)
    ensures m.body.Raw? ==> r == Str(m, enc)
    ensures m.body.Parsed? ==> r == enc(PutChild(m.header, BodyKey, m.body.tree)) + "\n"
    ensures m.body.Parsed? && Compact(enc) ==> r[..|r| - 1] == enc(PutChild(m.header, BodyKey, m.body.tree)) && '\n' !in r[..|r| - 1]
  {
    match m.body
    case Raw(_) => Str(m, enc)
    case Parsed(t) => WriteJson(enc, PutChild(m.header, BodyKey, t))
  }
}
