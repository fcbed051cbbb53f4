/**
 * The single-slot dispatchers: one handler per message class name. The
 * plain dispatcher calls it with the message; the session dispatcher also
 * passes the session the message came from.
 */
module SingleDispatcher {

  /** cname -> handler (m_handlers / m_serviceHandlers). H is the handler type. */
  type Registry<H> = map<string, H>

  /** registerHandler: the handler is stored under cname, replacing any earlier one. */
  function Register<H>(reg: Registry<H>, cname: string, h: H): (r: Registry<H>)
    ensures cname in r && r[cname] == h
    ensures forall c :: c != cname ==> (c in r <==> c in reg)
    ensures forall c :: c != cname && c in r ==> r[c] == reg[c]
  {
    reg[cname := h]
  }

  /** dispatch: the handlers invoked, in order; the one registered for cname, once, or none. */
  function Dispatch<H>(reg: Registry<H>, cname: string): (calls: seq<H>)
    ensures |calls| <= 1
    ensures |calls| == 1 <==> cname in reg
    ensures |calls| == 1 ==> calls[0] == reg[cname]
  {
    if cname in reg then [reg[cname]] else []
  }

  /** The session dispatcher passes the session along with the message. */
  function DispatchWithSession<H, S>(reg: Registry<H>, cname: string, session: S): (calls: seq<(H, S)>)
    ensures |calls| == |Dispatch(reg, cname)|
    ensures forall i :: 0 <= i < |calls| ==> calls[i] == (Dispatch(reg, cname)[i], session)
  {
    if cname in reg then [(reg[cname], session)] else []
  }

  /** A registered handler is the one a dispatch of its cname calls, exactly once. */
  lemma DispatchRegistered<H>(reg: Registry<H>, cname: string, h: H)
    ensures Dispatch(Register(reg, cname, h), cname) == [h]
  {
  }

  /** Registering under one cname does not change dispatching of another. */
  lemma RegisterOtherCname<H>(reg: Registry<H>, cname: string, other: string, h: H)
    requires other != cname
    ensures Dispatch(Register(reg, cname, h), other) == Dispatch(reg, other)
  {
  }

  /** The later registration wins: the earlier handler is forgotten. */
  lemma RegisterReplaces<H>(reg: Registry<H>, cname: string, h1: H, h2: H)
    ensures Register(Register(reg, cname, h1), cname, h2) == Register(reg, cname, h2)
  {
  }

  /** A message whose cname was never registered is dropped. */
  lemma DispatchUnregistered<H, S>(reg: Registry<H>, cname: string, session: S)
    requires cname !in reg
    ensures Dispatch(reg, cname) == [] && DispatchWithSession(reg, cname, session) == []
  {
  }
}
