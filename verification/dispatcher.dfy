/**
 * The strand dispatcher: handler vectors per message class name (cname)
 * plus one vector of catch-all handlers. Each registration carries an id;
 * disconnecting an id installs a new vector without it, so a dispatch that
 * already holds the old vector is not affected.
 */
module StrandDispatcher {
  import opened Wrappers

  type Id = nat

  /** A registered handler: its id and an opaque reference to the callable. */
  datatype Entry = Entry(id: Id, handler: nat)

  /** handlers: cname -> handler vector (m_handlers); anyPost: the catch-all vector, None when reset (m_anyPost). */
  datatype Dispatcher = Dispatcher(handlers: map<string, seq<Entry>>, anyPost: Option<seq<Entry>>)

  /** Which vector a disconnect targets. */
  datatype Bucket = Cname | AnyPost

  /** No installed vector is empty: an emptied vector is always dropped. */
  ghost predicate NoEmptyBuckets(d: Dispatcher)
  {
    && (forall c :: c in d.handlers ==> d.handlers[c] != [])
    && (d.anyPost.Some? ==> d.anyPost.value != [])
  }

  /**
   * dispatch: the handlers of the message's cname run, in vector order, only
   * when the message is addressed to this application (toMe); then every
   * catch-all handler runs, in vector order. The result is the sequence of
   * invoked entries. cname and toMe are inputs: how a message computes
   * them is not part of this model.
   */
  function Dispatch(d: Dispatcher, cname: string, toMe: bool): (r: seq<Entry>)
    ensures var per := if toMe && cname in d.handlers then d.handlers[cname] else [];
      var post := if d.anyPost.Some? then d.anyPost.value else [];
      |r| == |per| + |post| && r[..|per|] == per && r[|per|..] == post
    ensures !toMe ==> forall e :: e in r ==> d.anyPost.Some? && e in d.anyPost.value
  {
    var per := if toMe && cname in d.handlers then d.handlers[cname] else [];
    var post := if d.anyPost.Some? then d.anyPost.value else [];
    per + post
  }

  /** The vector with every entry carrying id removed (erase / remove_if). */
  function RemoveId(es: seq<Entry>, id: Id): (r: seq<Entry>)
    ensures forall e :: e in r <==> e in es && e.id != id
    ensures |r| <= |es|
  {
    if |es| == 0 then []
    else if es[0].id == id then RemoveId(es[1..], id)
    else [es[0]] + RemoveId(es[1..], id)
  }

  /** Removal works piecewise: splitting the vector anywhere and removing from each part gives the same result, so the order of the kept entries is preserved. */
  lemma {:induction false} RemoveIdAppend(a: seq<Entry>, b: seq<Entry>, id: Id)
    ensures RemoveId(a + b, id) == RemoveId(a, id) + RemoveId(b, id)
  {
    if |a| == 0 {
      assert a + b == b;
    } else {
      assert (a + b)[0] == a[0];
      assert (a + b)[1..] == a[1..] + b;
      RemoveIdAppend(a[1..], b, id);
    }
  }

  lemma RemoveIdSingle(e: Entry, id: Id)
    ensures RemoveId([e], id) == if e.id == id then [] else [e]
  {
  }

  /** Removing an id that is not present changes nothing. */
  lemma {:induction false} RemoveAbsentId(es: seq<Entry>, id: Id)
    requires forall e :: e in es ==> e.id != id
    ensures RemoveId(es, id) == es
  {
    if |es| > 0 {
      assert es[0] in es;
      assert forall e :: e in es[1..] ==> e in es;
      RemoveAbsentId(es[1..], id);
    }
  }

  /**
   * The disconnect action. None stands for a dispatcher that no longer
   * exists (the weak pointer did not lock): nothing happens. An absent cname
   * or catch-all vector is left alone; a vector left empty is erased from
   * the map or reset.
   */
  function Disconnect(d: Option<Dispatcher>, cname: string, id: Id, bucket: Bucket): (r: Option<Dispatcher>)
    ensures d.None? <==> r.None?
    ensures r.Some? && bucket == Cname ==> r.value.anyPost == d.value.anyPost
    ensures r.Some? && bucket == Cname ==> forall c :: c != cname ==> (c in r.value.handlers <==> c in d.value.handlers)
    ensures r.Some? && bucket == Cname ==> forall c :: c != cname && c in r.value.handlers ==> r.value.handlers[c] == d.value.handlers[c]
    ensures r.Some? && bucket == Cname && cname !in d.value.handlers ==> r == d
    ensures r.Some? && bucket == Cname && cname in d.value.handlers ==>
      var kept := RemoveId(d.value.handlers[cname], id);
      if kept == [] then cname !in r.value.handlers else cname in r.value.handlers && r.value.handlers[cname] == kept
    ensures r.Some? && bucket == AnyPost ==> r.value.handlers == d.value.handlers
    ensures r.Some? && bucket == AnyPost && d.value.anyPost.None? ==> r == d
    ensures r.Some? && bucket == AnyPost && d.value.anyPost.Some? ==>
      var kept := RemoveId(d.value.anyPost.value, id);
      r.value.anyPost == if kept == [] then None else Some(kept)
  {
    match d
    case None => None
    case Some(self) =>
      match bucket
      case Cname =>
        if cname !in self.handlers then d
        else
          var newhv := RemoveId(self.handlers[cname], id);
          if newhv == [] then Some(self.(handlers := self.handlers - {cname}))
          else Some(self.(handlers := self.handlers[cname := newhv]))
      case AnyPost =>
        if self.anyPost.None? then d
        else
          var newhv := RemoveId(self.anyPost.value, id);
          if newhv == [] then Some(self.(anyPost := None))
          else Some(self.(anyPost := Some(newhv)))
  }

  /** Disconnect never leaves an empty vector installed. */
  lemma DisconnectKeepsNoEmptyBuckets(d: Dispatcher, cname: string, id: Id, bucket: Bucket)
    requires NoEmptyBuckets(d)
    ensures NoEmptyBuckets(Disconnect(Some(d), cname, id, bucket).value)
  {
  }

  /** After disconnecting id from a cname, dispatching that cname runs the same handlers except those with that id. */
  lemma DispatchAfterCnameDisconnect(d: Dispatcher, cname: string, id: Id, toMe: bool)
    ensures var d' := Disconnect(Some(d), cname, id, Cname).value;
      var per := if toMe && cname in d.handlers then d.handlers[cname] else [];
      var post := if d.anyPost.Some? then d.anyPost.value else [];
      Dispatch(d', cname, toMe) == RemoveId(per, id) + post
  {
    var per := if toMe && cname in d.handlers then d.handlers[cname] else [];
    if !(toMe && cname in d.handlers) {
      assert RemoveId(per, id) == [];
    }
  }

  /** After disconnecting id from the catch-all vector, every dispatch runs the same handlers except the catch-alls with that id. */
  lemma DispatchAfterAnyPostDisconnect(d: Dispatcher, cname: string, id: Id, toMe: bool)
    ensures var d' := Disconnect(Some(d), cname, id, AnyPost).value;
      var per := if toMe && cname in d.handlers then d.handlers[cname] else [];
      var post := if d.anyPost.Some? then d.anyPost.value else [];
      Dispatch(d', cname, toMe) == per + RemoveId(post, id)
  {
    var post := if d.anyPost.Some? then d.anyPost.value else [];
    if d.anyPost.None? {
      assert RemoveId(post, id) == [];
    }
  }

  /** Disconnecting the same id twice is the same as once. */
  lemma DisconnectIdempotent(d: Dispatcher, cname: string, id: Id, bucket: Bucket)
    ensures var once := Disconnect(Some(d), cname, id, bucket);
      Disconnect(once, cname, id, bucket) == once
  {
    var once := Disconnect(Some(d), cname, id, bucket).value;
    if bucket == Cname && cname in once.handlers {
      RemoveAbsentId(once.handlers[cname], id);
      assert once.handlers[cname := once.handlers[cname]] == once.handlers;
    }
    if bucket == AnyPost && once.anyPost.Some? {
      RemoveAbsentId(once.anyPost.value, id);
    }
  }
}
