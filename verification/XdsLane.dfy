/**
 One type of a delta xDS stream: the server's record of the client, the queued
 requests and responses, and the resources the client really holds.
 */
module XdsLane {
  import opened Options
  import opened XdsManager

  /**
   `queued` says that the stream loop still has to compute a response for the
   type. `nacked` remembers whether the client ever rejected a response, and
   `missing` the names it unsubscribed from and has not been sent again since.
   */
  datatype Lane = Lane(
    started: bool,
    state: Option<StreamState>,
    queued: bool,
    requests: seq<Request>,
    responses: seq<Response>,
    held: Versions,
    nacked: bool,
    missing: set<string>)

  // --- Steps ---

  /** The first request of a type reports what the client already has. */
  function Start(l: Lane, subscribe: set<string>): Lane {
    l.(started := true, requests := l.requests + [Request(0, false, l.held, subscribe, {})])
  }

  function Send(l: Lane, subscribe: set<string>, unsubscribe: set<string>): Lane {
    l.(held := l.held - unsubscribe,
       requests := l.requests + [Request(0, false, map[], subscribe, unsubscribe)],
       missing := l.missing + unsubscribe)
  }

  /** Every name a response sets or removes. */
  function Names(d: Delta): set<string> {
    d.removed + VersionsOf(d.resources).Keys
  }

  /** The client applies the next response and acknowledges it. */
  function Accept(l: Lane, subscribe: set<string>, unsubscribe: set<string>): Lane
    requires l.responses != []
  {
    var r := l.responses[0];
    l.(held := ApplyDelta(l.held, r.delta) - unsubscribe,
       responses := l.responses[1..],
       requests := l.requests + [Request(r.nonce, false, map[], subscribe, unsubscribe)],
       missing := (l.missing - Names(r.delta)) + unsubscribe)
  }

  function Reject(l: Lane): Lane
    requires l.responses != []
  {
    l.(responses := l.responses[1..],
       requests := l.requests + [Request(l.responses[0].nonce, true, map[], {}, {})],
       nacked := true)
  }

  function Take(l: Lane, nonce: Nonce, rs: seq<Resource>): Lane
    requires l.requests != []
  {
    l.(state := Some(HandleRequest(l.state, l.requests[0], nonce, rs)),
       requests := l.requests[1..],
       queued := true)
  }

  function Produce(l: Lane, nonce: Nonce, rs: seq<Resource>): Lane {
    var l' := l.(queued := false);
    if l.state.None? || EmptyDelta(DeltaOf(l.state.value.versions, rs)) then l'
    else l'.(responses := l.responses + [Response(nonce, DeltaOf(l.state.value.versions, rs))])
  }

  // --- Invariants ---

  predicate Good(rs: seq<Resource>) {
    UniqueNames(rs) && NonEmptyVersions(rs)
  }

  /** Nothing the server sent is still waiting to be acknowledged. */
  predicate Quiet(l: Lane) {
    l.responses == [] && forall q :: q in l.requests ==> q.nonce == 0 || q.error
  }

  /** What the server has recorded, or will record from the first request. */
  function Base(l: Lane): Versions {
    if l.state.Some? then l.state.value.versions
    else if l.requests != [] then l.requests[0].initial
    else l.held
  }

  ghost predicate AckPending(l: Lane, nonce: Nonce) {
    exists i :: 0 <= i < |l.requests| && IsAck(l.requests[i], nonce)
  }

  ghost predicate Shape(l: Lane, nonce: Nonce) {
    && nonce != 0
    && (l.started <==> l.state.Some? || l.requests != [])
    && (l.state.None? ==> Quiet(l) && (l.requests != [] ==> l.requests[0].unsubscribe == {}))
    && (l.state.None? ==> forall i :: 0 <= i < |l.requests| ==> l.requests[i].nonce == 0)
    && (forall i :: 0 <= i < |l.responses| ==> l.responses[i].nonce == nonce)
    && (forall i :: 0 <= i < |l.requests| ==> l.requests[i].nonce == 0 || l.requests[i].nonce == nonce || l.requests[i].error)
  }

  /** A difference still to be announced leaves some work pending. */
  ghost predicate Pending(l: Lane, rs: seq<Resource>, wake: bool) {
    l.state.Some? && l.state.value.versions != VersionsOf(rs) ==>
      l.queued || wake || l.responses != [] || l.requests != []
  }

  ghost predicate Dropping(l: Lane, name: string) {
    exists i :: 0 <= i < |l.requests| && name in l.requests[i].unsubscribe
  }

  ghost predicate AckAfter(l: Lane, nonce: Nonce, i: int) {
    exists j :: 0 <= j < |l.requests| && i < j && IsAck(l.requests[j], nonce)
  }

  /** Every response under way moves the names it mentions to the current snapshot. */
  ghost predicate OnTarget(l: Lane, rs: seq<Resource>) {
    forall i, name :: 0 <= i < |l.responses| && Mentions(l.responses[i].delta, name) ==>
      Lookup(VersionsOf(l.responses[i].delta.resources), name) == Lookup(VersionsOf(rs), name)
  }

  /**
   A name that is not missing is at the snapshot once an acknowledgement is under
   way and as recorded before that; responses that skip it find it at the snapshot.
   */
  ghost predicate Kept(l: Lane, nonce: Nonce, rs: seq<Resource>, name: string) {
    && Lookup(l.held, name) == Lookup(if AckPending(l, nonce) then VersionsOf(rs) else Base(l), name)
    && (forall i :: 0 <= i < |l.responses| && !Mentions(l.responses[i].delta, name) ==>
          Lookup(l.held, name) == Lookup(VersionsOf(rs), name))
    && (forall i :: 0 <= i < |l.requests| && name in l.requests[i].unsubscribe ==> AckAfter(l, nonce, i))
  }

  ghost predicate Carried(l: Lane, name: string) {
    exists i :: 0 <= i < |l.responses| && Mentions(l.responses[i].delta, name)
  }

  /** A missing name comes back, unless the client rejects: the server knows or will know that it is gone. */
  ghost predicate Recovering(l: Lane, rs: seq<Resource>, name: string) {
    || Dropping(l, name)
    || (if Quiet(l) then name !in Base(l)
        else
          || Carried(l, name)
          || name !in VersionsOf(rs)
          || (l.queued && Lookup(Base(l), name) != Lookup(VersionsOf(rs), name)))
  }

  ghost predicate NoErrors(l: Lane) {
    forall i :: 0 <= i < |l.requests| ==> !l.requests[i].error
  }

  ghost predicate LaneInv(l: Lane, nonce: Nonce, rs: seq<Resource>, wake: bool) {
    && Shape(l, nonce)
    && Pending(l, rs, wake)
    && OnTarget(l, rs)
    && l.missing !! l.held.Keys
    && (forall name :: name !in l.missing ==> Kept(l, nonce, rs, name))
    && (!l.nacked ==> NoErrors(l) && forall name :: name in l.missing ==> Recovering(l, rs, name))
  }

  // --- Queues ---

  /** Queueing a request adds its unsubscribes and its acknowledgement to the pending ones. */
  lemma RequestsGrow(l: Lane, l': Lane, nonce: Nonce, q: Request)
    requires l'.requests == l.requests + [q]
    ensures forall name :: Dropping(l', name) <==> Dropping(l, name) || name in q.unsubscribe
    ensures AckPending(l', nonce) <==> AckPending(l, nonce) || IsAck(q, nonce)
    ensures forall i :: 0 <= i < |l.requests| ==> (AckAfter(l', nonce, i) <==> AckAfter(l, nonce, i) || IsAck(q, nonce))
  {
    var n := |l.requests|;
    assert l'.requests[n] == q;
    assert forall i :: 0 <= i < n ==> l'.requests[i] == l.requests[i];
    forall name
      ensures Dropping(l', name) <==> Dropping(l, name) || name in q.unsubscribe
    {
      if Dropping(l, name) {
        var i :| 0 <= i < n && name in l.requests[i].unsubscribe;
        assert name in l'.requests[i].unsubscribe;
      }
    }
    if AckPending(l, nonce) {
      var i :| 0 <= i < n && IsAck(l.requests[i], nonce);
      assert IsAck(l'.requests[i], nonce);
    }
    forall i | 0 <= i < n
      ensures AckAfter(l', nonce, i) <==> AckAfter(l, nonce, i) || IsAck(q, nonce)
    {
      if AckAfter(l, nonce, i) {
        var j :| 0 <= j < n && i < j && IsAck(l.requests[j], nonce);
        assert IsAck(l'.requests[j], nonce);
      }
    }
  }

  /** Handling the first request removes its unsubscribes and its acknowledgement. */
  lemma RequestsShrink(l: Lane, l': Lane, nonce: Nonce)
    requires l.requests != [] && l'.requests == l.requests[1..]
    ensures forall name :: Dropping(l, name) <==> Dropping(l', name) || name in l.requests[0].unsubscribe
    ensures AckPending(l, nonce) <==> AckPending(l', nonce) || IsAck(l.requests[0], nonce)
    ensures forall i :: 0 <= i < |l'.requests| ==> (AckAfter(l', nonce, i) <==> AckAfter(l, nonce, i + 1))
    ensures AckAfter(l, nonce, 0) <==> AckPending(l', nonce)
  {
    var n := |l'.requests|;
    assert forall i :: 0 <= i < n ==> l'.requests[i] == l.requests[i + 1];
    forall name
      ensures Dropping(l, name) <==> Dropping(l', name) || name in l.requests[0].unsubscribe
    {
      if Dropping(l, name) && name !in l.requests[0].unsubscribe {
        var i :| 0 <= i < |l.requests| && name in l.requests[i].unsubscribe;
        assert name in l'.requests[i - 1].unsubscribe;
      }
    }
    if AckPending(l, nonce) && !IsAck(l.requests[0], nonce) {
      var i :| 0 <= i < |l.requests| && IsAck(l.requests[i], nonce);
      assert IsAck(l'.requests[i - 1], nonce);
    }
    if AckAfter(l, nonce, 0) {
      var j :| 0 <= j < |l.requests| && 0 < j && IsAck(l.requests[j], nonce);
      assert IsAck(l'.requests[j - 1], nonce);
    }
    forall i | 0 <= i < n
      ensures AckAfter(l', nonce, i) <==> AckAfter(l, nonce, i + 1)
    {
      if AckAfter(l, nonce, i + 1) {
        var j :| 0 <= j < |l.requests| && i + 1 < j && IsAck(l.requests[j], nonce);
        assert IsAck(l'.requests[j - 1], nonce);
      }
    }
  }

  lemma ResponsesShrink(l: Lane, l': Lane)
    requires l.responses != [] && l'.responses == l.responses[1..]
    ensures forall name :: Carried(l, name) <==> Carried(l', name) || Mentions(l.responses[0].delta, name)
  {
    forall name
      ensures Carried(l, name) <==> Carried(l', name) || Mentions(l.responses[0].delta, name)
    {
      if Carried(l, name) && !Mentions(l.responses[0].delta, name) {
        var i :| 0 <= i < |l.responses| && Mentions(l.responses[i].delta, name);
        assert Mentions(l'.responses[i - 1].delta, name);
      }
    }
  }

  lemma ResponsesGrow(l: Lane, l': Lane, r: Response)
    requires l'.responses == l.responses + [r]
    ensures forall name :: Carried(l', name) <==> Carried(l, name) || Mentions(r.delta, name)
  {
    assert l'.responses[|l.responses|] == r;
    forall name | Carried(l, name)
      ensures Carried(l', name)
    {
      var i :| 0 <= i < |l.responses| && Mentions(l.responses[i].delta, name);
      assert Mentions(l'.responses[i].delta, name);
    }
  }

  // --- Preservation ---

  lemma StartKeeps(l: Lane, nonce: Nonce, rs: seq<Resource>, wake: bool, subscribe: set<string>)
    requires LaneInv(l, nonce, rs, wake) && !l.started
    ensures LaneInv(Start(l, subscribe), nonce, rs, wake)
  {
  }

  lemma SendKeeps(l: Lane, nonce: Nonce, rs: seq<Resource>, wake: bool, subscribe: set<string>, unsubscribe: set<string>)
    requires LaneInv(l, nonce, rs, wake) && l.started
    ensures LaneInv(Send(l, subscribe, unsubscribe), nonce, rs, wake)
  {
    var l' := Send(l, subscribe, unsubscribe);
    var q := l'.requests[|l.requests|];
    RequestsGrow(l, l', nonce, q);
    assert Base(l') == Base(l);
    assert Quiet(l) <==> Quiet(l') by {
      assert forall p :: p in l'.requests <==> p in l.requests || p == q;
    }
    forall name | name !in l'.missing
      ensures Kept(l', nonce, rs, name)
    {
      assert Kept(l, nonce, rs, name);
    }
    forall name | !l'.nacked && name in l'.missing
      ensures Recovering(l', rs, name)
    {
      assert name in l.missing ==> Recovering(l, rs, name);
      assert Carried(l', name) <==> Carried(l, name);
    }
  }

  lemma AcceptKeepsName(l: Lane, nonce: Nonce, rs: seq<Resource>, wake: bool, subscribe: set<string>,
                        unsubscribe: set<string>, name: string)
    requires LaneInv(l, nonce, rs, wake) && l.responses != []
    requires name !in Accept(l, subscribe, unsubscribe).missing
    ensures Kept(Accept(l, subscribe, unsubscribe), nonce, rs, name)
  {
    var l' := Accept(l, subscribe, unsubscribe);
    var r := l.responses[0];
    RequestsGrow(l, l', nonce, l'.requests[|l.requests|]);
    if Mentions(r.delta, name) {
      assert Lookup(l'.held, name) == Lookup(VersionsOf(r.delta.resources), name);
    } else {
      assert Kept(l, nonce, rs, name);
    }
  }

  lemma AcceptKeeps(l: Lane, nonce: Nonce, rs: seq<Resource>, wake: bool, subscribe: set<string>, unsubscribe: set<string>)
    requires LaneInv(l, nonce, rs, wake) && l.responses != []
    ensures LaneInv(Accept(l, subscribe, unsubscribe), nonce, rs, wake)
  {
    var l' := Accept(l, subscribe, unsubscribe);
    RequestsGrow(l, l', nonce, l'.requests[|l.requests|]);
    ResponsesShrink(l, l');
    assert IsAck(l'.requests[|l.requests|], nonce) && !Quiet(l') && !Quiet(l);
    assert Base(l') == Base(l);
    forall name | name !in l'.missing
      ensures Kept(l', nonce, rs, name)
    {
      AcceptKeepsName(l, nonce, rs, wake, subscribe, unsubscribe, name);
    }
    forall name | !l'.nacked && name in l'.missing
      ensures Recovering(l', rs, name)
    {
      assert name in l.missing ==> Recovering(l, rs, name);
    }
  }

  lemma RejectKeeps(l: Lane, nonce: Nonce, rs: seq<Resource>, wake: bool)
    requires LaneInv(l, nonce, rs, wake) && l.responses != []
    ensures LaneInv(Reject(l), nonce, rs, wake)
  {
    var l' := Reject(l);
    RequestsGrow(l, l', nonce, l'.requests[|l.requests|]);
    forall name | name !in l'.missing
      ensures Kept(l', nonce, rs, name)
    {
      assert Kept(l, nonce, rs, name);
    }
  }

  lemma TakeKeeps(l: Lane, nonce: Nonce, rs: seq<Resource>, wake: bool)
    requires LaneInv(l, nonce, rs, wake) && l.requests != [] && !l.queued
    ensures LaneInv(Take(l, nonce, rs), nonce, rs, wake)
  {
    var l', q := Take(l, nonce, rs), l.requests[0];
    RequestsShrink(l, l', nonce);
    assert Base(l') == (if IsAck(q, nonce) then VersionsOf(rs) else Base(l)) - q.unsubscribe;
    forall name | name !in l'.missing
      ensures Kept(l', nonce, rs, name)
    {
      assert Kept(l, nonce, rs, name);
    }
    assert !l.nacked ==> (Quiet(l) <==> Quiet(l') && !IsAck(q, nonce)) by {
      assert forall p :: p in l.requests <==> p == q || p in l'.requests;
    }
    forall name | !l'.nacked && name in l'.missing
      ensures Recovering(l', rs, name)
    {
      assert Recovering(l, rs, name);
      assert Carried(l', name) <==> Carried(l, name);
    }
  }

  /** What a computed delta mentions, against a snapshot without empty versions. */
  lemma DeltaMentions(client: Versions, rs: seq<Resource>, name: string)
    requires Good(rs)
    ensures Mentions(DeltaOf(client, rs), name) <==> Lookup(client, name) != Lookup(VersionsOf(rs), name)
    ensures Mentions(DeltaOf(client, rs), name) ==>
              Lookup(VersionsOf(DeltaOf(client, rs).resources), name) == Lookup(VersionsOf(rs), name)
  {
    DeltaPointwise(client, rs, name);
    VersionsOfMember(rs, name);
  }

  /** Without a difference only the queued flag is cleared. */
  lemma SilentKeeps(l: Lane, nonce: Nonce, rs: seq<Resource>, wake: bool)
    requires LaneInv(l, nonce, rs, wake)
    requires l.state.Some? ==> l.state.value.versions == VersionsOf(rs)
    ensures LaneInv(l.(queued := false), nonce, rs, wake)
  {
    SameQueues(l, l.(queued := false), nonce, rs);
  }

  /** Nothing but the queued flag differs. */
  lemma SameQueues(l: Lane, l': Lane, nonce: Nonce, rs: seq<Resource>)
    requires l' == l.(queued := l'.queued)
    ensures forall name :: Kept(l, nonce, rs, name) <==> Kept(l', nonce, rs, name)
    ensures forall name :: Dropping(l, name) <==> Dropping(l', name)
    ensures forall name :: Carried(l, name) <==> Carried(l', name)
  {
    assert AckPending(l, nonce) <==> AckPending(l', nonce);
    assert forall i :: AckAfter(l, nonce, i) <==> AckAfter(l', nonce, i);
  }

  lemma RespondKeeps(l: Lane, nonce: Nonce, rs: seq<Resource>, wake: bool)
    requires Good(rs) && LaneInv(l, nonce, rs, wake)
    requires l.state.Some? && l.state.value.versions != VersionsOf(rs)
    ensures LaneInv(Produce(l, nonce, rs), nonce, rs, wake)
  {
    var l', d := Produce(l, nonce, rs), DeltaOf(l.state.value.versions, rs);
    SilentIffCurrent(l.state.value.versions, rs);
    ResponsesGrow(l, l', Response(nonce, d));
    assert AckPending(l', nonce) <==> AckPending(l, nonce);
    assert forall i :: AckAfter(l', nonce, i) <==> AckAfter(l, nonce, i);
    forall name
      ensures Mentions(d, name) <==> Lookup(Base(l), name) != Lookup(VersionsOf(rs), name)
      ensures Mentions(d, name) ==> Lookup(VersionsOf(d.resources), name) == Lookup(VersionsOf(rs), name)
    {
      DeltaMentions(l.state.value.versions, rs, name);
    }
    forall name | name !in l'.missing
      ensures Kept(l', nonce, rs, name)
    {
      assert Kept(l, nonce, rs, name);
    }
    forall name | !l'.nacked && name in l'.missing
      ensures Recovering(l', rs, name)
    {
      assert Recovering(l, rs, name);
      assert Dropping(l', name) <==> Dropping(l, name);
    }
  }

  lemma ProduceKeeps(l: Lane, nonce: Nonce, rs: seq<Resource>, wake: bool)
    requires Good(rs) && LaneInv(l, nonce, rs, wake)
    ensures LaneInv(Produce(l, nonce, rs), nonce, rs, wake)
  {
    if l.state.Some? {
      SilentIffCurrent(l.state.value.versions, rs);
    }
    if l.state.Some? && l.state.value.versions != VersionsOf(rs) {
      RespondKeeps(l, nonce, rs, wake);
    } else {
      SilentKeeps(l, nonce, rs, wake);
    }
  }

  /** Being asked for a response is always allowed. */
  lemma QueueKeeps(l: Lane, nonce: Nonce, rs: seq<Resource>, wake: bool, wake': bool)
    requires LaneInv(l, nonce, rs, wake)
    ensures LaneInv(l.(queued := true), nonce, rs, wake')
  {
    SameQueues(l, l.(queued := true), nonce, rs);
  }

  /** A new snapshot may replace the current one while the lane is quiet. */
  lemma InstallKeeps(l: Lane, nonce: Nonce, rs: seq<Resource>, wake: bool, nonce': Nonce, rs': seq<Resource>)
    requires LaneInv(l, nonce, rs, wake) && Quiet(l) && nonce' != 0
    ensures LaneInv(l, nonce', rs', true)
  {
    assert forall i :: 0 <= i < |l.requests| ==> l.requests[i] in l.requests;
    assert !AckPending(l, nonce) && !AckPending(l, nonce');
    assert forall i :: !AckAfter(l, nonce, i);
    forall name | name !in l.missing
      ensures Kept(l, nonce', rs', name)
    {
      assert Kept(l, nonce, rs, name);
    }
    forall name | !l.nacked && name in l.missing
      ensures Recovering(l, rs', name)
    {
      assert Recovering(l, rs, name);
    }
  }

  /**
   At rest the server records exactly the snapshot, and the client holds it except
   for names it unsubscribed from and was not sent again; there are none of those
   in the snapshot if it never rejected.
   */
  lemma RestingLane(l: Lane, nonce: Nonce, rs: seq<Resource>)
    requires Good(rs) && LaneInv(l, nonce, rs, false)
    requires l.started && !l.queued && l.requests == [] && l.responses == []
    ensures l.state.Some? && l.state.value.versions == VersionsOf(rs) && Produce(l, nonce, rs) == l
    ensures l.held == VersionsOf(rs) - l.missing
    ensures !l.nacked ==> l.held == VersionsOf(rs)
  {
    SilentIffCurrent(l.state.value.versions, rs);
    forall name
      ensures Lookup(l.held, name) == Lookup(VersionsOf(rs) - l.missing, name)
    {
      assert name !in l.missing ==> Kept(l, nonce, rs, name);
    }
    SameLookups(l.held, VersionsOf(rs) - l.missing);
    if !l.nacked {
      forall name | name in l.missing
        ensures name !in VersionsOf(rs)
      {
        assert Recovering(l, rs, name);
      }
      assert VersionsOf(rs) - l.missing == VersionsOf(rs);
    }
  }
}
