/**
 Installing a snapshot while responses are under way: for clients that never
 unsubscribe, it does no harm as long as no name under way returns to its
 recorded version.
 */
module XdsFlight {
  import opened Options
  import opened XdsManager
  import opened XdsLane
  import D = DeltaXds

  /** Accepting the response would take the name away from what is recorded. */
  predicate Moves(l: Lane, r: Response, name: string) {
    Mentions(r.delta, name) && Lookup(VersionsOf(r.delta.resources), name) != Lookup(Base(l), name)
  }

  /** The client has, or may come to have, something else than recorded. */
  ghost predicate OffRecord(l: Lane, name: string) {
    || Lookup(l.held, name) != Lookup(Base(l), name)
    || exists i :: 0 <= i < |l.responses| && Moves(l, l.responses[i], name)
  }

  /** The nonce is new, and no name that is off record returns to its recorded version. */
  ghost predicate Harmless(l: Lane, nonce: Nonce, rs: seq<Resource>) {
    && (forall i :: 0 <= i < |l.responses| ==> l.responses[i].nonce != nonce)
    && !AckPending(l, nonce)
    && (forall name :: OffRecord(l, name) ==> Lookup(VersionsOf(rs), name) != Lookup(Base(l), name))
  }

  /** A client that holds what is recorded and has answered everything allows any snapshot. */
  lemma QuietIsHarmless(l: Lane, nonce: Nonce, rs: seq<Resource>)
    requires Quiet(l) && l.held == Base(l)
    ensures Harmless(l, nonce, rs)
  {
    assert forall i :: 0 <= i < |l.requests| ==> l.requests[i] in l.requests;
  }

  // --- The invariant ---

  ghost predicate Ordered(l: Lane, nonce: Nonce) {
    && (forall i, j :: 0 <= i < j < |l.responses| && l.responses[i].nonce == nonce ==> l.responses[j].nonce == nonce)
    && (AckPending(l, nonce) ==> forall i :: 0 <= i < |l.responses| ==> l.responses[i].nonce == nonce)
  }

  ghost predicate Opening(l: Lane, nonce: Nonce) {
    && nonce != 0
    && (l.started <==> l.state.Some? || l.requests != [])
    && (forall i :: 0 <= i < |l.requests| ==> l.requests[i].unsubscribe == {})
    && (l.state.None? ==> l.responses == [] && (l.requests != [] ==> l.requests[0].initial == l.held)
                          && forall i :: 0 <= i < |l.requests| ==> l.requests[i].nonce == 0)
  }

  /** A current response takes the name to the snapshot, or finds everything there already. */
  predicate Arrives(l: Lane, r: Response, rs: seq<Resource>, name: string) {
    var there := Lookup(VersionsOf(rs), name);
    if Mentions(r.delta, name) then Lookup(VersionsOf(r.delta.resources), name) == there
    else Lookup(l.held, name) == there == Lookup(Base(l), name)
  }

  ghost predicate OnCourse(l: Lane, nonce: Nonce, rs: seq<Resource>, name: string) {
    var there, known := Lookup(VersionsOf(rs), name), Lookup(Base(l), name);
    && (if AckPending(l, nonce) then Lookup(l.held, name) == there else Lookup(l.held, name) == known || known != there)
    && (forall i :: 0 <= i < |l.responses| && l.responses[i].nonce == nonce ==> Arrives(l, l.responses[i], rs, name))
    && (forall i :: 0 <= i < |l.responses| && l.responses[i].nonce != nonce && Moves(l, l.responses[i], name) ==>
          known != there)
  }

  ghost predicate FlightInv(l: Lane, nonce: Nonce, rs: seq<Resource>, wake: bool) {
    && Opening(l, nonce) && Ordered(l, nonce) && Pending(l, rs, wake)
    && forall name :: OnCourse(l, nonce, rs, name)
  }

  // --- Preservation ---

  lemma StartFlies(l: Lane, nonce: Nonce, rs: seq<Resource>, wake: bool, subscribe: set<string>)
    requires FlightInv(l, nonce, rs, wake) && !l.started
    ensures FlightInv(Start(l, subscribe), nonce, rs, wake)
  {
    var l' := Start(l, subscribe);
    RequestsGrow(l, l', nonce, l'.requests[|l.requests|]);
    forall name
      ensures OnCourse(l', nonce, rs, name)
    {
      assert OnCourse(l, nonce, rs, name);
    }
  }

  lemma SendFlies(l: Lane, nonce: Nonce, rs: seq<Resource>, wake: bool, subscribe: set<string>)
    requires FlightInv(l, nonce, rs, wake) && l.started
    ensures FlightInv(Send(l, subscribe, {}), nonce, rs, wake)
  {
    var l' := Send(l, subscribe, {});
    RequestsGrow(l, l', nonce, l'.requests[|l.requests|]);
    assert l'.held == l.held && Base(l') == Base(l);
    forall name
      ensures OnCourse(l', nonce, rs, name)
    {
      assert OnCourse(l, nonce, rs, name);
    }
  }

  lemma AcceptName(l: Lane, nonce: Nonce, rs: seq<Resource>, wake: bool, subscribe: set<string>, name: string)
    requires FlightInv(l, nonce, rs, wake) && l.responses != []
    ensures OnCourse(Accept(l, subscribe, {}), nonce, rs, name)
  {
    var l', r := Accept(l, subscribe, {}), l.responses[0];
    RequestsGrow(l, l', nonce, l'.requests[|l.requests|]);
    assert OnCourse(l, nonce, rs, name);
    assert Base(l') == Base(l);
    assert Lookup(l'.held, name)
        == if Mentions(r.delta, name) then Lookup(VersionsOf(r.delta.resources), name) else Lookup(l.held, name);
    assert forall i :: 0 <= i < |l'.responses| ==> l'.responses[i] == l.responses[i + 1];
  }

  lemma AcceptFlies(l: Lane, nonce: Nonce, rs: seq<Resource>, wake: bool, subscribe: set<string>)
    requires FlightInv(l, nonce, rs, wake) && l.responses != []
    ensures FlightInv(Accept(l, subscribe, {}), nonce, rs, wake)
  {
    var l' := Accept(l, subscribe, {});
    RequestsGrow(l, l', nonce, l'.requests[|l.requests|]);
    forall name
      ensures OnCourse(l', nonce, rs, name)
    {
      AcceptName(l, nonce, rs, wake, subscribe, name);
    }
  }

  lemma RejectFlies(l: Lane, nonce: Nonce, rs: seq<Resource>, wake: bool)
    requires FlightInv(l, nonce, rs, wake) && l.responses != []
    ensures FlightInv(Reject(l), nonce, rs, wake)
  {
    var l' := Reject(l);
    RequestsGrow(l, l', nonce, l'.requests[|l.requests|]);
    assert forall i :: 0 <= i < |l'.responses| ==> l'.responses[i] == l.responses[i + 1];
    forall name
      ensures OnCourse(l', nonce, rs, name)
    {
      assert OnCourse(l, nonce, rs, name);
    }
  }

  lemma TakeFlies(l: Lane, nonce: Nonce, rs: seq<Resource>, wake: bool)
    requires FlightInv(l, nonce, rs, wake) && l.requests != []
    ensures FlightInv(Take(l, nonce, rs), nonce, rs, wake)
  {
    var l', q := Take(l, nonce, rs), l.requests[0];
    RequestsShrink(l, l', nonce);
    assert Base(l') == if IsAck(q, nonce) then VersionsOf(rs) else Base(l);
    forall name
      ensures OnCourse(l', nonce, rs, name)
    {
      assert OnCourse(l, nonce, rs, name);
    }
  }

  lemma RespondName(l: Lane, nonce: Nonce, rs: seq<Resource>, l': Lane, r: Response, name: string)
    requires Good(rs) && OnCourse(l, nonce, rs, name) && l.state.Some?
    requires r == Response(nonce, DeltaOf(l.state.value.versions, rs))
    requires l' == l.(queued := false, responses := l.responses + [r])
    ensures OnCourse(l', nonce, rs, name)
  {
    DeltaMentions(l.state.value.versions, rs, name);
    assert AckPending(l', nonce) <==> AckPending(l, nonce);
    assert forall i :: 0 <= i < |l.responses| ==> l'.responses[i] == l.responses[i];
    assert Arrives(l', r, rs, name);
  }

  lemma RespondFlies(l: Lane, nonce: Nonce, rs: seq<Resource>, wake: bool)
    requires Good(rs) && FlightInv(l, nonce, rs, wake)
    requires l.state.Some? && l.state.value.versions != VersionsOf(rs)
    ensures FlightInv(Produce(l, nonce, rs), nonce, rs, wake)
  {
    var l', r := Produce(l, nonce, rs), Response(nonce, DeltaOf(l.state.value.versions, rs));
    SilentIffCurrent(l.state.value.versions, rs);
    assert AckPending(l', nonce) <==> AckPending(l, nonce);
    forall name
      ensures OnCourse(l', nonce, rs, name)
    {
      RespondName(l, nonce, rs, l', r, name);
    }
  }

  lemma QueuedFlies(l: Lane, nonce: Nonce, rs: seq<Resource>, wake: bool, l': Lane, wake': bool)
    requires FlightInv(l, nonce, rs, wake) && l' == l.(queued := l'.queued) && Pending(l', rs, wake')
    ensures FlightInv(l', nonce, rs, wake')
  {
    assert AckPending(l', nonce) <==> AckPending(l, nonce);
    forall name
      ensures OnCourse(l', nonce, rs, name)
    {
      assert OnCourse(l, nonce, rs, name);
    }
  }

  lemma ProduceFlies(l: Lane, nonce: Nonce, rs: seq<Resource>, wake: bool)
    requires Good(rs) && FlightInv(l, nonce, rs, wake)
    ensures FlightInv(Produce(l, nonce, rs), nonce, rs, wake)
  {
    if l.state.Some? && l.state.value.versions != VersionsOf(rs) {
      RespondFlies(l, nonce, rs, wake);
    } else {
      if l.state.Some? {
        SilentIffCurrent(l.state.value.versions, rs);
      }
      QueuedFlies(l, nonce, rs, wake, l.(queued := false), wake);
    }
  }

  lemma InstallFlies(l: Lane, nonce: Nonce, rs: seq<Resource>, wake: bool, nonce': Nonce, rs': seq<Resource>)
    requires FlightInv(l, nonce, rs, wake) && nonce' != 0 && Harmless(l, nonce', rs')
    ensures FlightInv(l, nonce', rs', true)
  {
    forall name
      ensures OnCourse(l, nonce', rs', name)
    {
      assert OffRecord(l, name) ==> Lookup(VersionsOf(rs'), name) != Lookup(Base(l), name);
    }
  }

  // --- Whole runs, one type at a time ---

  /** Every install is good and harmless for the type. */
  ghost predicate HarmlessRun(sys: D.System, steps: seq<D.Step>, t: string)
    requires D.Legal(sys, steps)
    decreases steps
  {
    steps == [] ||
    (&& (steps[0].Install? && t in sys.lanes ==>
           && D.GoodResources({t}, steps[0].resources)
           && Harmless(sys.lanes[t], steps[0].nonce, ResourcesOf(steps[0].resources, t)))
     && HarmlessRun(D.Perform(sys, steps[0]), steps[1..], t))
  }

  ghost predicate Inv(sys: D.System, t: string) {
    && t in sys.lanes && D.GoodResources({t}, sys.resources)
    && FlightInv(sys.lanes[t], sys.nonce, ResourcesOf(sys.resources, t), D.Wake(sys))
  }

  lemma LaneStepFlies(sys: D.System, step: D.Step, t: string)
    requires Inv(sys, t) && D.Enabled(sys, step) && !step.Install? && !step.Broadcast? && !step.TakeSignal?
    requires step.typeURL == t && D.NoUnsubscribes([step])
    ensures FlightInv(D.LaneStep(sys, step), sys.nonce, ResourcesOf(sys.resources, t), D.Wake(sys))
  {
    var l, rs := sys.lanes[t], ResourcesOf(sys.resources, t);
    assert [step][0] == step;
    match step {
      case Start(_, subscribe) => StartFlies(l, sys.nonce, rs, D.Wake(sys), subscribe);
      case Send(_, subscribe, _) => SendFlies(l, sys.nonce, rs, D.Wake(sys), subscribe);
      case Accept(_, subscribe, _) => AcceptFlies(l, sys.nonce, rs, D.Wake(sys), subscribe);
      case Reject(_) => RejectFlies(l, sys.nonce, rs, D.Wake(sys));
      case Take(_) => TakeFlies(l, sys.nonce, rs, D.Wake(sys));
      case Produce(_) => ProduceFlies(l, sys.nonce, rs, D.Wake(sys));
    }
  }

  lemma StepFlies(sys: D.System, step: D.Step, t: string)
    requires Inv(sys, t) && D.Enabled(sys, step) && D.NoUnsubscribes([step])
    requires step.Install? ==>
               && D.GoodResources({t}, step.resources)
               && Harmless(sys.lanes[t], step.nonce, ResourcesOf(step.resources, t))
    ensures Inv(D.Perform(sys, step), t)
  {
    var l, rs := sys.lanes[t], ResourcesOf(sys.resources, t);
    match step {
      case Install(nonce, resources) => InstallFlies(l, sys.nonce, rs, D.Wake(sys), nonce, ResourcesOf(resources, t));
      case TakeSignal => QueuedFlies(l, sys.nonce, rs, D.Wake(sys), l.(queued := true), D.Wake(D.Perform(sys, step)));
      case Broadcast =>
      case _ =>
        if step.typeURL == t {
          LaneStepFlies(sys, step, t);
        }
    }
  }

  lemma {:induction false} RunFlies(sys: D.System, steps: seq<D.Step>, t: string)
    requires Inv(sys, t) && D.Legal(sys, steps) && HarmlessRun(sys, steps, t) && D.NoUnsubscribes(steps)
    ensures Inv(D.Execute(sys, steps), t)
    decreases steps
  {
    if steps != [] {
      StepFlies(sys, steps[0], t);
      RunFlies(D.Perform(sys, steps[0]), steps[1..], t);
    }
  }

  /** Nothing of the type is pending, whatever other types do. */
  predicate LaneRests(sys: D.System, t: string)
    requires t in sys.lanes
  {
    var l := sys.lanes[t];
    !D.Wake(sys) && l.started && !l.queued && l.requests == [] && l.responses == []
  }

  lemma RestAgrees(sys: D.System, t: string)
    requires Inv(sys, t) && LaneRests(sys, t)
    ensures D.InAgreement(sys, t)
  {
    var l, rs := sys.lanes[t], ResourcesOf(sys.resources, t);
    assert t in {t} && Good(rs);
    SilentIffCurrent(l.state.value.versions, rs);
    forall name
      ensures Lookup(l.held, name) == Lookup(VersionsOf(rs), name)
    {
      assert OnCourse(l, sys.nonce, rs, name);
    }
    SameLookups(l.held, VersionsOf(rs));
  }

  /**
   Main result: without unsubscribes, a type at rest agrees in every run whose
   installs are harmless for it, rejected responses or not.
   */
  lemma AgreesInFlight(nonce: Nonce, resources: Resources, held: map<string, Versions>, steps: seq<D.Step>, t: string)
    requires nonce != 0 && t in held && D.GoodResources({t}, resources)
    requires var s := D.Initial(nonce, resources, held);
             D.Legal(s, steps) && HarmlessRun(s, steps, t) && D.NoUnsubscribes(steps)
    requires var s' := D.Execute(D.Initial(nonce, resources, held), steps); t in s'.lanes && LaneRests(s', t)
    ensures D.InAgreement(D.Execute(D.Initial(nonce, resources, held), steps), t)
  {
    var s := D.Initial(nonce, resources, held);
    RunFlies(s, steps, t);
    RestAgrees(D.Execute(s, steps), t);
  }

  // --- The condition is exact ---

  predicate NoInstalls(steps: seq<D.Step>) {
    forall i :: 0 <= i < |steps| ==> !steps[i].Install?
  }

  /** Without further installs and unsubscribes, the type can come to rest out of agreement. */
  ghost predicate CanDiverge(sys: D.System, t: string) {
    exists steps :: D.Legal(sys, steps) && NoInstalls(steps) && D.NoUnsubscribes(steps) && RestsApart(D.Execute(sys, steps), t)
  }

  ghost predicate RestsApart(sys: D.System, t: string) {
    t in sys.lanes && LaneRests(sys, t) && !D.InAgreement(sys, t)
  }

  lemma DivergesAfter(sys: D.System, step: D.Step, t: string)
    requires D.Enabled(sys, step) && !step.Install? && D.NoUnsubscribes([step]) && CanDiverge(D.Perform(sys, step), t)
    ensures CanDiverge(sys, t)
  {
    var sys' := D.Perform(sys, step);
    var rest :| D.Legal(sys', rest) && NoInstalls(rest) && D.NoUnsubscribes(rest) && RestsApart(D.Execute(sys', rest), t);
    var steps := [step] + rest;
    assert steps[1..] == rest && [step][0] == step;
    assert D.Legal(sys, steps) && NoInstalls(steps) && D.NoUnsubscribes(steps);
    assert RestsApart(D.Execute(sys, steps), t);
  }

  /** What the construction of a run relies on. */
  ghost predicate Workable(sys: D.System, t: string) {
    && t in sys.lanes && D.GoodResources({t}, sys.resources) && t in sys.resources && sys.nonce != 0
    && sys.lanes[t].started
    && forall i :: 0 <= i < |sys.lanes[t].requests| ==> sys.lanes[t].requests[i].unsubscribe == {}
  }

  /** The record says the name is where the snapshot has it, and the client has something else. */
  ghost predicate Astray(sys: D.System, t: string, name: string) {
    && Workable(sys, t) && sys.lanes[t].state.Some?
    && var known := Lookup(Base(sys.lanes[t]), name);
       known == Lookup(VersionsOf(sys.resources[t]), name) && known != Lookup(sys.lanes[t].held, name)
  }

  predicate NoneMention(l: Lane, name: string) {
    forall i :: 0 <= i < |l.responses| ==> !Mentions(l.responses[i].delta, name)
  }

  /** All that is left are acknowledgements of the current snapshot. */
  lemma {:induction false} AckedDiverges(sys: D.System, t: string, name: string)
    requires Astray(sys, t, name) && !D.Wake(sys) && sys.lanes[t].responses == []
    requires forall i :: 0 <= i < |sys.lanes[t].requests| ==> IsAck(sys.lanes[t].requests[i], sys.nonce)
    requires sys.lanes[t].queued ==> Base(sys.lanes[t]) == VersionsOf(sys.resources[t])
    ensures CanDiverge(sys, t)
    decreases |sys.lanes[t].requests|, sys.lanes[t].queued
  {
    var l := sys.lanes[t];
    if l.queued {
      assert t in {t};
      SilentIffCurrent(Base(l), sys.resources[t]);
      AckedDiverges(D.Perform(sys, D.Produce(t)), t, name);
      DivergesAfter(sys, D.Produce(t), t);
    } else if l.requests != [] {
      var sys' := D.Perform(sys, D.Take(t));
      assert Base(sys'.lanes[t]) == VersionsOf(sys.resources[t]);
      AckedDiverges(sys', t, name);
      DivergesAfter(sys, D.Take(t), t);
    } else {
      assert D.Execute(sys, []) == sys && RestsApart(sys, t);
    }
  }

  /** Responses that do not mention the name are accepted. */
  lemma {:induction false} AcceptedDiverges(sys: D.System, t: string, name: string)
    requires Astray(sys, t, name) && !D.Wake(sys) && !sys.lanes[t].queued && NoneMention(sys.lanes[t], name)
    requires forall i :: 0 <= i < |sys.lanes[t].requests| ==> IsAck(sys.lanes[t].requests[i], sys.nonce)
    requires forall i :: 0 <= i < |sys.lanes[t].responses| ==> sys.lanes[t].responses[i].nonce == sys.nonce
    ensures CanDiverge(sys, t)
    decreases |sys.lanes[t].responses|
  {
    if sys.lanes[t].responses == [] {
      AckedDiverges(sys, t, name);
    } else {
      AcceptedDiverges(D.Perform(sys, D.Accept(t, {}, {})), t, name);
      DivergesAfter(sys, D.Accept(t, {}, {}), t);
    }
  }

  /** The server handles all requests; what it sends does not mention the name. */
  lemma {:induction false} HandledDiverges(sys: D.System, t: string, name: string)
    requires Astray(sys, t, name) && !D.Wake(sys) && NoneMention(sys.lanes[t], name)
    requires forall i :: 0 <= i < |sys.lanes[t].responses| ==> sys.lanes[t].responses[i].nonce == sys.nonce
    ensures CanDiverge(sys, t)
    decreases |sys.lanes[t].requests|, sys.lanes[t].queued
  {
    var l := sys.lanes[t];
    if l.queued {
      assert t in {t};
      DeltaMentions(Base(l), sys.resources[t], name);
      HandledDiverges(D.Perform(sys, D.Produce(t)), t, name);
      DivergesAfter(sys, D.Produce(t), t);
    } else if l.requests != [] {
      HandledDiverges(D.Perform(sys, D.Take(t)), t, name);
      DivergesAfter(sys, D.Take(t), t);
    } else {
      AcceptedDiverges(sys, t, name);
    }
  }

  /** Broadcasts and the signal pass first. */
  lemma {:induction false} WokenDiverges(sys: D.System, t: string, name: string)
    requires Astray(sys, t, name) && sys.lanes[t].responses == []
    ensures CanDiverge(sys, t)
    decreases sys.owed, sys.signalled
  {
    if sys.owed > 0 {
      WokenDiverges(D.Perform(sys, D.Broadcast), t, name);
      DivergesAfter(sys, D.Broadcast, t);
    } else if sys.signalled {
      WokenDiverges(D.Perform(sys, D.TakeSignal), t, name);
      DivergesAfter(sys, D.TakeSignal, t);
    } else {
      HandledDiverges(sys, t, name);
    }
  }

  /** A client that has gone astray rejects what is under way. */
  lemma {:induction false} AstrayDiverges(sys: D.System, t: string, name: string)
    requires Astray(sys, t, name)
    ensures CanDiverge(sys, t)
    decreases |sys.lanes[t].responses|
  {
    if sys.lanes[t].responses == [] {
      WokenDiverges(sys, t, name);
    } else {
      AstrayDiverges(D.Perform(sys, D.Reject(t)), t, name);
      DivergesAfter(sys, D.Reject(t), t);
    }
  }

  /** Accepting the next response keeps a later one that moves the name, or moves it now. */
  lemma AcceptMoves(l: Lane, name: string)
    requires l.responses != [] && l.state.Some? && OffRecord(l, name) && Lookup(l.held, name) == Lookup(Base(l), name)
    ensures OffRecord(Accept(l, {}, {}), name) && Base(Accept(l, {}, {})) == Base(l)
  {
    var l' := Accept(l, {}, {});
    var i :| 0 <= i < |l.responses| && Moves(l, l.responses[i], name);
    if i > 0 {
      assert l'.responses[i - 1] == l.responses[i] && Moves(l', l'.responses[i - 1], name);
    }
  }

  /** A client that can go astray accepts until it has. */
  lemma {:induction false} OffRecordDiverges(sys: D.System, t: string, name: string)
    requires Workable(sys, t) && sys.lanes[t].state.Some? && OffRecord(sys.lanes[t], name)
    requires Lookup(Base(sys.lanes[t]), name) == Lookup(VersionsOf(sys.resources[t]), name)
    ensures CanDiverge(sys, t)
    decreases |sys.lanes[t].responses|
  {
    var l := sys.lanes[t];
    if Lookup(l.held, name) != Lookup(Base(l), name) {
      AstrayDiverges(sys, t, name);
    } else {
      AcceptMoves(l, name);
      OffRecordDiverges(D.Perform(sys, D.Accept(t, {}, {})), t, name);
      DivergesAfter(sys, D.Accept(t, {}, {}), t);
    }
  }

  /**
   Installing a snapshot under a new nonce is harmless for a type exactly when the
   type cannot come to rest out of agreement afterwards.
   */
  lemma HarmlessExactly(sys: D.System, nonce: Nonce, resources: Resources, t: string)
    requires Inv(sys, t) && nonce != 0 && D.GoodResources({t}, resources) && !AckPending(sys.lanes[t], nonce)
    requires forall i :: 0 <= i < |sys.lanes[t].responses| ==> sys.lanes[t].responses[i].nonce != nonce
    ensures Harmless(sys.lanes[t], nonce, ResourcesOf(resources, t))
       <==> !CanDiverge(D.Perform(sys, D.Install(nonce, resources)), t)
  {
    var l, sys' := sys.lanes[t], D.Perform(sys, D.Install(nonce, resources));
    assert t in {t} && t in resources;
    if Harmless(l, nonce, ResourcesOf(resources, t)) {
      StepFlies(sys, D.Install(nonce, resources), t);
      forall steps | D.Legal(sys', steps) && NoInstalls(steps) && D.NoUnsubscribes(steps)
        ensures !RestsApart(D.Execute(sys', steps), t)
      {
        NoInstallsHarmless(sys', steps, t);
        RunFlies(sys', steps, t);
        if LaneRests(D.Execute(sys', steps), t) {
          RestAgrees(D.Execute(sys', steps), t);
        }
      }
    } else {
      var name :| OffRecord(l, name) && Lookup(VersionsOf(ResourcesOf(resources, t)), name) == Lookup(Base(l), name);
      assert OnCourse(l, sys.nonce, ResourcesOf(sys.resources, t), name);
      OffRecordDiverges(sys', t, name);
    }
  }

  lemma {:induction false} NoInstallsHarmless(sys: D.System, steps: seq<D.Step>, t: string)
    requires D.Legal(sys, steps) && NoInstalls(steps)
    ensures HarmlessRun(sys, steps, t)
    decreases steps
  {
    if steps != [] {
      NoInstallsHarmless(D.Perform(sys, steps[0]), steps[1..], t);
    }
  }
}
