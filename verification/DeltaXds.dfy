/**
 A whole delta xDS stream: installed snapshots, the change signal, the stream
 loop and one lane per type. Requests of different types may overtake each
 other, so every run of the code is among the runs of this system.
 */
module DeltaXds {
  import opened Options
  import opened XdsManager
  import L = XdsLane

  /** `owed` counts updates that have not broadcast yet; `signalled` is the one-slot channel. */
  datatype System = System(
    nonce: Nonce,
    resources: Resources,
    lanes: map<string, L.Lane>,
    owed: nat,
    signalled: bool)

  datatype Step =
    | Start(typeURL: string, subscribe: set<string>)
    | Send(typeURL: string, subscribe: set<string>, unsubscribe: set<string>)
    | Accept(typeURL: string, subscribe: set<string>, unsubscribe: set<string>)
    | Reject(typeURL: string)
    | Take(typeURL: string)
    | Produce(typeURL: string)
    | Install(nonce: Nonce, resources: Resources)
    | Broadcast
    | TakeSignal

  /** Every type of the stream is present, with unique names and non-empty versions. */
  predicate GoodResources(types: set<string>, resources: Resources) {
    types <= resources.Keys && forall t :: t in types ==> L.Good(resources[t])
  }

  function NewLane(held: Versions): L.Lane {
    L.Lane(false, None, false, [], [], held, false, {})
  }

  function Initial(nonce: Nonce, resources: Resources, held: map<string, Versions>): System {
    System(nonce, resources, map t | t in held :: NewLane(held[t]), 0, false)
  }

  predicate Enabled(sys: System, step: Step) {
    match step
    case Install(nonce, _) => nonce != 0
    case Broadcast => sys.owed > 0
    case TakeSignal => sys.signalled
    case Start(t, _) => t in sys.lanes && !sys.lanes[t].started
    case Send(t, _, _) => t in sys.lanes && sys.lanes[t].started
    case Accept(t, _, _) => t in sys.lanes && sys.lanes[t].responses != []
    case Reject(t) => t in sys.lanes && sys.lanes[t].responses != []
    case Take(t) => t in sys.lanes && sys.lanes[t].requests != [] && !sys.lanes[t].queued
    case Produce(t) => t in sys.lanes && sys.lanes[t].queued
  }

  function LaneStep(sys: System, step: Step): L.Lane
    requires Enabled(sys, step) && !step.Install? && !step.Broadcast? && !step.TakeSignal?
  {
    var l, rs := sys.lanes[step.typeURL], ResourcesOf(sys.resources, step.typeURL);
    match step
    case Start(_, subscribe) => L.Start(l, subscribe)
    case Send(_, subscribe, unsubscribe) => L.Send(l, subscribe, unsubscribe)
    case Accept(_, subscribe, unsubscribe) => L.Accept(l, subscribe, unsubscribe)
    case Reject(_) => L.Reject(l)
    case Take(_) => L.Take(l, sys.nonce, rs)
    case Produce(_) => L.Produce(l, sys.nonce, rs)
  }

  function Perform(sys: System, step: Step): System
    requires Enabled(sys, step)
  {
    match step
    case Install(nonce, resources) => sys.(nonce := nonce, resources := resources, owed := sys.owed + 1)
    case Broadcast => sys.(owed := sys.owed - 1, signalled := true)
    case TakeSignal =>
      sys.(signalled := false,
           lanes := map t | t in sys.lanes ::
             if t in sys.resources then sys.lanes[t].(queued := true) else sys.lanes[t])
    case _ => sys.(lanes := sys.lanes[step.typeURL := LaneStep(sys, step)])
  }

  ghost predicate Legal(sys: System, steps: seq<Step>)
    decreases steps
  {
    steps == [] || (Enabled(sys, steps[0]) && Legal(Perform(sys, steps[0]), steps[1..]))
  }

  ghost function Execute(sys: System, steps: seq<Step>): System
    requires Legal(sys, steps)
    decreases steps
  {
    if steps == [] then sys else Execute(Perform(sys, steps[0]), steps[1..])
  }

  /** Every installed snapshot is good. An update may install any other as well. */
  predicate GoodInstalls(types: set<string>, steps: seq<Step>) {
    forall i :: 0 <= i < |steps| && steps[i].Install? ==> GoodResources(types, steps[i].resources)
  }

  /** A snapshot is installed only while no response waits for its acknowledgement. */
  ghost predicate Paced(sys: System, steps: seq<Step>)
    requires Legal(sys, steps)
    decreases steps
  {
    steps == [] ||
    (&& (steps[0].Install? ==> forall t :: t in sys.lanes ==> L.Quiet(sys.lanes[t]))
     && Paced(Perform(sys, steps[0]), steps[1..]))
  }

  /** No message, signal or computation is pending. */
  predicate Resting(sys: System) {
    && sys.owed == 0 && !sys.signalled
    && forall t :: t in sys.lanes ==>
         !sys.lanes[t].queued && sys.lanes[t].requests == [] && sys.lanes[t].responses == []
  }

  /** The client, the server's record of it and the snapshot are all equal, and the server is silent. */
  ghost predicate InAgreement(sys: System, t: string)
    requires t in sys.lanes
  {
    var l, rs := sys.lanes[t], ResourcesOf(sys.resources, t);
    && l.state.Some?
    && l.held == VersionsOf(rs)
    && l.state.value.versions == VersionsOf(rs)
    && L.Produce(l, sys.nonce, rs) == l
  }

  predicate Wake(sys: System) {
    sys.owed > 0 || sys.signalled
  }

  ghost predicate Inv(sys: System) {
    && GoodResources(sys.lanes.Keys, sys.resources)
    && forall t :: t in sys.lanes ==> L.LaneInv(sys.lanes[t], sys.nonce, ResourcesOf(sys.resources, t), Wake(sys))
  }

  lemma InitialInv(nonce: Nonce, resources: Resources, held: map<string, Versions>)
    requires nonce != 0 && GoodResources(held.Keys, resources)
    ensures Inv(Initial(nonce, resources, held))
  {
    assert Initial(nonce, resources, held).lanes.Keys == held.Keys;
  }

  lemma ReplaceLane(sys: System, t: string, l: L.Lane)
    requires Inv(sys) && t in sys.lanes
    requires L.LaneInv(l, sys.nonce, ResourcesOf(sys.resources, t), Wake(sys))
    ensures Inv(sys.(lanes := sys.lanes[t := l]))
  {
    assert sys.lanes[t := l].Keys == sys.lanes.Keys;
  }

  lemma LaneStepKeeps(sys: System, step: Step)
    requires Inv(sys) && Enabled(sys, step) && !step.Install? && !step.Broadcast? && !step.TakeSignal?
    ensures L.LaneInv(LaneStep(sys, step), sys.nonce, ResourcesOf(sys.resources, step.typeURL), Wake(sys))
  {
    var l, rs := sys.lanes[step.typeURL], ResourcesOf(sys.resources, step.typeURL);
    match step {
      case Start(_, subscribe) => L.StartKeeps(l, sys.nonce, rs, Wake(sys), subscribe);
      case Send(_, subscribe, unsubscribe) => L.SendKeeps(l, sys.nonce, rs, Wake(sys), subscribe, unsubscribe);
      case Accept(_, subscribe, unsubscribe) => L.AcceptKeeps(l, sys.nonce, rs, Wake(sys), subscribe, unsubscribe);
      case Reject(_) => L.RejectKeeps(l, sys.nonce, rs, Wake(sys));
      case Take(_) => L.TakeKeeps(l, sys.nonce, rs, Wake(sys));
      case Produce(_) => L.ProduceKeeps(l, sys.nonce, rs, Wake(sys));
    }
  }

  lemma InstallKeeps(sys: System, nonce: Nonce, resources: Resources)
    requires Inv(sys) && nonce != 0 && GoodResources(sys.lanes.Keys, resources)
    requires forall t :: t in sys.lanes ==> L.Quiet(sys.lanes[t])
    ensures Inv(Perform(sys, Install(nonce, resources)))
  {
    forall t | t in sys.lanes
      ensures L.LaneInv(sys.lanes[t], nonce, ResourcesOf(resources, t), true)
    {
      L.InstallKeeps(sys.lanes[t], sys.nonce, ResourcesOf(sys.resources, t), Wake(sys), nonce, ResourcesOf(resources, t));
    }
  }

  lemma TakeSignalKeeps(sys: System)
    requires Inv(sys) && sys.signalled
    ensures Inv(Perform(sys, TakeSignal))
  {
    var sys' := Perform(sys, TakeSignal);
    assert sys'.lanes.Keys == sys.lanes.Keys;
    forall t | t in sys.lanes
      ensures L.LaneInv(sys'.lanes[t], sys.nonce, ResourcesOf(sys.resources, t), Wake(sys'))
    {
      L.QueueKeeps(sys.lanes[t], sys.nonce, ResourcesOf(sys.resources, t), Wake(sys), Wake(sys'));
    }
  }

  lemma StepKeeps(sys: System, step: Step)
    requires Inv(sys) && Enabled(sys, step)
    requires step.Install? ==>
               GoodResources(sys.lanes.Keys, step.resources) && forall t :: t in sys.lanes ==> L.Quiet(sys.lanes[t])
    ensures Inv(Perform(sys, step))
  {
    match step {
      case Install(nonce, resources) => InstallKeeps(sys, nonce, resources);
      case TakeSignal => TakeSignalKeeps(sys);
      case Broadcast =>
      case _ =>
        LaneStepKeeps(sys, step);
        ReplaceLane(sys, step.typeURL, LaneStep(sys, step));
    }
  }

  lemma {:induction false} RunKeeps(sys: System, steps: seq<Step>)
    requires Inv(sys) && Legal(sys, steps) && Paced(sys, steps) && GoodInstalls(sys.lanes.Keys, steps)
    ensures Inv(Execute(sys, steps))
    decreases steps
  {
    if steps != [] {
      StepKeeps(sys, steps[0]);
      assert Perform(sys, steps[0]).lanes.Keys == sys.lanes.Keys;
      RunKeeps(Perform(sys, steps[0]), steps[1..]);
    }
  }

  /**
   The server records the snapshot and is silent, and the client holds the snapshot
   except for names it unsubscribed from and was not sent again. So the three agree
   exactly when no such name is in the snapshot, and always if it never rejected.
   */
  ghost predicate Settled(sys: System, t: string)
    requires t in sys.lanes
  {
    var l, rs := sys.lanes[t], ResourcesOf(sys.resources, t);
    && l.state.Some? && l.state.value.versions == VersionsOf(rs) && L.Produce(l, sys.nonce, rs) == l
    && l.held == VersionsOf(rs) - l.missing
    && (InAgreement(sys, t) <==> l.missing !! VersionsOf(rs).Keys)
    && (!l.nacked ==> InAgreement(sys, t))
  }

  lemma RestSettles(sys: System, t: string)
    requires Inv(sys) && Resting(sys) && t in sys.lanes && sys.lanes[t].started
    ensures Settled(sys, t)
  {
    L.RestingLane(sys.lanes[t], sys.nonce, ResourcesOf(sys.resources, t));
  }

  /** Main result: after every paced run that has come to rest, every started type has settled. */
  lemma Converges(nonce: Nonce, resources: Resources, held: map<string, Versions>, steps: seq<Step>, t: string)
    requires nonce != 0 && GoodResources(held.Keys, resources) && GoodInstalls(held.Keys, steps)
    requires var s := Initial(nonce, resources, held); Legal(s, steps) && Paced(s, steps)
    requires var s' := Execute(Initial(nonce, resources, held), steps);
             Resting(s') && t in s'.lanes && s'.lanes[t].started
    ensures Settled(Execute(Initial(nonce, resources, held), steps), t)
  {
    var s := Initial(nonce, resources, held);
    InitialInv(nonce, resources, held);
    RunKeeps(s, steps);
    RestSettles(Execute(s, steps), t);
  }

  // --- No update is missed, paced or not ---

  /** What one computation of a response compares: the recorded versions and the snapshot, under its nonce. */
  datatype Comparison = Comparison(nonce: Nonce, versions: Versions, resources: seq<Resource>)

  function ComparisonNow(sys: System, t: string): Option<Comparison>
    requires t in sys.lanes
  {
    if sys.lanes[t].state.None? then None
    else Some(Comparison(sys.nonce, sys.lanes[t].state.value.versions, ResourcesOf(sys.resources, t)))
  }

  /** What the last computation for a type in a run compared, `last` being the one before the run. */
  ghost function LastComparison(sys: System, steps: seq<Step>, t: string, last: Option<Comparison>): Option<Comparison>
    requires Legal(sys, steps)
    decreases steps
  {
    if steps == [] then last
    else
      var next := if steps[0] == Produce(t) then ComparisonNow(sys, t) else last;
      LastComparison(Perform(sys, steps[0]), steps[1..], t, next)
  }

  /** The last computation was for what is recorded now, or the next one is queued. */
  ghost predicate RecordCompared(l: L.Lane, last: Option<Comparison>) {
    l.state.Some? ==> l.queued || (last.Some? && last.value.versions == l.state.value.versions)
  }

  /** A recorded type of the snapshot is up to date, or a computation or wake-up is on its way. */
  ghost predicate WillCompare(sys: System, t: string, last: Option<Comparison>) {
    && t in sys.lanes && RecordCompared(sys.lanes[t], last)
    && (t in sys.resources && sys.lanes[t].state.Some? ==>
          sys.lanes[t].queued || Wake(sys) || last == ComparisonNow(sys, t))
  }

  lemma StepWillCompare(sys: System, step: Step, t: string, last: Option<Comparison>)
    requires WillCompare(sys, t, last) && Enabled(sys, step)
    ensures WillCompare(Perform(sys, step), t, if step == Produce(t) then ComparisonNow(sys, t) else last)
  {
    assert Perform(sys, step).lanes.Keys == sys.lanes.Keys;
  }

  lemma {:induction false} RunWillCompare(sys: System, steps: seq<Step>, t: string, last: Option<Comparison>)
    requires WillCompare(sys, t, last) && Legal(sys, steps)
    ensures WillCompare(Execute(sys, steps), t, LastComparison(sys, steps, t, last))
    decreases steps
  {
    if steps != [] {
      StepWillCompare(sys, steps[0], t, last);
      var next := if steps[0] == Produce(t) then ComparisonNow(sys, t) else last;
      RunWillCompare(Perform(sys, steps[0]), steps[1..], t, next);
    }
  }

  /**
   No lost wake-up: in every run, whatever is installed and when, and with messages
   still under way, a stream with nothing queued has last compared what it records
   now; with an empty channel and no update owed, it has compared every type of the
   current snapshot with it, under the current nonce.
   */
  lemma NoLostUpdate(nonce: Nonce, resources: Resources, held: map<string, Versions>, steps: seq<Step>, t: string)
    requires Legal(Initial(nonce, resources, held), steps)
    requires var s' := Execute(Initial(nonce, resources, held), steps);
             t in s'.lanes && s'.lanes[t].state.Some? && !s'.lanes[t].queued
    ensures var s := Initial(nonce, resources, held);
            var s', last := Execute(s, steps), LastComparison(s, steps, t, None);
            && last.Some? && last.value.versions == s'.lanes[t].state.value.versions
            && (t in s'.resources && !Wake(s') ==> last == ComparisonNow(s', t))
  {
    var s := Initial(nonce, resources, held);
    LanesStay(s, steps);
    RunWillCompare(s, steps, t, None);
  }

  lemma {:induction false} LanesStay(sys: System, steps: seq<Step>)
    requires Legal(sys, steps)
    ensures Execute(sys, steps).lanes.Keys == sys.lanes.Keys
    decreases steps
  {
    if steps != [] {
      LanesStay(Perform(sys, steps[0]), steps[1..]);
      assert Perform(sys, steps[0]).lanes.Keys == sys.lanes.Keys;
    }
  }

  /** A difference to a type of the snapshot leaves some work pending. */
  ghost predicate Announced(sys: System, t: string) {
    t in sys.lanes &&
    var l := sys.lanes[t];
    t in sys.resources && l.state.Some? && !EmptyDelta(DeltaOf(l.state.value.versions, sys.resources[t])) ==>
      l.queued || Wake(sys) || l.responses != [] || l.requests != []
  }

  lemma StepAnnounced(sys: System, step: Step, t: string)
    requires Announced(sys, t) && Enabled(sys, step)
    ensures Announced(Perform(sys, step), t)
  {
    assert Perform(sys, step).lanes.Keys == sys.lanes.Keys;
  }

  lemma {:induction false} RunAnnounced(sys: System, steps: seq<Step>, t: string)
    requires Announced(sys, t) && Legal(sys, steps)
    ensures Announced(Execute(sys, steps), t)
    decreases steps
  {
    if steps != [] {
      StepAnnounced(sys, steps[0], t);
      RunAnnounced(Perform(sys, steps[0]), steps[1..], t);
    }
  }

  /**
   In every run, what a stream at rest records for a type is the current snapshot
   exactly when the snapshot has the type, or nothing is recorded: the signal is not
   passed on for a type that was dropped.
   */
  lemma RestRecordsExactly(nonce: Nonce, resources: Resources, held: map<string, Versions>, steps: seq<Step>, t: string)
    requires Legal(Initial(nonce, resources, held), steps)
    requires var s' := Execute(Initial(nonce, resources, held), steps);
             && Resting(s') && t in s'.lanes && s'.lanes[t].state.Some?
             && L.Good(ResourcesOf(s'.resources, t))
    ensures var s' := Execute(Initial(nonce, resources, held), steps);
            var versions := s'.lanes[t].state.value.versions;
            versions == VersionsOf(ResourcesOf(s'.resources, t)) <==> t in s'.resources || versions == map[]
  {
    var s := Initial(nonce, resources, held);
    LanesStay(s, steps);
    RunAnnounced(s, steps, t);
    var s' := Execute(s, steps);
    if t in s'.resources {
      SilentIffCurrent(s'.lanes[t].state.value.versions, s'.resources[t]);
    }
  }

  // --- Runs without unsubscribes ---

  predicate NoUnsubscribes(steps: seq<Step>) {
    forall i :: 0 <= i < |steps| ==>
      (steps[i].Send? ==> steps[i].unsubscribe == {}) && (steps[i].Accept? ==> steps[i].unsubscribe == {})
  }

  lemma {:induction false} NothingMissing(sys: System, steps: seq<Step>)
    requires Legal(sys, steps) && NoUnsubscribes(steps)
    requires forall t :: t in sys.lanes ==> sys.lanes[t].missing == {}
    ensures forall t :: t in Execute(sys, steps).lanes ==> Execute(sys, steps).lanes[t].missing == {}
    decreases steps
  {
    if steps != [] {
      NothingMissing(Perform(sys, steps[0]), steps[1..]);
    }
  }

  /** Then every paced run at rest agrees, rejected responses or not. */
  lemma AgreesWithoutUnsubscribes(nonce: Nonce, resources: Resources, held: map<string, Versions>, steps: seq<Step>, t: string)
    requires nonce != 0 && GoodResources(held.Keys, resources) && GoodInstalls(held.Keys, steps)
    requires var s := Initial(nonce, resources, held); Legal(s, steps) && Paced(s, steps) && NoUnsubscribes(steps)
    requires var s' := Execute(Initial(nonce, resources, held), steps);
             Resting(s') && t in s'.lanes && s'.lanes[t].started
    ensures InAgreement(Execute(Initial(nonce, resources, held), steps), t)
  {
    NothingMissing(Initial(nonce, resources, held), steps);
    Converges(nonce, resources, held, steps, t);
  }

  lemma RunPrepend(sys: System, step: Step, rest: seq<Step>) returns (steps: seq<Step>)
    requires Enabled(sys, step) && Legal(Perform(sys, step), rest)
    ensures Legal(sys, steps) && Execute(sys, steps) == Execute(Perform(sys, step), rest)
    ensures (step.Install? ==> forall t :: t in sys.lanes ==> L.Quiet(sys.lanes[t])) && Paced(Perform(sys, step), rest)
            ==> Paced(sys, steps)
    ensures forall types ::
              (step.Install? ==> GoodResources(types, step.resources)) && GoodInstalls(types, rest) ==> GoodInstalls(types, steps)
  {
    steps := [step] + rest;
    assert steps[1..] == rest;
  }
}
