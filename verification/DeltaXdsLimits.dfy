/**
 Runs that come to rest out of agreement: an early install, a dropped type, an
 unsubscribe around an install, and a rejection after an unsubscribe.
 */
module DeltaXdsLimits {
  import opened Options
  import opened XdsManager
  import opened DeltaXds
  import L = XdsLane
  import XdsFlight

  function OneType(nonce: Nonce, rs: seq<Resource>, lane: L.Lane, owed: nat, signalled: bool): System {
    System(nonce, map["t" := rs], map["t" := lane], owed, signalled)
  }

  /** A new one-type system is an initial state. */
  lemma OneTypeIsInitial(rs: seq<Resource>, held: Versions)
    ensures Initial(1, map["t" := rs], map["t" := held]) == OneType(1, rs, NewLane(held), 0, false)
  {
    assert Initial(1, map["t" := rs], map["t" := held]).lanes == map["t" := NewLane(held)];
  }

  /** Any run, one that installs good snapshots only, or one that is paced as well. */
  datatype Kind = AnyRun | GoodRun | PacedRun

  ghost predicate IsKind(s: System, steps: seq<Step>, kind: Kind)
    requires Legal(s, steps)
  {
    (!kind.AnyRun? ==> GoodInstalls(s.lanes.Keys, steps)) && (kind.PacedRun? ==> Paced(s, steps))
  }

  /** Some run of the kind leads from one state to the other. */
  ghost predicate Leads(s: System, s': System, kind: Kind) {
    exists steps :: Legal(s, steps) && Execute(s, steps) == s' && IsKind(s, steps, kind)
  }

  lemma Stays(s: System, kind: Kind)
    ensures Leads(s, s, kind)
  {
    assert Legal(s, []) && Execute(s, []) == s && IsKind(s, [], kind);
  }

  lemma Then(s: System, step: Step, s': System, kind: Kind, end: System)
    requires Enabled(s, step) && Perform(s, step) == s'
    requires step.Install? ==> !kind.PacedRun? && (kind.GoodRun? ==> GoodResources(s.lanes.Keys, step.resources))
    requires Leads(s', end, kind)
    ensures Leads(s, end, kind)
  {
    var rest :| Legal(s', rest) && Execute(s', rest) == end && IsKind(s', rest, kind);
    var steps := RunPrepend(s, step, rest);
    assert s'.lanes.Keys == s.lanes.Keys;
    assert IsKind(s, steps, kind);
  }

  /** A step of the lane, the manager staying as it is. */
  lemma LaneThen(nonce: Nonce, rs: seq<Resource>, l: L.Lane, step: Step, l': L.Lane, kind: Kind, end: System)
    requires var s := OneType(nonce, rs, l, 0, false);
             Enabled(s, step) && !step.Install? && !step.Broadcast? && !step.TakeSignal? && LaneStep(s, step) == l'
    requires Leads(OneType(nonce, rs, l', 0, false), end, kind)
    ensures Leads(OneType(nonce, rs, l, 0, false), end, kind)
  {
    assert step.typeURL == "t" && map["t" := l]["t" := l'] == map["t" := l'];
    Then(OneType(nonce, rs, l, 0, false), step, OneType(nonce, rs, l', 0, false), kind, end);
  }

  /** Handling the first request, its effect given field by field. */
  lemma TakeThen(nonce: Nonce, rs: seq<Resource>, l: L.Lane, q: Request, rest: seq<Request>, st: StreamState,
                 kind: Kind, end: System)
    requires l.requests == [q] + rest && !l.queued
    requires var known := if l.state.Some? then l.state.value else StreamState(q.initial, {});
             && st.versions == (if IsAck(q, nonce) then VersionsOf(rs) else known.versions) - q.unsubscribe
             && st.unsubscribed == (known.unsubscribed - q.subscribe) + q.unsubscribe
    requires Leads(OneType(nonce, rs, l.(state := Some(st), queued := true, requests := rest), 0, false), end, kind)
    ensures Leads(OneType(nonce, rs, l, 0, false), end, kind)
  {
    assert l.requests[1..] == rest;
    LaneThen(nonce, rs, l, Take("t"), l.(state := Some(st), queued := true, requests := rest), kind, end);
  }

  lemma SilentThen(nonce: Nonce, rs: seq<Resource>, l: L.Lane, kind: Kind, end: System)
    requires l.queued && l.state.Some? && EmptyDelta(DeltaOf(l.state.value.versions, rs))
    requires Leads(OneType(nonce, rs, l.(queued := false), 0, false), end, kind)
    ensures Leads(OneType(nonce, rs, l, 0, false), end, kind)
  {
    LaneThen(nonce, rs, l, Produce("t"), l.(queued := false), kind, end);
  }

  lemma RespondThen(nonce: Nonce, rs: seq<Resource>, l: L.Lane, d: Delta, kind: Kind, end: System)
    requires l.queued && l.state.Some? && l.responses == []
    requires !EmptyDelta(d) && DeltaOf(l.state.value.versions, rs) == d
    requires Leads(OneType(nonce, rs, l.(queued := false, responses := [Response(nonce, d)]), 0, false), end, kind)
    ensures Leads(OneType(nonce, rs, l, 0, false), end, kind)
  {
    LaneThen(nonce, rs, l, Produce("t"), l.(queued := false, responses := [Response(nonce, d)]), kind, end);
  }

  lemma AcceptThen(nonce: Nonce, rs: seq<Resource>, l: L.Lane, r: Response, l': L.Lane, kind: Kind, end: System)
    requires l.responses == [r] && l'.held == ApplyDelta(l.held, r.delta)
    requires l'.requests == l.requests + [Request(r.nonce, false, map[], {}, {})]
    requires l'.missing == l.missing - L.Names(r.delta)
    requires l' == l.(held := l'.held, responses := [], requests := l'.requests, missing := l'.missing)
    requires Leads(OneType(nonce, rs, l', 0, false), end, kind)
    ensures Leads(OneType(nonce, rs, l, 0, false), end, kind)
  {
    assert l'.held - {} == l'.held && l'.missing + {} == l'.missing && l.responses[1..] == [];
    LaneThen(nonce, rs, l, Accept("t", {}, {}), l', kind, end);
  }

  lemma SingleDelta(client: Versions, r: Resource)
    ensures VersionsOf([r]) == map[r.name := r.version]
    ensures Outdated([r], client) == if r.version != VersionAt(client, r.name) then [r] else []
  {
    assert [r][..0] == [];
  }

  lemma PairDelta(client: Versions, r: Resource, r': Resource)
    ensures VersionsOf([r, r']) == map[r.name := r.version][r'.name := r'.version]
    ensures Outdated([r, r'], client) == (if r.version != VersionAt(client, r.name) then [r] else [])
                                       + (if r'.version != VersionAt(client, r'.name) then [r'] else [])
  {
    SingleDelta(client, r);
    assert [r, r'][..1] == [r];
  }

  // --- A snapshot installed over an unacknowledged response ---

  const N := Resource("n", "1")
  const FIRST := Request(0, false, map[], {}, {})
  const KNOWN := Some(StreamState(map[], {}))

  function Waiting(): L.Lane {
    L.Lane(true, KNOWN, false, [], [Response(1, Delta([N], {}))], map[], false, {})
  }

  function Stale(): System {
    OneType(2, [], L.Lane(true, KNOWN, false, [], [], map["n" := "1"], false, {}), 0, false)
  }

  lemma BeforeInstall(end: System)
    requires Leads(OneType(1, [N], Waiting(), 0, false), end, GoodRun)
    ensures Leads(OneType(1, [N], NewLane(map[]), 0, false), end, GoodRun)
  {
    SingleDelta(map[], N);
    var started := L.Lane(true, None, false, [FIRST], [], map[], false, {});
    var taken := L.Lane(true, KNOWN, true, [], [], map[], false, {});
    RespondThen(1, [N], taken, Delta([N], {}), GoodRun, end);
    TakeThen(1, [N], started, FIRST, [], KNOWN.value, GoodRun, end);
    LaneThen(1, [N], NewLane(map[]), Start("t", {}), started, GoodRun, end);
  }

  lemma SignalWaiting(end: System)
    requires Leads(OneType(2, [], Waiting(), 0, false), end, GoodRun)
    ensures Leads(OneType(2, [], Waiting(), 0, true), end, GoodRun)
  {
    var queued := Waiting().(queued := true);
    SilentThen(2, [], queued, GoodRun, end);
    Then(OneType(2, [], Waiting(), 0, true), TakeSignal, OneType(2, [], queued, 0, false), GoodRun, end);
  }

  lemma InstallOverWaiting(end: System)
    requires Leads(OneType(2, [], Waiting(), 0, false), end, GoodRun)
    ensures Leads(OneType(1, [N], Waiting(), 0, false), end, GoodRun)
  {
    SignalWaiting(end);
    Then(OneType(2, [], Waiting(), 1, false), Broadcast, OneType(2, [], Waiting(), 0, true), GoodRun, end);
    Then(OneType(1, [N], Waiting(), 0, false), Install(2, map["t" := []]), OneType(2, [], Waiting(), 1, false), GoodRun, end);
  }

  lemma AfterInstall()
    ensures Leads(OneType(2, [], Waiting(), 0, false), Stale(), GoodRun)
  {
    SingleDelta(map[], N);
    var acked := L.Lane(true, KNOWN, false, [ACK], [], map["n" := "1"], false, {});
    Stays(Stale(), GoodRun);
    SilentThen(2, [], acked.(requests := [], queued := true), GoodRun, Stale());
    TakeThen(2, [], acked, ACK, [], KNOWN.value, GoodRun, Stale());
    AcceptThen(2, [], Waiting(), Response(1, Delta([N], {})), acked, GoodRun, Stale());
  }

  lemma StaleDisagrees()
    ensures Resting(Stale()) && Stale().lanes["t"].started && !Stale().lanes["t"].nacked && Stale().lanes["t"].missing == {}
    ensures !InAgreement(Stale(), "t")
  {
    assert "n" in Stale().lanes["t"].held && "n" !in VersionsOf([]);
  }

  /** The client keeps a resource that the new snapshot no longer has, and nothing is pending. */
  lemma UnpacedInstallDiverges()
    ensures Leads(Initial(1, map["t" := [N]], map["t" := map[]]), Stale(), GoodRun)
    ensures Resting(Stale()) && Stale().lanes["t"].started && !Stale().lanes["t"].nacked && Stale().lanes["t"].missing == {}
    ensures !InAgreement(Stale(), "t")
  {
    AfterInstall();
    InstallOverWaiting(Stale());
    BeforeInstall(Stale());
    OneTypeIsInitial([N], map[]);
    StaleDisagrees();
  }

  // --- A type that the next snapshot does not have ---

  const HELLO := Request(0, false, map["n" := "1"], {}, {})

  /** The client has the snapshot, and the server knows it. */
  function Current(): L.Lane {
    L.Lane(true, Some(StreamState(map["n" := "1"], {})), false, [], [], map["n" := "1"], false, {})
  }

  function Dropped(owed: nat, signalled: bool): System {
    System(2, map[], map["t" := Current()], owed, signalled)
  }

  lemma UntilCurrent(end: System)
    requires Leads(OneType(1, [N], Current(), 0, false), end, AnyRun)
    ensures Leads(OneType(1, [N], NewLane(map["n" := "1"]), 0, false), end, AnyRun)
  {
    SingleDelta(map["n" := "1"], N);
    var started := L.Lane(true, None, false, [HELLO], [], map["n" := "1"], false, {});
    SilentThen(1, [N], Current().(queued := true), AnyRun, end);
    TakeThen(1, [N], started, HELLO, [], Current().state.value, AnyRun, end);
    LaneThen(1, [N], NewLane(map["n" := "1"]), Start("t", {}), started, AnyRun, end);
  }

  lemma SignalPassesBy()
    ensures Leads(Dropped(1, false), Dropped(0, false), AnyRun)
  {
    Stays(Dropped(0, false), AnyRun);
    assert Perform(Dropped(0, true), TakeSignal).lanes == Dropped(0, false).lanes;
    Then(Dropped(0, true), TakeSignal, Dropped(0, false), AnyRun, Dropped(0, false));
    Then(Dropped(1, false), Broadcast, Dropped(0, true), AnyRun, Dropped(0, false));
  }

  /** The change signal is passed on for the types of the new snapshot only, so the client keeps the old one. */
  lemma DroppedTypeIsForgotten()
    ensures Leads(Initial(1, map["t" := [N]], map["t" := map["n" := "1"]]), Dropped(0, false), AnyRun)
    ensures Resting(Dropped(0, false)) && !InAgreement(Dropped(0, false), "t")
    ensures Dropped(0, false).lanes["t"].state.value.versions != VersionsOf(ResourcesOf(Dropped(0, false).resources, "t"))
  {
    SignalPassesBy();
    Then(OneType(1, [N], Current(), 0, false), Install(2, map[]), Dropped(1, false), AnyRun, Dropped(0, false));
    UntilCurrent(Dropped(0, false));
    OneTypeIsInitial([N], map["n" := "1"]);
    assert "n" in Dropped(0, false).lanes["t"].held;
  }

  // --- An unsubscribe while a snapshot is installed over a response ---

  const NEWER := Resource("n", "2")
  const UPGRADE := Response(1, Delta([NEWER], {}))
  const LEAVE := Request(0, false, map[], {}, {"n"})

  /** The client has the first version of "n" and is being sent the second. */
  function Upgrading(): L.Lane {
    Current().(responses := [UPGRADE])
  }

  /** The server has handled the unsubscribe; the response is still under way. */
  function Leaving(): L.Lane {
    Upgrading().(state := Some(StreamState(map[], {"n"})), held := map[], missing := {"n"})
  }

  function Revived(): L.Lane {
    Leaving().(responses := [], held := map["n" := "2"], missing := {})
  }

  lemma UntilUpgrading(end: System)
    requires Leads(OneType(1, [NEWER], Upgrading(), 0, false), end, GoodRun)
    ensures Leads(OneType(1, [NEWER], NewLane(map["n" := "1"]), 0, false), end, GoodRun)
  {
    SingleDelta(map["n" := "1"], NEWER);
    var started := L.Lane(true, None, false, [HELLO], [], map["n" := "1"], false, {});
    RespondThen(1, [NEWER], Current().(queued := true), UPGRADE.delta, GoodRun, end);
    TakeThen(1, [NEWER], started, HELLO, [], Current().state.value, GoodRun, end);
    LaneThen(1, [NEWER], NewLane(map["n" := "1"]), Start("t", {}), started, GoodRun, end);
  }

  /** A step of the lane while the update still has to broadcast. */
  lemma OwedThen(l: L.Lane, step: Step, l': L.Lane, end: System)
    requires var s := OneType(2, [], l, 1, false);
             Enabled(s, step) && !step.Install? && !step.Broadcast? && !step.TakeSignal? && LaneStep(s, step) == l'
    requires Leads(OneType(2, [], l', 1, false), end, GoodRun)
    ensures Leads(OneType(2, [], l, 1, false), end, GoodRun)
  {
    assert step.typeURL == "t" && map["t" := l]["t" := l'] == map["t" := l'];
    Then(OneType(2, [], l, 1, false), step, OneType(2, [], l', 1, false), GoodRun, end);
  }

  lemma UntilLeaving(end: System)
    requires Leads(OneType(2, [], Leaving(), 1, false), end, GoodRun)
    ensures Leads(OneType(2, [], Upgrading(), 1, false), end, GoodRun)
  {
    var asked := Upgrading().(requests := [LEAVE], held := map[], missing := {"n"});
    OwedThen(Leaving().(queued := true), Produce("t"), Leaving(), end);
    assert map["n" := "1"] - {"n"} == map[] && [LEAVE][1..] == [];
    assert HandleRequest(asked.state, LEAVE, 2, []) == Leaving().state.value;
    OwedThen(asked, Take("t"), Leaving().(queued := true), end);
    assert [] + [LEAVE] == [LEAVE];
    OwedThen(Upgrading(), Send("t", {}, {"n"}), asked, end);
  }

  lemma SignalLeaving(end: System)
    requires Leads(OneType(2, [], Leaving(), 0, false), end, GoodRun)
    ensures Leads(OneType(2, [], Leaving(), 1, false), end, GoodRun)
  {
    var queued := Leaving().(queued := true);
    SilentThen(2, [], queued, GoodRun, end);
    assert Perform(OneType(2, [], Leaving(), 0, true), TakeSignal).lanes == map["t" := queued];
    Then(OneType(2, [], Leaving(), 0, true), TakeSignal, OneType(2, [], queued, 0, false), GoodRun, end);
    Then(OneType(2, [], Leaving(), 1, false), Broadcast, OneType(2, [], Leaving(), 0, true), GoodRun, end);
  }

  lemma UntilRevived(end: System)
    requires Leads(OneType(2, [], Revived(), 0, false), end, GoodRun)
    ensures Leads(OneType(2, [], Leaving(), 0, false), end, GoodRun)
  {
    SingleDelta(map[], NEWER);
    var acked := Revived().(requests := [ACK]);
    SilentThen(2, [], Revived().(queued := true), GoodRun, end);
    TakeThen(2, [], acked, ACK, [], Leaving().state.value, GoodRun, end);
    AcceptThen(2, [], Leaving(), UPGRADE, acked, GoodRun, end);
  }

  lemma UpgradeIsHarmless()
    ensures XdsFlight.Harmless(Upgrading(), 2, [])
  {
    SingleDelta(map[], NEWER);
    assert forall name :: XdsFlight.OffRecord(Upgrading(), name) ==> name == "n";
  }

  /** For clients that unsubscribe, an install can be harmless as it is done and turn out wrong. */
  lemma HarmlessInstallCanDiverge()
    ensures Leads(Initial(1, map["t" := [NEWER]], map["t" := map["n" := "1"]]), OneType(1, [NEWER], Upgrading(), 0, false), GoodRun)
    ensures XdsFlight.Harmless(Upgrading(), 2, [])
    ensures Perform(OneType(1, [NEWER], Upgrading(), 0, false), Install(2, map["t" := []])) == OneType(2, [], Upgrading(), 1, false)
    ensures Leads(OneType(2, [], Upgrading(), 1, false), OneType(2, [], Revived(), 0, false), GoodRun)
    ensures Resting(OneType(2, [], Revived(), 0, false)) && !InAgreement(OneType(2, [], Revived(), 0, false), "t")
  {
    var end := OneType(2, [], Revived(), 0, false);
    UpgradeIsHarmless();
    Stays(OneType(1, [NEWER], Upgrading(), 0, false), GoodRun);
    UntilUpgrading(OneType(1, [NEWER], Upgrading(), 0, false));
    OneTypeIsInitial([NEWER], map["n" := "1"]);
    Stays(end, GoodRun);
    UntilRevived(end);
    SignalLeaving(end);
    UntilLeaving(end);
    assert "n" in Revived().held && "n" !in VersionsOf([]);
  }

  // --- An unsubscribe followed by a rejection ---

  const M := Resource("m", "1")
  const BOTH := [N, M]
  const ACK := Request(1, false, map[], {}, {})
  const NACK := Request(1, true, map[], {}, {})
  const DROP := Request(0, false, map[], {}, {"n"})

  function Trusted(): Option<StreamState> {
    Some(StreamState(map["n" := "1", "m" := "1"], {"n"}))
  }

  /** The client dropped "n", accepted "m" and still has to answer the re-sent pair. */
  function Resent(): L.Lane {
    L.Lane(true, Trusted(), false, [], [Response(1, Delta(BOTH, {}))], map["m" := "1"], false, {"n"})
  }

  function Accepted(): L.Lane {
    L.Lane(true, Some(StreamState(map["n" := "1"], {})), false, [DROP, ACK], [], map["m" := "1"], false, {"n"})
  }

  function Unaware(): System {
    OneType(1, BOTH, L.Lane(true, Trusted(), false, [], [], map["m" := "1"], true, {"n"}), 0, false)
  }

  /** The server knows about "n" and has sent "m". */
  function Offered(): L.Lane {
    L.Lane(true, Some(StreamState(map["n" := "1"], {})), false, [], [Response(1, Delta([M], {}))],
           map["n" := "1"], false, {})
  }

  lemma UntilOffered(end: System)
    requires Leads(OneType(1, BOTH, Offered(), 0, false), end, PacedRun)
    ensures Leads(OneType(1, BOTH, NewLane(map["n" := "1"]), 0, false), end, PacedRun)
  {
    PairDelta(map["n" := "1"], N, M);
    var started := L.Lane(true, None, false, [HELLO], [], map["n" := "1"], false, {});
    var taken := Offered().(queued := true, responses := []);
    RespondThen(1, BOTH, taken, Delta([M], {}), PacedRun, end);
    TakeThen(1, BOTH, started, HELLO, [], taken.state.value, PacedRun, end);
    LaneThen(1, BOTH, NewLane(map["n" := "1"]), Start("t", {}), started, PacedRun, end);
  }

  lemma UntilAccepted(end: System)
    requires Leads(OneType(1, BOTH, Accepted(), 0, false), end, PacedRun)
    ensures Leads(OneType(1, BOTH, Offered(), 0, false), end, PacedRun)
  {
    SingleDelta(map[], M);
    var dropped := Offered().(held := map[], requests := [DROP], missing := {"n"});
    AcceptThen(1, BOTH, dropped, Response(1, Delta([M], {})), Accepted(), PacedRun, end);
    assert Offered().held - {"n"} == map[];
    LaneThen(1, BOTH, Offered(), Send("t", {}, {"n"}), dropped, PacedRun, end);
  }

  /** The unsubscribe is handled and the pair sent again; the older ACK is still queued. */
  function Repeated(): L.Lane {
    L.Lane(true, Some(StreamState(map[], {"n"})), false, [ACK], [Response(1, Delta(BOTH, {}))], map["m" := "1"], false, {"n"})
  }

  lemma UntilRepeated(end: System)
    requires Leads(OneType(1, BOTH, Repeated(), 0, false), end, PacedRun)
    ensures Leads(OneType(1, BOTH, Accepted(), 0, false), end, PacedRun)
  {
    PairDelta(map[], N, M);
    RespondThen(1, BOTH, Repeated().(queued := true, responses := []), Delta(BOTH, {}), PacedRun, end);
    TakeThen(1, BOTH, Accepted(), DROP, [ACK], StreamState(map[], {"n"}), PacedRun, end);
  }

  lemma UntilResent(end: System)
    requires Leads(OneType(1, BOTH, Resent(), 0, false), end, PacedRun)
    ensures Leads(OneType(1, BOTH, Repeated(), 0, false), end, PacedRun)
  {
    PairDelta(Trusted().value.versions, N, M);
    SilentThen(1, BOTH, Resent().(queued := true), PacedRun, end);
    TakeThen(1, BOTH, Repeated(), ACK, [], Trusted().value, PacedRun, end);
  }

  function Rejected(): L.Lane {
    L.Lane(true, Trusted(), false, [NACK], [], map["m" := "1"], true, {"n"})
  }

  lemma UntilRejected(end: System)
    requires Leads(OneType(1, BOTH, Rejected(), 0, false), end, PacedRun)
    ensures Leads(OneType(1, BOTH, Resent(), 0, false), end, PacedRun)
  {
    LaneThen(1, BOTH, Resent(), Reject("t"), Rejected(), PacedRun, end);
  }

  lemma UntilUnaware()
    ensures Leads(OneType(1, BOTH, Rejected(), 0, false), Unaware(), PacedRun)
  {
    PairDelta(Trusted().value.versions, N, M);
    Stays(Unaware(), PacedRun);
    SilentThen(1, BOTH, Rejected().(requests := [], queued := true), PacedRun, Unaware());
    TakeThen(1, BOTH, Rejected(), NACK, [], Trusted().value, PacedRun, Unaware());
  }

  lemma UnawareDisagrees()
    ensures Resting(Unaware()) && !InAgreement(Unaware(), "t")
  {
    PairDelta(map[], N, M);
    assert "n" in VersionsOf(BOTH) && "n" !in Unaware().lanes["t"].held;
  }

  /** The server trusts an ACK sent before the rejected response, so it never re-sends the name. */
  lemma RejectAfterUnsubscribeDiverges()
    ensures Leads(Initial(1, map["t" := BOTH], map["t" := map["n" := "1"]]), Unaware(), PacedRun)
    ensures Resting(Unaware()) && Unaware().lanes["t"].started && !InAgreement(Unaware(), "t")
  {
    UnawareDisagrees();
    UntilUnaware();
    UntilRejected(Unaware());
    UntilResent(Unaware());
    UntilRepeated(Unaware());
    UntilAccepted(Unaware());
    UntilOffered(Unaware());
    OneTypeIsInitial(BOTH, map["n" := "1"]);
  }
}
