/**
 Databroker replication as a step system: server incarnations over
 append-only logs, calls that can be truncated or dropped, and one syncer.
 */
module Replication {
  import opened Options
  import opened Records
  import Client = Syncer
  import Broker = DataBrokerServer

  type BackendId = Broker.BackendId

  const VERSION_TYPE := "server_version"
  const VERSION_ID := "version"

  /** The client's call in progress. */
  datatype Call =
    | Idle
    | Latest(serverVersion: uint64, backend: BackendId, n: uint64, records: seq<Record>)
    | Stream(backend: BackendId)

  /** `owner` remembers for which backend each server version was created. */
  datatype System = System(
    typeURL: string,
    logs: map<BackendId, seq<Record>>,
    owner: map<uint64, BackendId>,
    server: Broker.ServerState,
    syncer: Client.SyncerState,
    call: Call)

  datatype Step =
    | Put(backend: BackendId, record: Record)
    | Restart
    | UpdateConfig(cfg: Broker.Config, target: Option<BackendId>, getFails: bool, random: uint64, saved: bool)
    | GetBackend(target: Option<BackendId>)
    | StartLatest(n: uint64, records: seq<Record>)
    | FinishLatest(k: nat, end: Client.StreamEnd)
    | OpenSync
    | Receive(i: nat)
    | DropStream

  function Initial(typeURL: string): System {
    System(typeURL, map[], map[], Broker.ServerState(None, 0, None), Client.SyncerState(0, 0, map[]), Idle)
  }

  function Log(sys: System, b: BackendId): seq<Record> {
    if b in sys.logs then sys.logs[b] else []
  }

  function Append(sys: System, b: BackendId, r: Record): System
    requires |Log(sys, b)| < MAX_UINT64
  {
    sys.(logs := sys.logs[b := Log(sys, b) + [r.(version := |Log(sys, b)| + 1)]])
  }

  function VersionRecord(v: uint64): Record {
    Record(0, VERSION_TYPE, VERSION_ID, false, Some(VersionValue(v)))
  }

  /** Reading the version record from a backend. */
  function StoredVersion(log: seq<Record>): Broker.GetResult {
    var v := Lookup(Fold(map[], log), (VERSION_TYPE, VERSION_ID));
    if v.None? then Broker.NotFound else Broker.Found(v)
  }

  function ReadVersion(sys: System, target: Option<BackendId>, getFails: bool): Broker.GetResult {
    if getFails || target.None? then Broker.GetFailed else StoredVersion(Log(sys, target.value))
  }

  /** `GetAll` returns records that stand for the first `n` changes of the log. */
  predicate ConsistentSnapshot(log: seq<Record>, n: uint64, records: seq<Record>) {
    n <= |log| && Fold(map[], records) == Fold(map[], log[..n])
  }

  predicate Enabled(sys: System, step: Step) {
    match step
    case Put(b, r) => r.typ != VERSION_TYPE && |Log(sys, b)| < MAX_UINT64
    case UpdateConfig(cfg, target, getFails, random, saved) =>
      && random !in sys.owner
      && (target.Some? ==> |Log(sys, target.value)| < MAX_UINT64)
    case Restart => true
    case GetBackend(_) => true
    case StartLatest(n, records) =>
      && sys.call.Idle? && sys.syncer.serverVersion == 0 && sys.server.backend.Some?
      && ConsistentSnapshot(Log(sys, sys.server.backend.value), n, records)
    case FinishLatest(k, _) =>
      sys.call.Latest? && k <= |Replies(sys)|
    case OpenSync => sys.call.Idle? && sys.syncer.serverVersion != 0 && sys.server.backend.Some?
    case Receive(i) => sys.call.Stream? && i < |Log(sys, sys.call.backend)|
    case DropStream => sys.call.Stream?
  }

  function Replies(sys: System): seq<Client.LatestReply>
    requires sys.call.Latest?
  {
    Broker.LatestReplies(sys.typeURL, sys.call.records, sys.call.serverVersion, sys.call.n)
  }

  function Reconfigure(sys: System, step: Step): System
    requires step.UpdateConfig? && Enabled(sys, step)
  {
    var get := ReadVersion(sys, step.target, step.getFails);
    var server := Broker.UpdateConfigStep(sys.server, step.cfg, step.target, get, step.random);
    var sys' := sys.(server := server);
    if sys.server.cfg != Some(step.cfg) && step.target.Some? && get.NotFound? then
      var owned := sys'.(owner := sys.owner[step.random := step.target.value]);
      if step.saved then Append(owned, step.target.value, VersionRecord(step.random)) else owned
    else sys'
  }

  function Perform(sys: System, step: Step): System
    requires Enabled(sys, step)
  {
    match step
    case Put(b, r) => Append(sys, b, r)
    case Restart => sys.(server := Broker.ServerState(None, 0, None))
    case UpdateConfig(_, _, _, _, _) => Reconfigure(sys, step)
    case GetBackend(target) => sys.(server := Broker.GetBackendStep(sys.server, target))
    case StartLatest(n, records) =>
      sys.(call := Latest(sys.server.version, sys.server.backend.value, n, records))
    case FinishLatest(k, end) =>
      sys.(call := Idle, syncer := Client.InitStep(sys.syncer, Replies(sys)[..k], end))
    case OpenSync =>
      if sys.server.version == sys.syncer.serverVersion then sys.(call := Stream(sys.server.backend.value))
      else sys.(syncer := Client.RecvStep(sys.typeURL, sys.syncer, Client.Aborted))
    case Receive(i) =>
      var got := Client.Change(Log(sys, sys.call.backend)[i]);
      sys.(syncer := Client.RecvStep(sys.typeURL, sys.syncer, got),
           call := if Client.Stops(sys.syncer, got) then Idle else sys.call)
    case DropStream =>
      sys.(call := Idle, syncer := Client.RecvStep(sys.typeURL, sys.syncer, Client.Failed))
  }

  ghost predicate Legal(sys: System, steps: seq<Step>)
    decreases steps
  {
    steps == [] || (Enabled(sys, steps[0]) && Legal(Perform(sys, steps[0]), steps[1..]))
  }

  ghost function Execute(sys: System, steps: seq<Step>): System
    requires Legal(sys, steps)
    decreases steps
  {
    if steps == [] then sys else Execute(Perform(sys, steps[0]), steps[1..])
  }

  // --- The invariant ---

  /** The replica is exactly the first recordVersion changes of the named incarnation's log. */
  ghost predicate Replicated(sys: System) {
    sys.syncer.serverVersion != 0 ==>
      && sys.syncer.serverVersion in sys.owner
      && var log := Log(sys, sys.owner[sys.syncer.serverVersion]);
      && sys.syncer.recordVersion <= |log|
      && sys.syncer.replica == Replica(log, sys.syncer.recordVersion, sys.typeURL)
  }

  ghost predicate Owns(sys: System, v: uint64, b: BackendId) {
    v == 0 || Lookup(sys.owner, v) == Some(b)
  }

  /** The version the server announces identifies the backend it reads. */
  ghost predicate VersionBound(sys: System) {
    sys.server.backend.Some? ==> Owns(sys, sys.server.version, sys.server.backend.value)
  }

  ghost predicate CallBound(sys: System) {
    match sys.call
    case Idle => true
    case Latest(v, b, n, records) => Owns(sys, v, b) && ConsistentSnapshot(Log(sys, b), n, records)
    case Stream(b) => Owns(sys, sys.syncer.serverVersion, b)
  }

  ghost predicate LogNumbered(log: seq<Record>) {
    |log| <= MAX_UINT64 && forall i :: 0 <= i < |log| ==> log[i].version == i + 1
  }

  /** A stored version record names its own backend. */
  ghost predicate StoredBound(sys: System, b: BackendId) {
    var get := StoredVersion(Log(sys, b));
    get.Found? ==> get.data.value.VersionValue? && Owns(sys, get.data.value.value, b)
  }

  ghost predicate Inv(sys: System) {
    && Replicated(sys)
    && VersionBound(sys)
    && CallBound(sys)
    && (forall b :: LogNumbered(Log(sys, b)))
    && (forall b :: StoredBound(sys, b))
  }

  /**
   A step that connects the server to a backend is safe when the version record
   could be read or created, or the unchanged version is zero or already names
   that backend.
   */
  ghost predicate Safe(sys: System, step: Step) {
    match step
    case UpdateConfig(cfg, target, getFails, _, _) =>
      sys.server.cfg == Some(cfg) || target.None? || !getFails || Owns(sys, sys.server.version, target.value)
    case GetBackend(target) =>
      sys.server.backend.Some? || target.None? || Owns(sys, sys.server.version, target.value)
    case _ => true
  }

  ghost predicate AllSafe(sys: System, steps: seq<Step>)
    requires Legal(sys, steps)
    decreases steps
  {
    steps == [] || (Safe(sys, steps[0]) && AllSafe(Perform(sys, steps[0]), steps[1..]))
  }

  // --- Preservation ---

  /** The only record of the server's own type is a version that belongs to the backend. */
  ghost predicate Appendable(sys: System, b: BackendId, r: Record) {
    r.typ == VERSION_TYPE ==>
      && r.id == VERSION_ID && !r.deleted && r.data.Some? && r.data.value.VersionValue?
      && Owns(sys, r.data.value.value, b)
  }

  lemma AppendKeepsLogs(sys: System, b: BackendId, r: Record, c: BackendId)
    requires LogNumbered(Log(sys, c)) && StoredBound(sys, c)
    requires |Log(sys, b)| < MAX_UINT64 && Appendable(sys, b, r)
    ensures LogNumbered(Log(Append(sys, b, r), c)) && StoredBound(Append(sys, b, r), c)
  {
    if c == b {
      FoldSnoc(map[], Log(sys, b), r.(version := |Log(sys, b)| + 1));
    } else {
      assert Log(Append(sys, b, r), c) == Log(sys, c);
    }
  }

  lemma AppendKeepsReplica(sys: System, b: BackendId, r: Record)
    requires Replicated(sys) && CallBound(sys) && |Log(sys, b)| < MAX_UINT64
    ensures Replicated(Append(sys, b, r)) && CallBound(Append(sys, b, r))
  {
    var sys', r' := Append(sys, b, r), r.(version := |Log(sys, b)| + 1);
    assert forall c :: c != b ==> Log(sys', c) == Log(sys, c);
    if sys.syncer.serverVersion != 0 && sys.owner[sys.syncer.serverVersion] == b {
      ReplicaPrefix(Log(sys, b), [r'], sys.syncer.recordVersion, sys.typeURL);
    }
    if sys.call.Latest? && sys.call.backend == b {
      assert Log(sys', b)[..sys.call.n] == Log(sys, b)[..sys.call.n];
    }
  }

  lemma AppendKeepsInv(sys: System, b: BackendId, r: Record)
    requires Inv(sys)
    requires |Log(sys, b)| < MAX_UINT64 && Appendable(sys, b, r)
    ensures Inv(Append(sys, b, r))
  {
    AppendKeepsReplica(sys, b, r);
    forall c
      ensures LogNumbered(Log(Append(sys, b, r), c)) && StoredBound(Append(sys, b, r), c)
    {
      AppendKeepsLogs(sys, b, r, c);
    }
  }

  lemma ReconfigureKeepsInv(sys: System, step: Step)
    requires Inv(sys) && step.UpdateConfig? && Enabled(sys, step) && Safe(sys, step)
    ensures Inv(Reconfigure(sys, step))
  {
    if sys.server.cfg != Some(step.cfg) && step.target.Some? {
      var b := step.target.value;
      var get := ReadVersion(sys, step.target, step.getFails);
      assert StoredBound(sys, b);
      var server := Broker.UpdateConfigStep(sys.server, step.cfg, step.target, get, step.random);
      if get.NotFound? {
        var owned := sys.(server := server, owner := sys.owner[step.random := b]);
        assert Inv(owned) by {
          assert forall c :: Log(owned, c) == Log(sys, c);
          forall c
            ensures LogNumbered(Log(owned, c)) && StoredBound(owned, c)
          {
            assert LogNumbered(Log(sys, c)) && StoredBound(sys, c);
          }
        }
        if step.saved {
          AppendKeepsInv(owned, b, VersionRecord(step.random));
        }
      } else {
        OnlyServerChanges(sys, server);
      }
    } else {
      var server := Broker.UpdateConfigStep(sys.server, step.cfg, step.target, Broker.GetFailed, step.random);
      OnlyServerChanges(sys, server);
    }
  }

  lemma OnlyServerChanges(sys: System, server: Broker.ServerState)
    requires Inv(sys)
    requires server.backend.Some? ==> Owns(sys, server.version, server.backend.value)
    ensures Inv(sys.(server := server))
  {
    var sys' := sys.(server := server);
    forall c
      ensures LogNumbered(Log(sys', c)) && StoredBound(sys', c)
    {
      assert LogNumbered(Log(sys, c)) && StoredBound(sys, c);
    }
  }

  lemma OnlyClientChanges(sys: System, syncer: Client.SyncerState, call: Call)
    requires Inv(sys)
    requires Replicated(sys.(syncer := syncer, call := call))
    requires CallBound(sys.(syncer := syncer, call := call))
    ensures Inv(sys.(syncer := syncer, call := call))
  {
    var sys' := sys.(syncer := syncer, call := call);
    forall c
      ensures LogNumbered(Log(sys', c)) && StoredBound(sys', c)
    {
      assert LogNumbered(Log(sys, c)) && StoredBound(sys, c);
    }
  }

  /** A complete snapshot is the replica at its version; a truncated one names no server. */
  lemma FinishLatestReplicates(sys: System, k: nat, end: Client.StreamEnd)
    requires Inv(sys) && Enabled(sys, FinishLatest(k, end))
    ensures Replicated(Perform(sys, FinishLatest(k, end)))
  {
    var c := sys.call;
    if end.Eof? {
      if k < |Replies(sys)| {
        Broker.CollectTruncated(sys.typeURL, c.records, c.serverVersion, c.n, k);
      } else {
        assert Replies(sys)[..k] == Replies(sys);
        Broker.CollectLatestReplies(sys.typeURL, c.records, c.serverVersion, c.n);
        FoldSelect(sys.typeURL, c.records);
      }
    }
  }

  /** An accepted change is the one right after those already applied. */
  lemma ReceiveReplicates(sys: System, i: nat)
    requires Inv(sys) && Enabled(sys, Receive(i))
    ensures Replicated(Perform(sys, Receive(i)))
  {
    var log := Log(sys, sys.call.backend);
    assert LogNumbered(log);
    if sys.syncer.serverVersion != 0 && sys.syncer.recordVersion == i {
      ReplicaSnoc(log, i, sys.typeURL);
    }
  }

  lemma StepKeepsInv(sys: System, step: Step)
    requires Inv(sys) && Enabled(sys, step) && Safe(sys, step)
    ensures Inv(Perform(sys, step))
  {
    var sys' := Perform(sys, step);
    match step {
      case Put(b, r) => AppendKeepsInv(sys, b, r);
      case UpdateConfig(_, _, _, _, _) => ReconfigureKeepsInv(sys, step);
      case Restart => OnlyServerChanges(sys, sys'.server);
      case GetBackend(_) => OnlyServerChanges(sys, sys'.server);
      case FinishLatest(k, end) =>
        FinishLatestReplicates(sys, k, end);
        OnlyClientChanges(sys, sys'.syncer, sys'.call);
      case Receive(i) =>
        ReceiveReplicates(sys, i);
        OnlyClientChanges(sys, sys'.syncer, sys'.call);
      case _ => OnlyClientChanges(sys, sys'.syncer, sys'.call);
    }
  }

  lemma {:induction false} RunKeepsInv(sys: System, steps: seq<Step>)
    requires Inv(sys) && Legal(sys, steps) && AllSafe(sys, steps)
    ensures Inv(Execute(sys, steps))
    decreases steps
  {
    if steps != [] {
      StepKeepsInv(sys, steps[0]);
      RunKeepsInv(Perform(sys, steps[0]), steps[1..]);
    }
  }

  /** Main result: after every safe run the replica is a prefix of its incarnation's log. */
  lemma ReplicaFollowsLog(typeURL: string, steps: seq<Step>)
    requires Legal(Initial(typeURL), steps) && AllSafe(Initial(typeURL), steps)
    ensures Replicated(Execute(Initial(typeURL), steps))
  {
    RunKeepsInv(Initial(typeURL), steps);
  }

  /** Progress: a stream that delivers every change from n up to m brings the replica from n to m. */
  lemma {:induction false} SyncCatchesUp(typeURL: string, log: seq<Record>, sv: uint64, n: nat, m: nat)
    requires LogNumbered(log) && n <= m <= |log|
    ensures Client.SyncSteps(typeURL, Client.SyncerState(n, sv, Replica(log, n, typeURL)), Changes(log[n..m]))
         == Client.SyncerState(m, sv, Replica(log, m, typeURL))
    decreases m - n
  {
    if n < m {
      ReplicaSnoc(log, n, typeURL);
      SyncCatchesUp(typeURL, log, sv, n + 1, m);
      assert Changes(log[n..m])[1..] == Changes(log[n + 1..m]);
    }
  }

  /** What ends a sync: an abort and a gap forget the server, a failure does not, and all keep the replica. */
  lemma {:induction false} SyncEnds(typeURL: string, log: seq<Record>, sv: uint64, n: nat, m: nat,
                                    last: Client.Received, rest: seq<Client.Received>)
    requires LogNumbered(log) && n <= m <= |log|
    requires last.Change? ==> last.record.version != m + 1 && (m == MAX_UINT64 ==> last.record.version != 0)
    ensures Client.SyncSteps(typeURL, Client.SyncerState(n, sv, Replica(log, n, typeURL)), Changes(log[n..m]) + [last] + rest)
         == Client.SyncerState(m, if last.Failed? then sv else 0, Replica(log, m, typeURL))
    decreases m - n
  {
    var results := Changes(log[n..m]) + [last] + rest;
    if n < m {
      ReplicaSnoc(log, n, typeURL);
      SyncEnds(typeURL, log, sv, n + 1, m, last, rest);
      assert results[0] == Client.Change(log[n]);
      assert results[1..] == Changes(log[n + 1..m]) + [last] + rest;
    } else {
      assert results[0] == last;
    }
  }

  function Changes(rs: seq<Record>): seq<Client.Received> {
    seq(|rs|, i requires 0 <= i < |rs| => Client.Change(rs[i]))
  }

  // --- The safety condition is exact ---

  /** Some continuation without any further unsafe step ends with a replica that is no prefix of its log. */
  ghost predicate CanDiverge(sys: System) {
    exists steps :: Legal(sys, steps) && AllSafe(sys, steps) && !Replicated(Execute(sys, steps))
  }

  lemma DivergesAfter(sys: System, step: Step)
    requires Enabled(sys, step) && Safe(sys, step) && CanDiverge(Perform(sys, step))
    ensures CanDiverge(sys)
  {
    var sys' := Perform(sys, step);
    var rest :| Legal(sys', rest) && AllSafe(sys', rest) && !Replicated(Execute(sys', rest));
    assert ([step] + rest)[1..] == rest;
    assert Legal(sys, [step] + rest) && AllSafe(sys, [step] + rest);
    assert !Replicated(Execute(sys, [step] + rest));
  }

  lemma DivergesNow(sys: System)
    requires !Replicated(sys)
    ensures CanDiverge(sys)
  {
    assert Legal(sys, []) && AllSafe(sys, []) && !Replicated(Execute(sys, []));
  }

  /** The server reads a backend under a version that was not created for it. */
  ghost predicate Unbound(sys: System, b: BackendId) {
    sys.server.backend == Some(b) && !Owns(sys, sys.server.version, b)
  }

  /** The backend's log is longer than the log its version stands for. */
  ghost predicate Overlong(sys: System, b: BackendId) {
    && |Log(sys, b)| >= 2
    && var owner := Lookup(sys.owner, sys.server.version);
       owner.Some? ==> |Log(sys, owner.value)| < |Log(sys, b)|
  }

  /** A whole snapshot of an overlong log is not a prefix of the log it claims. */
  lemma SnapshotDiverges(sys: System, b: BackendId)
    requires Unbound(sys, b) && Overlong(sys, b) && LogNumbered(Log(sys, b))
    requires sys.call.Idle? && sys.syncer.serverVersion == 0
    ensures CanDiverge(sys)
  {
    var log := Log(sys, b);
    assert log[..|log|] == log;
    var sys1 := Perform(sys, StartLatest(|log|, log));
    var replies := Replies(sys1);
    assert replies[..|replies|] == replies;
    Broker.CollectLatestReplies(sys.typeURL, log, sys.server.version, |log|);
    var sys2 := Perform(sys1, FinishLatest(|replies|, Client.Eof));
    assert sys2.syncer.serverVersion == sys.server.version && sys2.syncer.recordVersion == |log|;
    DivergesNow(sys2);
    DivergesAfter(sys1, FinishLatest(|replies|, Client.Eof));
    DivergesAfter(sys, StartLatest(|log|, log));
  }

  /** A syncer that names a server can be made to ask for a snapshot: by an abort, or by a gap. */
  lemma IdleDiverges(sys: System, b: BackendId)
    requires Unbound(sys, b) && Overlong(sys, b) && LogNumbered(Log(sys, b)) && sys.call.Idle?
    ensures CanDiverge(sys)
  {
    if sys.syncer.serverVersion == 0 {
      SnapshotDiverges(sys, b);
    } else {
      var sys1 := Perform(sys, OpenSync);
      if sys.server.version == sys.syncer.serverVersion {
        var i := if sys.syncer.recordVersion == 0 then 1 else 0;
        SnapshotDiverges(Perform(sys1, Receive(i)), b);
        DivergesAfter(sys1, Receive(i));
      } else {
        SnapshotDiverges(sys1, b);
      }
      DivergesAfter(sys, OpenSync);
    }
  }

  /** Calls in progress can end first. */
  lemma OverlongDiverges(sys: System, b: BackendId)
    requires Unbound(sys, b) && Overlong(sys, b) && LogNumbered(Log(sys, b))
    ensures CanDiverge(sys)
  {
    match sys.call {
      case Idle => IdleDiverges(sys, b);
      case Latest(_, _, _, _) =>
        IdleDiverges(Perform(sys, FinishLatest(0, Client.Broken)), b);
        DivergesAfter(sys, FinishLatest(0, Client.Broken));
      case Stream(_) =>
        IdleDiverges(Perform(sys, DropStream), b);
        DivergesAfter(sys, DropStream);
    }
  }

  /** The server's owner log is not full, so that the backend's log can outgrow it. */
  ghost predicate HasRoom(sys: System) {
    var owner := Lookup(sys.owner, sys.server.version);
    owner.Some? ==> |Log(sys, owner.value)| < MAX_UINT64
  }

  const FILLER: Record := Record(0, "", "", false, None)

  lemma {:induction false} UnboundDiverges(sys: System, b: BackendId)
    requires Unbound(sys, b) && LogNumbered(Log(sys, b)) && HasRoom(sys)
    ensures CanDiverge(sys)
    decreases MAX_UINT64 - |Log(sys, b)|
  {
    if Overlong(sys, b) {
      OverlongDiverges(sys, b);
    } else {
      var sys' := Perform(sys, Put(b, FILLER));
      assert forall c :: c != b ==> Log(sys', c) == Log(sys, c);
      UnboundDiverges(sys', b);
      DivergesAfter(sys, Put(b, FILLER));
    }
  }

  lemma UnsafeUnbinds(sys: System, step: Step)
    requires Enabled(sys, step) && !Safe(sys, step)
    ensures step.target.Some? && Unbound(Perform(sys, step), step.target.value)
    ensures Perform(sys, step) == sys.(server := Perform(sys, step).server)
    ensures Perform(sys, step).server.version == sys.server.version
  {
  }

  /**
   A step is safe exactly when no continuation by safe steps lets the replica leave
   its incarnation's log.
   */
  lemma SafeExactly(sys: System, step: Step)
    requires Inv(sys) && Enabled(sys, step) && HasRoom(sys)
    ensures Safe(sys, step) <==> !CanDiverge(Perform(sys, step))
  {
    var sys' := Perform(sys, step);
    if Safe(sys, step) {
      StepKeepsInv(sys, step);
      forall steps | Legal(sys', steps) && AllSafe(sys', steps)
        ensures Replicated(Execute(sys', steps))
      {
        RunKeepsInv(sys', steps);
      }
    } else {
      UnsafeUnbinds(sys, step);
      var b := step.target.value;
      assert Log(sys', b) == Log(sys, b) && LogNumbered(Log(sys, b));
      UnboundDiverges(sys', b);
    }
  }

  /**
   Such a run from the start: when reading the version of a second backend fails, the
   server keeps announcing the version of the first.
   */
  lemma StaleVersionMixesLogs(typeURL: string) returns (steps: seq<Step>)
    ensures Legal(Initial(typeURL), steps)
    ensures !Replicated(Execute(Initial(typeURL), steps))
  {
    var first, second := UpdateConfig(1, Some(0), false, 7, true), UpdateConfig(2, Some(1), true, 8, false);
    var sys := Perform(Initial(typeURL), first);
    StepKeepsInv(Initial(typeURL), first);
    assert sys.server == Broker.ServerState(Some(1), 7, Some(0)) && sys.owner == map[7 := 0] && |Log(sys, 0)| == 1;
    SafeExactly(sys, second);
    var sys' := Perform(sys, second);
    var rest :| Legal(sys', rest) && AllSafe(sys', rest) && !Replicated(Execute(sys', rest));
    steps := RunPrepend(sys, second, rest);
    steps := RunPrepend(Initial(typeURL), first, steps);
  }

  lemma RunPrepend(sys: System, step: Step, rest: seq<Step>) returns (steps: seq<Step>)
    requires Enabled(sys, step) && Legal(Perform(sys, step), rest)
    ensures Legal(sys, steps) && Execute(sys, steps) == Execute(Perform(sys, step), rest)
  {
    steps := [step] + rest;
    assert steps[1..] == rest;
  }
}
