/**
 The client side of databroker replication: a snapshot collected from
 SyncLatest, then consecutive changes received from Sync.
 */
module Syncer {
  import opened Options
  import opened Records
  import EvaluatorStore

  datatype LatestReply = RecordReply(record: Record) | VersionsReply(serverVersion: uint64, recordVersion: uint64)

  /** How a SyncLatest stream ends. */
  datatype StreamEnd = Eof | Broken

  /** One result of receiving from a Sync stream. */
  datatype Received = Change(record: Record) | Aborted | Failed

  datatype Snapshot = Snapshot(records: seq<Record>, recordVersion: uint64, serverVersion: uint64)

  datatype SyncerState = SyncerState(recordVersion: uint64, serverVersion: uint64, replica: View)

  /** The snapshot a complete reply stream stands for: the last versions message wins. */
  function Collect(replies: seq<LatestReply>): Snapshot {
    if replies == [] then Snapshot([], 0, 0)
    else
      var s := Collect(replies[..|replies| - 1]);
      match replies[|replies| - 1]
      case RecordReply(r) => s.(records := s.records + [r])
      case VersionsReply(sv, rv) => s.(recordVersion := rv, serverVersion := sv)
  }

  /** The 64-bit predecessor, which wraps below zero. */
  function Prev(v: uint64): uint64 {
    if v == 0 then MAX_UINT64 else v - 1
  }

  function InitStep(s: SyncerState, replies: seq<LatestReply>, end: StreamEnd): SyncerState {
    if end.Broken? then s
    else
      var snapshot := Collect(replies);
      SyncerState(snapshot.recordVersion, snapshot.serverVersion, Fold(map[], snapshot.records))
  }

  /** Whether a received result ends the sync call. */
  predicate Stops(s: SyncerState, got: Received) {
    !got.Change? || s.recordVersion != Prev(got.record.version)
  }

  function RecvStep(typeURL: string, s: SyncerState, got: Received): SyncerState {
    match got
    case Failed => s
    case Aborted => s.(serverVersion := 0)
    case Change(r) =>
      if s.recordVersion != Prev(r.version) then s.(serverVersion := 0)
      else SyncerState(r.version, s.serverVersion,
                 if TypeSelected(typeURL, r.typ) then Apply(s.replica, r) else s.replica)
  }

  /** A whole sync call: results are consumed until one of them stops it. */
  function SyncSteps(typeURL: string, s: SyncerState, results: seq<Received>): SyncerState
    decreases results
  {
    if results == [] then s
    else if Stops(s, results[0]) then RecvStep(typeURL, s, results[0])
    else SyncSteps(typeURL, RecvStep(typeURL, s, results[0]), results[1..])
  }

  /** What the server would answer if the next call were SyncLatest, or Sync. */
  datatype Attempt = Attempt(replies: seq<LatestReply>, end: StreamEnd, results: seq<Received>)

  function AttemptStep(typeURL: string, s: SyncerState, a: Attempt): SyncerState {
    if s.serverVersion == 0 then InitStep(s, a.replies, a.end) else SyncSteps(typeURL, s, a.results)
  }

  function RunSteps(typeURL: string, s: SyncerState, attempts: seq<Attempt>): SyncerState
    decreases attempts
  {
    if attempts == [] then s else RunSteps(typeURL, AttemptStep(typeURL, s, attempts[0]), attempts[1..])
  }

  method InitialSync(replies: seq<LatestReply>, end: StreamEnd) returns (result: Option<Snapshot>)
    ensures result == if end.Eof? then Some(Collect(replies)) else None
  {
    var records: seq<Record>, recordVersion: uint64, serverVersion: uint64 := [], 0, 0;
    for i := 0 to |replies|
      invariant Collect(replies[..i]) == Snapshot(records, recordVersion, serverVersion)
    {
      match replies[i] {
        case VersionsReply(sv, rv) => recordVersion, serverVersion := rv, sv;
        case RecordReply(r) => records := records + [r];
      }
      assert replies[..i + 1][..i] == replies[..i];
    }
    assert replies[..|replies|] == replies;
    if end.Broken? {
      return None;
    }
    result := Some(Snapshot(records, recordVersion, serverVersion));
  }

  class Syncer {
    const typeURL: string
    const store: EvaluatorStore.Store
    var recordVersion: uint64
    var serverVersion: uint64

    constructor (typeURL: string, store: EvaluatorStore.Store)
      ensures this.typeURL == typeURL && this.store == store
      ensures recordVersion == 0 && serverVersion == 0
    {
      this.typeURL, this.store := typeURL, store;
      recordVersion, serverVersion := 0, 0;
    }

    ghost predicate Valid()
      reads this, store
    {
      store.Valid()
    }

    ghost function Abs(): (s: SyncerState)
      reads this, store
    {
      SyncerState(recordVersion, serverVersion, store.view)
    }

    method Init(replies: seq<LatestReply>, end: StreamEnd) returns (ok: bool)
      requires Valid()
      modifies this, store
      ensures Valid()
      ensures ok <==> end.Eof?
      ensures Abs() == InitStep(old(Abs()), replies, end)
      ensures !ok ==> Abs() == old(Abs())
    {
      var result := InitialSync(replies, end);
      if result.None? {
        return false;
      }
      store.ClearRecords();
      recordVersion := result.value.recordVersion;
      serverVersion := result.value.serverVersion;
      store.UpdateRecords(result.value.records);
      ok := true;
    }

    method Sync(results: seq<Received>)
      requires Valid()
      modifies this, store
      ensures Valid()
      ensures Abs() == SyncSteps(typeURL, old(Abs()), results)
    {
      var i := 0;
      while i < |results|
        invariant 0 <= i <= |results|
        invariant Valid()
        invariant SyncSteps(typeURL, Abs(), results[i..]) == SyncSteps(typeURL, old(Abs()), results)
      {
        assert results[i..][0] == results[i] && results[i..][1..] == results[i + 1..];
        match results[i] {
          case Aborted =>
            serverVersion := 0;
            return;
          case Failed =>
            return;
          case Change(r) =>
            if recordVersion != Prev(r.version) {
              serverVersion := 0;
              return;
            }
            recordVersion := r.version;
            if typeURL == "" || typeURL == r.typ {
              ghost var before := store.view;
              store.UpdateRecords([r]);
              FoldSnoc(before, [], r);
            }
        }
        i := i + 1;
      }
    }

    /** Every finite run of the endless loop in the source. */
    method Run(attempts: seq<Attempt>)
      requires Valid()
      modifies this, store
      ensures Valid()
      ensures Abs() == RunSteps(typeURL, old(Abs()), attempts)
    {
      for i := 0 to |attempts|
        invariant Valid()
        invariant RunSteps(typeURL, Abs(), attempts[i..]) == RunSteps(typeURL, old(Abs()), attempts)
      {
        assert attempts[i..][0] == attempts[i] && attempts[i..][1..] == attempts[i + 1..];
        if serverVersion == 0 {
          var _ := Init(attempts[i].replies, attempts[i].end);
        } else {
          Sync(attempts[i].results);
        }
      }
    }
  }
}
