/** The databroker server: its version, its storage backend and its SyncLatest stream. */
module DataBrokerServer {
  import opened Options
  import opened Records
  import opened Syncer

  type BackendId = nat
  type Config = nat

  /** The result of reading the stored version record. */
  datatype GetResult = Found(data: Option<Message>) | NotFound | GetFailed

  datatype ServerState = ServerState(cfg: Option<Config>, version: uint64, backend: Option<BackendId>)

  /** `target` is the backend a new connection reaches, if connecting succeeds. */
  function GetBackendStep(s: ServerState, target: Option<BackendId>): ServerState {
    if s.backend.None? then s.(backend := target) else s
  }

  /** Whether the version record has to be created. */
  predicate CreatesVersion(s: ServerState, target: Option<BackendId>, get: GetResult) {
    GetBackendStep(s, target).backend.Some? && get.NotFound?
  }

  function InitVersionStep(s: ServerState, target: Option<BackendId>, get: GetResult, random: uint64): ServerState {
    var s := GetBackendStep(s, target);
    if s.backend.None? then s
    else match get
         case Found(Some(VersionValue(v))) => s.(version := v)
         case NotFound => s.(version := random)
         case _ => s
  }

  function UpdateConfigStep(s: ServerState, cfg: Config, target: Option<BackendId>, get: GetResult, random: uint64): ServerState {
    if s.cfg == Some(cfg) then s
    else InitVersionStep(s.(cfg := Some(cfg), backend := None), target, get, random)
  }

  function RecordReplies(rs: seq<Record>): seq<LatestReply> {
    seq(|rs|, i requires 0 <= i < |rs| => RecordReply(rs[i]))
  }

  /** Everything SyncLatest sends: the selected records, then the versions. */
  function LatestReplies(typeURL: string, rs: seq<Record>, serverVersion: uint64, recordVersion: uint64): seq<LatestReply> {
    RecordReplies(Select(typeURL, rs)) + [VersionsReply(serverVersion, recordVersion)]
  }

  class Server {
    var cfg: Option<Config>
    var version: uint64
    var backend: Option<BackendId>

    constructor ()
      ensures Abs() == ServerState(None, 0, None)
    {
      cfg, version, backend := None, 0, None;
    }

    ghost function Abs(): (s: ServerState)
      reads this
    {
      ServerState(cfg, version, backend)
    }

    method GetBackend(target: Option<BackendId>) returns (result: Option<(BackendId, uint64)>)
      modifies this
      ensures Abs() == GetBackendStep(old(Abs()), target)
      ensures result == if backend.Some? then Some((backend.value, version)) else None
    {
      if backend.None? {
        backend := target;
        if backend.None? {
          return None;
        }
      }
      result := Some((backend.value, version));
    }

    /** Returns the version record that has to be put, if any. */
    method InitVersion(target: Option<BackendId>, get: GetResult, random: uint64) returns (put: Option<uint64>)
      modifies this
      ensures Abs() == InitVersionStep(old(Abs()), target, get, random)
      ensures put == if CreatesVersion(old(Abs()), target, get) then Some(random) else None
    {
      var db := GetBackend(target);
      if db.None? {
        return None;
      }
      match get {
        case Found(data) =>
          if data.Some? && data.value.VersionValue? {
            version := data.value.value;
          }
          return None;
        case NotFound =>
        case GetFailed =>
          return None;
      }
      version := random;
      put := Some(random);
    }

    method UpdateConfig(cfg: Config, target: Option<BackendId>, get: GetResult, random: uint64)
      returns (put: Option<uint64>)
      modifies this
      ensures Abs() == UpdateConfigStep(old(Abs()), cfg, target, get, random)
      ensures put == if old(this.cfg) != Some(cfg) && target.Some? && get.NotFound? then Some(random) else None
    {
      if this.cfg == Some(cfg) {
        return None;
      }
      this.cfg := Some(cfg);
      if backend.Some? {
        backend := None;
      }
      put := InitVersion(target, get, random);
    }
  }

  /** Sends until the stream refuses: only the first `accepted` sends succeed. */
  method SyncLatest(typeURL: string, rs: seq<Record>, serverVersion: uint64, recordVersion: uint64, accepted: nat)
    returns (sent: seq<LatestReply>, ok: bool)
    ensures sent <= LatestReplies(typeURL, rs, serverVersion, recordVersion)
    ensures ok <==> sent == LatestReplies(typeURL, rs, serverVersion, recordVersion)
    ensures ok <==> |Select(typeURL, rs)| < accepted
  {
    sent := [];
    for i := 0 to |rs|
      invariant sent == RecordReplies(Select(typeURL, rs[..i]))
      invariant |sent| <= accepted
    {
      var all := rs[..i + 1];
      assert all[..i] == rs[..i];
      SelectPrefix(typeURL, rs, i + 1);
      SelectPrefix(typeURL, rs, i);
      if typeURL == "" || typeURL == rs[i].typ {
        if |sent| == accepted {
          return sent, false;
        }
        sent := sent + [RecordReply(rs[i])];
      }
    }
    assert rs[..|rs|] == rs;
    if |sent| == accepted {
      return sent, false;
    }
    sent := sent + [VersionsReply(serverVersion, recordVersion)];
    ok := true;
  }

  lemma {:induction false} SelectPrefix(typeURL: string, rs: seq<Record>, n: nat)
    requires n <= |rs|
    ensures Select(typeURL, rs[..n]) <= Select(typeURL, rs)
    decreases |rs|
  {
    if n == |rs| {
      assert rs[..n] == rs;
    } else {
      var init := rs[..|rs| - 1];
      SelectPrefix(typeURL, init, n);
      assert init[..n] == rs[..n];
    }
  }

  /** Collecting a complete reply stream gives back the selected records and versions. */
  lemma CollectLatestReplies(typeURL: string, rs: seq<Record>, sv: uint64, rv: uint64)
    ensures Collect(LatestReplies(typeURL, rs, sv, rv)) == Snapshot(Select(typeURL, rs), rv, sv)
  {
    var all := LatestReplies(typeURL, rs, sv, rv);
    var selected := Select(typeURL, rs);
    CollectRecordReplies(selected);
    assert all[..|all| - 1] == RecordReplies(selected);
  }

  lemma {:induction false} CollectRecordReplies(rs: seq<Record>)
    ensures Collect(RecordReplies(rs)) == Snapshot(rs, 0, 0)
  {
    if rs != [] {
      var init := rs[..|rs| - 1];
      CollectRecordReplies(init);
      assert RecordReplies(rs)[..|rs| - 1] == RecordReplies(init);
      assert init + [rs[|rs| - 1]] == rs;
    }
  }

  /** A truncated stream carries no server version. */
  lemma CollectTruncated(typeURL: string, rs: seq<Record>, sv: uint64, rv: uint64, k: nat)
    requires k < |LatestReplies(typeURL, rs, sv, rv)|
    ensures Collect(LatestReplies(typeURL, rs, sv, rv)[..k]).serverVersion == 0
  {
    var selected := Select(typeURL, rs);
    CollectRecordReplies(selected[..k]);
    assert LatestReplies(typeURL, rs, sv, rv)[..k] == RecordReplies(selected[..k]);
  }
}
