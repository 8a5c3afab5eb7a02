/**
 The incremental xDS server: per-type differences against the versions a client
 has acknowledged, under one nonce per installed snapshot.
 */
module XdsManager {
  import opened Options

  datatype Resource = Resource(name: string, version: string)

  type Versions = map<string, string>

  /** A nonce of zero stands for the empty string. */
  type Nonce = nat

  type Resources = map<string, seq<Resource>>

  datatype Delta = Delta(resources: seq<Resource>, removed: set<string>)

  datatype Response = Response(nonce: Nonce, delta: Delta)

  datatype Request = Request(
    nonce: Nonce, error: bool, initial: Versions, subscribe: set<string>, unsubscribe: set<string>)

  datatype StreamState = StreamState(versions: Versions, unsubscribed: set<string>)

  function ResourcesOf(resources: Resources, typeURL: string): seq<Resource> {
    if typeURL in resources then resources[typeURL] else []
  }

  function VersionsOf(rs: seq<Resource>): Versions {
    if rs == [] then map[]
    else VersionsOf(rs[..|rs| - 1])[rs[|rs| - 1].name := rs[|rs| - 1].version]
  }

  /** A missing entry reads as the empty version. */
  function VersionAt(versions: Versions, name: string): string {
    if name in versions then versions[name] else ""
  }

  function Outdated(rs: seq<Resource>, client: Versions): seq<Resource> {
    if rs == [] then []
    else
      var r := rs[|rs| - 1];
      Outdated(rs[..|rs| - 1], client) + if r.version != VersionAt(client, r.name) then [r] else []
  }

  function DeltaOf(client: Versions, rs: seq<Resource>): Delta {
    Delta(Outdated(rs, client), client.Keys - VersionsOf(rs).Keys)
  }

  predicate EmptyDelta(d: Delta) {
    d.resources == [] && d.removed == {}
  }

  /** What a client holds after accepting a response. */
  function ApplyDelta(m: Versions, d: Delta): Versions {
    (m - d.removed) + VersionsOf(d.resources)
  }

  predicate Mentions(d: Delta, name: string) {
    name in d.removed || name in VersionsOf(d.resources)
  }

  predicate IsAck(req: Request, nonce: Nonce) {
    req.nonce != 0 && !req.error && req.nonce == nonce
  }

  function HandleRequest(state: Option<StreamState>, req: Request, nonce: Nonce, rs: seq<Resource>): StreamState {
    var known := if state.Some? then state.value else StreamState(req.initial, {});
    var versions := if IsAck(req, nonce) then VersionsOf(rs) else known.versions;
    StreamState(versions - req.unsubscribe, (known.unsubscribed - req.subscribe) + req.unsubscribe)
  }

  predicate UniqueNames(rs: seq<Resource>) {
    forall i, j :: 0 <= i < j < |rs| ==> rs[i].name != rs[j].name
  }

  class Manager {
    var nonce: Nonce
    var resources: Resources

    constructor (nonce: Nonce, resources: Resources)
      ensures this.nonce == nonce && this.resources == resources
    {
      this.nonce, this.resources := nonce, resources;
    }

    method Update(nonce: Nonce, resources: Resources)
      modifies this
      ensures this.nonce == nonce && this.resources == resources
    {
      this.nonce := nonce;
      this.resources := resources;
    }
  }

  /** One stream's view of its client, per type. */
  class Stream {
    const mgr: Manager
    var states: map<string, StreamState>

    constructor (mgr: Manager)
      ensures this.mgr == mgr && states == map[]
    {
      this.mgr, states := mgr, map[];
    }

    method GetDeltaResponse(typeURL: string) returns (res: Option<Response>)
      ensures res == if typeURL !in states then None
                     else var d := DeltaOf(states[typeURL].versions, ResourcesOf(mgr.resources, typeURL));
                          if EmptyDelta(d) then None else Some(Response(mgr.nonce, d))
    {
      if typeURL !in states {
        return None;
      }
      var client := states[typeURL].versions;
      var rs := ResourcesOf(mgr.resources, typeURL);
      var seen: set<string>, changed: seq<Resource> := {}, [];
      for i := 0 to |rs|
        invariant seen == VersionsOf(rs[..i]).Keys
        invariant changed == Outdated(rs[..i], client)
      {
        assert rs[..i + 1][..i] == rs[..i];
        seen := seen + {rs[i].name};
        if rs[i].version != VersionAt(client, rs[i].name) {
          changed := changed + [rs[i]];
        }
      }
      assert rs[..|rs|] == rs;
      var removed := Unseen(client.Keys, seen);
      if |changed| == 0 && |removed| == 0 {
        return None;
      }
      res := Some(Response(mgr.nonce, Delta(changed, removed)));
    }

    method Unseen(names: set<string>, seen: set<string>) returns (removed: set<string>)
      ensures removed == names - seen
    {
      removed := {};
      var todo := names;
      while todo != {}
        invariant todo <= names
        invariant removed == names - todo - seen
        decreases todo
      {
        var name :| name in todo;
        if name !in seen {
          removed := removed + {name};
        }
        todo := todo - {name};
      }
    }

    method HandleDeltaRequest(typeURL: string, req: Request)
      modifies this
      ensures states == old(states)[typeURL :=
                HandleRequest(Lookup(old(states), typeURL), req, mgr.nonce, ResourcesOf(mgr.resources, typeURL))]
    {
      var state := if typeURL in states then states[typeURL] else StreamState(req.initial, {});
      if req.nonce == 0 {
      } else if req.error {
      } else if req.nonce == mgr.nonce {
        var rs := ResourcesOf(mgr.resources, typeURL);
        var versions: Versions := map[];
        for i := 0 to |rs|
          invariant versions == VersionsOf(rs[..i])
        {
          assert rs[..i + 1][..i] == rs[..i];
          versions := versions[rs[i].name := rs[i].version];
        }
        assert rs[..|rs|] == rs;
        state := state.(versions := versions);
      }
      state := state.(unsubscribed := state.unsubscribed - req.subscribe);
      state := StreamState(state.versions - req.unsubscribe, state.unsubscribed + req.unsubscribe);
      states := states[typeURL := state];
    }
  }

  // --- What a computed difference means ---

  lemma {:induction false} VersionsOfMember(rs: seq<Resource>, name: string)
    ensures name in VersionsOf(rs) <==> exists i :: 0 <= i < |rs| && rs[i].name == name
    ensures name in VersionsOf(rs) ==>
              exists i :: 0 <= i < |rs| && rs[i] == Resource(name, VersionsOf(rs)[name])
  {
    if rs != [] {
      var init := rs[..|rs| - 1];
      VersionsOfMember(init, name);
      assert rs[|rs| - 1] == Resource(rs[|rs| - 1].name, rs[|rs| - 1].version);
    }
  }

  /** Only the changed resources are sent, and each with its current version. */
  lemma {:induction false} OutdatedVersions(rs: seq<Resource>, client: Versions, name: string)
    requires UniqueNames(rs)
    ensures Lookup(VersionsOf(Outdated(rs, client)), name)
         == if name in VersionsOf(rs) && VersionsOf(rs)[name] != VersionAt(client, name)
            then Some(VersionsOf(rs)[name]) else None
  {
    if rs != [] {
      var init, r := rs[..|rs| - 1], rs[|rs| - 1];
      OutdatedVersions(init, client, name);
      VersionsOfMember(init, r.name);
      var sent := Outdated(init, client);
      if r.version != VersionAt(client, r.name) {
        assert (sent + [r])[..|sent|] == sent;
      } else {
        assert Outdated(rs, client) == sent;
      }
    }
  }

  /** Per name, accepting a delta gives the snapshot's entry unless an empty version hides it. */
  lemma DeltaPointwise(client: Versions, rs: seq<Resource>, name: string)
    requires UniqueNames(rs)
    ensures var hidden := name in VersionsOf(rs) && VersionsOf(rs)[name] == "" && name !in client;
            && (Lookup(ApplyDelta(client, DeltaOf(client, rs)), name) == Lookup(VersionsOf(rs), name) <==> !hidden)
            && (Mentions(DeltaOf(client, rs), name)
                <==> Lookup(client, name) != Lookup(VersionsOf(rs), name) && !hidden)
            && (Mentions(DeltaOf(client, rs), name) ==>
                  Lookup(VersionsOf(DeltaOf(client, rs).resources), name) == Lookup(VersionsOf(rs), name))
  {
    OutdatedVersions(rs, client, name);
  }

  /**
   A computed delta brings the recorded versions to exactly the current snapshot
   if and only if no resource with an empty version is missing from them.
   */
  lemma DeltaReachesSnapshot(client: Versions, rs: seq<Resource>)
    requires UniqueNames(rs)
    ensures ApplyDelta(client, DeltaOf(client, rs)) == VersionsOf(rs)
       <==> forall r :: r in rs && r.version == "" ==> r.name in client
  {
    var reached := ApplyDelta(client, DeltaOf(client, rs));
    if forall r :: r in rs && r.version == "" ==> r.name in client {
      forall name
        ensures Lookup(reached, name) == Lookup(VersionsOf(rs), name)
      {
        DeltaPointwise(client, rs, name);
        VersionsOfMember(rs, name);
      }
      SameLookups(reached, VersionsOf(rs));
    } else {
      var r :| r in rs && r.version == "" && r.name !in client;
      DeltaPointwise(client, rs, r.name);
      VersionsOfMember(rs, r.name);
    }
  }

  predicate NonEmptyVersions(rs: seq<Resource>) {
    forall r :: r in rs ==> r.version != ""
  }

  /** The server stays silent exactly when the recorded versions are the snapshot. */
  lemma SilentIffCurrent(client: Versions, rs: seq<Resource>)
    requires UniqueNames(rs) && NonEmptyVersions(rs)
    ensures EmptyDelta(DeltaOf(client, rs)) <==> client == VersionsOf(rs)
  {
    DeltaReachesSnapshot(client, rs);
    if client == VersionsOf(rs) && !EmptyDelta(DeltaOf(client, rs)) {
      var sent := Outdated(rs, client);
      VersionsOfMember(sent, sent[0].name);
      OutdatedVersions(rs, client, sent[0].name);
    }
  }
}
