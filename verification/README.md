# Pomerium protocols and indexes in Dafny

A model of the protocols, indexes and codecs that Pomerium implements itself, and
proofs of what they promise over every run, every input or every interleaving.
`dafny verify dfyconfig.toml` checks the whole project.

Where the source updates things in place (the syncer, the server, the evaluator
store, the xDS manager and its streams, the registry, the signal, the scheduler,
the identity manager, the Azure collection, signed URLs) the model has a class
whose methods are proved against functions on values. Protocols are step systems
built from the same functions, so that a lemma about all runs of a system speaks
about the methods too. Clocks, random numbers, network answers and remote calls
are parameters; the endless loops of the source become every finite run.

## The parts

**Databroker replication** (`Records`, `EvaluatorStore`, `Syncer`,
`DataBrokerServer`, `Replication`, `SyncRuns`). Backends are append-only logs
numbered from one; a server announces a version and reads a backend; the syncer collects a
snapshot and then takes consecutive changes. Snapshots may be cut off anywhere,
streams may drop, a stream may deliver any record of its log in any order, and
the server process may restart. `ReplicaFollowsLog` says that whenever the syncer names a server version, its
replica is exactly the first `recordVersion` changes of that incarnation's log,
restricted to the selected type. Assumed: `GetAll` returns records that stand for
a prefix of the log, new server versions are fresh, no client writes the server's
own version record, and the syncer is the only writer of the store. `LoopFollowsLog`
carries this over to the syncer's own loop: whatever a server may answer it, running
it is a run of the system. The code does not give the promise in one case: when
`initVersion` cannot read the version of a newly connected backend it keeps the old
version. `SafeExactly` shows that this is the only way to lose it: a step is safe if
and only if no continuation by safe steps lets the replica leave its log, unless the
log that the version stands for already has 2^64 - 1 records and cannot be outgrown.
`StaleVersionMixesLogs` is such a run from the start.

**Delta xDS** (`XdsManager`, `XdsLane`, `DeltaXds`, `XdsFlight`,
`DeltaXdsLimits`, `XdsCredit`). A lane is one type of one stream: queued requests
and responses, the server's record of the client, and what the client really holds.
Requests of different types may overtake each other, which includes every order the code
allows. `Converges` needs unique names, non-empty versions, every type in every
snapshot, and snapshots installed only while nothing waits for an ACK. At rest the
server then records the snapshot, and the client holds it except for names it
unsubscribed from and has not been sent again. Client and snapshot agree if and
only if there are no such names in the snapshot, which is always so if the client
never rejected a response. `UnpacedInstallDiverges` and
`RejectAfterUnsubscribeDiverges` are runs that end out of agreement when a
snapshot is installed too early and when a client unsubscribes and then rejects.
For a client that never unsubscribes, pacing can be relaxed: a snapshot may be
installed over responses under way if and only if no name whose state at the client
is or may become other than recorded returns to its recorded version
(`HarmlessExactly`, of which pacing is a special case by `QuietIsHarmless`); `HarmlessInstallCanDiverge` shows that unsubscribes have to be
excluded. With no condition on what is installed and when,
`CreditIsEarned` says what the server may believe, and `NoLostUpdate` that an idle
stream, also one that waits for an answer of its client, has last compared what it
records with the current snapshot, for every type that the snapshot has. A type that
a new snapshot drops is compared again only when its client sends something, because
the change signal is passed on for the types of the snapshot only; what is recorded
for it at rest is right exactly if it is empty (`RestRecordsExactly`,
`DroppedTypeIsForgotten`).

**Signals and the registry** (`Signal`, `Registry`). Reports, sweeps, broadcasts
that fill one channel at a time, binds, receives and reads interleave freely. The
channels are those of the signal: the steps use its functions, and `BroadcastRuns`
shows that a broadcast step by step is the signal's own method.

**Sessions** (`Scheduler`, `SessionKeys`, `SessionManager`). The two trees are
sets of items in which two items share a place when neither is less than the
other. The drain loop's measure is the set of keys due at or before `now`; it
needs a positive cool-off, and `NoCoolOffNoProgress` is a state that repeats
without one. Termination does not need separator-free user ids; exact
scheduling does, as `SharedKeyMisschedules` shows.

**Azure directory** (`AzureDelta`, `AzureGroups`). Every batch of delta entries
acts on each group through a normal form, which makes replaying it idempotent.
Nested membership is reachability over paths.

**Routes** (`HostPort`, `Routes`). Host splitting follows the standard library,
brackets and repeated colons included. Agreement between proxy and authorizer is
proved under the exact condition: no spelled-out default port, and a path that
has the prefix when both are given. For every configuration, each served domain is
in exactly the chain of its own server name if and only if every served URL keeps
its name (`KeepsName`): with a port of its own it always does, on the default port
when its hostname has at most one colon. So an IPv6 source on the default port
breaks it: its domain without port is left out of the chain of its server name,
which holds only the domain with port. It also matches none of its own domains, so
that its policy has no route in any of its virtual hosts, unless the default port is
spelled out; `MatchesAllExactly` says which URLs match all their domains.

**Codecs** (`CookieStore`, `StringSlice`, `DirectoryMerge`, `Claims`, `Query`,
`SignedUrl`, `SignedText`). Some promises hold only under a condition that is proved exact:
a chunked cookie loads if and only if it has at most six chunks and no earlier
save left a part behind its last one (the limit constant is five, and the first
chunk is not counted); an unchunked one loads if and only if it does not start with
the canary byte, or is all canary bytes and an old part restores the one lost; the
token loop yields the flattening of a document whose keys differ from its scalars if
and only if arrays and objects occur only as the last value of an object; claims
flatten alike in every iteration order if and only if leaves that share a dotted key
have the same value; and a directory merge yields the fetched directory if and only
if no entry looks up to date in the cache while the databroker has something else.
The last one fails after a deletion, because a deletion never leaves the cache.
A signature is good for one URL only: `ValidatesExactly` says that a URL carrying it
is accepted exactly when nothing but the time has changed, and then in the window.

## Model

| member | source | states |
|---|---|---|
| Records.FoldSelect | internal/databroker/server.go:273-284 | filtering the changes by type and then applying them gives the filtered result of applying all of them |
| Records.ReplicaSnoc | pkg/grpc/databroker/syncer.go:158-161 | the next change extends the filtered replica exactly when its type is selected |
| Records.LastRecordDecides | authorize/evaluator/store.go:110-124 | for every log: the last of the first n records of a type and id decides what the replica holds under it, nothing if that one is deleted or undecodable, if there is none, or if the type is not selected |
| EvaluatorStore.Store.ClearRecords | authorize/evaluator/store.go:67-72 | nothing can be read any more |
| EvaluatorStore.Store.GetRecordData | authorize/evaluator/store.go:76-86 | reading the nested map agrees with the flat view, for missing types, ids and undecodable data too |
| EvaluatorStore.Store.UpdateRecord | authorize/evaluator/store.go:110-124 | what can be read changes at the record's type and id only: nothing when it is deleted, else its data |
| EvaluatorStore.Store.UpdateRecords | authorize/sync.go:32-35 | a batch is applied in order |
| Syncer.InitialSync | pkg/grpc/databroker/databroker.go:40-72 | all records in order and the last versions message on a clean end, nothing on an error |
| Syncer.Syncer.Init | pkg/grpc/databroker/syncer.go:109-128 | an error changes nothing; otherwise replica and both versions come from the snapshot alone |
| Syncer.Syncer.Sync | pkg/grpc/databroker/syncer.go:130-163 | consecutive changes are applied until an abort, an error or a gap; aborts and gaps forget the server version |
| SyncRuns.LoopIsRun | pkg/grpc/databroker/syncer.go:84-163 | for every sequence of answers a server may give (snapshots cut off anywhere, aborts, failures, records of the log in any order, with other steps in between), the loop's state is the syncer of a legal, safe run of the replication system, which alternates snapshots and syncs as the server version dictates |
| SyncRuns.LoopFollowsLog | pkg/grpc/databroker/syncer.go:84-163 | so after the loop the replica is exactly the first recordVersion changes of its incarnation's log, filtered by type |
| SyncRuns.RunServed | pkg/grpc/databroker/syncer.go:84-107 | the same for the syncer object and its store |
| DataBrokerServer.Server.GetBackend | internal/databroker/server.go:297-319 | connects lazily and returns backend and version together, or neither |
| DataBrokerServer.Server.InitVersion | internal/databroker/server.go:54-86 | the stored version is used, a missing one is created and has to be put, and every failure keeps the old one |
| DataBrokerServer.Server.UpdateConfig | internal/databroker/server.go:89-109 | an unchanged config changes nothing; a new one drops the backend and initialises the version |
| DataBrokerServer.SyncLatest | internal/databroker/server.go:268-294 | a prefix of the selected records followed by the versions is sent, and all of it exactly when no send fails |
| DataBrokerServer.CollectLatestReplies | pkg/grpc/databroker/databroker.go:50-71 | collecting a complete reply stream gives back the selected records and both versions |
| DataBrokerServer.CollectTruncated | internal/databroker/server.go:286-294 | a truncated reply stream carries no server version, because the versions come last |
| Replication.FinishLatestReplicates | pkg/grpc/databroker/syncer.go:109-128 | after a snapshot, complete or truncated, the replica matches the log it claims |
| Replication.ReceiveReplicates | pkg/grpc/databroker/syncer.go:151-161 | whatever record of the log arrives, the replica stays a prefix of the log or the server version is forgotten |
| Replication.StepKeepsInv | internal/databroker/server.go:44-295 | every safe step of server, network and client, process restarts included, keeps the replication invariant |
| Replication.ReplicaFollowsLog | pkg/grpc/databroker/syncer.go:84-163 | after every safe run, a non-zero server version means the replica is exactly the first recordVersion changes of that incarnation's log, filtered by type |
| Replication.SyncCatchesUp | pkg/grpc/databroker/syncer.go:140-162 | a stream that delivers every change from n to m brings the replica from n to m and keeps the server version |
| Replication.SyncEnds | pkg/grpc/databroker/syncer.go:140-163 | after consecutive changes an abort or a gap forgets the server version, a failure keeps it, and all three keep the replica and its record version |
| Replication.SafeExactly | internal/databroker/server.go:54-109 | a step is safe (the version could be read or created, or is zero or already that backend's) if and only if no continuation by safe steps ends with a replica that is no prefix of its log |
| Replication.UnboundDiverges | internal/databroker/server.go:73-75 | whatever the client is doing, a server that reads a backend under a foreign version can be followed into a wrong replica |
| Replication.StaleVersionMixesLogs | internal/databroker/server.go:73-75 | for every type filter, a run from the start in which a failed version read leads to a replica that is no prefix of its log |
| XdsManager.Stream.GetDeltaResponse | internal/controlplane/xdsmgr/xdsmgr.go:54-86 | the difference between recorded versions and snapshot under the current nonce, nothing when it is empty or the type is unknown |
| XdsManager.Stream.HandleDeltaRequest | internal/controlplane/xdsmgr/xdsmgr.go:88-144 | only a current ACK replaces the recorded versions, unsubscribed names are dropped, other types are untouched |
| XdsManager.DeltaPointwise | internal/controlplane/xdsmgr/xdsmgr.go:67-79 | per name, what a delta mentions and what a client has after applying it |
| XdsManager.DeltaReachesSnapshot | internal/controlplane/xdsmgr/xdsmgr.go:63-85 | applying the delta to the recorded versions yields exactly the snapshot if and only if no resource with an empty version is missing from them |
| XdsManager.SilentIffCurrent | internal/controlplane/xdsmgr/xdsmgr.go:81-83 | no response is sent if and only if the recorded versions are the snapshot |
| XdsLane.AcceptKeeps | internal/controlplane/xdsmgr/xdsmgr.go:116-122 | a client applying a response and sending its ACK, possibly with new unsubscribes, keeps the lane invariant |
| XdsLane.TakeKeeps | internal/controlplane/xdsmgr/xdsmgr.go:171-173 | handling any queued request keeps the lane invariant |
| XdsLane.ProduceKeeps | internal/controlplane/xdsmgr/xdsmgr.go:182-193 | computing and sending a response keeps the lane invariant |
| XdsLane.RestingLane | internal/controlplane/xdsmgr/xdsmgr.go:54-144 | what the invariant means for one type at rest: record, silence and exactly what the client holds |
| XdsLane.InstallKeeps | internal/controlplane/xdsmgr/xdsmgr.go:222-229 | a new snapshot keeps the invariant when nothing waits for an ACK |
| DeltaXds.StepKeeps | internal/controlplane/xdsmgr/xdsmgr.go:165-195 | every paced step of manager, signal, stream loop and client keeps the invariant for all types |
| DeltaXds.Converges | internal/controlplane/xdsmgr/xdsmgr.go:54-144 | after every paced run at rest the recorded versions are the snapshot, no response would be produced, and the client holds the snapshot minus the names it unsubscribed from and was not sent again: it agrees if and only if none of those is in the snapshot, and always if it never rejected |
| DeltaXds.NoLostUpdate | internal/controlplane/xdsmgr/xdsmgr.go:165-229 | in every run, whatever snapshots are installed and when, and with messages under way: with nothing queued the last comparison was of the present record, and with an empty channel and no update owed it was with the present snapshot under the present nonce, for every type the snapshot has |
| DeltaXds.RestRecordsExactly | internal/controlplane/xdsmgr/xdsmgr.go:165-195 | in every run, what a stream at rest records for a type is the current snapshot if and only if the snapshot has the type or nothing is recorded, given unique names and non-empty versions in the current snapshot of the type |
| DeltaXds.AgreesWithoutUnsubscribes | internal/controlplane/xdsmgr/xdsmgr.go:54-144 | in paced runs of a client that never unsubscribes, client, record and snapshot agree at rest, rejected responses or not |
| XdsFlight.AgreesInFlight | internal/controlplane/xdsmgr/xdsmgr.go:54-144 | the same when snapshots are installed over responses under way, as long as no name off record returns to its recorded version |
| XdsFlight.HarmlessExactly | internal/controlplane/xdsmgr/xdsmgr.go:222-229 | that condition on an install is exact: it holds if and only if the type cannot come to rest out of agreement afterwards |
| DeltaXdsLimits.HarmlessInstallCanDiverge | internal/controlplane/xdsmgr/xdsmgr.go:106-141 | a run of a client that unsubscribes while an install that meets the condition is done over a response that brings the name back |
| DeltaXdsLimits.DroppedTypeIsForgotten | internal/controlplane/xdsmgr/xdsmgr.go:174-180 | a run whose next snapshot lacks the type, after which the stream rests with the old resources recorded and at the client |
| DeltaXdsLimits.UnpacedInstallDiverges | internal/controlplane/xdsmgr/xdsmgr.go:222-229 | a run with an update over an unacknowledged response that rests with a removed resource still at the client |
| DeltaXdsLimits.RejectAfterUnsubscribeDiverges | internal/controlplane/xdsmgr/xdsmgr.go:106-141 | a paced run in which a client that unsubscribed and then rejected rests without a resource the server credits it with |
| XdsCredit.CreditIsEarned | internal/controlplane/xdsmgr/xdsmgr.go:88-144 | over every history, the recorded versions are the snapshot of the last ACK that was current when it arrived, or the initial claim, minus the names unsubscribed since |
| XdsCredit.EveryRecordIsCredited | internal/controlplane/xdsmgr/xdsmgr.go:92-104 | every recorded type has such an ACK or first request |
| XdsCredit.UnsubscribedExactly | internal/controlplane/xdsmgr/xdsmgr.go:126-141 | over every history, a name counts as unsubscribed if and only if its last unsubscribe was not followed by a subscribe |
| Signal.Signal.Broadcast | internal/signal/signal.go:22-31 | every bound channel is rung once and ends full, and none is added or removed |
| Signal.RingAllFills | internal/signal/signal.go:22-31 | whatever the order, exactly the rung channels change, and a full one stays full |
| Registry.BroadcastRuns | internal/signal/signal.go:22-48 | the registry's broadcast steps, one channel at a time in any order, end in the channels that the signal's method leaves |
| Registry.Server.RmExpired | internal/registry/inmemory.go:88-100 | a service stays, with its expiry, if and only if that is not before now, and a removal is reported if and only if some service had expired |
| Registry.Server.Register | internal/registry/inmemory.go:117-124 | the named services get the new expiry, and an insertion is reported if and only if the services changed |
| Registry.Server.Report | internal/registry/inmemory.go:111-128 | a named service is registered until clock plus ttl unless the sweep is later, any other one stays if and only if its expiry is not before the sweep, and an update is reported if and only if the services changed on the way |
| Registry.RegisteredLookup | internal/registry/inmemory.go:118-124 | a report refreshes exactly the named services |
| Registry.Server.GetServices | internal/registry/inmemory.go:190-201 | each registered service of the wanted kinds once, all of them for an empty filter |
| Registry.StepKeeps | internal/registry/inmemory.go:46-79 | a waiting watcher is up to date or has a wake-up coming, whatever step is taken |
| Registry.NoLostWakeup | internal/registry/inmemory.go:148-181 | in every interleaving, a watcher waiting on an empty channel while no broadcast is owed or in progress has read the current services under its filter |
| Scheduler.ByTimeTrichotomy | internal/scheduler/scheduler.go:27-37 | the time order is total and asymmetric, and only equal items are unordered |
| Scheduler.ByTimeTransitive | internal/scheduler/scheduler.go:27-37 | the time order is transitive |
| Scheduler.DeletesExactly | internal/scheduler/scheduler.go:18-37 | deleting removes one item from the time tree and the item of that key from the key tree |
| Scheduler.Scheduler.Add | internal/scheduler/scheduler.go:54-67 | both trees hold the same pairs, one per key, and the key's due time is replaced |
| Scheduler.Scheduler.Remove | internal/scheduler/scheduler.go:70-76 | both trees lose exactly that key |
| Scheduler.Scheduler.Next | internal/scheduler/scheduler.go:79-85 | the pair with the earliest time, the least key among several, or the maximum time when empty |
| SessionKeys.FromToKey | internal/identity/manager/misc.go:12-25 | parsing undoes the key if and only if the user id has no separator |
| SessionManager.NextRefresh | internal/identity/manager/data.go:64-93 | the earlier of the set expiries (the session's, the token's minus the grace period), but not before the cool-off |
| SessionManager.NextRefreshBounds | internal/identity/manager/data.go:64-93 | it is one of these three times or the zero time, never after a set expiry unless the cool-off demands it, and the cool-off only if nothing is set or something set is not later |
| SessionManager.RefreshTimes | internal/identity/manager/data.go:64-93 | its value for sessions with both expiries, with one, and with none, the zero time counting as none |
| SessionManager.UpdateKeeps | internal/identity/manager/manager.go:536-552 | a record update or deletion leaves every stored session scheduled right, also one whose schedule was wrong |
| SessionManager.RefreshKeeps | internal/identity/manager/manager.go:368-444 | a refresh attempt that stores, gives up at any point or finds no session keeps every stored session scheduled right |
| SessionManager.RefreshStepsKeep | internal/identity/manager/manager.go:166-178 | any sequence of drained keys keeps every stored session scheduled right |
| SessionManager.SessionsStayScheduled | internal/identity/manager/manager.go:143-178 | after every sequence of updates, deletions, clears and drains, each stored session is scheduled at exactly its next refresh, or not at all if its last attempt returned early |
| SessionManager.DrainShrinks | internal/identity/manager/manager.go:166-178 | draining a key removes it from the due keys and makes no other key due |
| SessionManager.NoCoolOffNoProgress | internal/identity/manager/data.go:86-90 | without a cool-off a state that the drain loop repeats |
| SessionManager.SharedKeyMisschedules | internal/identity/manager/misc.go:12-14 | of two stored sessions with the same key the first is scheduled right if and only if both are due at the same time |
| SessionManager.MisscheduledRun | internal/identity/manager/manager.go:536-552 | two updates after which a stored session is scheduled wrong, with a separator in a user id |
| SessionManager.Manager.Clear | internal/identity/manager/manager.go:143-147 | sessions, users and the cached directory are forgotten, scheduled refreshes are not |
| SessionManager.Manager.OnUpdateSession | internal/identity/manager/manager.go:536-552 | the session is replaced or removed and rescheduled |
| SessionManager.Manager.RefreshSession | internal/identity/manager/manager.go:368-444 | a new token is kept in the stored session even when a later part of the attempt fails, and a deletion is requested exactly for expired sessions and lasting failures |
| SessionManager.AttemptKeepsToken | internal/identity/manager/manager.go:402-444 | what an attempt leaves of an unexpired session, by outcome: unchanged, with the new token, stored anew or removed |
| SessionManager.AttemptSkips | internal/identity/manager/manager.go:385-400 | an expired session and one without a token stay as they are |
| SessionManager.DeletesExactly | internal/identity/manager/manager.go:385-430 | a deletion is requested if and only if the session has expired, or has a token and the refresh or the user info failed for good |
| SessionManager.DeletedIsUnscheduled | internal/identity/manager/manager.go:385-438 | a session whose deletion was requested stays stored and is no longer scheduled |
| SessionManager.DeletionComesBackEmpty | pkg/grpc/session/session.go:18-29 | the record of a deletion carries no ids, so the update it causes removes no stored session with an id and changes no other schedule |
| SessionManager.Manager.DrainSessions | internal/identity/manager/manager.go:166-178 | terminates, drains exactly the due keys once each, keeps every stored session scheduled right, and returns a wake-up no later than the earliest scheduled session |
| SessionManager.Manager.RefreshTurn | internal/identity/manager/manager.go:153-178 | afterwards no session is due, and the wake-up is the first of the earliest session, the directory refresh and ten minutes |
| AzureDelta.DeltaCollection.ApplyGroupPage | internal/directory/azure/delta.go:94-120 | the page's entries are applied in order |
| AzureDelta.GroupEntryDecides | internal/directory/azure/delta.go:94-120 | an entry removes its group, or gives it the new name and merges its members; no other group changes |
| AzureDelta.LastMemberEntryDecides | internal/directory/azure/delta.go:107-118 | the last entry of a member decides whether and as what it is a member |
| AzureDelta.SyncOfPages | internal/directory/azure/delta.go:74-132 | for every sequence of pages, ended by a page without next link or by a failure: exactly their entries in order are applied, the delta link is that of the last page or none, and the links are asked for in order |
| AzureDelta.DeltaCollection.SyncGroups | internal/directory/azure/delta.go:74-132 | everything delivered before an error or the last page is applied; it asks for the saved link or the full listing and then for the next links; the delta link moves only on success, so a failed sync is repeated from the same URL |
| AzureDelta.DeltaCollection.SyncUsers | internal/directory/azure/delta.go:134-177 | the same for users |
| AzureDelta.BatchEffect | internal/directory/azure/delta.go:94-120 | a batch leaves a group alone, overlays its members, or replaces it, depending on the batch only |
| AzureDelta.ReplayIdempotent | internal/directory/azure/delta.go:94-120 | applying a batch twice is applying it once |
| AzureDelta.FailuresLeaveNoTrace | internal/directory/azure/delta.go:74-132 | any number of syncs failing after any prefix, then a full one, end like one uninterrupted sync, however they were paged |
| AzureDelta.DeletedGroupStartsOver | internal/directory/azure/delta.go:95-106 | after a deletion nothing of the group's earlier state survives |
| AzureDelta.EmailOfExternal | internal/directory/azure/delta.go:259-277 | the address of an external user is recovered from their principal name |
| AzureDelta.EmailAsGiven | internal/directory/azure/delta.go:259-277 | a mail address is used as it is, and so is a principal name with neither marker nor underscore |
| AzureDelta.LastUserEntryDecides | internal/directory/azure/delta.go:154-165 | a user is what their last entry says, or unchanged without one |
| AzureDelta.UserReplayAfterPrefix | internal/directory/azure/delta.go:134-177 | an interrupted user sync leaves no trace either |
| AzureGroups.GroupLookup.AddGroup | internal/directory/azure/group.go:68-75 | the parent is added to exactly the given children |
| AzureGroups.Search | internal/directory/azure/group.go:86-105 | terminates on every graph and finds exactly the reachable groups |
| AzureGroups.GroupLookup.GetGroupIDsForUser | internal/directory/azure/group.go:86-107 | the strictly sorted list of exactly the groups reachable from the user |
| AzureGroups.BelongsToExisting | internal/directory/azure/delta.go:183-199 | users only belong to groups that exist |
| AzureGroups.BelongsExactly | internal/directory/azure/group.go:68-107 | a user belongs to a group if and only if they are a user member of it, or belong to a group that is a group member of it |
| AzureGroups.ApplyGroupsWellKeyed | internal/directory/azure/delta.go:94-120 | every sync keeps groups and members under their own ids |
| AzureGroups.BuildLookup | internal/directory/azure/delta.go:183-199 | the lookup holds exactly the direct user and group memberships |
| AzureGroups.CurrentUserGroups | internal/directory/azure/delta.go:180-218 | both lists sorted without duplicates, one entry per known group and user, each user with exactly the groups they belong to |
| HostPort.DomainsOfPlain | internal/urlutil/url.go:86-107 | the domains of a URL without IPv6 literal: its host alone, or with and without the default port |
| HostPort.DomainsByScheme | internal/urlutil/url.go:86-107 | a host without port gets port 80 for http and 443 otherwise, and TCP URLs keep their host |
| HostPort.MatchesAllExactly | internal/controlplane/xds_listeners.go:781-806 | for every URL: it matches all domains derived from it if and only if it is a TCP URL, has its own port, spells out the default port with a hostname that does not split again, or has a host without brackets that is its hostname |
| HostPort.PlainMatchesAll | internal/controlplane/xds_listeners.go:781-806 | a URL without IPv6 literal does |
| HostPort.IPv6MatchesNothing | internal/controlplane/xds_listeners.go:781-806 | an IPv6 source on the default port, not spelled out, matches none of its domains |
| HostPort.StripPortIsTLSName | internal/urlutil/url.go:23-32 | for every string, both ways of dropping a port agree if and only if there is no colon or the port can be split off |
| HostPort.KeepsNameExactly | internal/urlutil/url.go:86-107 | for every URL, that holds of all its domains if and only if it has its own port, or a hostname with at most one colon and no stray brackets, or is a TCP URL whose host splits |
| HostPort.IPv6Domains | internal/urlutil/url.go:86-107 | an IPv6 source on the default port has two domains with the same server name of which only one is stripped to it |
| Routes.BuildPolicyRoutes | internal/controlplane/xds_routes.go:263-332 | one route per policy that matches the domain, in configuration order |
| Routes.GetMatchingPolicy | authorize/grpc.go:247-257 | the first policy that matches the rebuilt request URL |
| Routes.SelectedPolicy | authorize/grpc.go:247-300 | for policies without regular expression: the least index whose source host is the request's host, whose prefix begins the path and whose path it is, whatever the query |
| Routes.PathWithoutQuery | authorize/grpc.go:292-298 | the path is what comes before the first question mark |
| Routes.DefaultPortIsDropped | authorize/grpc.go:284-291 | a request to the default port is matched like one without a port |
| Routes.HostsAgree | config/policy.go:507-509 | comparing hosts with ports filled in and comparing the normalised host are the same without a spelled-out default port |
| Routes.PolicyAgreesExactly | config/policy.go:501-531 | proxy and authorizer agree on all requests to a policy if and only if it has no spelled-out default port and its path has its prefix when both are given |
| Routes.RoutesAgree | internal/controlplane/xds_routes.go:434-458 | the first matching route and the first matching policy have the same index |
| Routes.ProxyAndAuthorizerAgree | authorize/grpc.go:247-300 | a request that reaches a policy route through server name, virtual host and the proxy's own routes is authorized against the same policy |
| Routes.AuthorizedPolicyIsRouted | internal/controlplane/xds_listeners.go:301-344 | conversely, the authorizer's policy is the one routed to when the server name belongs to the host |
| Routes.GetAllRouteableDomains | internal/controlplane/xds_listeners.go:685-746 | exactly the domains of the URLs served on the address, strictly sorted |
| Routes.ServedExactly | internal/controlplane/xds_listeners.go:708-738 | which URLs are served on an address: authenticate and, for a proxy, policies and forward-auth on the main one, authorize and databroker on the other |
| Routes.ForwardAuthIsServed | internal/controlplane/xds_listeners.go:732-736 | the domains of the forward-auth URL of a proxy are routeable |
| Routes.GetAllTLSDomains | internal/controlplane/xds_listeners.go:748-770 | exactly the server names of the domains, strictly sorted |
| Routes.GetRouteableDomainsForTLSDomain | internal/controlplane/xds_listeners.go:670-683 | the domains whose stripped host is the name, in order |
| Routes.BuildFilterChains | internal/controlplane/xds_listeners.go:248-284 | one chain per server name and a last one for all domains |
| Routes.ChainsPartitionExactly | internal/controlplane/xds_listeners.go:670-770 | for every configuration, each domain is in exactly the chain of its own server name if and only if every served URL keeps its name, and then the named chains partition the domains |
| Routes.PartitionedExactly | internal/controlplane/xds_listeners.go:670-770 | for every list of domains, each is in exactly one named chain and no chain is empty, if and only if the stripped names are the chain names |
| Routes.ServedChainsPartition | internal/controlplane/xds_listeners.go:248-284 | for every configuration without IPv6 literals the named chains partition its domains |
| Routes.IPv6IsNotInItsChain | internal/controlplane/xds_listeners.go:670-683 | in every configuration with an IPv6 source on the default port, its domain without port is not in the chain of its server name, and the chains do not partition the domains unless its first group is a served name |
| Routes.IPv6PartitionExactly | internal/controlplane/xds_listeners.go:670-683 | when it is the only served URL that does not keep its name, the chains partition the domains if and only if its first group is a served name; its domain without port is then in that other chain |
| Routes.BorrowedName | internal/controlplane/xds_listeners.go:670-683 | for instance a proxy with one policy for the literal and one for its first group |
| Routes.IPv6ChainsDoNotPartition | internal/controlplane/xds_listeners.go:248-284 | alone in a configuration, every such source breaks the partition |
| Routes.LoopbackChainsDoNotPartition | internal/controlplane/xds_listeners.go:726-731 | for instance a proxy whose only policy is https://[::1] |
| Routes.PolicyDomainsAreServed | internal/controlplane/xds_listeners.go:726-731 | the domains of every proxied policy are routeable |
| Routes.PolicyInVirtualHost | internal/controlplane/xds_routes.go:266-270 | a policy has its route in a virtual host if and only if its source matches the domain |
| Routes.PolicyInItsVirtualHosts | internal/controlplane/xds_routes.go:266-270 | a policy has its route in each virtual host named by its source if and only if the source matches all its domains |
| Routes.IPv6PolicyHasNoRoute | internal/controlplane/xds_routes.go:266-270 | a policy with an IPv6 source on the default port, not spelled out, has no route in any virtual host named by its source |
| Routes.RoutesInOrder | internal/controlplane/xds_routes.go:263-332 | the routes of a virtual host are strictly ordered by policy index |
| Routes.RouteBelongs | internal/controlplane/xds_routes.go:266-272 | every route comes from a policy whose source matches the domain, with that policy's matcher |
| CookieStore.Chunk | internal/sessions/cookie/cookie_store.go:207-216 | the pieces given by the recursive definition |
| CookieStore.ChunksJoin | internal/sessions/cookie/cookie_store.go:207-216 | the pieces concatenate back to the value |
| CookieStore.ChunkSizes | internal/sessions/cookie/cookie_store.go:207-216 | no piece is empty and all but the last have full size |
| CookieStore.ChunkCount | internal/sessions/cookie/cookie_store.go:207-216 | there are as many pieces as the length needs |
| CookieStore.SetCookies | internal/sessions/cookie/cookie_store.go:163-181 | one cookie when it fits, else one per piece with canary and part numbers |
| CookieStore.SaveFrame | internal/sessions/cookie/cookie_store.go:163-181 | every other cookie stays as it was |
| CookieStore.WrittenCookiesFit | internal/sessions/cookie/cookie_store.go:163-181 | a cookie written whole fits 3800 bytes with everything that goes with it, a part has at most 3800, and the first one more, a percent sign |
| CookieStore.LoadChunkedCookie | internal/sessions/cookie/cookie_store.go:183-205 | the plain value, or the pieces of consecutive part cookies up to the limit |
| CookieStore.PartsInJar | internal/sessions/cookie/cookie_store.go:168-180 | after every sequence of saves the jar holds as many part cookies as the longest of them left |
| CookieStore.ChunkedSaveLoads | internal/sessions/cookie/cookie_store.go:163-205 | a chunked value loads if and only if it has at most six pieces and no earlier save left a part behind its last one |
| CookieStore.LastSaveLoads | internal/sessions/cookie/cookie_store.go:163-205 | after every sequence of saves, loading returns the last value that fits |
| CookieStore.LoadedAfterPlainSave | internal/sessions/cookie/cookie_store.go:183-205 | what loading returns after any history with an unchunked last save: the value, or without its leading canary byte and with the parts of older saves behind it |
| CookieStore.PlainSaveLoads | internal/sessions/cookie/cookie_store.go:163-205 | that is the value if and only if it does not start with the canary byte, or is nothing but canary bytes and the longest earlier save left one part that is that byte |
| StringSlice.UnmarshalJSON | config/custom.go:126-175 | the loop over tokens is the automaton, including the panic on an empty stack |
| StringSlice.RunVisits | config/custom.go:132-172 | on every document the automaton emits what a recursive visit emits, pops never fail and the stacks end as they began |
| StringSlice.DocumentFlattens | config/custom.go:126-175 | exactly the non-null array elements and object values, left to right, when arrays and objects occur only as last values of objects |
| StringSlice.ScalarOutput | config/custom.go:147-170 | as an array element and as an object value, null yields nothing, a boolean its name, a number and a string their text |
| StringSlice.KeysInPlaceExactly | config/custom.go:153-158 | every key is read as a key if and only if that condition holds |
| StringSlice.FlattensExactly | config/custom.go:126-175 | for a document in which no key is also a scalar, the output is the flattening if and only if that condition holds |
| StringSlice.MisreadKeyIsEmitted | config/custom.go:153-165 | otherwise some key of the document is in the output |
| StringSlice.DisplacedByItself | config/custom.go:153-165 | a document whose misread key equals the value it displaces, so that the output is right by accident |
| StringSlice.NestedValueShiftsKeys | config/custom.go:153-158 | a document in which a key is emitted instead of a value |
| DirectoryMerge.Merge | internal/identity/manager/manager.go:221-287 | one put for exactly the ids whose cached and fetched entries differ |
| DirectoryMerge.LastFetchedDecides | internal/identity/manager/manager.go:221-236 | of several fetched entries with one id the last counts, and no other id occurs |
| DirectoryMerge.AnyPutsApplied | internal/identity/manager/manager.go:238-255 | any emitted puts in any order: ids that were put have the fetched entry, all others the old one |
| DirectoryMerge.MergeYieldsFetched | internal/identity/manager/manager.go:294-366 | all puts yield exactly the fetched directory if and only if nothing looks up to date in the cache while the databroker differs |
| DirectoryMerge.AccurateCacheMerges | internal/identity/manager/manager.go:221-292 | with an accurate cache the merge yields the fetched directory |
| DirectoryMerge.DeletedEntryStaysDeleted | internal/identity/manager/manager.go:498-516 | an entry deleted and fetched again unchanged is not written again |
| Claims.Flatten | internal/identity/claims.go:70-95 | the map whose entries are those of the key-by-key definition, later entries overwriting earlier ones |
| Claims.SplitOfDotted | internal/identity/claims.go:81-83 | distinct dot-free paths have distinct keys |
| Claims.FlatAtIsLeaf | internal/identity/claims.go:70-95 | exactly one entry per path to a value that is no map, keyed by the dotted path, lists kept and scalars wrapped |
| Claims.LeafIsKept | internal/identity/claims.go:77-92 | under its dotted path a list is kept as it is and a scalar becomes a list of one |
| Claims.ReorderedLeaf | internal/identity/claims.go:70-95 | iterating the maps at any depth in another order changes no value at any path |
| Claims.OrderMattersExactly | internal/identity/claims.go:72-93 | for all claims: every iteration order, at any depth, gives the same entries if and only if leaves that share a dotted key have the same value |
| Claims.LeafCanWin | internal/identity/claims.go:72-93 | any leaf is the one kept under its dotted key in some iteration order |
| Claims.OrderDoesNotMatter | internal/identity/claims.go:72-93 | claims with dot-free keys flatten to the same map in every order |
| Claims.DotsCollide | internal/identity/claims.go:81-83 | with a dot in a key two orders of the same entries flatten differently |
| Query.UnescapeOfEscape | internal/urlutil/signed.go:36-41 | percent-decoding undoes percent-encoding (section 2.1 of RFC 3986) |
| Query.EscapeReserved | internal/urlutil/signed.go:36-41 | a space becomes a plus sign, any other reserved byte a percent sign and two capital hexadecimal digits |
| Query.ParseOfEncode | internal/urlutil/signed.go:58-64 | parsing the canonical query gives back every parameter with all its values |
| Decimal.ParseIntOfFormat | internal/urlutil/signed.go:112-130 | a formatted date parses back if it fits 64 bits |
| SignedUrl.SignedURL.Sign | internal/urlutil/signed.go:32-44 | the canonical query with dates and a signature over it and the dates |
| SignedUrl.SignedURL.ToString | internal/urlutil/signed.go:47-53 | signs once and renders the signed URL |
| SignedUrl.SignedURL.Validate | internal/urlutil/signed.go:56-92 | the verdict on signature, dates and window, and the canonical query left behind |
| SignedUrl.SignedURLValidates | internal/urlutil/signed.go:32-92 | parsing and validating a signed URL that had no signature parameter accepts exactly from a minute before issue to a minute after expiry, and says why otherwise |
| SignedText.ValidatesExactly | internal/urlutil/signed.go:56-99 | if authentication codes do not collide, a URL that carries a signature is accepted if and only if its base and all other parameters are those that were signed, from a minute before issue to a minute after expiry |
| SignedText.TextIsUnique | internal/urlutil/signed.go:94-99 | the authenticated text determines base, parameters and dates, although URL and date are not set apart |
| SignedText.OtherBaseIsRefused | internal/urlutil/signed.go:84-91 | a signed query is refused under any other scheme, host or path |
| SignedUrl.VerdictInOrder | internal/urlutil/signed.go:66-91 | the verdicts in order: dates, expiry, issue time, authentication code |
| SignedUrl.StaleSignatureFails | internal/urlutil/signed.go:36-41 | with a signature parameter already present it is never accepted, if authentication codes do not collide |

## Left out

- Storage backends: only the contract of the backend interface is used; Redis, the in-memory store and encryption are not part of this model.
- forceSyncSession and forceSyncUser write to the evaluator store outside the syncer.
- The identity manager's own replica: its clear and update messages use two channels whose order the code does not fix.
- XdsFlight.HarmlessExactly: clients that unsubscribe are not covered, because the condition does not suffice for them.
- XdsManager.Manager.Update and the signal's Bind and Unbind are modelled, but only the steps that use them state something.
- User refreshes in the identity manager: the user scheduler is never filled through record updates.
- Databroker Get, Put and Query as remote calls, offsets and limits: easy.
- AzureDelta.DeltaCollection.SyncUsers: entries carry the address that `Email` derives, instead of deriving it in the loop.
- AzureGroups.CurrentUserGroups: ids are sorted first and entries built in that order, instead of building and then sorting, which gives the same lists.
- XdsManager.Stream.GetDeltaResponse: removed names are a set, because the source lists them in map order.
- Routes.GetMatchingPolicy: a policy without a source URL is not modelled.
- Routes.PolicyAgreesExactly: agreement is for https requests and sources.
- Routes.GetAllRouteableDomains: the configured URLs are already parsed, so parse errors of options are not modelled.
- Regular-expression routes and CONNECT routes: both sides use different matching rules, so the agreement excludes them.
- The proxy's own routes, headers, timeouts and actions: only which path matches them matters, as a parameter.
- CookieStore.LastSaveLoads: the jar holds this store's cookies only; expiry, case folding of names and quoting are not modelled, and the size of the rest of the cookie is a parameter.
- DirectoryMerge.Merge: groups and users are opaque values; marshalling failures and the parallelism limit are not modelled.
- SignedUrl.SignedURL.Validate: the message authentication code (section 2 of RFC 2104) and base64 are uninterpreted; URLs have no fragment.
- Policy evaluation, certificates, encryption, HTTP handlers, identity providers, telemetry, process control and the command line.
