/** The identity manager's sessions, their scheduled refreshes and the drain loop. */
module SessionManager {
  import opened Options
  import opened Scheduler
  import opened SessionKeys
  import opened Times

  const MINUTE: Time := 60 * SECOND
  const MAX_WAIT: Time := 10 * MINUTE
  const UNIX_EPOCH: Time := 62_135_596_800 * SECOND

  datatype OAuthToken = OAuthToken(accessToken: string, expiresAt: Option<Time>)

  datatype SessionRecord = SessionRecord(
    userId: string, id: string, expiresAt: Option<Time>, oauthToken: Option<OAuthToken>)

  datatype Session = Session(record: SessionRecord, lastRefresh: Time, gracePeriod: Time, coolOff: Time)

  datatype Config = Config(gracePeriod: Time, coolOff: Time)

  /** How a refresh went, as far as it got. */
  datatype Outcome =
    | RefreshTemporary
    | RefreshFailed
    | UserInfoTemporary(token: OAuthToken)
    | UserInfoFailed(token: OAuthToken)
    | PutFailed(token: OAuthToken)
    | Stored(token: OAuthToken, deleted: bool)

  /** Everything one refresh attempt learns from outside: two clock readings, the config, the outcome. */
  datatype Attempt = Attempt(checked: Time, updated: Time, cfg: Config, outcome: Outcome)

  function IdOf(r: SessionRecord): SessionId {
    (r.userId, r.id)
  }

  /** The zero time counts as unset. */
  function Earlier(tm: Time, expiry: Time): Time {
    if tm == 0 || expiry < tm then expiry else tm
  }

  /** What the cases come to: one of three times, and the cool-off only when nothing later is asked for. */
  lemma NextRefreshBounds(s: Session)
    ensures var cool, session, token := s.lastRefresh + s.coolOff, s.record.expiresAt, TokenExpiry(s.record);
            var tm := NextRefresh(s);
            && cool <= tm
            && (cool < tm && IsSet(session) ==> tm <= session.value)
            && (cool < tm && IsSet(token) && token.value != s.gracePeriod ==> tm <= token.value - s.gracePeriod)
            && (|| tm == cool
                || (IsSet(session) && tm == session.value)
                || (IsSet(token) && tm == token.value - s.gracePeriod)
                || (tm == 0 && !IsSet(session) && !IsSet(token)))
            && (tm == cool ==>
                  || (!IsSet(session) && !IsSet(token))
                  || (IsSet(session) && session.value <= cool)
                  || (IsSet(token) && token.value - s.gracePeriod <= cool))
  {
  }

  /** The usual session, with both expiries; leaving one out or giving the zero time is the same. */
  lemma RefreshTimes(r: SessionRecord, token: OAuthToken, last: Time, grace: Time, cool: Time, x: Time, y: Time)
    requires x != 0 && y != 0 && y != grace && 0 <= last + cool
    ensures var full := r.(expiresAt := Some(x), oauthToken := Some(token.(expiresAt := Some(y))));
            var noSession, noToken := full.(expiresAt := None), full.(oauthToken := None);
            var zeroSession := full.(expiresAt := Some(0));
            var zeroToken := full.(oauthToken := Some(token.(expiresAt := Some(0))));
            var at := (rec: SessionRecord) => NextRefresh(Session(rec, last, grace, cool));
            && at(full) == (if x <= last + cool || y - grace <= last + cool then last + cool
                            else if x < y - grace then x else y - grace)
            && at(noSession) == at(zeroSession) == (if y - grace <= last + cool then last + cool else y - grace)
            && at(noToken) == at(zeroToken) == (if x <= last + cool then last + cool else x)
            && at(noToken.(expiresAt := None)) == last + cool
  {
  }

  /** Whether a timestamp is present and not the zero time. */
  predicate IsSet(t: Option<Time>) {
    t.Some? && t.value != 0
  }

  function TokenExpiry(r: SessionRecord): Option<Time> {
    if r.oauthToken.Some? then r.oauthToken.value.expiresAt else None
  }

  function Min(x: Time, y: Time): Time {
    if x < y then x else y
  }

  function Max(x: Time, y: Time): Time {
    if x < y then y else x
  }

  /**
   The earlier of the session's expiry and the token's expiry minus the grace period,
   as far as they are set, but not before the cool-off has passed. A token that
   expires just at the end of the grace period after the zero time counts as unset
   beside a session expiry.
   */
  function NextRefresh(s: Session): (tm: Time)
    ensures var cool, session, token := s.lastRefresh + s.coolOff, s.record.expiresAt, TokenExpiry(s.record);
            && (!IsSet(session) && !IsSet(token) ==> tm == Max(cool, 0))
            && (IsSet(session) && !IsSet(token) ==> tm == Max(cool, session.value))
            && (!IsSet(session) && IsSet(token) ==> tm == Max(cool, token.value - s.gracePeriod))
            && (IsSet(session) && IsSet(token) ==>
                  tm == Max(cool, if token.value == s.gracePeriod then session.value
                                  else Min(session.value, token.value - s.gracePeriod)))
  {
    var tm := if IsSet(TokenExpiry(s.record)) then Earlier(0, TokenExpiry(s.record).value - s.gracePeriod) else 0;
    var tm := if IsSet(s.record.expiresAt) then Earlier(tm, s.record.expiresAt.value) else tm;
    var min := s.lastRefresh + s.coolOff;
    if tm < min then min else tm
  }

  /**
   `early` holds the stored sessions whose latest event was a refresh attempt that
   returned early.
   */
  datatype State = State(sessions: map<SessionId, Session>, due: map<string, Time>, early: set<SessionId>)

  function UpdateStep(st: State, deleted: bool, r: SessionRecord, cfg: Config, now: Time): State {
    var id, key := IdOf(r), ToKey(IdOf(r));
    if deleted then State(st.sessions - {id}, st.due - {key}, st.early - {id})
    else
      var s := Session(r, now, cfg.gracePeriod, cfg.coolOff);
      State(st.sessions[id := s], (st.due - {key})[key := NextRefresh(s)], st.early - {id})
  }

  /** A clear forgets the sessions but not their scheduled refreshes. */
  function ClearStep(st: State): State {
    State(map[], st.due, {})
  }

  predicate Expired(r: SessionRecord, now: Time) {
    (if r.expiresAt.Some? then r.expiresAt.value else UNIX_EPOCH) <= now
  }

  /**
   One refresh attempt. The refreshed token is written into the stored session even
   when a later part of the attempt fails.
   */
  function AttemptStep(st: State, id: SessionId, a: Attempt): State {
    if id !in st.sessions then st
    else
      var s := st.sessions[id];
      var gaveUp := st.(early := st.early + {id});
      if GivesUp(s, a) then
        if Expired(s.record, a.checked) || s.record.oauthToken.None? || !HasToken(a.outcome) then gaveUp
        else gaveUp.(sessions := st.sessions[id := WithToken(s, a.outcome.token)])
      else
        var renewed := WithToken(s, a.outcome.token);
        UpdateStep(st.(sessions := st.sessions[id := renewed]), a.outcome.deleted, renewed.record, a.cfg, a.updated)
  }

  predicate GivesUp(s: Session, a: Attempt) {
    Expired(s.record, a.checked) || s.record.oauthToken.None? || !a.outcome.Stored?
  }

  /** The databroker is asked to delete the session: it has expired, or a step failed for good. */
  predicate Deletes(s: Session, a: Attempt) {
    || Expired(s.record, a.checked)
    || (s.record.oauthToken.Some? && (a.outcome.RefreshFailed? || a.outcome.UserInfoFailed?))
  }

  /** A session whose deletion was requested stays stored, unscheduled. */
  lemma DeletedIsUnscheduled(st: State, key: string, a: Attempt)
    requires WellKeyed(st) && key in st.due && FromKey(key) in st.sessions && Deletes(st.sessions[FromKey(key)], a)
    ensures var st' := RefreshStep(st, key, a);
            key !in st'.due && FromKey(key) in st'.early && FromKey(key) in st'.sessions
  {
  }

  /** The record that a deletion request puts carries no ids. */
  const NO_RECORD: SessionRecord := SessionRecord("", "", None, None)

  /**
   So the update that the request causes removes no stored session with an id, and
   changes nothing about when any other is scheduled.
   */
  lemma DeletionComesBackEmpty(st: State, cfg: Config, now: Time, id: SessionId)
    requires id != ("", "")
    ensures var st' := UpdateStep(st, true, NO_RECORD, cfg, now);
            && Lookup(st'.sessions, id) == Lookup(st.sessions, id)
            && (id in st'.early <==> id in st.early)
            && Lookup(st'.due, ToKey(id)) == Lookup(st.due, ToKey(id))
  {
    assert |ToKey(("", ""))| == 1 && |ToKey(id)| == |id.0| + |id.1| + 1;
  }

  /** Exactly which attempts request a deletion. */
  lemma DeletesExactly(s: Session, a: Attempt)
    ensures var expiry := if s.record.expiresAt.Some? then s.record.expiresAt.value else UNIX_EPOCH;
            Deletes(s, a) <==>
              || expiry <= a.checked
              || (s.record.oauthToken.Some? && (a.outcome.RefreshFailed? || a.outcome.UserInfoFailed?))
    ensures Deletes(s, a) && s.record.expiresAt.Some? && a.checked < s.record.expiresAt.value ==>
              a.outcome.RefreshFailed? || a.outcome.UserInfoFailed?
  {
  }

  predicate HasToken(o: Outcome) {
    !o.RefreshTemporary? && !o.RefreshFailed?
  }

  /** Draining one key: it is removed before the attempt. */
  function RefreshStep(st: State, key: string, a: Attempt): State {
    AttemptStep(st.(due := st.due - {key}), FromKey(key), a)
  }

  function WithToken(s: Session, token: OAuthToken): Session {
    s.(record := s.record.(oauthToken := Some(token)))
  }

  /**
   What an attempt leaves of a stored session that has a token and has not expired:
   the new token as soon as there is one, nothing else changed unless it was stored.
   */
  lemma AttemptKeepsToken(st: State, id: SessionId, a: Attempt)
    requires WellKeyed(st) && id in st.sessions
    requires var r := st.sessions[id].record; r.expiresAt.Some? && a.checked < r.expiresAt.value && r.oauthToken.Some?
    ensures var st' := AttemptStep(st, id, a);
            match a.outcome
            case RefreshTemporary => st'.sessions == st.sessions && id in st'.early
            case RefreshFailed => st'.sessions == st.sessions && id in st'.early
            case Stored(token, deleted) =>
              && id !in st'.early
              && Lookup(st'.sessions, id) ==
                   if deleted then None
                   else Some(Session(st.sessions[id].record.(oauthToken := Some(token)),
                                     a.updated, a.cfg.gracePeriod, a.cfg.coolOff))
            case _ =>
              && id in st'.early && st'.due == st.due
              && st'.sessions == st.sessions[id := st.sessions[id].(
                   record := st.sessions[id].record.(oauthToken := Some(a.outcome.token)))]
  {
  }

  /** An expired session, or one without a token, is left as it is. */
  lemma AttemptSkips(st: State, id: SessionId, a: Attempt)
    requires id in st.sessions
    requires var r := st.sessions[id].record;
             || (if r.expiresAt.Some? then r.expiresAt.value else UNIX_EPOCH) <= a.checked
             || r.oauthToken.None?
    ensures AttemptStep(st, id, a) == st.(early := st.early + {id})
  {
  }

  function RefreshSteps(st: State, keys: seq<string>, attempts: nat -> Attempt): State {
    if keys == [] then st
    else RefreshStep(RefreshSteps(st, keys[..|keys| - 1], attempts), keys[|keys| - 1], attempts(|keys| - 1))
  }

  // --- Invariants ---

  predicate WellKeyed(st: State) {
    && st.early <= st.sessions.Keys
    && (forall id :: id in st.sessions ==> IdOf(st.sessions[id].record) == id)
    && (forall key :: key in st.due ==> SEPARATOR in key)
  }

  /** Scheduled at exactly its own next refresh, unless its last refresh attempt returned early. */
  predicate ScheduledRight(st: State, id: SessionId)
    requires id in st.sessions
  {
    Lookup(st.due, ToKey(id)) == if id in st.early then None else Some(NextRefresh(st.sessions[id]))
  }

  predicate Inv(st: State) {
    && WellKeyed(st)
    && forall id :: id in st.sessions ==> SEPARATOR !in id.0 && ScheduledRight(st, id)
  }

  lemma KeyIsSeparated(id: SessionId)
    ensures SEPARATOR in ToKey(id)
  {
    assert ToKey(id)[|id.0|] == SEPARATOR;
  }

  lemma KeysDiffer(id: SessionId, id': SessionId)
    requires SEPARATOR !in id.0 && SEPARATOR !in id'.0
    ensures ToKey(id) == ToKey(id') ==> id == id'
  {
    FromToKey(id);
    FromToKey(id');
  }

  lemma UpdateKeepsKeys(st: State, deleted: bool, r: SessionRecord, cfg: Config, now: Time)
    requires WellKeyed(st)
    ensures WellKeyed(UpdateStep(st, deleted, r, cfg, now))
  {
    KeyIsSeparated(IdOf(r));
  }

  /** `r` may be known already with the wrong schedule: an update repairs it. */
  lemma UpdateKeeps(st: State, deleted: bool, r: SessionRecord, cfg: Config, now: Time)
    requires WellKeyed(st) && SEPARATOR !in r.userId
    requires forall id :: id in st.sessions && id != IdOf(r) ==> SEPARATOR !in id.0 && ScheduledRight(st, id)
    ensures Inv(UpdateStep(st, deleted, r, cfg, now))
  {
    var st' := UpdateStep(st, deleted, r, cfg, now);
    UpdateKeepsKeys(st, deleted, r, cfg, now);
    forall id | id in st'.sessions
      ensures SEPARATOR !in id.0 && ScheduledRight(st', id)
    {
      if id != IdOf(r) {
        KeysDiffer(id, IdOf(r));
      }
    }
  }

  lemma AttemptKeepsKeys(st: State, id: SessionId, a: Attempt)
    requires WellKeyed(st)
    ensures WellKeyed(AttemptStep(st, id, a))
  {
    if id in st.sessions && !GivesUp(st.sessions[id], a) {
      var renewed := WithToken(st.sessions[id], a.outcome.token);
      UpdateKeepsKeys(st.(sessions := st.sessions[id := renewed]), a.outcome.deleted, renewed.record, a.cfg, a.updated);
    }
  }

  /** Draining a key disturbs no session but the one it parses to. */
  lemma OthersUndisturbed(st: State, key: string)
    requires Inv(st)
    ensures forall other :: other in st.sessions && other != FromKey(key) ==>
              SEPARATOR !in other.0 && ScheduledRight(st.(due := st.due - {key}), other)
  {
    forall other | other in st.sessions && other != FromKey(key)
      ensures SEPARATOR !in other.0 && ScheduledRight(st.(due := st.due - {key}), other)
    {
      FromToKey(other);
    }
  }

  /** An attempt settles the session it is for, whatever its schedule was. */
  lemma AttemptKeeps(st: State, id: SessionId, a: Attempt)
    requires WellKeyed(st) && ToKey(id) !in st.due
    requires forall other :: other in st.sessions ==> SEPARATOR !in other.0
    requires forall other :: other in st.sessions && other != id ==> ScheduledRight(st, other)
    ensures Inv(AttemptStep(st, id, a))
  {
    AttemptKeepsKeys(st, id, a);
    if id in st.sessions && !GivesUp(st.sessions[id], a) {
      var renewed := WithToken(st.sessions[id], a.outcome.token);
      var st1 := st.(sessions := st.sessions[id := renewed]);
      assert WellKeyed(st1);
      assert forall other :: other in st1.sessions && other != id ==> ScheduledRight(st, other) ==> ScheduledRight(st1, other);
      UpdateKeeps(st1, a.outcome.deleted, renewed.record, a.cfg, a.updated);
    }
  }

  lemma RefreshKeeps(st: State, key: string, a: Attempt)
    requires Inv(st) && SEPARATOR in key
    ensures Inv(RefreshStep(st, key, a))
  {
    ToFromKey(key);
    OthersUndisturbed(st, key);
    AttemptKeeps(st.(due := st.due - {key}), FromKey(key), a);
  }

  lemma {:induction false} RefreshStepsKeep(st: State, keys: seq<string>, attempts: nat -> Attempt)
    requires Inv(st) && forall k :: k in keys ==> SEPARATOR in k
    ensures Inv(RefreshSteps(st, keys, attempts))
  {
    if keys != [] {
      RefreshStepsKeep(st, keys[..|keys| - 1], attempts);
      RefreshKeeps(RefreshSteps(st, keys[..|keys| - 1], attempts), keys[|keys| - 1], attempts(|keys| - 1));
    }
  }

  // --- Every sequence of events ---

  datatype Event =
    | Updated(deleted: bool, record: SessionRecord, cfg: Config, now: Time)
    | Cleared
    | Drained(key: string, attempt: Attempt)

  function EventStep(st: State, e: Event): State {
    match e
    case Updated(deleted, r, cfg, now) => UpdateStep(st, deleted, r, cfg, now)
    case Cleared => ClearStep(st)
    case Drained(key, a) => RefreshStep(st, key, a)
  }

  function EventSteps(st: State, events: seq<Event>): State {
    if events == [] then st else EventStep(EventSteps(st, events[..|events| - 1]), events[|events| - 1])
  }

  /** User ids are free of the separator, and only scheduled keys are drained. */
  predicate Admissible(st: State, events: seq<Event>) {
    events == [] ||
    var before := EventSteps(st, events[..|events| - 1]);
    && Admissible(st, events[..|events| - 1])
    && match events[|events| - 1]
       case Updated(_, r, _, _) => SEPARATOR !in r.userId
       case Cleared => true
       case Drained(key, _) => key in before.due
  }

  /** Main result: every stored session is scheduled at exactly its own next refresh, or gave up. */
  lemma {:induction false} SessionsStayScheduled(events: seq<Event>)
    requires Admissible(State(map[], map[], {}), events)
    ensures Inv(EventSteps(State(map[], map[], {}), events))
  {
    if events != [] {
      var init := events[..|events| - 1];
      SessionsStayScheduled(init);
      var st := EventSteps(State(map[], map[], {}), init);
      match events[|events| - 1] {
        case Updated(deleted, r, cfg, now) => UpdateKeeps(st, deleted, r, cfg, now);
        case Cleared =>
        case Drained(key, a) => RefreshKeeps(st, key, a);
      }
    }
  }

  function SessionOf(e: Event): Session
    requires e.Updated?
  {
    Session(e.record, e.now, e.cfg.gracePeriod, e.cfg.coolOff)
  }

  /**
   Why user ids must be free of the separator: of two stored sessions that share a
   key, the first is scheduled right only if both happen to be due at the same time.
   */
  lemma SharedKeyMisschedules(a: Event, b: Event)
    requires a.Updated? && b.Updated? && !a.deleted && !b.deleted
    requires IdOf(a.record) != IdOf(b.record) && ToKey(IdOf(a.record)) == ToKey(IdOf(b.record))
    ensures var st := EventSteps(State(map[], map[], {}), [a, b]);
            && IdOf(a.record) in st.sessions
            && (ScheduledRight(st, IdOf(a.record)) <==> NextRefresh(SessionOf(a)) == NextRefresh(SessionOf(b)))
  {
    assert [a, b][..1] == [a] && [a][..0] == [];
  }

  /** Two updates after which a stored session is scheduled wrong. */
  lemma MisscheduledRun()
    ensures exists events, id ::
              var st := EventSteps(State(map[], map[], {}), events); id in st.sessions && !ScheduledRight(st, id)
  {
    KeysCollide();
    var s: SessionId, t: SessionId :| s != t && ToKey(s) == ToKey(t);
    var a := Updated(false, SessionRecord(s.0, s.1, None, None), Config(0, 1), 0);
    var b := Updated(false, SessionRecord(t.0, t.1, None, None), Config(0, 1), 1);
    assert IdOf(a.record) == s && IdOf(b.record) == t;
    assert NextRefresh(SessionOf(a)) == 1 && NextRefresh(SessionOf(b)) == 2;
    SharedKeyMisschedules(a, b);
  }

  // --- The drain loop ---

  function DueKeys(due: map<string, Time>, now: Time): set<string> {
    set k | k in due && due[k] <= now
  }

  predicate Patient(a: Attempt, now: Time) {
    now <= a.updated && 0 < a.cfg.coolOff
  }

  /** A drained key is not due again: this is what makes the loop terminate. */
  lemma DrainShrinks(st: State, key: string, a: Attempt, now: Time)
    requires WellKeyed(st) && key in st.due && Patient(a, now)
    ensures DueKeys(RefreshStep(st, key, a).due, now) == DueKeys(st.due, now) - {key}
  {
    ToFromKey(key);
  }

  predicate NoRepeats(keys: seq<string>) {
    forall i, j :: 0 <= i < j < |keys| ==> keys[i] != keys[j]
  }

  /** Each drained key was due at the start and is drained once; the others are still due. */
  ghost predicate DrainedSoFar(start: State, st: State, drained: seq<string>, attempts: nat -> Attempt, now: Time) {
    && st == RefreshSteps(start, drained, attempts)
    && NoRepeats(drained)
    && DueKeys(st.due, now) <= DueKeys(start.due, now)
    && forall k :: k in drained <==> k in DueKeys(start.due, now) && k !in DueKeys(st.due, now)
  }

  lemma DrainOneMore(start: State, st: State, drained: seq<string>, attempts: nat -> Attempt, now: Time, key: string)
    requires DrainedSoFar(start, st, drained, attempts, now) && WellKeyed(st)
    requires key in DueKeys(st.due, now) && Patient(attempts(|drained|), now)
    ensures DrainedSoFar(start, RefreshStep(st, key, attempts(|drained|)), drained + [key], attempts, now)
    ensures DueKeys(RefreshStep(st, key, attempts(|drained|)).due, now) == DueKeys(st.due, now) - {key}
  {
    DrainShrinks(st, key, attempts(|drained|), now);
    assert (drained + [key])[..|drained|] == drained;
  }

  /** Without a cool-off the loop can repeat the same state forever. */
  lemma NoCoolOffNoProgress(now: Time)
    requires UNIX_EPOCH < now
    ensures exists st, key, a: Attempt ::
              && Inv(st) && key in DueKeys(st.due, now) && now <= a.updated && a.cfg.coolOff == 0
              && RefreshStep(st, key, a) == st
  {
    var token := OAuthToken("t", Some(now));
    var r := SessionRecord("u", "s", Some(now + 1), Some(token));
    var s := Session(r, now, 0, 0);
    var key := ToKey(IdOf(r));
    FromToKey(IdOf(r));
    KeyIsSeparated(IdOf(r));
    var st := State(map[IdOf(r) := s], map[key := now], {});
    var a := Attempt(now, now, Config(0, 0), Stored(token, false));
    assert RefreshStep(st, key, a).sessions == st.sessions;
    assert RefreshStep(st, key, a).due == st.due;
    assert key in DueKeys(st.due, now);
  }

  class Manager {
    var sessions: map<SessionId, Session>
    const sessionScheduler: Scheduler
    var users: set<string>
    var directoryGroups: map<string, string>
    var directoryUsers: map<string, string>
    var directoryNextRefresh: Time
    ghost var early: set<SessionId>

    constructor (scheduler: Scheduler)
      requires scheduler.Valid() && scheduler.due == map[]
      ensures sessionScheduler == scheduler
      ensures Valid() && Abs() == State(map[], map[], {})
    {
      sessions, sessionScheduler, directoryNextRefresh, early := map[], scheduler, 0, {};
      users, directoryGroups, directoryUsers := {}, map[], map[];
    }

    ghost predicate Valid()
      reads this, sessionScheduler
    {
      sessionScheduler.Valid() && WellKeyed(Abs())
    }

    ghost function Abs(): (st: State)
      reads this, sessionScheduler
    {
      State(sessions, sessionScheduler.due, early)
    }

    /** Everything replicated is forgotten; what is scheduled stays. */
    method Clear()
      requires Valid()
      modifies `sessions, `early, `users, `directoryGroups, `directoryUsers
      ensures Valid()
      ensures Abs() == ClearStep(old(Abs()))
      ensures sessions == map[] && sessionScheduler.due == old(sessionScheduler.due)
      ensures users == {} && directoryGroups == map[] && directoryUsers == map[]
    {
      directoryGroups, directoryUsers := map[], map[];
      sessions := map[];
      users := {};
      early := {};
    }

    method OnUpdateSession(deleted: bool, r: SessionRecord, cfg: Config, now: Time)
      requires Valid()
      modifies `sessions, `early, sessionScheduler
      ensures Valid()
      ensures Abs() == UpdateStep(old(Abs()), deleted, r, cfg, now)
      ensures forall id :: Lookup(sessions, id) ==
                if id != (r.userId, r.id) then Lookup(old(sessions), id)
                else if deleted then None else Some(Session(r, now, cfg.gracePeriod, cfg.coolOff))
    {
      UpdateKeepsKeys(Abs(), deleted, r, cfg, now);
      sessionScheduler.Remove(ToKey((r.userId, r.id)));
      early := early - {IdOf(r)};
      if deleted {
        sessions := sessions - {(r.userId, r.id)};
        return;
      }
      var s := Session(r, now, cfg.gracePeriod, cfg.coolOff);
      sessions := sessions[(r.userId, r.id) := s];
      sessionScheduler.Add(NextRefresh(s), ToKey((r.userId, r.id)));
    }

    method RefreshSession(id: SessionId, a: Attempt) returns (deletes: bool)
      requires Valid()
      modifies `sessions, `early, sessionScheduler
      ensures Valid()
      ensures Abs() == AttemptStep(old(Abs()), id, a)
      ensures deletes <==> id in old(sessions) && Deletes(old(sessions)[id], a)
      ensures id in old(sessions) && old(sessions)[id].record.expiresAt.Some? && old(sessions)[id].record.oauthToken.Some? ==>
                (deletes <==> || old(sessions)[id].record.expiresAt.value <= a.checked
                              || a.outcome.RefreshFailed? || a.outcome.UserInfoFailed?)
    {
      AttemptKeepsKeys(Abs(), id, a);
      if id !in sessions {
        return false;
      }
      var s := sessions[id];
      var expiry := if s.record.expiresAt.Some? then s.record.expiresAt.value else UNIX_EPOCH;
      if !(a.checked < expiry) {
        early := early + {id};
        return true;
      }
      if s.record.oauthToken.None? {
        early := early + {id};
        return false;
      }
      if a.outcome.RefreshTemporary? || a.outcome.RefreshFailed? {
        early := early + {id};
        return a.outcome.RefreshFailed?;
      }
      s := WithToken(s, a.outcome.token);
      sessions := sessions[id := s];
      if !a.outcome.Stored? {
        early := early + {id};
        return a.outcome.UserInfoFailed?;
      }
      OnUpdateSession(a.outcome.deleted, s.record, a.cfg, a.updated);
      deletes := false;
    }

    method DrainKey(key: string, a: Attempt)
      requires Valid()
      modifies `sessions, `early, sessionScheduler
      ensures Valid()
      ensures Abs() == RefreshStep(old(Abs()), key, a)
    {
      sessionScheduler.Remove(key);
      var _ := RefreshSession(FromKey(key), a);
    }

    /** Refreshes every due session once and returns the time of the next wake-up. */
    method DrainSessions(now: Time, limit: Time, attempts: nat -> Attempt)
      returns (nextTime: Time, ghost drained: seq<string>)
      requires Valid() && now < MAX_TIME
      requires forall i :: Patient(attempts(i), now)
      modifies `sessions, `early, sessionScheduler
      ensures Valid()
      ensures Abs() == RefreshSteps(old(Abs()), drained, attempts)
      ensures Inv(old(Abs())) ==> Inv(Abs())
      ensures (set k | k in drained) == DueKeys(old(Abs()).due, now)
      ensures NoRepeats(drained)
      ensures forall k :: k in Abs().due ==> now < Abs().due[k] && nextTime <= Abs().due[k]
      ensures nextTime <= limit && (now <= limit ==> now <= nextTime)
      ensures nextTime in {limit, MAX_TIME} || exists k :: k in Abs().due && nextTime == Abs().due[k]
    {
      nextTime, drained := limit, [];
      ghost var start := Abs();
      var i := 0;
      while true
        invariant Valid() && nextTime == limit && |drained| == i
        invariant DrainedSoFar(start, Abs(), drained, attempts, now)
        decreases DueKeys(sessionScheduler.due, now)
      {
        var tm, key := sessionScheduler.Next();
        if now < tm {
          if tm < nextTime {
            nextTime := tm;
          }
          assert DueKeys(Abs().due, now) == {};
          if Inv(start) {
            RefreshStepsKeep(start, drained, attempts);
          }
          return;
        }
        assert key in DueKeys(Abs().due, now);
        DrainOneMore(start, Abs(), drained, attempts, now, key);
        DrainKey(key, attempts(i));
        drained, i := drained + [key], i + 1;
      }
    }

    /** One turn of the refresh loop: the directory, then every due session once. */
    method RefreshTurn(now: Time, groupRefreshInterval: Time, attempts: nat -> Attempt)
      returns (nextTime: Time, ghost drained: seq<string>)
      requires Valid() && now < MAX_TIME && 0 <= groupRefreshInterval
      requires forall i :: Patient(attempts(i), now)
      modifies `sessions, `early, `directoryNextRefresh, sessionScheduler
      ensures Valid()
      ensures Abs() == RefreshSteps(old(Abs()), drained, attempts)
      ensures Inv(old(Abs())) ==> Inv(Abs())
      ensures (set k | k in drained) == DueKeys(old(Abs()).due, now)
      ensures directoryNextRefresh == if old(directoryNextRefresh) < now then now + groupRefreshInterval
                                      else old(directoryNextRefresh)
      ensures forall k :: k in Abs().due ==> now < Abs().due[k] && nextTime <= Abs().due[k]
      ensures now <= nextTime <= directoryNextRefresh && nextTime <= now + 600 * SECOND
      ensures || nextTime in {now + MAX_WAIT, directoryNextRefresh, MAX_TIME}
              || exists k :: k in Abs().due && nextTime == Abs().due[k]
    {
      var limit := now + MAX_WAIT;
      if directoryNextRefresh < now {
        directoryNextRefresh := now + groupRefreshInterval;
      }
      if directoryNextRefresh < limit {
        limit := directoryNextRefresh;
      }
      nextTime, drained := DrainSessions(now, limit, attempts);
    }
  }
}
