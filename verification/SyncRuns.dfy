/**
 The syncer's endless loop against the replication system: whatever a server may
 answer, running the loop is a run of the system.
 */
module SyncRuns {
  import opened Options
  import opened Records
  import opened Replication
  import Client = Syncer

  /** Everything but the client's own calls. */
  predicate Environment(step: Step) {
    step.Put? || step.Restart? || step.UpdateConfig? || step.GetBackend?
  }

  ghost predicate EnvironmentRun(sys: System, steps: seq<Step>) {
    Legal(sys, steps) && AllSafe(sys, steps) && forall i :: 0 <= i < |steps| ==> Environment(steps[i])
  }

  /**
   One pass of the loop. `before` and `during` are what else happens before the call
   and before each message of a stream; `n` and `records` are the snapshot taken.
   What happens while a snapshot is sent counts as before the next pass.
   */
  datatype Turn = Turn(
    before: seq<Step>, n: uint64, records: seq<Record>, during: seq<seq<Step>>, attempt: Client.Attempt)

  // --- What a server may answer ---

  /** A stream delivers records of the log it was opened on, until the client stops or it fails. */
  ghost predicate Streamed(sys: System, during: seq<seq<Step>>, results: seq<Client.Received>)
    decreases results
  {
    results == [] ||
    match results[0]
    case Failed => true
    case Aborted => false
    case Change(r) =>
      && during != [] && EnvironmentRun(sys, during[0])
      && Delivered(Execute(sys, during[0]), r)
      && (Client.Stops(sys.syncer, results[0])
          || Streamed(Received(Execute(sys, during[0]), r), during[1..], results[1..]))
  }

  predicate Delivered(sys: System, r: Record) {
    && 1 <= r.version && Enabled(sys, Receive(r.version - 1))
    && Log(sys, sys.call.backend)[r.version - 1] == r
  }

  function Received(sys: System, r: Record): System
    requires Delivered(sys, r)
  {
    Perform(sys, Receive(r.version - 1))
  }

  ghost predicate Answered(sys: System, t: Turn) {
    var results := t.attempt.results;
    if sys.syncer.serverVersion == 0 then
      || t.attempt.end.Broken?
      || (&& Enabled(sys, StartLatest(t.n, t.records))
          && t.attempt.replies <= Replies(Perform(sys, StartLatest(t.n, t.records))))
    else
      || results == [] || results[0].Failed?
      || (&& Enabled(sys, OpenSync)
          && if sys.server.version == sys.syncer.serverVersion
             then Streamed(Perform(sys, OpenSync), t.during, results)
             else results[0].Aborted?)
  }

  ghost predicate Served(sys: System, t: Turn) {
    EnvironmentRun(sys, t.before) && Answered(Execute(sys, t.before), t)
  }

  // --- The system afterwards ---

  ghost function AfterStream(sys: System, during: seq<seq<Step>>, results: seq<Client.Received>): System
    requires sys.call.Stream? && Streamed(sys, during, results)
    decreases results
  {
    if results == [] || results[0].Failed? then Perform(sys, DropStream)
    else
      var sys' := Received(Execute(sys, during[0]), results[0].record);
      if Client.Stops(sys.syncer, results[0]) || !sys'.call.Stream? then sys'
      else AfterStream(sys', during[1..], results[1..])
  }

  ghost function AfterAnswer(sys: System, t: Turn): System
    requires sys.call.Idle? && Answered(sys, t)
  {
    if sys.syncer.serverVersion == 0 then
      if t.attempt.end.Broken? then sys
      else Perform(Perform(sys, StartLatest(t.n, t.records)), FinishLatest(|t.attempt.replies|, t.attempt.end))
    else if t.attempt.results == [] || t.attempt.results[0].Failed? then sys
    else if sys.server.version == sys.syncer.serverVersion
    then AfterStream(Perform(sys, OpenSync), t.during, t.attempt.results)
    else Perform(sys, OpenSync)
  }

  // --- Reaching one state from another by safe steps ---

  ghost predicate Reaches(s: System, s': System) {
    exists steps :: Legal(s, steps) && AllSafe(s, steps) && Execute(s, steps) == s'
  }

  lemma Stays(s: System)
    ensures Reaches(s, s)
  {
    assert Legal(s, []) && AllSafe(s, []) && Execute(s, []) == s;
  }

  lemma {:induction false} RunConcat(s: System, a: seq<Step>, b: seq<Step>)
    requires Legal(s, a) && AllSafe(s, a) && Legal(Execute(s, a), b) && AllSafe(Execute(s, a), b)
    ensures Legal(s, a + b) && AllSafe(s, a + b) && Execute(s, a + b) == Execute(Execute(s, a), b)
    decreases a
  {
    if a == [] {
      assert a + b == b;
    } else {
      RunConcat(Perform(s, a[0]), a[1..], b);
      assert (a + b)[0] == a[0] && (a + b)[1..] == a[1..] + b;
    }
  }

  lemma Then(s: System, mid: System, s': System)
    requires Reaches(s, mid) && Reaches(mid, s')
    ensures Reaches(s, s')
  {
    var a :| Legal(s, a) && AllSafe(s, a) && Execute(s, a) == mid;
    var b :| Legal(mid, b) && AllSafe(mid, b) && Execute(mid, b) == s';
    RunConcat(s, a, b);
  }

  lemma OneStep(s: System, step: Step)
    requires Enabled(s, step) && Safe(s, step)
    ensures Reaches(s, Perform(s, step))
  {
    var steps, s' := [step], Perform(s, step);
    assert steps[1..] == [];
    assert Legal(s', []) && AllSafe(s', []) && Execute(s', []) == s';
    assert Legal(s, steps) && AllSafe(s, steps) && Execute(s, steps) == s';
  }

  lemma ReachesKeepsInv(s: System, s': System)
    requires Inv(s) && Reaches(s, s')
    ensures Inv(s')
  {
    var steps :| Legal(s, steps) && AllSafe(s, steps) && Execute(s, steps) == s';
    RunKeepsInv(s, steps);
  }

  /** The environment does not touch the client. */
  lemma {:induction false} EnvironmentKeepsClient(s: System, steps: seq<Step>)
    requires EnvironmentRun(s, steps)
    ensures var s' := Execute(s, steps); s'.syncer == s.syncer && s'.call == s.call && s'.typeURL == s.typeURL
    ensures Reaches(s, Execute(s, steps))
    decreases steps
  {
    if steps != [] {
      EnvironmentKeepsClient(Perform(s, steps[0]), steps[1..]);
    }
  }

  // --- The loop is a run of the system ---

  lemma {:induction false} StreamIsRun(sys: System, during: seq<seq<Step>>, results: seq<Client.Received>)
    requires sys.call.Stream? && Streamed(sys, during, results)
    ensures var sys' := AfterStream(sys, during, results);
            && Reaches(sys, sys') && sys'.call.Idle? && sys'.typeURL == sys.typeURL
            && sys'.syncer == Client.SyncSteps(sys.typeURL, sys.syncer, results)
    decreases results
  {
    if results == [] || results[0].Failed? {
      OneStep(sys, DropStream);
    } else {
      var mid, r := Execute(sys, during[0]), results[0].record;
      EnvironmentKeepsClient(sys, during[0]);
      OneStep(mid, Receive(r.version - 1));
      Then(sys, mid, Received(mid, r));
      if !Client.Stops(sys.syncer, results[0]) {
        StreamIsRun(Received(mid, r), during[1..], results[1..]);
        Then(sys, Received(mid, r), AfterStream(sys, during, results));
      }
    }
  }

  lemma AnswerIsRun(sys: System, t: Turn)
    requires sys.call.Idle? && Answered(sys, t)
    ensures var sys' := AfterAnswer(sys, t);
            && Reaches(sys, sys') && sys'.call.Idle? && sys'.typeURL == sys.typeURL
            && sys'.syncer == Client.AttemptStep(sys.typeURL, sys.syncer, t.attempt)
  {
    var results := t.attempt.results;
    Stays(sys);
    if sys.syncer.serverVersion == 0 {
      if t.attempt.end.Eof? {
        LatestIsRun(sys, t);
      }
    } else if results != [] && !results[0].Failed? {
      OneStep(sys, OpenSync);
      if sys.server.version == sys.syncer.serverVersion {
        var streaming := Perform(sys, OpenSync);
        StreamIsRun(streaming, t.during, results);
        Then(sys, streaming, AfterAnswer(sys, t));
      }
    }
  }

  lemma LatestIsRun(sys: System, t: Turn)
    requires sys.call.Idle? && Answered(sys, t) && sys.syncer.serverVersion == 0 && t.attempt.end.Eof?
    ensures var sys' := AfterAnswer(sys, t);
            && Reaches(sys, sys') && sys'.call.Idle? && sys'.typeURL == sys.typeURL
            && sys'.syncer == Client.InitStep(sys.syncer, t.attempt.replies, t.attempt.end)
  {
    var s1, replies := Perform(sys, StartLatest(t.n, t.records)), t.attempt.replies;
    assert Replies(s1)[..|replies|] == replies;
    OneStep(sys, StartLatest(t.n, t.records));
    OneStep(s1, FinishLatest(|replies|, t.attempt.end));
    Then(sys, s1, AfterAnswer(sys, t));
  }

  ghost predicate AllServed(sys: System, turns: seq<Turn>)
    requires sys.call.Idle?
    decreases turns
  {
    turns == [] ||
    (&& Served(sys, turns[0])
     && AfterTurn(sys, turns[0]).call.Idle?
     && AllServed(AfterTurn(sys, turns[0]), turns[1..]))
  }

  ghost function AfterTurn(sys: System, t: Turn): System
    requires sys.call.Idle? && Served(sys, t)
  {
    var sys' := Execute(sys, t.before);
    EnvironmentKeepsClient(sys, t.before);
    AfterAnswer(sys', t)
  }

  ghost function AfterTurns(sys: System, turns: seq<Turn>): System
    requires sys.call.Idle? && AllServed(sys, turns)
    decreases turns
  {
    if turns == [] then sys else AfterTurns(AfterTurn(sys, turns[0]), turns[1..])
  }

  function Attempts(turns: seq<Turn>): seq<Client.Attempt> {
    if turns == [] then [] else [turns[0].attempt] + Attempts(turns[1..])
  }

  lemma TurnIsRun(sys: System, t: Turn)
    requires sys.call.Idle? && Served(sys, t)
    ensures var sys' := AfterTurn(sys, t);
            && Reaches(sys, sys') && sys'.call.Idle? && sys'.typeURL == sys.typeURL
            && sys'.syncer == Client.AttemptStep(sys.typeURL, sys.syncer, t.attempt)
  {
    var mid := Execute(sys, t.before);
    EnvironmentKeepsClient(sys, t.before);
    AnswerIsRun(mid, t);
    Then(sys, mid, AfterTurn(sys, t));
  }

  lemma {:induction false} LoopIsRun(sys: System, turns: seq<Turn>)
    requires sys.call.Idle? && AllServed(sys, turns)
    ensures Reaches(sys, AfterTurns(sys, turns))
    ensures AfterTurns(sys, turns).syncer == Client.RunSteps(sys.typeURL, sys.syncer, Attempts(turns))
    decreases turns
  {
    if turns == [] {
      Stays(sys);
    } else {
      var sys' := AfterTurn(sys, turns[0]);
      TurnIsRun(sys, turns[0]);
      LoopIsRun(sys', turns[1..]);
      Then(sys, sys', AfterTurns(sys, turns));
      assert Attempts(turns)[0] == turns[0].attempt && Attempts(turns)[1..] == Attempts(turns[1..]);
    }
  }

  /** Main result: after the loop has run, the replica is a prefix of its incarnation's log. */
  lemma LoopFollowsLog(sys: System, turns: seq<Turn>)
    requires Inv(sys) && sys.call.Idle? && AllServed(sys, turns)
    ensures var sys' := AfterTurns(sys, turns);
            sys'.syncer == Client.RunSteps(sys.typeURL, sys.syncer, Attempts(turns)) && Replicated(sys')
  {
    LoopIsRun(sys, turns);
    ReachesKeepsInv(sys, AfterTurns(sys, turns));
  }

  /** The syncer object itself, from its construction on. */
  method RunServed(syncer: Client.Syncer, attempts: seq<Client.Attempt>, ghost turns: seq<Turn>)
    requires syncer.Valid() && syncer.Abs() == Client.SyncerState(0, 0, map[])
    requires AllServed(Initial(syncer.typeURL), turns) && attempts == Attempts(turns)
    modifies syncer, syncer.store
    ensures syncer.Valid()
    ensures var sys' := AfterTurns(Initial(syncer.typeURL), turns); sys'.syncer == syncer.Abs() && Replicated(sys')
  {
    syncer.Run(attempts);
    LoopFollowsLog(Initial(syncer.typeURL), turns);
  }
}
