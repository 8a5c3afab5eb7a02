/** The in-memory service registry and the wake-ups of its watchers. */
module Registry {
  import opened Options
  import opened Signal
  import opened Times

  datatype Service = Service(kind: nat, endpoint: string)

  type Registrations = map<Service, Time>

  function Registered(regs: Registrations, services: seq<Service>, expires: Time): Registrations {
    if services == [] then regs
    else Registered(regs, services[..|services| - 1], expires)[services[|services| - 1] := expires]
  }

  function Unexpired(regs: Registrations, now: Time): Registrations {
    map s | s in regs && !(regs[s] < now) :: regs[s]
  }

  /** An empty filter shows every kind. */
  function Visible(services: set<Service>, kinds: set<nat>): set<Service> {
    set s | s in services && (kinds == {} || s.kind in kinds)
  }

  /** A report refreshes exactly the named services. */
  lemma {:induction false} RegisteredLookup(regs: Registrations, services: seq<Service>, expires: Time, s: Service)
    ensures Lookup(Registered(regs, services, expires), s)
         == if s in services then Some(expires) else Lookup(regs, s)
  {
    if services != [] {
      RegisteredLookup(regs, services[..|services| - 1], expires, s);
    }
  }

  predicate NoDuplicates(s: seq<Service>) {
    forall i, j :: 0 <= i < j < |s| ==> s[i] != s[j]
  }

  class Server {
    var regs: Registrations

    constructor ()
      ensures regs == map[]
    {
      regs := map[];
    }

    method RmExpired(now: Time) returns (removed: bool)
      modifies this
      ensures regs == Unexpired(old(regs), now)
      ensures forall s :: Lookup(regs, s) ==
                if s in old(regs) && now <= old(regs)[s] then Some(old(regs)[s]) else None
      ensures removed <==> exists s :: s in old(regs) && old(regs)[s] < now
      ensures removed <==> regs.Keys != old(regs).Keys
    {
      removed := false;
      var todo := regs.Keys;
      while todo != {}
        invariant todo <= regs.Keys
        invariant regs == map s | s in old(regs) && (s in todo || !(old(regs)[s] < now)) :: old(regs)[s]
        invariant removed <==> exists s :: s in old(regs) && s !in todo && old(regs)[s] < now
        decreases todo
      {
        var s :| s in todo;
        if regs[s] < now {
          assert s in old(regs) && old(regs)[s] < now;
          regs := regs - {s};
          removed := true;
        }
        todo := todo - {s};
      }
    }

    method Register(services: seq<Service>, expires: Time) returns (inserted: bool)
      modifies this
      ensures regs == Registered(old(regs), services, expires)
      ensures inserted <==> regs.Keys != old(regs).Keys
    {
      inserted := false;
      for i := 0 to |services|
        invariant regs == Registered(old(regs), services[..i], expires)
        invariant old(regs).Keys <= regs.Keys
        invariant inserted <==> regs.Keys != old(regs).Keys
      {
        assert services[..i + 1][..i] == services[..i];
        if services[i] !in regs {
          inserted := true;
        }
        regs := regs[services[i] := expires];
      }
      assert services[..|services|] == services;
    }

    /** Two clock readings: one for the new expiry and a later one for the sweep. */
    method Report(services: seq<Service>, ttl: Time, clock: Time, sweep: Time, representable: bool)
      returns (updated: bool, ok: bool)
      modifies this
      ensures ok <==> representable
      ensures !ok ==> regs == old(regs) && !updated
      ensures ok ==> var reported := Registered(old(regs), services, clock + ttl);
                     && regs == Unexpired(reported, sweep)
                     && (updated <==> reported.Keys != old(regs).Keys || regs.Keys != reported.Keys)
      ensures ok ==> forall s :: Lookup(regs, s) ==
                       if s in services then if sweep <= clock + ttl then Some(clock + ttl) else None
                       else if s in old(regs) && sweep <= old(regs)[s] then Some(old(regs)[s]) else None
    {
      if !representable {
        return false, false;
      }
      var inserted := Register(services, clock + ttl);
      ghost var reported := regs;
      forall s
        ensures Lookup(reported, s) == if s in services then Some(clock + ttl) else Lookup(old(regs), s)
      {
        RegisteredLookup(old(regs), services, clock + ttl, s);
      }
      var removed := RmExpired(sweep);
      updated, ok := inserted || removed, true;
    }

    /** A list of the visible services, in no particular order. */
    method GetServices(kinds: set<nat>) returns (out: seq<Service>)
      ensures NoDuplicates(out)
      ensures (set s | s in out) == Visible(regs.Keys, kinds)
      ensures forall s :: s in out <==> s in regs && (kinds == {} || s.kind in kinds)
    {
      out := [];
      var todo := regs.Keys;
      while todo != {}
        invariant todo <= regs.Keys
        invariant NoDuplicates(out)
        invariant forall s :: s in out <==> s in Visible(regs.Keys - todo, kinds)
        decreases todo
      {
        var s :| s in todo;
        if kinds == {} || s.kind in kinds {
          assert s !in out;
          out := out + [s];
        }
        todo := todo - {s};
      }
    }
  }

  // --- Watchers, broadcasts and reports interleaved ---

  datatype Phase = Reading | Waiting

  /** `seen` is the last service set a watcher read and sent to its client. */
  datatype Watcher = Watcher(kinds: set<nat>, phase: Phase, seen: set<Service>)

  /**
   `owed` counts reports that changed the services and have not broadcast yet;
   `ringing` holds the channels a broadcast in progress still has to ring. Every
   watcher has one channel of the signal.
   */
  datatype System = System(
    regs: Registrations,
    owed: nat,
    ringing: Option<set<ChannelId>>,
    chs: Channels,
    watchers: map<ChannelId, Watcher>)

  datatype Step =
    | Report(services: seq<Service>, expires: Time, now: Time)
    | Sweep(now: Time)
    | BeginBroadcast
    | RingOne(ch: ChannelId)
    | EndBroadcast
    | Bind(ch: ChannelId, kinds: set<nat>)
    | Unbind(ch: ChannelId)
    | Receive(ch: ChannelId)
    | Read(ch: ChannelId)

  predicate Enabled(sys: System, step: Step) {
    match step
    case Report(_, _, _) => true
    case Sweep(_) => true
    case BeginBroadcast => sys.owed > 0 && sys.ringing.None?
    case RingOne(ch) => sys.ringing.Some? && ch in sys.ringing.value && ch in sys.chs
    case EndBroadcast => sys.ringing == Some({})
    case Bind(ch, _) => sys.ringing.None? && ch !in sys.chs
    case Unbind(ch) => sys.ringing.None?
    case Receive(ch) => Lookup(sys.chs, ch) == Some(true) && ch in sys.watchers && sys.watchers[ch].phase.Waiting?
    case Read(ch) => ch in sys.watchers && sys.watchers[ch].phase.Reading?
  }

  /** A change of registrations owes a broadcast when the method reports an update. */
  function Change(sys: System, regs: Registrations, updated: bool): System {
    sys.(regs := regs, owed := if updated then sys.owed + 1 else sys.owed)
  }

  function Perform(sys: System, step: Step): System
    requires Enabled(sys, step)
  {
    match step
    case Report(services, expires, now) =>
      var reported := Registered(sys.regs, services, expires);
      var regs := Unexpired(reported, now);
      Change(sys, regs, reported.Keys != sys.regs.Keys || regs.Keys != reported.Keys)
    case Sweep(now) =>
      var regs := Unexpired(sys.regs, now);
      Change(sys, regs, regs.Keys != sys.regs.Keys)
    case BeginBroadcast => sys.(owed := sys.owed - 1, ringing := Some(sys.chs.Keys))
    case RingOne(ch) => sys.(ringing := Some(sys.ringing.value - {ch}), chs := Ring(sys.chs, ch))
    case EndBroadcast => sys.(ringing := None)
    case Bind(ch, kinds) =>
      sys.(chs := Bound(sys.chs, ch), watchers := sys.watchers[ch := Watcher(kinds, Reading, {})])
    case Unbind(ch) => sys.(chs := Unbound(sys.chs, ch), watchers := sys.watchers - {ch})
    case Receive(ch) =>
      sys.(chs := Emptied(sys.chs, ch), watchers := sys.watchers[ch := sys.watchers[ch].(phase := Reading)])
    case Read(ch) =>
      var w := sys.watchers[ch];
      sys.(watchers := sys.watchers[ch := w.(phase := Waiting, seen := Visible(sys.regs.Keys, w.kinds))])
  }

  ghost predicate Legal(sys: System, steps: seq<Step>)
    decreases steps
  {
    steps == [] || (Enabled(sys, steps[0]) && Legal(Perform(sys, steps[0]), steps[1..]))
  }

  ghost function Execute(sys: System, steps: seq<Step>): System
    requires Legal(sys, steps)
    decreases steps
  {
    if steps == [] then sys else Execute(Perform(sys, steps[0]), steps[1..])
  }

  predicate UpToDate(sys: System, w: Watcher) {
    w.seen == Visible(sys.regs.Keys, w.kinds)
  }

  /** A waiting watcher is up to date, or a wake-up is on its way. */
  predicate WillWake(sys: System, ch: ChannelId)
    requires ch in sys.watchers && ch in sys.chs
  {
    var w := sys.watchers[ch];
    w.phase.Waiting? ==>
      || sys.chs[ch]
      || sys.owed > 0
      || (sys.ringing.Some? && ch in sys.ringing.value)
      || UpToDate(sys, w)
  }

  predicate Inv(sys: System) {
    sys.chs.Keys == sys.watchers.Keys && forall ch :: ch in sys.watchers ==> WillWake(sys, ch)
  }

  lemma StepKeeps(sys: System, step: Step)
    requires Inv(sys) && Enabled(sys, step)
    ensures Inv(Perform(sys, step))
  {
    var sys' := Perform(sys, step);
    assert sys'.chs.Keys == sys'.watchers.Keys;
    forall ch | ch in sys'.watchers
      ensures WillWake(sys', ch)
    {
      assert ch in sys.watchers ==> WillWake(sys, ch);
    }
  }

  lemma {:induction false} RunKeeps(sys: System, steps: seq<Step>)
    requires Inv(sys) && Legal(sys, steps)
    ensures Inv(Execute(sys, steps))
    decreases steps
  {
    if steps != [] {
      StepKeeps(sys, steps[0]);
      RunKeeps(Perform(sys, steps[0]), steps[1..]);
    }
  }

  const EMPTY: System := System(map[], 0, None, map[], map[])

  /**
   No lost wake-up: in every interleaving, a watcher that waits on an empty channel
   while no broadcast is owed or in progress has read the current services.
   */
  lemma NoLostWakeup(steps: seq<Step>, ch: ChannelId)
    requires Legal(EMPTY, steps)
    requires var sys := Execute(EMPTY, steps);
             && ch in sys.watchers && sys.watchers[ch].phase.Waiting? && Lookup(sys.chs, ch) == Some(false)
             && sys.owed == 0 && sys.ringing.None?
    ensures UpToDate(Execute(EMPTY, steps), Execute(EMPTY, steps).watchers[ch])
  {
    RunKeeps(EMPTY, steps);
    assert WillWake(Execute(EMPTY, steps), ch);
  }

  // --- A broadcast as a whole ---

  function Rings(order: seq<ChannelId>): seq<Step> {
    seq(|order|, i requires 0 <= i < |order| => RingOne(order[i]))
  }

  lemma {:induction false} RingsRun(sys: System, order: seq<ChannelId>)
    requires sys.ringing.Some? && sys.ringing.value <= sys.chs.Keys
    requires NoneTwice(order) && forall ch :: ch in order <==> ch in sys.ringing.value
    ensures Legal(sys, Rings(order) + [EndBroadcast]) && AllBound(sys.chs, order)
    ensures Execute(sys, Rings(order) + [EndBroadcast]) == sys.(ringing := None, chs := RingAll(sys.chs, order))
    decreases order
  {
    var steps := Rings(order) + [EndBroadcast];
    if order == [] {
      assert sys.ringing.value == {};
      assert steps == [EndBroadcast] && steps[1..] == [];
    } else {
      var sys' := Perform(sys, RingOne(order[0]));
      assert order[0] in order;
      RingsRun(sys', order[1..]);
      assert steps[0] == RingOne(order[0]) && steps[1..] == Rings(order[1..]) + [EndBroadcast];
      assert AllBound(sys.chs, order);
    }
  }

  /** The steps of a broadcast, one channel at a time, do what the signal's own method does. */
  lemma BroadcastRuns(sys: System, order: seq<ChannelId>)
    requires sys.owed > 0 && sys.ringing.None?
    requires NoneTwice(order) && forall ch :: ch in order <==> ch in sys.chs
    ensures var steps := [BeginBroadcast] + (Rings(order) + [EndBroadcast]);
            && AllBound(sys.chs, order) && Legal(sys, steps)
            && Execute(sys, steps) == sys.(owed := sys.owed - 1, chs := RingAll(sys.chs, order))
  {
    var steps := [BeginBroadcast] + (Rings(order) + [EndBroadcast]);
    RingsRun(Perform(sys, BeginBroadcast), order);
    assert steps[1..] == Rings(order) + [EndBroadcast];
  }
}
