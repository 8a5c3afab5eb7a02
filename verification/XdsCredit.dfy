/**
 What a delta xDS server believes about a client, over every history of
 installed snapshots and received requests, in any order.
 */
module XdsCredit {
  import opened Options
  import opened XdsManager

  datatype Event = Installed(nonce: Nonce, resources: Resources) | Requested(typeURL: string, req: Request)

  datatype Server = Server(nonce: Nonce, resources: Resources, states: map<string, StreamState>)

  function Handle(s: Server, e: Event): Server {
    match e
    case Installed(nonce, resources) => s.(nonce := nonce, resources := resources)
    case Requested(t, req) =>
      s.(states := s.states[t := HandleRequest(Lookup(s.states, t), req, s.nonce, ResourcesOf(s.resources, t))])
  }

  function After(s: Server, history: seq<Event>): Server {
    if history == [] then s else Handle(After(s, history[..|history| - 1]), history[|history| - 1])
  }

  predicate RequestFor(e: Event, t: string) {
    e.Requested? && e.typeURL == t
  }

  /** An ACK that carries the nonce of the snapshot installed when it arrives. */
  predicate CurrentAck(s: Server, history: seq<Event>, t: string, i: nat)
    requires i < |history|
  {
    RequestFor(history[i], t) && IsAck(history[i].req, After(s, history[..i]).nonce)
  }

  predicate FirstRequest(history: seq<Event>, t: string, i: nat)
    requires i < |history|
  {
    RequestFor(history[i], t) && forall j :: 0 <= j < i ==> !RequestFor(history[j], t)
  }

  /** The last current ACK, or the first request when there was none. */
  ghost predicate CreditedBy(s: Server, history: seq<Event>, t: string, i: nat)
    requires i < |history|
  {
    && (CurrentAck(s, history, t, i) || FirstRequest(history, t, i))
    && forall j :: i < j < |history| ==> !CurrentAck(s, history, t, j)
  }

  /** The whole snapshot at an ACK, the client's own claim at a first request. */
  function CreditAt(s: Server, history: seq<Event>, t: string, i: nat): Versions
    requires i < |history| && RequestFor(history[i], t)
  {
    if CurrentAck(s, history, t, i) then VersionsOf(ResourcesOf(After(s, history[..i]).resources, t))
    else history[i].req.initial
  }

  function DroppedSince(history: seq<Event>, t: string, i: nat): set<string> {
    set j, name | i <= j < |history| && RequestFor(history[j], t) && name in history[j].req.unsubscribe :: name
  }

  lemma {:induction false} TrackedIffRequested(s: Server, history: seq<Event>, t: string)
    requires s.states == map[]
    ensures t in After(s, history).states <==> exists i :: 0 <= i < |history| && RequestFor(history[i], t)
  {
    if history != [] {
      var init := history[..|history| - 1];
      TrackedIffRequested(s, init, t);
      if t in After(s, init).states {
        var i :| 0 <= i < |init| && RequestFor(init[i], t);
        assert RequestFor(history[i], t);
      }
    }
  }

  /**
   Main result: the recorded versions are the snapshot of the last current ACK (or
   the initial claim) minus the names unsubscribed since. Rejections and stale ACKs add nothing.
   */
  lemma {:induction false} CreditIsEarned(s: Server, history: seq<Event>, t: string, i: nat)
    requires s.states == map[] && i < |history| && CreditedBy(s, history, t, i)
    ensures t in After(s, history).states
    ensures After(s, history).states[t].versions == CreditAt(s, history, t, i) - DroppedSince(history, t, i)
    decreases |history|
  {
    var m := |history| - 1;
    var init, e := history[..m], history[m];
    if i == m {
      TrackedIffRequested(s, init, t);
      assert FirstRequest(history, t, i) ==> t !in After(s, init).states;
      assert DroppedSince(history, t, i) == e.req.unsubscribe;
    } else {
      forall j | i <= j < m
        ensures CurrentAck(s, init, t, j) <==> CurrentAck(s, history, t, j)
      {
        assert init[..j] == history[..j];
      }
      CreditIsEarned(s, init, t, i);
      assert init[..i] == history[..i];
      assert !CurrentAck(s, history, t, m);
      DroppedSnoc(history, t, i);
    }
  }

  lemma DroppedSnoc(history: seq<Event>, t: string, i: nat)
    requires i < |history| - 1
    ensures var m := |history| - 1;
            DroppedSince(history, t, i) == DroppedSince(history[..m], t, i)
              + if RequestFor(history[m], t) then history[m].req.unsubscribe else {}
  {
    var m := |history| - 1;
    var init := history[..m];
    forall name | name in DroppedSince(history, t, i)
      ensures name in DroppedSince(init, t, i) || (RequestFor(history[m], t) && name in history[m].req.unsubscribe)
    {
      var j :| i <= j < |history| && RequestFor(history[j], t) && name in history[j].req.unsubscribe;
      assert j < m ==> init[j] == history[j];
    }
    forall name | name in DroppedSince(init, t, i)
      ensures name in DroppedSince(history, t, i)
    {
      var j :| i <= j < |init| && RequestFor(init[j], t) && name in init[j].req.unsubscribe;
      assert history[j] == init[j];
    }
  }

  /** Every type with a recorded state has such a credit. */
  lemma {:induction false} EveryRecordIsCredited(s: Server, history: seq<Event>, t: string) returns (i: nat)
    requires s.states == map[] && t in After(s, history).states
    ensures i < |history| && CreditedBy(s, history, t, i)
    decreases |history|
  {
    var m := |history| - 1;
    var init := history[..m];
    if CurrentAck(s, history, t, m) {
      return m;
    }
    if t in After(s, init).states {
      i := EveryRecordIsCredited(s, init, t);
      forall j | i <= j < m
        ensures CurrentAck(s, init, t, j) <==> CurrentAck(s, history, t, j)
      {
        assert init[..j] == history[..j];
      }
    } else {
      TrackedIffRequested(s, init, t);
      i := m;
      forall j | 0 <= j < m
        ensures !RequestFor(history[j], t)
      {
        assert init[j] == history[j];
      }
    }
  }

  /** The request at `i` unsubscribes from the name, and no later one subscribes to it again. */
  ghost predicate LeftAt(history: seq<Event>, t: string, name: string, i: nat) {
    && i < |history| && RequestFor(history[i], t) && name in history[i].req.unsubscribe
    && forall j :: i < j < |history| && RequestFor(history[j], t) ==> name !in history[j].req.subscribe
  }

  /** The last word on a name decides whether it counts as unsubscribed. */
  lemma {:induction false} UnsubscribedExactly(s: Server, history: seq<Event>, t: string, name: string)
    requires s.states == map[] && t in After(s, history).states
    ensures name in After(s, history).states[t].unsubscribed <==> exists i :: LeftAt(history, t, name, i)
    decreases |history|
  {
    var m := |history| - 1;
    var init, e := history[..m], history[m];
    TrackedIffRequested(s, init, t);
    if t in After(s, init).states {
      UnsubscribedExactly(s, init, t, name);
    }
    if i: nat :| LeftAt(init, t, name, i) {
      assert (RequestFor(e, t) && name in e.req.subscribe) || LeftAt(history, t, name, i);
    }
    if RequestFor(e, t) && name in e.req.unsubscribe {
      assert LeftAt(history, t, name, m);
    }
    if i: nat :| LeftAt(history, t, name, i) && i < m {
      assert init[i] == history[i] && forall j :: i < j < m ==> init[j] == history[j];
      assert LeftAt(init, t, name, i);
    }
  }
}
