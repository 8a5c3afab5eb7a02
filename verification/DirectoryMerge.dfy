/**
 Merging a freshly fetched directory into the databroker: the same code serves
 groups and users, which are abstracted to values stored under ids.
 */
module DirectoryMerge {
  import opened Options

  datatype Entry<V> = Entry(id: string, value: V)

  /** A record put; no value marks the record deleted. */
  datatype Put<V> = Put(id: string, value: Option<V>)

  /** The fetched entries by id; the last of several with one id counts. */
  function ById<V>(fetched: seq<Entry<V>>): map<string, V> {
    if fetched == [] then map[]
    else ById(fetched[..|fetched| - 1])[fetched[|fetched| - 1].id := fetched[|fetched| - 1].value]
  }

  /** `last` is the place of the last entry with the id, -1 when there is none; it alone decides. */
  lemma {:induction false} LastFetchedDecides<V>(fetched: seq<Entry<V>>, id: string) returns (last: int)
    ensures -1 <= last < |fetched|
    ensures last != -1 ==> fetched[last].id == id
    ensures forall i :: last < i < |fetched| ==> fetched[i].id != id
    ensures Lookup(ById(fetched), id) == if last == -1 then None else Some(fetched[last].value)
  {
    last := |fetched| - 1;
    if fetched != [] && fetched[last].id != id {
      last := LastFetchedDecides(fetched[..last], id);
    }
  }

  /** Which puts a merge emits: one for every id whose cached and fetched entries differ. */
  predicate Emitted<V(==)>(cached: map<string, V>, fetched: map<string, V>, p: Put<V>) {
    p.value == Lookup(fetched, p.id) && Lookup(cached, p.id) != Lookup(fetched, p.id)
  }

  method Merge<V(==)>(cached: map<string, V>, fetched: seq<Entry<V>>) returns (puts: seq<Put<V>>)
    ensures forall p :: p in puts <==> Emitted(cached, ById(fetched), p)
    ensures forall i, j :: 0 <= i < j < |puts| ==> puts[i].id != puts[j].id
  {
    var lookup: map<string, V> := map[];
    for i := 0 to |fetched|
      invariant lookup == ById(fetched[..i])
    {
      assert fetched[..i + 1][..i] == fetched[..i];
      lookup := lookup[fetched[i].id := fetched[i].value];
    }
    assert fetched[..|fetched|] == fetched;
    puts := [];
    var todo := lookup.Keys;
    while todo != {}
      invariant todo <= lookup.Keys
      invariant forall p :: p in puts <==> p.id in lookup && p.id !in todo && Emitted(cached, lookup, p)
      invariant forall i, j :: 0 <= i < j < |puts| ==> puts[i].id != puts[j].id
      decreases todo
    {
      var id :| id in todo;
      assert forall p :: p in puts ==> p.id != id;
      if id !in cached || lookup[id] != cached[id] {
        puts := puts + [Put(id, Some(lookup[id]))];
      }
      todo := todo - {id};
    }
    todo := cached.Keys;
    while todo != {}
      invariant todo <= cached.Keys
      invariant forall p :: p in puts <==> (p.id in lookup || p.id !in todo) && Emitted(cached, lookup, p)
      invariant forall i, j :: 0 <= i < j < |puts| ==> puts[i].id != puts[j].id
      decreases todo
    {
      var id :| id in todo;
      if id !in lookup {
        assert forall p :: p in puts ==> p.id != id;
        puts := puts + [Put(id, None)];
      }
      todo := todo - {id};
    }
  }

  function ApplyPut<V>(live: map<string, V>, p: Put<V>): map<string, V> {
    if p.value.Some? then live[p.id := p.value.value] else live - {p.id}
  }

  function ApplyPuts<V>(live: map<string, V>, puts: seq<Put<V>>): map<string, V> {
    if puts == [] then live else ApplyPut(ApplyPuts(live, puts[..|puts| - 1]), puts[|puts| - 1])
  }

  /**
   Any of the emitted puts, in any order: an id that was put has its fetched entry,
   every other id keeps its old one.
   */
  lemma {:induction false} AnyPutsApplied<V>(
    cached: map<string, V>, fetched: map<string, V>, live: map<string, V>, puts: seq<Put<V>>, id: string)
    requires forall p :: p in puts ==> Emitted(cached, fetched, p)
    ensures Lookup(ApplyPuts(live, puts), id)
         == if exists p :: p in puts && p.id == id then Lookup(fetched, id) else Lookup(live, id)
  {
    if puts != [] {
      var init, last := puts[..|puts| - 1], puts[|puts| - 1];
      AnyPutsApplied(cached, fetched, live, init, id);
      assert last in puts;
      if last.id != id && exists p :: p in puts && p.id == id {
        var p :| p in puts && p.id == id;
        assert p in init;
      }
    }
  }

  /**
   All emitted puts, in any order, yield exactly the fetched directory if and only if
   no entry looks up to date in the cache while the databroker has something else.
   */
  lemma MergeYieldsFetched<V>(
    cached: map<string, V>, fetched: map<string, V>, live: map<string, V>, puts: seq<Put<V>>)
    requires forall p :: p in puts <==> Emitted(cached, fetched, p)
    ensures ApplyPuts(live, puts) == fetched
       <==> forall id :: Lookup(cached, id) == Lookup(fetched, id) ==> Lookup(live, id) == Lookup(cached, id)
  {
    forall id
      ensures Lookup(ApplyPuts(live, puts), id)
           == if Lookup(cached, id) != Lookup(fetched, id) then Lookup(fetched, id) else Lookup(live, id)
    {
      AnyPutsApplied(cached, fetched, live, puts, id);
      if Lookup(cached, id) != Lookup(fetched, id) {
        assert Put(id, Lookup(fetched, id)) in puts;
      }
    }
    if forall id :: Lookup(cached, id) == Lookup(fetched, id) ==> Lookup(live, id) == Lookup(cached, id) {
      SameLookups(ApplyPuts(live, puts), fetched);
    }
  }

  /** With an accurate cache the merge is a correct diff. */
  lemma AccurateCacheMerges<V>(cached: map<string, V>, fetched: map<string, V>, puts: seq<Put<V>>)
    requires forall p :: p in puts <==> Emitted(cached, fetched, p)
    ensures ApplyPuts(cached, puts) == fetched
  {
    MergeYieldsFetched(cached, fetched, cached, puts);
  }

  /** How the cache follows a put: a deletion never removes the cached entry. */
  function CacheStep<V>(cached: map<string, V>, p: Put<V>): map<string, V> {
    if p.value.Some? then cached[p.id := p.value.value] else cached
  }

  /** An entry that is deleted and comes back unchanged is not written again. */
  lemma DeletedEntryStaysDeleted<V>(id: string, v: V)
    ensures var before := map[id := v];
            var deletion := Put(id, None);
            && (forall p :: Emitted(before, map[], p) <==> p == deletion)
            && ApplyPut(before, deletion) == map[]
            && (forall p :: !Emitted(CacheStep(before, deletion), map[id := v], p))
  {
    var before := map[id := v];
    forall p: Put<V>
      ensures Emitted(before, map[], p) <==> p == Put(id, None)
    {
    }
    assert ApplyPut(before, Put(id, None)) == map[];
  }
}
