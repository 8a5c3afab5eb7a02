/**
 Databroker records and the meaning of a change log: the map from record keys
 to decoded messages obtained by applying the changes in order.
 */
module Records {
  import opened Options

  const MAX_UINT64: nat := 0xFFFF_FFFF_FFFF_FFFF

  type uint64 = v: nat | v <= MAX_UINT64

  /** A decoded record payload; the server's own version record holds a number. */
  datatype Message = VersionValue(value: uint64) | Payload(bytes: string)

  /** `data` is `None` for a payload that cannot be decoded. */
  datatype Record = Record(version: uint64, typ: string, id: string, deleted: bool, data: Option<Message>)

  type Key = (string, string)

  /** What a reader of a store can see: only decoded, undeleted records. */
  type View = map<Key, Message>

  function KeyOf(r: Record): Key {
    (r.typ, r.id)
  }

  function Apply(v: View, r: Record): View {
    if r.deleted || r.data.None? then v - {KeyOf(r)} else v[KeyOf(r) := r.data.value]
  }

  function Fold(v: View, rs: seq<Record>): View {
    if rs == [] then v else Apply(Fold(v, rs[..|rs| - 1]), rs[|rs| - 1])
  }

  /** An empty type stands for every type. */
  predicate TypeSelected(typeURL: string, typ: string) {
    typeURL == "" || typeURL == typ
  }

  function Select(typeURL: string, rs: seq<Record>): seq<Record> {
    if rs == [] then []
    else
      var r := rs[|rs| - 1];
      Select(typeURL, rs[..|rs| - 1]) + if TypeSelected(typeURL, r.typ) then [r] else []
  }

  function Restrict(v: View, typeURL: string): View {
    map k | k in v && TypeSelected(typeURL, k.0) :: v[k]
  }

  /** The replica a client filtering on `typeURL` should hold after `n` changes. */
  function Replica(log: seq<Record>, n: nat, typeURL: string): View
    requires n <= |log|
  {
    Restrict(Fold(map[], log[..n]), typeURL)
  }

  lemma FoldSnoc(v: View, rs: seq<Record>, r: Record)
    ensures Fold(v, rs + [r]) == Apply(Fold(v, rs), r)
  {
    assert (rs + [r])[..|rs|] == rs;
  }

  /** A change of an unselected type is invisible after filtering. */
  lemma RestrictApply(v: View, r: Record, typeURL: string)
    ensures Restrict(Apply(v, r), typeURL)
         == if TypeSelected(typeURL, r.typ) then Apply(Restrict(v, typeURL), r) else Restrict(v, typeURL)
  {
    forall k
      ensures Lookup(Restrict(Apply(v, r), typeURL), k)
           == Lookup(if TypeSelected(typeURL, r.typ) then Apply(Restrict(v, typeURL), r) else Restrict(v, typeURL), k)
    {
    }
    SameLookups(Restrict(Apply(v, r), typeURL),
                if TypeSelected(typeURL, r.typ) then Apply(Restrict(v, typeURL), r) else Restrict(v, typeURL));
  }

  /** Filtering the changes and filtering the result are the same. */
  lemma {:induction false} FoldSelect(typeURL: string, rs: seq<Record>)
    ensures Fold(map[], Select(typeURL, rs)) == Restrict(Fold(map[], rs), typeURL)
  {
    if rs != [] {
      var init, r := rs[..|rs| - 1], rs[|rs| - 1];
      FoldSelect(typeURL, init);
      RestrictApply(Fold(map[], init), r, typeURL);
      if TypeSelected(typeURL, r.typ) {
        FoldSnoc(map[], Select(typeURL, init), r);
      } else {
        assert Select(typeURL, rs) == Select(typeURL, init);
      }
    }
  }

  /** One more change extends the replica exactly when its type is selected. */
  lemma ReplicaSnoc(log: seq<Record>, n: nat, typeURL: string)
    requires n < |log|
    ensures Replica(log, n + 1, typeURL)
         == if TypeSelected(typeURL, log[n].typ) then Apply(Replica(log, n, typeURL), log[n])
            else Replica(log, n, typeURL)
  {
    assert log[..n + 1] == log[..n] + [log[n]];
    FoldSnoc(map[], log[..n], log[n]);
    RestrictApply(Fold(map[], log[..n]), log[n], typeURL);
  }

  /** A log that grew keeps its earlier replicas. */
  lemma ReplicaPrefix(log: seq<Record>, more: seq<Record>, n: nat, typeURL: string)
    requires n <= |log|
    ensures Replica(log + more, n, typeURL) == Replica(log, n, typeURL)
  {
    assert (log + more)[..n] == log[..n];
  }

  // --- What the replica holds, record by record ---

  /** A change decides its own key alone: gone when deleted or undecodable, else its data. */
  lemma ApplyLookup(v: View, r: Record, k: Key)
    ensures Lookup(Apply(v, r), k) == if k != (r.typ, r.id) then Lookup(v, k) else if r.deleted then None else r.data
  {
  }

  /** `last` is the place of the last record of the key, -1 when there is none. */
  predicate IsLast(rs: seq<Record>, k: Key, last: int) {
    && -1 <= last < |rs|
    && (last != -1 ==> (rs[last].typ, rs[last].id) == k)
    && forall i :: last < i < |rs| ==> (rs[i].typ, rs[i].id) != k
  }

  lemma {:induction false} LastChangeDecides(v: View, rs: seq<Record>, k: Key) returns (last: int)
    ensures IsLast(rs, k, last)
    ensures Lookup(Fold(v, rs), k) == if last == -1 then Lookup(v, k) else if rs[last].deleted then None else rs[last].data
  {
    last := |rs| - 1;
    if rs != [] {
      ApplyLookup(Fold(v, rs[..last]), rs[last], k);
      if (rs[last].typ, rs[last].id) != k {
        last := LastChangeDecides(v, rs[..last], k);
      }
    }
  }

  /** The last of the first `n` changes of a key decides what the replica holds, if its type is selected. */
  lemma LastRecordDecides(log: seq<Record>, n: nat, typeURL: string, k: Key) returns (last: int)
    requires n <= |log|
    ensures IsLast(log[..n], k, last)
    ensures Lookup(Replica(log, n, typeURL), k)
         == if last == -1 || (typeURL != "" && typeURL != k.0) || log[last].deleted then None else log[last].data
  {
    last := LastChangeDecides(map[], log[..n], k);
  }
}
