/** The policy evaluator's copy of the databroker records. */
module EvaluatorStore {
  import opened Options
  import opened Records

  type Nested = map<string, map<string, Option<Message>>>

  /** A stored nil message reads like a missing one. */
  function ReadAt(data: Nested, k: Key): Option<Message> {
    if k.0 in data && k.1 in data[k.0] then data[k.0][k.1] else None
  }

  class Store {
    var data: Nested
    ghost var view: View

    /** Every lookup in the nested map agrees with the flat view. */
    ghost predicate Valid()
      reads this
    {
      forall k: Key :: ReadAt(data, k) == Lookup(view, k)
    }

    constructor ()
      ensures Valid()
      ensures view == map[]
    {
      data, view := map[], map[];
    }

    method ClearRecords()
      modifies this
      ensures Valid()
      ensures view == map[]
    {
      data, view := map[], map[];
    }

    method GetRecordData(typeURL: string, id: string) returns (msg: Option<Message>)
      requires Valid()
      ensures msg == Lookup(view, (typeURL, id))
    {
      assert ReadAt(data, (typeURL, id)) == Lookup(view, (typeURL, id));
      if typeURL !in data {
        return None;
      }
      if id !in data[typeURL] {
        return None;
      }
      msg := data[typeURL][id];
    }

    method UpdateRecord(r: Record)
      requires Valid()
      modifies this
      ensures Valid()
      ensures view == Apply(old(view), r)
      ensures forall k: Key :: Lookup(view, k) ==
                if k != (r.typ, r.id) then Lookup(old(view), k) else if r.deleted then None else r.data
    {
      ghost var before := data;
      var m := if r.typ in data then data[r.typ] else map[];
      if r.deleted {
        m := m - {r.id};
      } else {
        m := m[r.id := r.data];
      }
      data := data[r.typ := m];
      view := Apply(view, r);
      assert forall k: Key :: k != KeyOf(r) ==> ReadAt(data, k) == ReadAt(before, k);
    }

    /** The synchronous handler: every record of the batch, in order. */
    method UpdateRecords(rs: seq<Record>)
      requires Valid()
      modifies this
      ensures Valid()
      ensures view == Fold(old(view), rs)
    {
      for i := 0 to |rs|
        invariant Valid()
        invariant view == Fold(old(view), rs[..i])
      {
        UpdateRecord(rs[i]);
        assert rs[..i + 1] == rs[..i] + [rs[i]];
        FoldSnoc(old(view), rs[..i], rs[i]);
      }
      assert rs[..|rs|] == rs;
    }
  }
}
