/**
 A priority queue kept as two ordered trees, one by key and one by time. A tree
 is modelled by the set of its items; two items occupy the same place when
 neither is less than the other.
 */
module Scheduler {
  import opened Options
  import opened Strings
  import opened Times

  /** Times count from the zero time of the source. */
  const MAX_TIME: Time := 0x7FFF_FFFF_FFFF_FFFF * SECOND + 999_999_999

  datatype Item = Item(time: Time, key: string)

  predicate ByKeyLess(x: Item, y: Item) {
    Less(x.key, y.key)
  }

  predicate ByTimeLess(x: Item, y: Item) {
    if x.time < y.time then true
    else if y.time < x.time then false
    else ByKeyLess(x, y)
  }

  predicate SamePlace(less: (Item, Item) -> bool, x: Item, y: Item) {
    !less(x, y) && !less(y, x)
  }

  function TreeDelete(t: set<Item>, less: (Item, Item) -> bool, x: Item): set<Item> {
    set y | y in t && !SamePlace(less, x, y)
  }

  function TreeReplaceOrInsert(t: set<Item>, less: (Item, Item) -> bool, x: Item): set<Item> {
    TreeDelete(t, less, x) + {x}
  }

  method TreeGet(t: set<Item>, less: (Item, Item) -> bool, x: Item) returns (found: Option<Item>)
    ensures found.Some? ==> found.value in t && SamePlace(less, x, found.value)
    ensures found.None? ==> forall y :: y in t ==> !SamePlace(less, x, y)
  {
    var todo := t;
    while todo != {}
      invariant todo <= t
      invariant forall y :: y in t - todo ==> !SamePlace(less, x, y)
      decreases todo
    {
      var y :| y in todo;
      if SamePlace(less, x, y) {
        return Some(y);
      }
      todo := todo - {y};
    }
    found := None;
  }

  method TreeMinByTime(t: set<Item>) returns (least: Item)
    requires t != {}
    ensures least in t
    ensures forall y :: y in t && y != least ==> ByTimeLess(least, y)
  {
    least :| least in t;
    var todo := t - {least};
    while todo != {}
      invariant todo <= t && least in t && least !in todo
      invariant forall y :: y in t - todo && y != least ==> ByTimeLess(least, y)
      decreases todo
    {
      var y :| y in todo;
      ByTimeTrichotomy(y, least);
      if ByTimeLess(y, least) {
        forall z | z in t - todo && z != least
          ensures ByTimeLess(y, z)
        {
          ByTimeTransitive(y, least, z);
        }
        least := y;
      }
      todo := todo - {y};
    }
  }

  /** The time order is a strict total order: ties in time are broken by key. */
  lemma ByTimeTrichotomy(x: Item, y: Item)
    ensures ByTimeLess(x, y) || x == y || ByTimeLess(y, x)
    ensures !(ByTimeLess(x, y) && ByTimeLess(y, x)) && (x == y ==> !ByTimeLess(x, y))
  {
    LessTrichotomy(x.key, y.key);
  }

  lemma ByTimeTransitive(x: Item, y: Item, z: Item)
    requires ByTimeLess(x, y) && ByTimeLess(y, z)
    ensures ByTimeLess(x, z)
  {
    if x.time == y.time && y.time == z.time {
      LessTransitive(x.key, y.key, z.key);
    }
  }

  /** In the key tree, items share a place exactly when they share a key. */
  lemma SamePlaceByKey(x: Item, y: Item)
    ensures SamePlace(ByKeyLess, x, y) <==> x.key == y.key
  {
    LessTrichotomy(x.key, y.key);
  }

  /** In the time tree, only equal items share a place. */
  lemma SamePlaceByTime(x: Item, y: Item)
    ensures SamePlace(ByTimeLess, x, y) <==> x == y
  {
    ByTimeTrichotomy(x, y);
  }

  lemma DeletesExactly(t: set<Item>, x: Item)
    ensures TreeDelete(t, ByTimeLess, x) == t - {x}
    ensures TreeDelete(t, ByKeyLess, x) == set y | y in t && y.key != x.key
  {
    forall y | y in t
      ensures SamePlace(ByTimeLess, x, y) <==> x == y
      ensures SamePlace(ByKeyLess, x, y) <==> x.key == y.key
    {
      SamePlaceByTime(x, y);
      SamePlaceByKey(x, y);
    }
  }

  class Scheduler {
    var byTime: set<Item>
    var byKey: set<Item>
    /** The simple map that both trees represent. */
    ghost var due: map<string, Time>

    ghost predicate Valid()
      reads this
    {
      && byTime == byKey
      && forall x :: x in byKey <==> Lookup(due, x.key) == Some(x.time)
    }

    constructor ()
      ensures Valid() && due == map[]
    {
      byTime, byKey, due := {}, {}, map[];
    }

    method Add(time: Time, key: string)
      requires Valid()
      modifies this
      ensures Valid()
      ensures due == old(due)[key := time]
    {
      var probe, item := Item(0, key), Item(time, key);
      var i := TreeGet(byKey, ByKeyLess, probe);
      DeletesExactly(byKey, item);
      if i.Some? {
        SamePlaceByKey(probe, i.value);
        DeletesExactly(byTime, i.value);
        byTime := TreeDelete(byTime, ByTimeLess, i.value);
      } else {
        forall y | y in byKey
          ensures y.key != key
        {
          SamePlaceByKey(probe, y);
        }
      }
      byKey := TreeReplaceOrInsert(byKey, ByKeyLess, item);
      DeletesExactly(byTime, item);
      byTime := TreeReplaceOrInsert(byTime, ByTimeLess, item);
      due := due[key := time];
    }

    method Remove(key: string)
      requires Valid()
      modifies this
      ensures Valid()
      ensures due == old(due) - {key}
    {
      var probe := Item(0, key);
      assert key in due ==> Item(due[key], key) in byKey;
      var i := TreeGet(byKey, ByKeyLess, probe);
      if i.Some? {
        SamePlaceByKey(probe, i.value);
        DeletesExactly(byKey, i.value);
        DeletesExactly(byTime, i.value);
        byKey := TreeDelete(byKey, ByKeyLess, i.value);
        byTime := TreeDelete(byTime, ByTimeLess, i.value);
      } else {
        forall y | y in byKey
          ensures y.key != key
        {
          SamePlaceByKey(probe, y);
        }
      }
      due := due - {key};
    }

    method Next() returns (time: Time, key: string)
      requires Valid()
      ensures due == map[] ==> time == MAX_TIME && key == ""
      ensures due != map[] ==> Lookup(due, key) == Some(time)
      ensures forall k :: k in due && k != key ==> ByTimeLess(Item(time, key), Item(due[k], k))
      ensures forall k :: k in due && k != key ==> time < due[k] || (time == due[k] && Less(key, k))
    {
      assert forall k :: k in due ==> Item(due[k], k) in byTime;
      if |byTime| == 0 {
        return MAX_TIME, "";
      }
      var item := TreeMinByTime(byTime);
      assert Lookup(due, item.key) == Some(item.time);
      time, key := item.time, item.key;
    }
  }
}
