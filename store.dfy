/**
 * The workouts table, as an in-memory map keyed by `(userId, workoutId)`,
 * with the three operations the handler issues: put, query by partition key,
 * and delete by exact key.
 */
module Store {
  import opened Workouts

  /** Every record sits under its own key. */
  predicate KeyedByRecord(m: map<Key, Workout>) {
    forall k :: k in m ==> KeyOf(m[k]) == k
  }

  /** The entries of `m` in the partition of `userId`. */
  function Partition(m: map<Key, Workout>, userId: string): (p: map<Key, Workout>)
    ensures forall k :: k in p <==> k in m && k.userId == userId
    ensures forall k :: k in p ==> p[k] == m[k]
  {
    map k | k in m && k.userId == userId :: m[k]
  }

  class Table {
    var items: map<Key, Workout>

    ghost predicate Valid()
      reads this
    {
      KeyedByRecord(items)
    }

    constructor ()
      ensures Valid() && items == map[]
    {
      items := map[];
    }

    /** `put_item`: stores `item` under its key, replacing any record there. */
    method PutItem(item: Workout)
      requires Valid()
      modifies this
      ensures Valid()
      ensures items == old(items)[KeyOf(item) := item]
    {
      items := items[KeyOf(item) := item];
    }

    /** `query` on the partition key: every record of `userId`, each once, in no promised order. */
    method Query(userId: string) returns (rs: seq<Workout>)
      requires Valid()
      ensures multiset(rs) == multiset(Partition(items, userId).Values)
    {
      var remaining := Partition(items, userId).Values;
      rs := [];
      while remaining != {}
        invariant multiset(rs) + multiset(remaining) == multiset(Partition(items, userId).Values)
        decreases remaining
      {
        var w :| w in remaining;
        assert multiset(remaining) == multiset(remaining - {w}) + multiset{w};
        rs := rs + [w];
        remaining := remaining - {w};
      }
    }

    /** `delete_item`: removes the record under `key`, if there is one; no existence check. */
    method DeleteItem(key: Key)
      requires Valid()
      modifies this
      ensures Valid()
      ensures items == old(items) - {key}
    {
      items := items - {key};
    }
  }

  /**
   * A sequence holding the partition's records once each lists exactly the
   * stored records of that user, one per key.
   */
  lemma ListsPartition(m: map<Key, Workout>, userId: string, rs: seq<Workout>)
    requires KeyedByRecord(m)
    requires multiset(rs) == multiset(Partition(m, userId).Values)
    ensures forall w :: w in rs <==> KeyOf(w) in m && m[KeyOf(w)] == w && w.userId == userId
    ensures |rs| == |Partition(m, userId)|
  {
    var p := Partition(m, userId);
    forall w ensures w in rs <==> KeyOf(w) in m && m[KeyOf(w)] == w && w.userId == userId {
      assert w in rs <==> w in multiset(rs);
    }
    assert |rs| == |multiset(rs)|;
    ValuesCount(p);
  }

  /** A map whose records sit under their own keys has as many records as keys. */
  lemma {:induction false} ValuesCount(m: map<Key, Workout>)
    requires KeyedByRecord(m)
    ensures |m.Values| == |m|
    decreases |m|
  {
    if m != map[] {
      var k :| k in m;
      var rest := m - {k};
      ValuesCount(rest);
      forall v | v in m.Values ensures v in rest.Values + {m[k]} {
        var k' :| k' in m && m[k'] == v;
        if k' != k { assert k' in rest && rest[k'] == v; }
      }
      forall v | v in rest.Values ensures v in m.Values {
        var k' :| k' in rest && rest[k'] == v;
        assert k' in m && m[k'] == v;
      }
      assert m.Values == rest.Values + {m[k]};
      assert m[k] !in rest.Values;
    }
  }
}
