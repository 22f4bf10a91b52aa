/** An in-memory cache whose items expire, with a bound on their number. */
module Cache {
  import opened Wrappers

  datatype Item<V> = Item(value: V, expiration: int)

  /** Removing `removed` leaves only items that expire no earlier. */
  ghost predicate OldestRemoved<V>(before: map<string, Item<V>>, after: map<string, Item<V>>, removed: set<string>)
  {
    && removed <= before.Keys && after == before - removed
    && forall k, j :: k in removed && j in after ==> before[k].expiration <= before[j].expiration
  }

  /** The candidates are distinct stored keys with their expirations. */
  ghost predicate AreStored<V>(candidates: seq<(string, int)>, data: map<string, Item<V>>)
  {
    && (forall i :: 0 <= i < |candidates| ==>
        candidates[i].0 in data && data[candidates[i].0].expiration == candidates[i].1)
    && (forall i, j :: 0 <= i < j < |candidates| ==> candidates[i].0 != candidates[j].0)
  }

  ghost function KeysOf(candidates: seq<(string, int)>): (keys: set<string>)
    ensures forall i :: 0 <= i < |candidates| ==> candidates[i].0 in keys
  {
    set i | 0 <= i < |candidates| :: candidates[i].0
  }

  lemma {:induction false} DistinctKeys(candidates: seq<(string, int)>)
    requires forall i, j :: 0 <= i < j < |candidates| ==> candidates[i].0 != candidates[j].0
    ensures |KeysOf(candidates)| == |candidates|
  {
    if candidates == [] {
      assert KeysOf(candidates) == {};
    } else {
      var last := |candidates| - 1;
      DistinctKeys(candidates[..last]);
      assert KeysOf(candidates) == KeysOf(candidates[..last]) + {candidates[last].0};
    }
  }

  function RemovalCount(maxItems: int): (n: nat)
    ensures n >= 1
  {
    if maxItems / 5 > 1 then maxItems / 5 else 1
  }

  class Cache<V> {
    const maxItems: int
    const defaultTTL: int
    var itemCount: int
    var data: map<string, Item<V>>
    /** The items set and not deleted since, whether or not they expired or were evicted. */
    ghost var latest: map<string, Item<V>>

    constructor (maxItems: int, defaultTTL: int)
      ensures this.maxItems == maxItems && this.defaultTTL == defaultTTL
      ensures Valid() && data == map[] && latest == map[]
    {
      this.maxItems, this.defaultTTL := maxItems, defaultTTL;
      itemCount, data, latest := 0, map[], map[];
    }

    /** The count is right, the bound is kept, and every item is the latest one of its key. */
    ghost predicate Valid()
      reads this
    {
      && itemCount == |data|
      && (maxItems > 0 ==> |data| <= maxItems)
      && forall k :: k in data ==> k in latest && latest[k] == data[k]
    }

    method Set(key: string, value: V, now: int)
      requires Valid()
      modifies this
      ensures Valid()
      ensures latest == old(latest)[key := Item(value, now + defaultTTL)]
      ensures forall k :: k in data && k != key ==> k in old(data)
      ensures HasRoom(old(data), key) ==> data == old(data)[key := Item(value, now + defaultTTL)]
    {
      SetWithTTL(key, value, defaultTTL, now);
      if HasRoom(old(data), key) {
        Grown(old(data), key, Item(value, now + defaultTTL));
        ghost var stored := old(data)[key := Item(value, now + defaultTTL)];
        ghost var removed: set<string> :| OldestRemoved(stored, data, removed) && |removed| == 0;
        assert stored - removed == stored;
      }
    }

    /** Nothing has to go when this key is set. */
    predicate HasRoom(data: map<string, Item<V>>, key: string)
    {
      maxItems <= 0 || key in data || |data| < maxItems
    }

    method SetWithTTL(key: string, value: V, ttl: int, now: int)
      requires Valid()
      modifies this
      ensures Valid()
      ensures latest == old(latest)[key := Item(value, now + ttl)]
      ensures var stored := old(data)[key := Item(value, now + ttl)];
              exists removed :: OldestRemoved(stored, data, removed) &&
                |removed| == if 0 < maxItems < |stored| then (if maxItems < 10 then 1 else maxItems / 5) else 0
      ensures forall k :: k in data && k != key ==> k in old(data)
    {
      hide OldestRemoved;
      Store(key, Item(value, now + ttl));
      ghost var stored := data;
      ghost var removed: set<string> := {};
      if maxItems > 0 && itemCount > maxItems {
        removed := CleanupOldest();
      } else {
        NoneRemoved(data);
      }
      SizeAfterRemoval(stored, data, removed);
    }

    /** Replaces or adds an item, counting only new keys; the bound may be exceeded by one. */
    method Store(key: string, item: Item<V>)
      requires Valid()
      modifies this
      ensures data == old(data)[key := item] && latest == old(latest)[key := item] && itemCount == |data|
      ensures forall k :: k in data ==> k in latest && latest[k] == data[k]
      ensures maxItems > 0 ==> |data| <= maxItems + 1
    {
      if key in data {
        data := data - {key};
      } else {
        itemCount := itemCount + 1;
      }
      data := data[key := item];
      latest := latest[key := item];
      assert data == old(data)[key := item];
      Grown(old(data), key, item);
    }

    method Get(key: string, now: int) returns (value: Option<V>)
      requires Valid()
      modifies this
      ensures Valid() && latest == old(latest)
      ensures value == if key in old(data) && now <= old(data)[key].expiration then Some(old(data)[key].value) else None
      ensures value.Some? ==> key in latest && value == Some(latest[key].value) && now <= latest[key].expiration
      ensures data == if key in old(data) && value.None? then old(data) - {key} else old(data)
    {
      if key !in data { return None; }
      var item := data[key];
      if now > item.expiration {
        Shrunk(data, key);
        data := data - {key};
        itemCount := itemCount - 1;
        return None;
      }
      return Some(item.value);
    }

    /** A holder of a cached value changes it in place. */
    method ChangeInPlace(key: string, value: V)
      requires Valid() && key in data
      modifies this
      ensures Valid()
      ensures data == old(data)[key := Item(value, old(data)[key].expiration)]
      ensures latest == old(latest)[key := Item(value, old(data)[key].expiration)]
    {
      Grown(data, key, Item(value, data[key].expiration));
      data, latest := data[key := Item(value, data[key].expiration)], latest[key := Item(value, data[key].expiration)];
    }

    method Delete(key: string)
      requires Valid()
      modifies this
      ensures Valid() && data == old(data) - {key} && latest == old(latest) - {key}
    {
      if key in data {
        Shrunk(data, key);
        data := data - {key};
        itemCount := itemCount - 1;
      }
      latest := latest - {key};
      assert data == old(data) - {key};
    }

    method Clear()
      requires Valid()
      modifies this
      ensures Valid() && data == map[] && latest == map[] && Size() == 0
    {
      var left := data.Keys;
      while left != {}
        invariant left == data.Keys
        decreases |left|
      {
        var key :| key in left;
        data := data - {key};
        left := left - {key};
      }
      assert data == map[];
      itemCount, latest := 0, map[];
    }

    function Size(): (n: int)
      requires Valid()
      reads this
      ensures n == |data| && (maxItems > 0 ==> n <= maxItems)
    {
      itemCount
    }

    /** Removes what has expired; `clock` is read for every item. */
    method Cleanup(clock: string -> int)
      requires Valid()
      modifies this
      ensures Valid() && latest == old(latest)
      ensures data == map k | k in old(data) && clock(k) <= old(data)[k].expiration :: old(data)[k]
    {
      var left := data.Keys;
      var count := 0;
      while left != {}
        invariant left <= data.Keys <= old(data).Keys
        invariant forall k :: k in data ==> data[k] == old(data)[k]
        invariant forall k :: k in old(data) && k !in left ==> (k in data <==> clock(k) <= old(data)[k].expiration)
        invariant count + |data| == itemCount && unchanged(`latest) && unchanged(`itemCount)
        decreases |left|
      {
        var key :| key in left;
        left := left - {key};
        if clock(key) > data[key].expiration {
          Shrunk(data, key);
          data := data - {key};
          count := count + 1;
        }
      }
      if count > 0 {
        itemCount := itemCount - count;
      }
      SubsetSize(data, old(data));
    }

    /** Removes the items that expire first, whatever the order in which the keys are visited. */
    method CleanupOldest() returns (ghost removed: set<string>)
      requires itemCount == |data| && forall k :: k in data ==> k in latest && latest[k] == data[k]
      modifies `data, `itemCount
      ensures itemCount == |data| && forall k :: k in data ==> k in latest && latest[k] == data[k]
      ensures OldestRemoved(old(data), data, removed)
      ensures |old(data)| <= maxItems ==> removed == {}
      ensures |old(data)| > maxItems >= 10 ==> |removed| == maxItems / 5
      ensures |old(data)| > maxItems && maxItems < 10 ==> |removed| == if old(data) == map[] then 0 else 1
    {
      var threshold := RemovalCount(maxItems);
      if itemCount <= maxItems {
        NoneRemoved(data);
        return {};
      }
      var candidates := FindOldest(threshold);
      data := RemoveAll(candidates);
      SomeRemoved(candidates, old(data), data);
      removed := KeysOf(candidates);
      if |candidates| > 0 {
        itemCount := itemCount - |candidates|;
      }
    }

    /** Deletes the candidates one by one. */
    method RemoveAll(candidates: seq<(string, int)>) returns (rest: map<string, Item<V>>)
      requires AreStored(candidates, data)
      ensures rest == data - KeysOf(candidates) && |rest| == |data| - |candidates|
    {
      hide AreOldest, AreStored;
      rest := data;
      assert KeysOf([]) == {};
      hide KeysOf;
      assert candidates[..0] == [];
      for i := 0 to |candidates|
        invariant rest == data - KeysOf(candidates[..i]) && |rest| == |data| - i
      {
        OneLess(candidates, data, rest, i);
        rest := rest - {candidates[i].0};
      }
      assert candidates[..|candidates|] == candidates;
    }

    /** The `threshold` items that expire first. */
    method FindOldest(threshold: nat) returns (candidates: seq<(string, int)>)
      requires threshold >= 1
      ensures AreStored(candidates, data) && |candidates| == if threshold <= |data| then threshold else |data|
      ensures AreOldest(candidates, data, {})
    {
      hide AreOldest, KeysOf;
      candidates := [];
      var left := data.Keys;
      OldestOfNone(data);
      while left != {}
        invariant left <= data.Keys && AreStored(candidates, data) && AreOldest(candidates, data, left)
        invariant forall i :: 0 <= i < |candidates| ==> candidates[i].0 !in left
        invariant |candidates| == if threshold <= |data| - |left| then threshold else |data| - |left|
        decreases |left|
      {
        var key :| key in left;
        ghost var before, all := candidates, left;
        left := left - {key};
        var item := data[key];
        if |candidates| < threshold {
          candidates := candidates + [(key, item.expiration)];
          OldestAdded(before, data, all, key);
          continue;
        }
        var newestIdx := 0;
        for i := 1 to |candidates|
          invariant 0 <= newestIdx < |candidates|
          invariant forall j :: 0 <= j < i ==> candidates[j].1 <= candidates[newestIdx].1
        {
          if candidates[i].1 > candidates[newestIdx].1 { newestIdx := i; }
        }
        OldestKept(before, data, all, key, newestIdx);
        if item.expiration < candidates[newestIdx].1 {
          candidates := candidates[newestIdx := (key, item.expiration)];
        }
      }
    }
  }

  /** No visited item outside the candidates expires before one of them. */
  ghost predicate AreOldest<V>(candidates: seq<(string, int)>, data: map<string, Item<V>>, left: set<string>)
  {
    forall k :: k in data && k !in left && k !in KeysOf(candidates) ==> NoneAfter(candidates, data[k].expiration)
  }

  predicate NoneAfter(candidates: seq<(string, int)>, expiration: int)
  {
    forall i :: 0 <= i < |candidates| ==> candidates[i].1 <= expiration
  }

  lemma OneLess<V>(candidates: seq<(string, int)>, data: map<string, Item<V>>, rest: map<string, Item<V>>, i: nat)
    requires i < |candidates| && AreStored(candidates, data)
    requires rest == data - KeysOf(candidates[..i])
    ensures var r := rest - {candidates[i].0};
            r == data - KeysOf(candidates[..i + 1]) && |r| == |rest| - 1
  {
    hide KeysOf;
    KeysGrow(candidates, i);
    Shrunk(rest, candidates[i].0);
  }

  lemma KeysGrow(candidates: seq<(string, int)>, i: nat)
    requires i < |candidates| && forall i, j :: 0 <= i < j < |candidates| ==> candidates[i].0 != candidates[j].0
    ensures candidates[i].0 !in KeysOf(candidates[..i])
    ensures KeysOf(candidates[..i + 1]) == KeysOf(candidates[..i]) + {candidates[i].0}
  {
    assert candidates[..i + 1] == candidates[..i] + [candidates[i]];
  }

  lemma OldestOfNone<V>(data: map<string, Item<V>>)
    ensures AreOldest([], data, data.Keys)
  {
  }

  /** While there are too few candidates, everything visited is one. */
  lemma OldestAdded<V>(before: seq<(string, int)>, data: map<string, Item<V>>, left: set<string>, key: string)
    requires AreOldest(before, data, left) && AreStored(before, data) && key in left && key in data
    requires forall i :: 0 <= i < |before| ==> before[i].0 !in left
    requires |before| == |data| - |left| && left <= data.Keys
    ensures AreOldest(before + [(key, data[key].expiration)], data, left - {key})
  {
    var after := before + [(key, data[key].expiration)];
    assert after[|before|].0 == key;
    DistinctKeys(before);
    assert KeysOf(before) <= data.Keys - left;
    assert |data.Keys - left| == |data| - |left|;
    SameSize(KeysOf(before), data.Keys - left);
    forall k | k in KeysOf(before) ensures k in KeysOf(after) {
      var i :| 0 <= i < |before| && before[i].0 == k;
      assert after[i].0 == k;
    }
  }

  lemma SameSize(a: set<string>, b: set<string>)
    requires a <= b && |a| == |b|
    ensures a == b
  {
    assert b == a + (b - a);
  }

  /** A visited item either takes the place of the newest candidate, or expires no earlier. */
  lemma OldestKept<V>(before: seq<(string, int)>, data: map<string, Item<V>>, left: set<string>, key: string,
          newest: nat)
    requires AreOldest(before, data, left) && AreStored(before, data) && key in left && key in data && newest < |before|
    requires NoneAfter(before, before[newest].1)
    ensures var e := data[key].expiration;
            AreOldest(if e < before[newest].1 then before[newest := (key, e)] else before, data, left - {key})
  {
    var e := data[key].expiration;
    if e < before[newest].1 {
      var after := before[newest := (key, e)];
      assert after[newest].0 == key;
      forall k | k in KeysOf(before) && k != before[newest].0 ensures k in KeysOf(after) {
        var i :| 0 <= i < |before| && before[i].0 == k;
        assert after[i].0 == k;
      }
    }
  }

  /** Removing the oldest adds nothing, and takes away exactly as many items as were removed. */
  lemma SizeAfterRemoval<V>(before: map<string, Item<V>>, after: map<string, Item<V>>, removed: set<string>)
    requires OldestRemoved(before, after, removed)
    ensures after.Keys <= before.Keys && |after| == |before| - |removed|
  {
    assert after.Keys == before.Keys - removed;
    assert |after.Keys| == |after| && |before.Keys| == |before|;
    assert before.Keys == (before.Keys - removed) + removed;
  }

  lemma NoneRemoved<V>(data: map<string, Item<V>>)
    ensures OldestRemoved(data, data, {})
  {
    assert data - {} == data;
  }

  lemma SomeRemoved<V>(candidates: seq<(string, int)>, before: map<string, Item<V>>, after: map<string, Item<V>>)
    requires AreStored(candidates, before) && AreOldest(candidates, before, {}) && after == before - KeysOf(candidates)
    ensures OldestRemoved(before, after, KeysOf(candidates)) && |KeysOf(candidates)| == |candidates|
  {
    DistinctKeys(candidates);
    forall k, j | k in KeysOf(candidates) && j in after ensures before[k].expiration <= before[j].expiration {
      var i :| 0 <= i < |candidates| && candidates[i].0 == k;
      assert NoneAfter(candidates, before[j].expiration);
    }
  }

  lemma Grown<V>(data: map<string, V>, key: string, v: V)
    ensures |data[key := v]| == |data| + if key in data then 0 else 1
  {
    assert data[key := v].Keys == data.Keys + {key};
    assert |data.Keys| == |data| && |data[key := v].Keys| == |data[key := v]|;
  }

  lemma Shrunk<V>(data: map<string, V>, key: string)
    requires key in data
    ensures |data - {key}| == |data| - 1
  {
    assert (data - {key}).Keys == data.Keys - {key};
    assert |data.Keys| == |data| && |(data - {key}).Keys| == |data - {key}|;
  }

  lemma {:induction false} SubsetSize<V>(a: map<string, V>, b: map<string, V>)
    requires a.Keys <= b.Keys
    ensures |a| <= |b|
    decreases |b|
  {
    assert |a.Keys| == |a| && |b.Keys| == |b|;
    var rest := b.Keys - a.Keys;
    assert b.Keys == a.Keys + rest;
  }
}
