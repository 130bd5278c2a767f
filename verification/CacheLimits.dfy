/** The limits of a cache, written out: what every run keeps, what every store evicts no more than it must. */
module CacheLimits {
  import opened Collections
  import opened Cache
  import opened CacheRuns
  import opened SingleFlight
  import opened SharedRuns

  /** What the values of these keys weigh together. */
  function Load<K(==), V>(p: Policy<V>, keys: seq<K>, items: map<K, V>): int {
    if keys == [] then 0
    else
      (if keys[0] in items && p.weigh.Some? then p.weigh.value(items[keys[0]]) else 0) + Load(p, keys[1..], items)
  }

  /** The weigher's value for every held key, each counted once. */
  lemma {:induction false} LoadAdds<K, V>(p: Policy<V>, keys: seq<K>, more: seq<K>, items: map<K, V>)
    ensures Load(p, keys + more, items) == Load(p, keys, items) + Load(p, more, items)
    ensures forall k, w :: k in items && p.weigh == Some(w) ==> Load(p, [k], items) == w(items[k])
  {
    if keys == [] {
      assert keys + more == more;
    } else {
      LoadAdds(p, keys[1..], more, items);
      assert (keys + more)[1..] == keys[1..] + more;
    }
  }

  lemma {:induction false} LoadIsTotalWeight<K, V>(p: Policy<V>, keys: seq<K>, items: map<K, V>, weights: map<K, int>)
    requires weights.Keys == (if p.weigh.Some? then items.Keys else {})
    requires forall k :: k in weights ==> weights[k] == p.Weight(items[k])
    ensures TotalWeight(keys, weights) == Load(p, keys, items)
  {
    if keys != [] {
      LoadIsTotalWeight(p, keys[1..], items, weights);
    }
  }

  /** Several keys are held only within both limits. */
  ghost predicate WithinLimits<K, V>(p: Policy<V>, c: Lru<K, V>) {
    |c.order| > 1 ==>
      && (p.maxItems.Some? ==> |c.order| <= p.maxItems.value)
      && (p.maxWeight.Some? ==> Load(p, c.order, c.items) <= p.maxWeight.value)
  }

  /** Evicting keeps a suffix with the newest key that is within the limits, and no longer suffix is. */
  lemma TrimByLimits<K, V>(p: Policy<V>, order: seq<K>, weights: map<K, int>)
    ensures var kept := Trim(p, order, weights);
            && |kept| <= |order| && kept == order[|order| - |kept|..]
            && (|kept| > 1 ==>
                  && (p.maxItems.Some? ==> |kept| <= p.maxItems.value)
                  && (p.maxWeight.Some? ==> TotalWeight(kept, weights) <= p.maxWeight.value))
    ensures forall n :: 0 <= n < |order| - |Trim(p, order, weights)| ==> Breaks(p, order[n..], weights)
  {
    TrimIsLongestSettledSuffix(p, order, weights);
    hide Trim, TotalWeight;
    forall n | 0 <= n < |order| - |Trim(p, order, weights)| ensures Breaks(p, order[n..], weights) {
      assert !Settled(p, order[n..], weights);
    }
  }

  /** Several keys, and one of the limits broken. */
  predicate Breaks<K(==), V>(p: Policy<V>, order: seq<K>, weights: map<K, int>) {
    && |order| > 1
    && ((p.maxItems.Some? && |order| > p.maxItems.value)
        || (p.maxWeight.Some? && TotalWeight(order, weights) > p.maxWeight.value))
  }

  lemma EvictedOrder<K, V>(p: Policy<V>, c: Lru<K, V>)
    ensures Evicted(p, c).order == Trim(p, c.order, c.weights)
  {
    hide Trim;
  }

  /** A well-formed cache is within the limits if what its keys weigh in its own table is. */
  lemma WithinByWeights<K, V>(p: Policy<V>, c: Lru<K, V>)
    requires WellFormed(p, c)
    requires |c.order| > 1 ==>
               && (p.maxItems.Some? ==> |c.order| <= p.maxItems.value)
               && (p.maxWeight.Some? ==> TotalWeight(c.order, c.weights) <= p.maxWeight.value)
    ensures WithinLimits(p, c)
  {
    WellFormedLoad(p, c, c.order);
    hide WellFormed, TotalWeight, Load;
  }

  lemma WellFormedLoad<K, V>(p: Policy<V>, c: Lru<K, V>, keys: seq<K>)
    requires WellFormed(p, c)
    ensures TotalWeight(keys, c.weights) == Load(p, keys, c.items)
  {
    LoadIsTotalWeight(p, keys, c.items, c.weights);
  }

  lemma EvictedIsWithinLimits<K, V>(p: Policy<V>, c: Lru<K, V>)
    requires WellFormed(p, c)
    ensures WithinLimits(p, Evicted(p, c))
  {
    var after := Evicted(p, c);
    EvictedKeepsWellFormed(p, c);
    EvictedOrder(p, c);
    KeptWeights(p, c);
    hide *;
    TrimByLimits(p, c.order, c.weights);
    TotalWeightAgrees(after.order, after.weights, c.weights);
    WithinByWeights(p, after);
  }

  lemma StoreKeepsWithinLimits<K, V>(p: Policy<V>, c: Lru<K, V>, key: K, value: V)
    requires WellFormed(p, c)
    ensures WithinLimits(p, Put(p, c, key, value))
  {
    PutIsEvictedStored(p, c, key, value);
    hide *;
    StoredKeepsWellFormed(p, c, key, value);
    EvictedIsWithinLimits(p, Stored(p, c, key, value));
  }

  lemma PutIsEvictedStored<K, V>(p: Policy<V>, c: Lru<K, V>, key: K, value: V)
    ensures Put(p, c, key, value) == Evicted(p, Stored(p, c, key, value))
    ensures Stored(p, c, key, value).order == WithNewest(c.order, key)
    ensures Stored(p, c, key, value).items == c.items[key := value]
  {
    hide Evicted, Without, Reweigh;
  }

  lemma KeptWeights<K, V>(p: Policy<V>, c: Lru<K, V>)
    ensures forall k :: k in Evicted(p, c).order ==> WeightIn(Evicted(p, c).weights, k) == WeightIn(c.weights, k)
  {
    hide Trim;
  }

  lemma ReadKeepsWithinLimits<K, V>(p: Policy<V>, c: Lru<K, V>, key: K)
    requires WellFormed(p, c) && WithinLimits(p, c)
    ensures WithinLimits(p, Read(c, key))
  {
    if key in c.items {
      var after := Read(c, key);
      ReadKeepsWellFormed(p, c, key);
      assert key in c.order;
      TouchLength(c.order, key);
      TotalAfterTouch(c, c.weights, key);
      hide TotalWeight, Load, Without;
      LoadIsTotalWeight(p, c.order, c.items, c.weights);
      LoadIsTotalWeight(p, after.order, after.items, after.weights);
    }
  }

  /** After every run, a cache that holds several keys is within its count and its weight. */
  lemma {:induction false} EveryRunIsWithinLimits<K, V>(p: Policy<V>, ops: seq<Op<K, V>>)
    ensures WithinLimits(p, After(p, ops))
  {
    if ops != [] {
      var before := ops[..|ops| - 1];
      EveryRunIsWithinLimits(p, before);
      EveryRunIsWellFormed(p, before);
      hide WithinLimits, WellFormed, Put, Read;
      match ops[|ops| - 1] {
        case Get(k) => ReadKeepsWithinLimits(p, After(p, before), k);
        case Set(k, v) => StoreKeepsWithinLimits(p, After(p, before), k, v);
        case Clear => EmptyIsWithinLimits<K, V>(p);
      }
    }
  }

  lemma EmptyIsWithinLimits<K, V>(p: Policy<V>)
    ensures WithinLimits(p, Empty<K, V>())
  {
  }

  /** The same in every state that threads reach. */
  lemma SharedCacheIsWithinLimits<K, V>(p: Policy<V>, run: Schedule<K, V>)
    requires Reached(p, run).Some?
    ensures WithinLimits(p, Reached(p, run).value.cache)
  {
    hide *;
    SharedCacheIsARun(p, run);
    EveryRunIsWithinLimits(p, Effects(p, run));
  }

  /** The keys from least to most recently used once `key` is stored, before anything is evicted. */
  function WithNewest<K(==)>(order: seq<K>, key: K): seq<K> {
    Without(order, key) + [key]
  }

  /**
   * A store evicts oldest first and no more than it must: of the keys in their new order it keeps a suffix that ends
   * with the new key, and every longer suffix has several keys and breaks one of the two limits.
   */
  lemma EveryStoreEvictsNoMoreThanItMust<K, V>(p: Policy<V>, c: Lru<K, V>, key: K, value: V)
    requires WellFormed(p, c)
    ensures var all, items := WithNewest(c.order, key), c.items[key := value];
            var after := Put(p, c, key, value);
            && |after.order| <= |all| && after.order == all[|all| - |after.order|..]
            && after.order != [] && after.order[|after.order| - 1] == key
            && (forall k :: k in after.order ==> k in after.items && k in items && after.items[k] == items[k])
            && (forall n :: 0 <= n < |all| - |after.order| ==> BreaksByLoad(p, all[n..], items))
  {
    var stored := Stored(p, c, key, value);
    PutIsEvictedStored(p, c, key, value);
    hide *;
    StoredKeepsWellFormed(p, c, key, value);
    TrimByLimits(p, stored.order, stored.weights);
    EvictedOrder(p, stored);
    EvictedItems(p, stored);
    forall n | 0 <= n < |stored.order| - |Trim(p, stored.order, stored.weights)|
      ensures BreaksByLoad(p, stored.order[n..], stored.items)
    {
      WellFormedLoad(p, stored, stored.order[n..]);
      BreakIsByLoad(p, stored.order[n..], stored.items, stored.weights);
    }
    EveryStoreIsExact(p, c, key, value);
  }

  /** Several keys, and their number or what they weigh together is beyond its limit. */
  predicate BreaksByLoad<K(==), V>(p: Policy<V>, keys: seq<K>, items: map<K, V>) {
    && |keys| > 1
    && ((p.maxItems.Some? && |keys| > p.maxItems.value)
        || (p.maxWeight.Some? && Load(p, keys, items) > p.maxWeight.value))
  }

  lemma BreakIsByLoad<K, V>(p: Policy<V>, keys: seq<K>, items: map<K, V>, weights: map<K, int>)
    requires Breaks(p, keys, weights) && TotalWeight(keys, weights) == Load(p, keys, items)
    ensures BreaksByLoad(p, keys, items)
  {
    hide TotalWeight, Load;
  }

  lemma EvictedItems<K, V>(p: Policy<V>, c: Lru<K, V>)
    requires WellFormed(p, c)
    ensures forall k :: k in Evicted(p, c).order ==>
              k in Evicted(p, c).items && k in c.items && Evicted(p, c).items[k] == c.items[k]
  {
    TrimByLimits(p, c.order, c.weights);
    hide Trim, TotalWeight;
  }
}
