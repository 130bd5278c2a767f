/**
 The bounded cache of cache.py: least recently used entries are evicted beyond a count or a weight.

 `Lru` is the value of a cache, `LockedCache` the object whose methods update it in place.
 */
module Cache {
  import opened Collections

  /** The limits a cache is created with. */
  datatype Policy<!V> = Policy(
    maxItems: Option<int>,
    maxWeight: Option<int>,
    weigh: Option<V -> int>,
    blank: V -> bool   // None, or an empty dict, list or set
  ) {

    predicate Exceeds(count: nat, weight: int) {
      || (maxItems.Some? && count > maxItems.value)
      || (maxWeight.Some? && weight > maxWeight.value)
    }

    predicate OverLimit(count: nat, weight: int) {
      count > 1 && Exceeds(count, weight)
    }

    function Weight(value: V): int {
      if weigh.Some? then weigh.value(value) else 0
    }
  }

  /** What a cache holds: its keys from least to most recently used, their values and weights. */
  datatype Lru<K(==), V> = Lru(order: seq<K>, items: map<K, V>, weights: map<K, int>)

  function Empty<K(==), V>(): Lru<K, V> {
    Lru([], map[], map[])
  }

  /** A key without a weight counts nothing. */
  function WeightIn<K(==)>(weights: map<K, int>, key: K): int {
    if key in weights then weights[key] else 0
  }

  /** Total weight of the given keys. */
  function TotalWeight<K(==)>(order: seq<K>, weights: map<K, int>): int {
    if order == [] then 0 else WeightIn(weights, order[0]) + TotalWeight(order[1..], weights)
  }

  ghost predicate WellFormed<K, V>(p: Policy<V>, c: Lru<K, V>) {
    && Distinct(c.order)
    && c.items.Keys == Elements(c.order)
    && c.weights.Keys == (if p.weigh.Some? then c.items.Keys else {})
    && forall k :: k in c.weights ==> c.weights[k] == p.Weight(c.items[k])
  }

  /** `k` becomes the most recently used key. */
  function Touch<K(==)>(order: seq<K>, k: K): seq<K> {
    Without(order, k) + [k]
  }

  /** Eviction: drop the oldest key while there are several and a limit is exceeded. */
  function Trim<K(==), V>(p: Policy<V>, order: seq<K>, weights: map<K, int>): seq<K> {
    if p.OverLimit(|order|, TotalWeight(order, weights)) then Trim(p, order[1..], weights) else order
  }

  function Keep<K(==), V>(m: map<K, V>, order: seq<K>): map<K, V> {
    map k | k in m && k in order :: m[k]
  }

  function Reweigh<K(==), V>(p: Policy<V>, weights: map<K, int>, key: K, value: V): map<K, int> {
    if p.weigh.Some? then (weights - {key})[key := p.Weight(value)] else weights - {key}
  }

  /** The first half of a store: `key` gets its value, its weight and the newest place. */
  function Stored<K(==), V>(p: Policy<V>, c: Lru<K, V>, key: K, value: V): Lru<K, V> {
    Lru(Touch(c.order, key), c.items[key := value], Reweigh(p, c.weights, key, value))
  }

  /** The second half: evict what the limits do not allow. */
  function Evicted<K(==), V>(p: Policy<V>, c: Lru<K, V>): Lru<K, V> {
    var kept := Trim(p, c.order, c.weights);
    Lru(kept, Keep(c.items, kept), Keep(c.weights, kept))
  }

  function Put<K(==), V>(p: Policy<V>, c: Lru<K, V>, key: K, value: V): Lru<K, V> {
    Evicted(p, Stored(p, c, key, value))
  }

  /** The value a read returns, and the cache it leaves behind. */
  function Peek<K(==), V>(c: Lru<K, V>, key: K): Option<V> {
    if key in c.items then Some(c.items[key]) else None
  }

  function Read<K(==), V>(c: Lru<K, V>, key: K): Lru<K, V> {
    if key in c.items then c.(order := Touch(c.order, key)) else c
  }

  // ---------------------------------------------------------------- eviction is exact

  /** A suffix that satisfies the limits, or that is down to one key. */
  predicate Settled<K(==), V>(p: Policy<V>, order: seq<K>, weights: map<K, int>) {
    |order| <= 1 || !p.Exceeds(|order|, TotalWeight(order, weights))
  }

  lemma SuffixesOfTail<K>(order: seq<K>)
    requires order != []
    ensures order[0..] == order
    ensures forall n :: 1 <= n <= |order| ==> order[1..][n - 1..] == order[n..]
  {
  }

  /** Eviction keeps the longest most-recent suffix that satisfies the limits or has one element. */
  lemma {:induction false} TrimIsLongestSettledSuffix<K, V>(p: Policy<V>, order: seq<K>, weights: map<K, int>)
    ensures var kept := Trim(p, order, weights);
      && |kept| <= |order|
      && kept == order[|order| - |kept|..]
      && Settled(p, kept, weights)
      && (forall n :: 0 <= n < |order| - |kept| ==> !Settled(p, order[n..], weights))
      && (order != [] ==> kept != [] && kept[|kept| - 1] == order[|order| - 1])
  {
    if p.OverLimit(|order|, TotalWeight(order, weights)) {
      TrimIsLongestSettledSuffix(p, order[1..], weights);
      SuffixesOfTail(order);
      forall n | 0 <= n < |order| - |Trim(p, order, weights)| ensures !Settled(p, order[n..], weights) {
        assert order[n..] == if n == 0 then order else order[1..][n - 1..];
      }
    }
  }

  lemma {:induction false} TotalWeightAgrees<K>(order: seq<K>, w1: map<K, int>, w2: map<K, int>)
    requires forall k :: k in order ==> WeightIn(w1, k) == WeightIn(w2, k)
    ensures TotalWeight(order, w1) == TotalWeight(order, w2)
  {
    if order != [] {
      TotalWeightAgrees(order[1..], w1, w2);
    }
  }

  lemma {:induction false} TotalWeightAppend<K>(order: seq<K>, key: K, weights: map<K, int>)
    ensures TotalWeight(order + [key], weights) == TotalWeight(order, weights) + WeightIn(weights, key)
  {
    if order == [] {
      assert order + [key] == [key];
    } else {
      assert (order + [key])[1..] == order[1..] + [key];
      TotalWeightAppend(order[1..], key, weights);
    }
  }

  lemma {:induction false} TotalWeightWithout<K>(order: seq<K>, key: K, weights: map<K, int>)
    requires Distinct(order)
    ensures TotalWeight(Without(order, key), weights)
         == TotalWeight(order, weights) - (if key in order then WeightIn(weights, key) else 0)
  {
    if order != [] {
      TotalWeightWithout(order[1..], key, weights);
    }
  }

  lemma TouchKeepsDistinct<K>(order: seq<K>, key: K)
    requires Distinct(order)
    ensures Distinct(Touch(order, key))
    ensures Elements(Touch(order, key)) == Elements(order) + {key}
  {
    WithoutDistinct(order, key);
    WithoutElements(order, key);
    assert key !in Elements(Without(order, key));
    assert Elements(Touch(order, key)) == Elements(Without(order, key)) + {key};
  }

  lemma StoredKeepsWellFormed<K, V>(p: Policy<V>, c: Lru<K, V>, key: K, value: V)
    requires WellFormed(p, c)
    ensures WellFormed(p, Stored(p, c, key, value))
  {
    TouchKeepsDistinct(c.order, key);
  }

  lemma EvictedKeepsWellFormed<K, V>(p: Policy<V>, c: Lru<K, V>)
    requires WellFormed(p, c)
    ensures WellFormed(p, Evicted(p, c))
  {
    TrimIsLongestSettledSuffix(p, c.order, c.weights);
    SuffixKeepsDistinct(c.order, |c.order| - |Trim(p, c.order, c.weights)|);
  }

  lemma PutKeepsWellFormed<K, V>(p: Policy<V>, c: Lru<K, V>, key: K, value: V)
    requires WellFormed(p, c)
    ensures WellFormed(p, Put(p, c, key, value))
  {
    StoredKeepsWellFormed(p, c, key, value);
    EvictedKeepsWellFormed(p, Stored(p, c, key, value));
  }

  lemma DropOldest<K, V>(c: Lru<K, V>, order: seq<K>)
    requires Distinct(order) && order != []
    ensures Distinct(order[1..])
    ensures Keep(c.items, order) - {order[0]} == Keep(c.items, order[1..])
    ensures Keep(c.weights, order) - {order[0]} == Keep(c.weights, order[1..])
  {
    assert forall k :: k in order <==> k == order[0] || k in order[1..];
  }

  lemma SuffixKeepsDistinct<K>(order: seq<K>, n: nat)
    requires n <= |order| && Distinct(order)
    ensures Distinct(order[n..])
    ensures Elements(order[n..]) <= Elements(order)
  {
  }

  lemma TotalAfterTouch<K, V>(c: Lru<K, V>, weights: map<K, int>, key: K)
    requires Distinct(c.order) && c.weights.Keys <= Elements(c.order)
    requires forall k :: k in c.order && k != key ==> WeightIn(weights, k) == WeightIn(c.weights, k)
    ensures TotalWeight(Touch(c.order, key), weights)
         == TotalWeight(c.order, c.weights) - WeightIn(c.weights, key) + WeightIn(weights, key)
  {
    WithoutElements(c.order, key);
    TotalWeightAppend(Without(c.order, key), key, weights);
    TotalWeightAgrees(Without(c.order, key), weights, c.weights);
    TotalWeightWithout(c.order, key, c.weights);
  }

  // ---------------------------------------------------------------- the object

  datatype Built<+V> = Value(value: V) | Raised

  datatype Answer<+V> = Returned(value: V) | Failed | Cancelled

  /** What `get_or_set` answers when no other caller is building the key. */
  function GetOrSetAnswer<K(==), V>(c: Lru<K, V>, key: K, built: Built<V>, stopped: bool): Answer<V> {
    if key in c.items then Returned(c.items[key])
    else if stopped then Cancelled
    else match built case Value(v) => Returned(v) case Raised => Failed
  }

  function GetOrSetCache<K(==), V>(
    p: Policy<V>, c: Lru<K, V>, key: K, built: Built<V>, cacheEmpty: bool, stopped: bool): Lru<K, V>
  {
    if key in c.items then Read(c, key)
    else if !stopped && built.Value? && (cacheEmpty || !p.blank(built.value)) then Put(p, c, key, built.value)
    else c
  }

  class LockedCache<K(==), V> {
    const policy: Policy<V>
    var order: seq<K>
    var items: map<K, V>
    var weights: map<K, int>
    var totalWeight: int

    ghost function Contents(): Lru<K, V>
      reads this
    {
      Lru(order, items, weights)
    }

    /** The running total is exact: it is the sum of the weights of the values held. */
    ghost predicate Valid()
      reads this
    {
      && WellFormed(policy, Contents())
      && totalWeight == TotalWeight(order, weights)
    }

    constructor (policy: Policy<V>)
      ensures Valid()
      ensures this.policy == policy && Contents() == Empty()
    {
      this.policy := policy;
      order, items, weights, totalWeight := [], map[], map[], 0;
    }

    /** The eviction loop of `_store`. */
    method Evict()
      requires Valid()
      modifies this
      ensures Valid() && Contents() == Evicted(policy, old(Contents()))
    {
      ghost var before := Contents();
      while policy.OverLimit(|order|, totalWeight)
        invariant Distinct(order)
        invariant Trim(policy, order, before.weights) == Trim(policy, before.order, before.weights)
        invariant items == Keep(before.items, order)
        invariant weights == Keep(before.weights, order)
        invariant totalWeight == TotalWeight(order, before.weights)
        decreases |order|
      {
        var evicted := order[0];
        DropOldest(before, order);
        order := order[1..];
        items := items - {evicted};
        totalWeight := totalWeight - WeightIn(weights, evicted);
        weights := weights - {evicted};
      }
      TotalWeightAgrees(order, before.weights, weights);
      EvictedKeepsWellFormed(policy, before);
    }

    method Store(key: K, value: V, weight: int)
      requires Valid() && weight == policy.Weight(value)
      modifies this
      ensures Valid()
      ensures Contents() == Put(policy, old(Contents()), key, value)
    {
      ghost var before := Contents();
      totalWeight := totalWeight - WeightIn(weights, key);
      weights := weights - {key};
      items := items[key := value];
      order := Touch(order, key);
      if policy.weigh.Some? {
        weights := weights[key := weight];
        totalWeight := totalWeight + weight;
      }
      StoredKeepsWellFormed(policy, before, key, value);
      TotalAfterTouch(before, weights, key);
      Evict();
    }

    method Get(key: K) returns (r: Option<V>)
      requires Valid()
      modifies this
      ensures Valid()
      ensures r == Peek(old(Contents()), key)
      ensures Contents() == Read(old(Contents()), key)
    {
      if key !in items {
        return None;
      }
      TouchKeepsDistinct(order, key);
      TotalAfterTouch(Contents(), weights, key);
      order := Touch(order, key);
      r := Some(items[key]);
    }

    method Clear()
      requires Valid()
      modifies this
      ensures Valid() && Contents() == Empty()
    {
      order, items, weights, totalWeight := [], map[], map[], 0;
    }

    method Set(key: K, value: V) returns (r: V)
      requires Valid()
      modifies this
      ensures Valid()
      ensures r == value && Contents() == Put(policy, old(Contents()), key, value)
    {
      var weight := policy.Weight(value);
      Store(key, value, weight);
      r := value;
    }

    /** One caller on its own: `factory` stands for the build, `stopped` for what `should_stop` says. */
    method GetOrSet(key: K, factory: () -> Built<V>, cacheEmpty: bool, stopped: bool) returns (r: Answer<V>)
      requires Valid()
      modifies this
      ensures Valid()
      ensures r == GetOrSetAnswer(old(Contents()), key, factory(), stopped)
      ensures Contents() == GetOrSetCache(policy, old(Contents()), key, factory(), cacheEmpty, stopped)
    {
      if key in items {
        var hit := Get(key);
        return Returned(hit.value);
      }
      if stopped {
        return Cancelled;
      }
      match factory()
      case Raised =>
        r := Failed;
      case Value(value) =>
        if cacheEmpty || !policy.blank(value) {
          Store(key, value, policy.Weight(value));
        }
        r := Returned(value);
    }
  }
}
