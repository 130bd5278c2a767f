/** Everything a cache can have been through, and what it therefore holds. */
module CacheRuns {
  import opened Collections
  import opened Cache

  /** The atomic effects callers have; `get_or_set` is a Get that hits, or a Set after its build. */
  datatype Op<K, V> = Get(key: K) | Set(key: K, value: V) | Clear

  function Apply<K(==), V>(p: Policy<V>, c: Lru<K, V>, op: Op<K, V>): Lru<K, V> {
    match op
    case Get(k) => Read(c, k)
    case Set(k, v) => Put(p, c, k, v)
    case Clear => Empty()
  }

  function After<K(==), V>(p: Policy<V>, ops: seq<Op<K, V>>): Lru<K, V> {
    if ops == [] then Empty() else Apply(p, After(p, ops[..|ops| - 1]), ops[|ops| - 1])
  }

  /** The keys stored or hit since the cache was last cleared, oldest access first. */
  function Accesses<K(==), V>(p: Policy<V>, ops: seq<Op<K, V>>): seq<K> {
    if ops == [] then []
    else
      var before := ops[..|ops| - 1];
      match ops[|ops| - 1]
      case Get(k) => Accesses(p, before) + (if k in After(p, before).items then [k] else [])
      case Set(k, _) => Accesses(p, before) + [k]
      case Clear => []
  }

  /** The value most recently stored under `key` since the cache was last cleared. */
  function LastStored<K(==), V>(ops: seq<Op<K, V>>, key: K): Option<V> {
    if ops == [] then None
    else
      var before := ops[..|ops| - 1];
      match ops[|ops| - 1]
      case Get(_) => LastStored(before, key)
      case Set(k, v) => if k == key then Some(v) else LastStored(before, key)
      case Clear => None
  }

  lemma {:induction false} EveryRunIsWellFormed<K, V>(p: Policy<V>, ops: seq<Op<K, V>>)
    ensures WellFormed(p, After(p, ops))
    ensures forall k :: k in After(p, ops).items ==> LastStored(ops, k) == Some(After(p, ops).items[k])
  {
    if ops != [] {
      var before := ops[..|ops| - 1];
      EveryRunIsWellFormed(p, before);
      var c := After(p, before);
      match ops[|ops| - 1]
      case Get(k) => TouchKeepsDistinct(c.order, k);
      case Set(k, v) => PutKeepsWellFormed(p, c, k, v);
      case Clear =>
    }
  }

  /** `after` is the longest most-recent suffix of `touched` that the limits allow. */
  ghost predicate IsLongestSettled<K, V>(p: Policy<V>, touched: seq<K>, weights: map<K, int>, after: seq<K>) {
    && |after| <= |touched| && after == touched[|touched| - |after|..]
    && Settled(p, after, weights)
    && forall n :: 0 <= n < |touched| - |after| ==> !Settled(p, touched[n..], weights)
  }

  /** A store keeps exactly that suffix, and never loses the newest entry, whatever state it meets. */
  lemma EveryStoreIsExact<K, V>(p: Policy<V>, before: Lru<K, V>, key: K, value: V)
    ensures var c := Put(p, before, key, value);
      && key in c.items && c.items[key] == value
      && c.order != [] && c.order[|c.order| - 1] == key
      && IsLongestSettled(p, Touch(before.order, key), Reweigh(p, before.weights, key, value), c.order)
  {
    var c := Put(p, before, key, value);
    TrimIsLongestSettledSuffix(p, Touch(before.order, key), Reweigh(p, before.weights, key, value));
    assert c.order[|c.order| - 1] in c.order;
  }

  // ---------------------------------------------------------------- a count-bounded cache

  /** The distinct keys of a log, ordered by their last use. */
  function Recency<K(==)>(log: seq<K>): seq<K> {
    if log == [] then [] else Touch(Recency(log[..|log| - 1]), log[|log| - 1])
  }

  lemma {:induction false} RecencyElements<K>(log: seq<K>)
    ensures Distinct(Recency(log)) && Elements(Recency(log)) == Elements(log)
  {
    if log != [] {
      RecencyElements(log[..|log| - 1]);
      TouchKeepsDistinct(Recency(log[..|log| - 1]), log[|log| - 1]);
      assert log == log[..|log| - 1] + [log[|log| - 1]];
    }
  }

  function Newest<T>(s: seq<T>, n: nat): seq<T> {
    if |s| <= n then s else s[|s| - n..]
  }

  ghost predicate CountBounded<V>(p: Policy<V>) {
    p.maxItems.Some? && p.maxWeight.None?
  }

  function Capacity<V>(p: Policy<V>): nat
    requires p.maxItems.Some?
  {
    if p.maxItems.value < 1 then 1 else p.maxItems.value
  }

  lemma {:induction false} TrimToCapacity<K, V>(p: Policy<V>, order: seq<K>, weights: map<K, int>)
    requires CountBounded(p)
    ensures Trim(p, order, weights) == Newest(order, Capacity(p))
  {
    if p.OverLimit(|order|, TotalWeight(order, weights)) {
      TrimToCapacity(p, order[1..], weights);
    }
  }

  /** Touching a key of the whole recency order, seen through the last `n` places. */
  lemma NewestAfterTouch<K>(r: seq<K>, n: nat, k: K)
    requires Distinct(r) && n >= 1
    ensures Newest(Touch(r, k), n) == Newest(Touch(Newest(r, n), k), n)
  {
    var kept := Newest(r, n);
    var older := r[..|r| - |kept|];
    assert r == older + kept;
    WithoutConcat(older, kept, k);
    assert Touch(r, k) == Without(older, k) + Touch(kept, k);
    if older == [] {
      assert Touch(r, k) == Touch(kept, k);
    } else {
      TouchLength(kept, k);
      NewestOfConcat(Without(older, k), Touch(kept, k), n);
    }
  }

  lemma TouchLength<K>(order: seq<K>, k: K)
    requires Distinct(order)
    ensures |Touch(order, k)| == if k in order then |order| else |order| + 1
  {
    WithoutLength(order, k);
  }

  lemma NewestOfConcat<T>(a: seq<T>, b: seq<T>, n: nat)
    requires |b| >= n
    ensures Newest(a + b, n) == Newest(b, n)
  {
  }

  /** The recency order is that of `log`, cut to the capacity. */
  ghost predicate Follows<K, V>(p: Policy<V>, c: Lru<K, V>, log: seq<K>)
    requires p.maxItems.Some?
  {
    c.order == Newest(Recency(log), Capacity(p))
  }

  lemma ReadFollows<K, V>(p: Policy<V>, c: Lru<K, V>, log: seq<K>, k: K)
    requires CountBounded(p) && Follows(p, c, log)
    requires Distinct(c.order) && (k in c.items ==> k in c.order)
    ensures Follows(p, Read(c, k), if k in c.items then log + [k] else log)
  {
    if k in c.items {
      assert (log + [k])[..|log|] == log;
      RecencyElements(log);
      NewestAfterTouch(Recency(log), Capacity(p), k);
      TouchLength(c.order, k);
    }
  }

  lemma PutFollows<K, V>(p: Policy<V>, c: Lru<K, V>, log: seq<K>, k: K, v: V)
    requires CountBounded(p) && Follows(p, c, log)
    ensures Follows(p, Put(p, c, k, v), log + [k])
  {
    assert (log + [k])[..|log|] == log;
    RecencyElements(log);
    NewestAfterTouch(Recency(log), Capacity(p), k);
    TrimToCapacity(p, Touch(c.order, k), Reweigh(p, c.weights, k, v));
  }

  lemma ReadKeepsWellFormed<K, V>(p: Policy<V>, c: Lru<K, V>, k: K)
    requires WellFormed(p, c)
    ensures WellFormed(p, Read(c, k))
  {
    TouchKeepsDistinct(c.order, k);
  }

  lemma WellFormedKeys<K, V>(p: Policy<V>, c: Lru<K, V>)
    requires WellFormed(p, c)
    ensures Distinct(c.order)
    ensures forall k :: k in c.items <==> k in c.order
  {
    assert forall k :: k in c.order <==> k in Elements(c.order);
  }

  /** A count-bounded cache holds exactly the last `capacity` distinct keys accessed. */
  lemma {:induction false} HoldsNewestKeys<K, V>(p: Policy<V>, ops: seq<Op<K, V>>)
    requires CountBounded(p)
    ensures Follows(p, After(p, ops), Accesses(p, ops))
  {
    if ops != [] {
      var before := ops[..|ops| - 1];
      HoldsNewestKeys(p, before);
      EveryRunIsWellFormed(p, before);
      match ops[|ops| - 1]
      case Get(k) =>
        ReadFollows(p, After(p, before), Accesses(p, before), k);
        assert Accesses(p, before) + [] == Accesses(p, before);
      case Set(k, v) => PutFollows(p, After(p, before), Accesses(p, before), k, v);
      case Clear =>
    }
  }

  ghost predicate LastUseAt<K>(log: seq<K>, k: K, i: nat) {
    i < |log| && log[i] == k && forall j :: i < j < |log| ==> log[j] != k
  }

  /** Fewer than `n` distinct keys follow the last use of `k`. */
  ghost predicate RecentlyUsed<K>(log: seq<K>, k: K, n: nat) {
    exists i: nat :: LastUseAt(log, k, i) && |Elements(log[i + 1..])| < n
  }

  lemma LastUse<K>(log: seq<K>, k: K) returns (i: nat)
    requires k in log
    ensures LastUseAt(log, k, i)
  {
    i := |log| - 1;
    while log[i] != k
      invariant i < |log| && k in log[..i + 1]
      invariant forall j :: i < j < |log| ==> log[j] != k
      decreases i
    {
      i := i - 1;
    }
  }

  lemma LastUseIsUnique<K>(log: seq<K>, k: K, i: nat)
    requires LastUseAt(log, k, i)
    ensures forall j: nat :: LastUseAt(log, k, j) ==> j == i
  {
  }

  /** In the recency order, the last use of a key is followed by the keys used after it. */
  lemma {:induction false} RecencyAfter<K>(log: seq<K>, k: K, i: nat) returns (older: seq<K>)
    requires LastUseAt(log, k, i)
    ensures Recency(log) == older + ([k] + Recency(log[i + 1..]))
    decreases |log|
  {
    var n := |log| - 1;
    var tail := log[i + 1..];
    if i == n {
      older := Without(Recency(log[..n]), k);
    } else {
      var x := log[n];
      older := RecencyAfter(log[..n], k, i);
      assert log[..n][i + 1..] == tail[..|tail| - 1];
      var later := Recency(tail[..|tail| - 1]);
      WithoutConcat(older, [k] + later, x);
      WithoutConcat([k], later, x);
      older := Without(older, x);
      assert Recency(tail) == Touch(later, x);
      assert Recency(log) == older + ([k] + Recency(tail));
    }
  }

  /** An element followed by `later` is among the last `n` exactly when `later` is shorter than `n`. */
  lemma AmongNewest<K>(older: seq<K>, k: K, later: seq<K>, n: nat)
    requires Distinct(older + ([k] + later))
    ensures k in Newest(older + ([k] + later), n) <==> |later| < n
  {
    var r := older + ([k] + later);
    var kept := Newest(r, n);
    assert r[|older|] == k;
    if |later| < n {
      assert kept[|kept| - |later| - 1] == k;
    } else {
      assert forall m :: 0 <= m < |kept| ==> kept[m] == r[|r| - |kept| + m];
    }
  }

  lemma NewestAreRecentlyUsed<K>(log: seq<K>, k: K, n: nat)
    ensures k in Newest(Recency(log), n) <==> RecentlyUsed(log, k, n)
  {
    hide Recency, Newest;
    RecencyElements(log);
    if k in log {
      var i := LastUse(log, k);
      var older := RecencyAfter(log, k, i);
      var later := Recency(log[i + 1..]);
      RecencyElements(log[i + 1..]);
      DistinctCardinality(later);
      AmongNewest(older, k, later, n);
      LastUseIsUnique(log, k, i);
    } else {
      assert k !in Elements(Recency(log));
      NewestIsWithin(Recency(log), n);
    }
  }

  lemma NewestIsWithin<T>(s: seq<T>, n: nat)
    ensures Elements(Newest(s, n)) <= Elements(s)
  {
  }

  /** Held exactly when fewer than `capacity` distinct keys were accessed since its last access. */
  lemma HeldIffRecentlyUsed<K, V>(p: Policy<V>, ops: seq<Op<K, V>>, k: K)
    requires CountBounded(p)
    ensures k in After(p, ops).items <==> RecentlyUsed(Accesses(p, ops), k, Capacity(p))
  {
    HoldsNewestKeys(p, ops);
    EveryRunIsWellFormed(p, ops);
    NewestAreRecentlyUsed(Accesses(p, ops), k, Capacity(p));
  }

  /** Keys used since some moment are all held if the capacity has room for every key used since. */
  lemma RecentKeysAreHeld<K, V>(p: Policy<V>, c: Lru<K, V>, log: seq<K>, since: seq<K>, k: K)
    requires CountBounded(p) && Follows(p, c, log + since)
    requires k in since && |Elements(since)| <= Capacity(p)
    ensures k in c.order
  {
    var i := LastUse(since, k);
    var at := |log| + i;
    assert LastUseAt(log + since, k, at);
    assert (log + since)[at + 1..] == since[i + 1..];
    assert k !in since[i + 1..];
    assert Elements(since[i + 1..]) <= Elements(since) - {k};
    SubsetCardinality(Elements(since[i + 1..]), Elements(since) - {k});
    NewestAreRecentlyUsed(log + since, k, Capacity(p));
  }

  // ---------------------------------------------------------------- empty values

  /** A built value is returned, and remembered exactly if it is not empty or empty values are to be cached. */
  lemma BuiltIsRememberedIffNotEmpty<K, V>(p: Policy<V>, c: Lru<K, V>, key: K, value: V, cacheEmpty: bool)
    requires key !in c.items
    ensures var after := GetOrSetCache(p, c, key, Value(value), cacheEmpty, false);
            && GetOrSetAnswer(c, key, Value(value), false) == Returned(value)
            && (p.blank(value) && !cacheEmpty ==> after == c)
            && (!p.blank(value) || cacheEmpty ==> Peek(after, key) == Some(value))
  {
    EveryStoreIsExact(p, c, key, value);
    hide Put;
  }

  /** So after an empty value the next call builds again, and answers with what it builds. */
  lemma EmptyIsBuiltAgain<K, V>(p: Policy<V>, c: Lru<K, V>, key: K, value: V, again: V)
    requires key !in c.items && p.blank(value)
    ensures var after := GetOrSetCache(p, c, key, Value(value), false, false);
            GetOrSetAnswer(after, key, Value(again), false) == Returned(again)
  {
    BuiltIsRememberedIffNotEmpty(p, c, key, value, false);
  }
}
