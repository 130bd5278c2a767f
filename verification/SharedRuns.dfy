/** The cache that threads share is one that a sequential run of effects leaves, so what holds of runs holds of it. */
module SharedRuns {
  import opened Collections
  import opened Cache
  import opened CacheRuns
  import opened SingleFlight

  /** What a step does to the cache itself, if anything. */
  function EffectOf<K(==), V>(p: Policy<V>, s: State<K, V>, t: Thread, a: Action<K, V>): seq<Op<K, V>>
    requires Enabled(p, s, t, a)
  {
    var phase := PhaseOf(s, t);
    match a
    case Hit => [Op.Get(phase.key)]
    case Store => if Caches(p, phase.req, phase.value) then [Op.Set(phase.key, phase.value)] else []
    case GetEntry(key) => [Op.Get(key)]
    case SetEntry(key, value) => [Op.Set(key, value)]
    case ClearAll => [Op.Clear]
    case _ => []
  }

  /** The effects of a schedule on the cache, in the order of the steps. */
  function Effects<K(==), V>(p: Policy<V>, run: Schedule<K, V>): seq<Op<K, V>> {
    if run == [] then []
    else
      var (t, a) := run[|run| - 1];
      var earlier := run[..|run| - 1];
      var before := Reached(p, earlier);
      Effects(p, earlier)
      + (if before.Some? && Enabled(p, before.value, t, a) then EffectOf(p, before.value, t, a) else [])
  }

  lemma StepHasItsEffect<K, V>(p: Policy<V>, s: State<K, V>, t: Thread, a: Action<K, V>, ops: seq<Op<K, V>>)
    requires Enabled(p, s, t, a) && s.cache == After(p, ops)
    ensures Next(p, s, t, a).cache == After(p, ops + EffectOf(p, s, t, a))
  {
    var effect := EffectOf(p, s, t, a);
    if effect == [] {
      assert ops + effect == ops;
    } else {
      assert (ops + effect)[..|ops|] == ops;
    }
  }

  /** Whatever the threads do, the cache is that of the sequential run of their effects. */
  lemma {:induction false} SharedCacheIsARun<K, V>(p: Policy<V>, run: Schedule<K, V>)
    requires Reached(p, run).Some?
    ensures Reached(p, run).value.cache == After(p, Effects(p, run))
  {
    if run != [] {
      var (t, a) := run[|run| - 1];
      var earlier := run[..|run| - 1];
      SharedCacheIsARun(p, earlier);
      hide Next, EffectOf, Enabled;
      StepHasItsEffect(p, Reached(p, earlier).value, t, a, Effects(p, earlier));
    }
  }

  /** In every reached state weights are exact, and each held value was the last stored under its key. */
  lemma SharedCacheIsExact<K, V>(p: Policy<V>, run: Schedule<K, V>)
    requires Reached(p, run).Some?
    ensures var c := Reached(p, run).value.cache;
            && WellFormed(p, c)
            && (forall k :: k in c.items ==> LastStored(Effects(p, run), k) == Some(c.items[k]))
  {
    hide *;
    SharedCacheIsARun(p, run);
    EveryRunIsWellFormed(p, Effects(p, run));
  }

  /** In every reached state of a cache bounded by count, a key is held exactly if it was used recently enough. */
  lemma SharedHeldIffRecentlyUsed<K, V>(p: Policy<V>, run: Schedule<K, V>, k: K)
    requires CountBounded(p) && Reached(p, run).Some?
    ensures k in Reached(p, run).value.cache.items
            <==> RecentlyUsed(Accesses(p, Effects(p, run)), k, Capacity(p))
  {
    SharedCacheIsARun(p, run);
    hide Reached, Effects, RecentlyUsed, Accesses, After;
    HeldIffRecentlyUsed(p, Effects(p, run), k);
  }

  /** Among threads too a built value is stored exactly if it is not empty or empty values are to be cached. */
  lemma StoredIffNotEmpty<K, V>(p: Policy<V>, s: State<K, V>, t: Thread)
    requires Enabled(p, s, t, Store)
    ensures var phase, after := PhaseOf(s, t), Next(p, s, t, Store).cache;
            && (p.blank(phase.value) && !phase.req.cacheEmpty ==> after == s.cache)
            && (!p.blank(phase.value) || phase.req.cacheEmpty ==> Peek(after, phase.key) == Some(phase.value))
  {
    EveryStoreIsExact(p, s.cache, PhaseOf(s, t).key, PhaseOf(s, t).value);
    hide Put;
  }

  /** After an empty value is released, any thread that wants the key may claim it and build again. */
  lemma EmptyIsClaimedAgain<K, V>(p: Policy<V>, s: State<K, V>, t: Thread, u: Thread)
    requires Enabled(p, s, t, Store) && u != t
    requires var phase := PhaseOf(s, t);
             && p.blank(phase.value) && !phase.req.cacheEmpty && phase.key !in s.cache.items
             && PhaseOf(s, u).Entering? && PhaseOf(s, u).key == phase.key
    ensures var stored := Next(p, s, t, Store);
            && Enabled(p, stored, t, Release)
            && Enabled(p, Next(p, stored, t, Release), u, Claim)
            && Next(p, stored, t, Release).answered == s.answered + [(PhaseOf(s, t).key, PhaseOf(s, t).value)]
  {
    var stored := Next(p, s, t, Store);
    assert PhaseOf(stored, t) == Releasing(PhaseOf(s, t).key, PhaseOf(s, t).event, Returned(PhaseOf(s, t).value));
    assert PhaseOf(stored, u) == PhaseOf(s, u);
    assert PhaseOf(Next(p, stored, t, Release), u) == PhaseOf(s, u);
  }
}
