/** `_target_functions` of provider.py: function offsets and labels through the shared LRU cache. */
module FunctionLookup {
  import opened Collections
  import opened Cache
  import opened CacheRuns

  datatype FunctionId = FunctionId(number: int)

  /** Offset and corpus label of a function. */
  datatype Info = Info(offset: int, corpusLabel: string)

  type Key = (string, FunctionId)

  /** A decoded answer of the server, in the order its items are stored. */
  type Reply = seq<(FunctionId, Info)>

  function Missing(c: Lru<Key, Info>, server: string, ids: seq<FunctionId>): seq<FunctionId> {
    if ids == [] then []
    else
      var last := ids[|ids| - 1];
      Missing(c, server, ids[..|ids| - 1]) + (if (server, last) in c.items then [] else [last])
  }

  function ReadAll(c: Lru<Key, Info>, server: string, ids: seq<FunctionId>): Lru<Key, Info> {
    if ids == [] then c else Read(ReadAll(c, server, ids[..|ids| - 1]), (server, ids[|ids| - 1]))
  }

  function PutAll(p: Policy<Info>, c: Lru<Key, Info>, server: string, reply: Reply): Lru<Key, Info> {
    if reply == [] then c
    else
      var (id, info) := reply[|reply| - 1];
      Put(p, PutAll(p, c, server, reply[..|reply| - 1]), (server, id), info)
  }

  function Known(c: Lru<Key, Info>, server: string, ids: seq<FunctionId>): map<FunctionId, Info> {
    map id | id in ids && (server, id) in c.items :: c.items[(server, id)]
  }

  /** The cache once the missing ids have been fetched and stored. */
  function Filled(
    p: Policy<Info>, c: Lru<Key, Info>, server: string, ids: seq<FunctionId>, fetch: seq<FunctionId> -> Reply)
    : Lru<Key, Info>
  {
    var missing := Missing(c, server, ids);
    var c1 := ReadAll(c, server, ids);
    if missing == [] then c1 else PutAll(p, c1, server, fetch(missing))
  }

  method FindMissing(cache: LockedCache<Key, Info>, server: string, ids: seq<FunctionId>)
    returns (missing: seq<FunctionId>)
    requires cache.Valid()
    modifies cache
    ensures cache.Valid() && cache.Contents() == ReadAll(old(cache.Contents()), server, ids)
    ensures missing == Missing(old(cache.Contents()), server, ids)
  {
    ghost var before := cache.Contents();
    missing := [];
    for i := 0 to |ids|
      invariant cache.Valid() && cache.Contents() == ReadAll(before, server, ids[..i])
      invariant missing == Missing(before, server, ids[..i])
    {
      assert ids[..i + 1][..i] == ids[..i];
      ReadsKeepItems(before, server, ids[..i]);
      var found := cache.Get((server, ids[i]));
      if found.None? {
        missing := missing + [ids[i]];
      }
    }
    assert ids[..|ids|] == ids;
  }

  method StoreReply(cache: LockedCache<Key, Info>, server: string, reply: Reply)
    requires cache.Valid()
    modifies cache
    ensures cache.Valid() && cache.Contents() == PutAll(cache.policy, old(cache.Contents()), server, reply)
  {
    ghost var before := cache.Contents();
    for i := 0 to |reply|
      invariant cache.Valid() && cache.Contents() == PutAll(cache.policy, before, server, reply[..i])
    {
      assert reply[..i + 1][..i] == reply[..i];
      var stored := cache.Set((server, reply[i].0), reply[i].1);
    }
    assert reply[..|reply|] == reply;
  }

  method CollectKnown(cache: LockedCache<Key, Info>, server: string, ids: seq<FunctionId>)
    returns (known: map<FunctionId, Info>)
    requires cache.Valid()
    modifies cache
    ensures cache.Valid() && cache.Contents() == ReadAll(old(cache.Contents()), server, ids)
    ensures known == Known(old(cache.Contents()), server, ids)
  {
    ghost var before := cache.Contents();
    known := map[];
    for i := 0 to |ids|
      invariant cache.Valid() && cache.Contents() == ReadAll(before, server, ids[..i])
      invariant known == Known(before, server, ids[..i])
    {
      assert ids[..i + 1] == ids[..i] + [ids[i]];
      ReadsKeepItems(before, server, ids[..i]);
      KnownExtends(before, server, ids[..i], ids[i]);
      var found := cache.Get((server, ids[i]));
      if found.Some? {
        known := known[ids[i] := found.value];
      }
    }
    assert ids[..|ids|] == ids;
  }

  /** `fetch` stands for the one request: it is made at most once, for the ids not cached. */
  method TargetFunctions(
    cache: LockedCache<Key, Info>, server: string, ids: seq<FunctionId>, fetch: seq<FunctionId> -> Reply)
    returns (known: map<FunctionId, Info>)
    requires cache.Valid()
    modifies cache
    ensures cache.Valid()
    ensures known == Known(Filled(cache.policy, old(cache.Contents()), server, ids, fetch), server, ids)
    ensures cache.Contents() == ReadAll(Filled(cache.policy, old(cache.Contents()), server, ids, fetch), server, ids)
  {
    var missing := FindMissing(cache, server, ids);
    if missing != [] {
      StoreReply(cache, server, fetch(missing));
    }
    known := CollectKnown(cache, server, ids);
  }

  lemma KnownExtends(c: Lru<Key, Info>, server: string, ids: seq<FunctionId>, id: FunctionId)
    ensures Known(c, server, ids + [id])
         == (if (server, id) in c.items then Known(c, server, ids)[id := c.items[(server, id)]]
             else Known(c, server, ids))
  {
    assert forall x :: x in ids + [id] <==> x in ids || x == id;
  }

  lemma {:induction false} ReadsKeepItems(c: Lru<Key, Info>, server: string, ids: seq<FunctionId>)
    ensures ReadAll(c, server, ids).items == c.items
    ensures ReadAll(c, server, ids).weights == c.weights
  {
    if ids != [] {
      ReadsKeepItems(c, server, ids[..|ids| - 1]);
    }
  }

  // ---------------------------------------------------------------- the lookup is transparent

  /** Every cached entry of this server says what the server would say. */
  ghost predicate Agrees(c: Lru<Key, Info>, server: string, truth: map<FunctionId, Info>) {
    forall id :: (server, id) in c.items ==> id in truth && c.items[(server, id)] == truth[id]
  }

  /** The reply is true, and covers what was asked for; it may hold more. */
  ghost predicate Honest(reply: Reply, asked: seq<FunctionId>, truth: map<FunctionId, Info>) {
    && (forall i :: 0 <= i < |reply| ==> reply[i].0 in truth && truth[reply[i].0] == reply[i].1)
    && (forall id :: id in asked && id in truth ==> (id, truth[id]) in reply)
  }

  /** The cache keys of the ids a call asks for or gets back. */
  function Involved(server: string, ids: seq<FunctionId>, reply: Reply): set<Key> {
    (set i | 0 <= i < |ids| :: (server, ids[i])) + (set i | 0 <= i < |reply| :: (server, reply[i].0))
  }

  /** What one request for all ids would yield. */
  function Uncached(truth: map<FunctionId, Info>, ids: seq<FunctionId>): map<FunctionId, Info> {
    map id | id in ids && id in truth :: truth[id]
  }

  /** The keys a pass over `ids` hits, in order. */
  function HitLog(c: Lru<Key, Info>, server: string, ids: seq<FunctionId>): seq<Key> {
    if ids == [] then []
    else
      var k := (server, ids[|ids| - 1]);
      HitLog(c, server, ids[..|ids| - 1]) + (if k in c.items then [k] else [])
  }

  function StoreLog(server: string, reply: Reply): seq<Key> {
    if reply == [] then [] else StoreLog(server, reply[..|reply| - 1]) + [(server, reply[|reply| - 1].0)]
  }

  lemma {:induction false} CallKeepsWellFormed(
    p: Policy<Info>, c: Lru<Key, Info>, server: string, ids: seq<FunctionId>, reply: Reply)
    requires WellFormed(p, c)
    ensures WellFormed(p, PutAll(p, ReadAll(c, server, ids), server, reply))
    decreases |ids| + |reply|
  {
    if reply != [] {
      var shorter := reply[..|reply| - 1];
      CallKeepsWellFormed(p, c, server, ids, shorter);
      PutKeepsWellFormed(p, PutAll(p, ReadAll(c, server, ids), server, shorter),
                         (server, reply[|reply| - 1].0), reply[|reply| - 1].1);
    } else if ids != [] {
      CallKeepsWellFormed(p, c, server, ids[..|ids| - 1], []);
      ReadKeepsWellFormed(p, ReadAll(c, server, ids[..|ids| - 1]), (server, ids[|ids| - 1]));
    }
  }

  lemma {:induction false} ReadAllFollows(
    p: Policy<Info>, c: Lru<Key, Info>, log: seq<Key>, server: string, ids: seq<FunctionId>)
    requires CountBounded(p) && WellFormed(p, c) && Follows(p, c, log)
    ensures Follows(p, ReadAll(c, server, ids), log + HitLog(c, server, ids))
  {
    if ids == [] {
      assert log + [] == log;
    } else {
      var shorter := ids[..|ids| - 1];
      var k := (server, ids[|ids| - 1]);
      hide *;
      ReadAllFollows(p, c, log, server, shorter);
      ReadAllStep(c, server, ids, log);
      ReadsKeepItems(c, server, shorter);
      CallKeepsWellFormed(p, c, server, shorter, []);
      WellFormedKeys(p, ReadAll(c, server, shorter));
      ReadFollows(p, ReadAll(c, server, shorter), log + HitLog(c, server, shorter), k);
    }
  }

  lemma ReadAllStep(c: Lru<Key, Info>, server: string, ids: seq<FunctionId>, log: seq<Key>)
    requires ids != []
    ensures var shorter, k := ids[..|ids| - 1], (server, ids[|ids| - 1]);
            && ReadAll(c, server, ids) == Read(ReadAll(c, server, shorter), k)
            && log + HitLog(c, server, ids)
               == (if k in c.items then log + HitLog(c, server, shorter) + [k] else log + HitLog(c, server, shorter))
  {
    hide Read;
  }

  lemma {:induction false} PutAllFollows(
    p: Policy<Info>, c: Lru<Key, Info>, log: seq<Key>, server: string, reply: Reply)
    requires CountBounded(p) && Follows(p, c, log)
    ensures Follows(p, PutAll(p, c, server, reply), log + StoreLog(server, reply))
  {
    if reply == [] {
      assert log + [] == log;
    } else {
      var shorter := reply[..|reply| - 1];
      var (id, info) := reply[|reply| - 1];
      var sofar := log + StoreLog(server, shorter);
      assert log + StoreLog(server, reply) == sofar + [(server, id)];
      PutAllFollows(p, c, log, server, shorter);
      PutFollows(p, PutAll(p, c, server, shorter), sofar, (server, id), info);
    }
  }

  lemma {:induction false} PutAllAgrees(
    p: Policy<Info>, c: Lru<Key, Info>, server: string, reply: Reply, asked: seq<FunctionId>,
    truth: map<FunctionId, Info>)
    requires Agrees(c, server, truth) && Honest(reply, asked, truth)
    ensures Agrees(PutAll(p, c, server, reply), server, truth)
  {
    if reply != [] {
      PutAllAgrees(p, c, server, reply[..|reply| - 1], [], truth);
    }
  }

  lemma {:induction false} HitLogElements(c: Lru<Key, Info>, server: string, ids: seq<FunctionId>)
    ensures forall id :: (server, id) in HitLog(c, server, ids) <==> id in ids && (server, id) in c.items
    ensures forall id :: id in Missing(c, server, ids) <==> id in ids && (server, id) !in c.items
    ensures forall k :: k in HitLog(c, server, ids) ==> exists i :: 0 <= i < |ids| && k == (server, ids[i])
  {
    if ids != [] {
      HitLogElements(c, server, ids[..|ids| - 1]);
      assert forall id :: id in ids <==> id in ids[..|ids| - 1] || id == ids[|ids| - 1];
    }
  }

  /** What the server says to any other list of ids than one of exactly those not cached does not matter. */
  lemma OnlyMissingAreFetched(
    p: Policy<Info>, c: Lru<Key, Info>, server: string, ids: seq<FunctionId>, fetch: seq<FunctionId> -> Reply,
    other: seq<FunctionId> -> Reply)
    requires forall asked ::
               asked != [] && (forall id :: id in asked <==> id in ids && (server, id) !in c.items) ==>
                 fetch(asked) == other(asked)
    ensures Filled(p, c, server, ids, fetch) == Filled(p, c, server, ids, other)
  {
    HitLogElements(c, server, ids);
    hide Missing, ReadAll, PutAll;
  }

  lemma {:induction false} StoreLogElements(server: string, reply: Reply)
    ensures forall i :: 0 <= i < |reply| ==> (server, reply[i].0) in StoreLog(server, reply)
    ensures forall k :: k in StoreLog(server, reply) ==> exists i :: 0 <= i < |reply| && k == (server, reply[i].0)
  {
    if reply != [] {
      StoreLogElements(server, reply[..|reply| - 1]);
    }
  }

  /** The answer of the one request, if any is made. */
  function Fetched(c: Lru<Key, Info>, server: string, ids: seq<FunctionId>, fetch: seq<FunctionId> -> Reply): Reply {
    if Missing(c, server, ids) == [] then [] else fetch(Missing(c, server, ids))
  }

  lemma LogWithinInvolved(c: Lru<Key, Info>, server: string, ids: seq<FunctionId>, reply: Reply)
    ensures Accessed(c, server, ids, reply) <= |Involved(server, ids, reply)|
  {
    var log := HitLog(c, server, ids) + StoreLog(server, reply);
    HitLogElements(c, server, ids);
    StoreLogElements(server, reply);
    forall k | k in log ensures k in Involved(server, ids, reply) {
      assert k in HitLog(c, server, ids) || k in StoreLog(server, reply);
    }
    SubsetCardinality(Elements(log), Involved(server, ids, reply));
  }

  lemma FilledFollows(
    p: Policy<Info>, c: Lru<Key, Info>, log: seq<Key>, server: string, ids: seq<FunctionId>, reply: Reply)
    requires CountBounded(p) && WellFormed(p, c) && Follows(p, c, log)
    ensures Follows(p, PutAll(p, ReadAll(c, server, ids), server, reply),
                    log + (HitLog(c, server, ids) + StoreLog(server, reply)))
  {
    hide *;
    ReadAllFollows(p, c, log, server, ids);
    PutAllFollows(p, ReadAll(c, server, ids), log + HitLog(c, server, ids), server, reply);
    assert log + HitLog(c, server, ids) + StoreLog(server, reply)
        == log + (HitLog(c, server, ids) + StoreLog(server, reply));
  }

  /** How many distinct keys the call hits or stores. */
  function Accessed(c: Lru<Key, Info>, server: string, ids: seq<FunctionId>, reply: Reply): nat {
    |Elements(HitLog(c, server, ids) + StoreLog(server, reply))|
  }

  /** Every key the call hit or stored is held before the final reads. */
  lemma AccessedAreHeld(
    p: Policy<Info>, c: Lru<Key, Info>, log: seq<Key>, server: string, ids: seq<FunctionId>, reply: Reply, k: Key)
    requires CountBounded(p) && WellFormed(p, c) && Follows(p, c, log)
    requires Accessed(c, server, ids, reply) <= Capacity(p)
    requires k in HitLog(c, server, ids) || k in StoreLog(server, reply)
    ensures k in PutAll(p, ReadAll(c, server, ids), server, reply).order
  {
    FilledFollows(p, c, log, server, ids, reply);
    HeldFrom(p, PutAll(p, ReadAll(c, server, ids), server, reply), log, HitLog(c, server, ids),
             StoreLog(server, reply), k);
  }

  lemma HeldFrom(p: Policy<Info>, c: Lru<Key, Info>, log: seq<Key>, hits: seq<Key>, stores: seq<Key>, k: Key)
    requires CountBounded(p) && Follows(p, c, log + (hits + stores))
    requires |Elements(hits + stores)| <= Capacity(p) && (k in hits || k in stores)
    ensures k in c.order
  {
    RecentKeysAreHeld(p, c, log, hits + stores, k);
  }

  lemma AnswersAreHeld(
    p: Policy<Info>, c: Lru<Key, Info>, log: seq<Key>, server: string, ids: seq<FunctionId>, reply: Reply,
    truth: map<FunctionId, Info>)
    requires CountBounded(p) && WellFormed(p, c) && Follows(p, c, log)
    requires Accessed(c, server, ids, reply) <= Capacity(p)
    requires Honest(reply, Missing(c, server, ids), truth)
    ensures forall id :: id in ids && id in truth ==>
            (server, id) in PutAll(p, ReadAll(c, server, ids), server, reply).order
  {
    forall id | id in ids && id in truth
      ensures (server, id) in PutAll(p, ReadAll(c, server, ids), server, reply).order
    {
      HitLogElements(c, server, ids);
      StoreLogElements(server, reply);
      assert (server, id) in c.items || (id, truth[id]) in reply;
      AccessedAreHeld(p, c, log, server, ids, reply, (server, id));
    }
  }

  /** The call answers what one uncached request would when all it hits and stores fits the capacity. */
  lemma FittingLookupIsTransparent(
    p: Policy<Info>, c: Lru<Key, Info>, log: seq<Key>, server: string, ids: seq<FunctionId>,
    fetch: seq<FunctionId> -> Reply, truth: map<FunctionId, Info>)
    requires CountBounded(p) && WellFormed(p, c) && Follows(p, c, log)
    requires Agrees(c, server, truth)
    requires Honest(fetch(Missing(c, server, ids)), Missing(c, server, ids), truth)
    requires Accessed(c, server, ids, Fetched(c, server, ids, fetch)) <= Capacity(p)
    ensures Known(Filled(p, c, server, ids, fetch), server, ids) == Uncached(truth, ids)
  {
    var reply := Fetched(c, server, ids, fetch);
    FilledIsPutAll(p, c, server, ids, fetch);
    FetchedIsHonest(c, server, ids, fetch, truth);
    hide *;
    FilledAgrees(p, c, server, ids, reply, truth);
    CallKeepsWellFormed(p, c, server, ids, reply);
    AnswersAreHeld(p, c, log, server, ids, reply, truth);
    KnownIsUncached(p, Filled(p, c, server, ids, fetch), server, ids, truth);
  }

  lemma FilledAgrees(
    p: Policy<Info>, c: Lru<Key, Info>, server: string, ids: seq<FunctionId>, reply: Reply,
    truth: map<FunctionId, Info>)
    requires Agrees(c, server, truth) && Honest(reply, Missing(c, server, ids), truth)
    ensures Agrees(PutAll(p, ReadAll(c, server, ids), server, reply), server, truth)
  {
    ReadsKeepItems(c, server, ids);
    PutAllAgrees(p, ReadAll(c, server, ids), server, reply, Missing(c, server, ids), truth);
  }

  /**
   A lookup answers exactly what one uncached request for all ids would, if the capacity has room for
   the distinct ids asked for or returned; and it leaves every cached entry true.
   */
  lemma LookupIsTransparent(
    p: Policy<Info>, c: Lru<Key, Info>, log: seq<Key>, server: string, ids: seq<FunctionId>,
    fetch: seq<FunctionId> -> Reply, truth: map<FunctionId, Info>)
    requires CountBounded(p) && WellFormed(p, c) && Follows(p, c, log)
    requires Agrees(c, server, truth)
    requires Honest(fetch(Missing(c, server, ids)), Missing(c, server, ids), truth)
    requires |Involved(server, ids, Fetched(c, server, ids, fetch))| <= Capacity(p)
    ensures Known(Filled(p, c, server, ids, fetch), server, ids) == Uncached(truth, ids)
    ensures Agrees(Filled(p, c, server, ids, fetch), server, truth)
  {
    FilledIsPutAll(p, c, server, ids, fetch);
    FetchedIsHonest(c, server, ids, fetch, truth);
    hide *;
    FilledAgrees(p, c, server, ids, Fetched(c, server, ids, fetch), truth);
    LogWithinInvolved(c, server, ids, Fetched(c, server, ids, fetch));
    FittingLookupIsTransparent(p, c, log, server, ids, fetch, truth);
  }

  /** The keys of the distinct ids the server has an answer for. */
  function Answerable(server: string, ids: seq<FunctionId>, truth: map<FunctionId, Info>): set<Key> {
    set i | 0 <= i < |ids| && ids[i] in truth :: (server, ids[i])
  }

  /** When the server returns only what it is asked, the answer is complete exactly if it fits the cache. */
  lemma CompleteIffItFits(
    p: Policy<Info>, c: Lru<Key, Info>, log: seq<Key>, server: string, ids: seq<FunctionId>,
    fetch: seq<FunctionId> -> Reply, truth: map<FunctionId, Info>)
    requires CountBounded(p) && WellFormed(p, c) && Follows(p, c, log)
    requires Agrees(c, server, truth)
    requires Honest(fetch(Missing(c, server, ids)), Missing(c, server, ids), truth)
    requires forall i :: 0 <= i < |fetch(Missing(c, server, ids))| ==> fetch(Missing(c, server, ids))[i].0 in ids
    ensures Known(Filled(p, c, server, ids, fetch), server, ids) == Uncached(truth, ids)
       <==> |Answerable(server, ids, truth)| <= Capacity(p)
  {
    var reply := Fetched(c, server, ids, fetch);
    var filled := Filled(p, c, server, ids, fetch);
    FilledIsPutAll(p, c, server, ids, fetch);
    FetchedIsHonest(c, server, ids, fetch, truth);
    assert forall i :: 0 <= i < |reply| ==> reply[i].0 in ids;
    if |Answerable(server, ids, truth)| <= Capacity(p) {
      AccessedAreAnswerable(c, server, ids, reply, truth);
      FittingLookupIsTransparent(p, c, log, server, ids, fetch, truth);
    }
    if Known(filled, server, ids) == Uncached(truth, ids) {
      hide PutAll, ReadAll, Filled;
      CallKeepsWellFormed(p, c, server, ids, reply);
      FilledFollows(p, c, log, server, ids, reply);
      KnownAreHeld(p, filled, server, ids, truth);
      assert |filled.order| <= Capacity(p);
    }
  }

  lemma AccessedAreAnswerable(
    c: Lru<Key, Info>, server: string, ids: seq<FunctionId>, reply: Reply, truth: map<FunctionId, Info>)
    requires Agrees(c, server, truth) && Honest(reply, Missing(c, server, ids), truth)
    requires forall i :: 0 <= i < |reply| ==> reply[i].0 in ids
    ensures Accessed(c, server, ids, reply) <= |Answerable(server, ids, truth)|
  {
    var log := HitLog(c, server, ids) + StoreLog(server, reply);
    HitLogElements(c, server, ids);
    StoreLogElements(server, reply);
    forall k | k in log ensures k in Answerable(server, ids, truth) {
      assert k in HitLog(c, server, ids) || k in StoreLog(server, reply);
      assert k.0 == server && k.1 in ids && k.1 in truth;
    }
    SubsetCardinality(Elements(log), Answerable(server, ids, truth));
  }

  lemma KnownAreHeld(
    p: Policy<Info>, c: Lru<Key, Info>, server: string, ids: seq<FunctionId>, truth: map<FunctionId, Info>)
    requires WellFormed(p, c) && Known(c, server, ids) == Uncached(truth, ids)
    ensures |Answerable(server, ids, truth)| <= |c.order|
  {
    forall i | 0 <= i < |ids| && ids[i] in truth ensures (server, ids[i]) in Elements(c.order) {
      assert ids[i] in Uncached(truth, ids);
      assert ids[i] in Known(c, server, ids);
    }
    SubsetCardinality(Answerable(server, ids, truth), Elements(c.order));
    DistinctCardinality(c.order);
  }

  lemma FilledIsPutAll(
    p: Policy<Info>, c: Lru<Key, Info>, server: string, ids: seq<FunctionId>, fetch: seq<FunctionId> -> Reply)
    ensures Filled(p, c, server, ids, fetch)
            == PutAll(p, ReadAll(c, server, ids), server, Fetched(c, server, ids, fetch))
  {
  }

  lemma FetchedIsHonest(
    c: Lru<Key, Info>, server: string, ids: seq<FunctionId>, fetch: seq<FunctionId> -> Reply,
    truth: map<FunctionId, Info>)
    requires Honest(fetch(Missing(c, server, ids)), Missing(c, server, ids), truth)
    ensures Honest(Fetched(c, server, ids, fetch), Missing(c, server, ids), truth)
  {
  }

  lemma KnownIsUncached(
    p: Policy<Info>, c: Lru<Key, Info>, server: string, ids: seq<FunctionId>, truth: map<FunctionId, Info>)
    requires WellFormed(p, c) && Agrees(c, server, truth)
    requires forall id :: id in ids && id in truth ==> (server, id) in c.order
    ensures Known(c, server, ids) == Uncached(truth, ids)
  {
  }
}
