/** Lookups on any number of servers, one after the other, through one cache that starts empty. */
module LookupRuns {
  import opened Cache
  import opened CacheRuns
  import opened FunctionLookup

  datatype Lookup = Lookup(server: string, ids: seq<FunctionId>, fetch: seq<FunctionId> -> Reply)

  type Truths = string -> map<FunctionId, Info>

  function CacheAfter(p: Policy<Info>, calls: seq<Lookup>): Lru<Key, Info> {
    if calls == [] then Empty()
    else
      var before, call := CacheAfter(p, calls[..|calls| - 1]), calls[|calls| - 1];
      ReadAll(Filled(p, before, call.server, call.ids, call.fetch), call.server, call.ids)
  }

  function AnswerOf(p: Policy<Info>, c: Lru<Key, Info>, call: Lookup): map<FunctionId, Info> {
    Known(Filled(p, c, call.server, call.ids, call.fetch), call.server, call.ids)
  }

  /** The call asks an honest server, and its distinct ids, asked for or returned, have room in the cache. */
  ghost predicate Fits(p: Policy<Info>, c: Lru<Key, Info>, call: Lookup, truths: Truths)
    requires CountBounded(p)
  {
    var missing := Missing(c, call.server, call.ids);
    && Honest(call.fetch(missing), missing, truths(call.server))
    && |Involved(call.server, call.ids, Fetched(c, call.server, call.ids, call.fetch))| <= Capacity(p)
  }

  ghost predicate FittingRun(p: Policy<Info>, calls: seq<Lookup>, truths: Truths)
    requires CountBounded(p)
  {
    forall i :: 0 <= i < |calls| ==> Fits(p, CacheAfter(p, calls[..i]), calls[i], truths)
  }

  /** Every cached entry, of whatever server, says what that server would say. */
  ghost predicate AllAgree(c: Lru<Key, Info>, truths: Truths) {
    forall k: Key :: k in c.items ==> k.1 in truths(k.0) && c.items[k] == truths(k.0)[k.1]
  }

  lemma {:induction false} PutAllKeepsAgreement(
    p: Policy<Info>, c: Lru<Key, Info>, server: string, reply: Reply, truths: Truths)
    requires AllAgree(c, truths)
    requires forall i :: 0 <= i < |reply| ==> reply[i].0 in truths(server) && truths(server)[reply[i].0] == reply[i].1
    ensures AllAgree(PutAll(p, c, server, reply), truths)
  {
    if reply != [] {
      var shorter, last := reply[..|reply| - 1], reply[|reply| - 1];
      PutAllKeepsAgreement(p, c, server, shorter, truths);
      StoreKeepsAgreement(p, PutAll(p, c, server, shorter), (server, last.0), last.1, truths);
    }
  }

  lemma StoreKeepsAgreement(p: Policy<Info>, c: Lru<Key, Info>, key: Key, info: Info, truths: Truths)
    requires AllAgree(c, truths) && key.1 in truths(key.0) && truths(key.0)[key.1] == info
    ensures AllAgree(Put(p, c, key, info), truths)
  {
  }

  lemma CallKeepsAgreement(p: Policy<Info>, c: Lru<Key, Info>, call: Lookup, truths: Truths)
    requires CountBounded(p) && AllAgree(c, truths) && Fits(p, c, call, truths)
    ensures AllAgree(ReadAll(Filled(p, c, call.server, call.ids, call.fetch), call.server, call.ids), truths)
  {
    var reply := Fetched(c, call.server, call.ids, call.fetch);
    FilledIsPutAll(p, c, call.server, call.ids, call.fetch);
    FetchedIsHonest(c, call.server, call.ids, call.fetch, truths(call.server));
    hide Filled, PutAll, ReadAll, Fetched, Missing, Fits;
    ReadsKeepItems(c, call.server, call.ids);
    PutAllKeepsAgreement(p, ReadAll(c, call.server, call.ids), call.server, reply, truths);
    ReadsKeepItems(Filled(p, c, call.server, call.ids, call.fetch), call.server, call.ids);
  }

  /** What holds between calls: the cache is well formed, true, and in the recency order of some log. */
  ghost predicate Between(p: Policy<Info>, c: Lru<Key, Info>, truths: Truths)
    requires CountBounded(p)
  {
    WellFormed(p, c) && AllAgree(c, truths) && exists log :: Follows(p, c, log)
  }

  lemma CallKeepsOrder(p: Policy<Info>, c: Lru<Key, Info>, log: seq<Key>, call: Lookup) returns (longer: seq<Key>)
    requires CountBounded(p) && WellFormed(p, c) && Follows(p, c, log)
    ensures var after := ReadAll(Filled(p, c, call.server, call.ids, call.fetch), call.server, call.ids);
            WellFormed(p, after) && Follows(p, after, longer)
  {
    var reply := Fetched(c, call.server, call.ids, call.fetch);
    FilledIsPutAll(p, c, call.server, call.ids, call.fetch);
    hide *;
    var filled := Filled(p, c, call.server, call.ids, call.fetch);
    CallKeepsWellFormed(p, c, call.server, call.ids, reply);
    FilledFollows(p, c, log, call.server, call.ids, reply);
    var middle := log + (HitLog(c, call.server, call.ids) + StoreLog(call.server, reply));
    CallKeepsWellFormed(p, filled, call.server, call.ids, []);
    ReadAllFollows(p, filled, middle, call.server, call.ids);
    longer := middle + HitLog(filled, call.server, call.ids);
    NothingStored(p, ReadAll(filled, call.server, call.ids), call.server);
  }

  lemma NothingStored(p: Policy<Info>, c: Lru<Key, Info>, server: string)
    ensures PutAll(p, c, server, []) == c
  {
  }

  lemma {:induction false} EveryRunStaysTrue(p: Policy<Info>, calls: seq<Lookup>, truths: Truths)
    requires CountBounded(p) && FittingRun(p, calls, truths)
    ensures Between(p, CacheAfter(p, calls), truths)
  {
    if calls == [] {
      assert Follows(p, Empty<Key, Info>(), []);
    } else {
      var n := |calls| - 1;
      var before, call := CacheAfter(p, calls[..n]), calls[n];
      assert Fits(p, before, call, truths);
      ShorterFits(p, calls, truths, n);
      EveryRunStaysTrue(p, calls[..n], truths);
      hide WellFormed, AllAgree, Follows, Fits, Filled, ReadAll;
      var log :| Follows(p, before, log);
      CallKeepsAgreement(p, before, call, truths);
      var longer := CallKeepsOrder(p, before, log, call);
    }
  }

  lemma ShorterFits(p: Policy<Info>, calls: seq<Lookup>, truths: Truths, n: nat)
    requires CountBounded(p) && FittingRun(p, calls, truths) && n <= |calls|
    ensures FittingRun(p, calls[..n], truths)
  {
    forall i | 0 <= i < n ensures Fits(p, CacheAfter(p, calls[..n][..i]), calls[..n][i], truths) {
      assert calls[..n][..i] == calls[..i];
    }
  }

  /** Over every run of lookups on any servers, each answer is that of one uncached request for all its ids. */
  lemma EveryLookupIsTransparent(p: Policy<Info>, calls: seq<Lookup>, truths: Truths, i: nat)
    requires CountBounded(p) && FittingRun(p, calls, truths) && i < |calls|
    ensures AnswerOf(p, CacheAfter(p, calls[..i]), calls[i]) == Uncached(truths(calls[i].server), calls[i].ids)
  {
    var c, call := CacheAfter(p, calls[..i]), calls[i];
    assert Fits(p, c, call, truths);
    ShorterFits(p, calls, truths, i);
    hide CacheAfter, WellFormed, Follows, Filled, Known, Uncached, FittingRun;
    EveryRunStaysTrue(p, calls[..i], truths);
    var log :| Follows(p, c, log);
    LookupIsTransparent(p, c, log, call.server, call.ids, call.fetch, truths(call.server));
  }
}
