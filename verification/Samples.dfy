/** `McritProvider._sample`: an unbounded LockedCache keyed by server and file hash, never cleared. */
module Samples {
  import opened Collections
  import opened Cache
  import opened SingleFlight

  datatype SampleRef = SampleRef(sampleId: int, sha256: string, existed: bool)

  type SampleKey = (string, string)

  /** `LockedCache()`: no limits, no weights; a SampleRef is never blank. */
  function Unbounded(): Policy<SampleRef> {
    Policy(None, None, None, ref => false)
  }

  predicate Completed(s: State<SampleKey, SampleRef>, k: SampleKey, v: SampleRef) {
    (k, v) in s.built
  }

  ghost predicate BuiltOnce(s: State<SampleKey, SampleRef>) {
    forall i, j :: 0 <= i < j < |s.built| ==> s.built[i].0 != s.built[j].0
  }

  predicate Stores(s: State<SampleKey, SampleRef>, t: Thread, k: SampleKey, v: SampleRef) {
    PhaseOf(s, t).Storing? && PhaseOf(s, t).key == k && PhaseOf(s, t).value == v
  }

  /** A completed sample is held, or is about to be stored by the visit that completed it. */
  ghost predicate BuiltIsKept(s: State<SampleKey, SampleRef>) {
    forall k, v :: Completed(s, k, v) ==>
      (k in s.cache.items && s.cache.items[k] == v) || exists t: Thread :: Stores(s, t, k, v)
  }

  /** A visit only builds what no visit has completed. */
  ghost predicate BuildersAreFirst(s: State<SampleKey, SampleRef>) {
    forall t: Thread, k, e: nat, v :: Owns(s, t, k, e) && PhaseOf(s, t).Building? ==> !Completed(s, k, v)
  }

  /** Whatever is held, stored, released or handed out was completed. */
  ghost predicate OnlyCompleted(s: State<SampleKey, SampleRef>) {
    && (forall k :: k in s.cache.items ==> Completed(s, k, s.cache.items[k]))
    && (forall t: Thread, k, v :: Stores(s, t, k, v) ==> Completed(s, k, v))
    && (forall t: Thread :: PhaseOf(s, t).Releasing? && PhaseOf(s, t).answer.Returned? ==>
         Completed(s, PhaseOf(s, t).key, PhaseOf(s, t).answer.value))
    && (forall i :: 0 <= i < |s.answered| ==> Completed(s, s.answered[i].0, s.answered[i].1))
  }

  ghost predicate OncePerKey(s: State<SampleKey, SampleRef>) {
    && s.cache.items.Keys == Elements(s.cache.order)
    && BuiltOnce(s) && BuiltIsKept(s) && BuildersAreFirst(s) && OnlyCompleted(s)
  }

  predicate VisitStep(s: State<SampleKey, SampleRef>, t: Thread, a: Action<SampleKey, SampleRef>) {
    Enabled(Unbounded(), s, t, a) && !a.SetEntry? && !a.ClearAll? && !a.GetEntry?
  }

  lemma UnboundedKeepsEverything(c: Lru<SampleKey, SampleRef>, k: SampleKey, v: SampleRef)
    requires c.items.Keys == Elements(c.order)
    ensures Put(Unbounded(), c, k, v).items == c.items[k := v]
    ensures Elements(Touch(c.order, k)) == Elements(c.order) + {k}
  {
    WithoutElements(c.order, k);
    assert forall x :: x in Touch(c.order, k) <==> x in c.order || x == k;
  }

  /** How one step changes what is held and what is completed. */
  lemma StepEffect(s: State<SampleKey, SampleRef>, t: Thread, a: Action<SampleKey, SampleRef>)
    requires VisitStep(s, t, a) && s.cache.items.Keys == Elements(s.cache.order)
    ensures var s' := Next(Unbounded(), s, t, a);
      var phase := PhaseOf(s, t);
      && s'.cache.items == (if a.Store? then s.cache.items[phase.key := phase.value] else s.cache.items)
      && s'.cache.items.Keys == Elements(s'.cache.order)
      && (forall k, v :: Completed(s', k, v) <==>
           Completed(s, k, v) || (a.FactoryReturns? && k == phase.key && v == a.value))
      && (forall u: Thread, k, v :: u != t ==> Stores(s', u, k, v) == Stores(s, u, k, v))
  {
    OthersUnmoved(Unbounded(), s, t, a);
    if a.Store? {
      UnboundedKeepsEverything(s.cache, PhaseOf(s, t).key, PhaseOf(s, t).value);
    } else if a.Hit? {
      UnboundedKeepsEverything(s.cache, PhaseOf(s, t).key, s.cache.items[PhaseOf(s, t).key]);
    }
  }

  lemma StepKeepsBuiltOnce(s: State<SampleKey, SampleRef>, t: Thread, a: Action<SampleKey, SampleRef>)
    requires OncePerKey(s) && VisitStep(s, t, a)
    ensures BuiltOnce(Next(Unbounded(), s, t, a))
  {
    if a.FactoryReturns? {
      var phase := PhaseOf(s, t);
      assert Owns(s, t, phase.key, phase.event);
      forall i | 0 <= i < |s.built| ensures s.built[i].0 != phase.key {
        assert Completed(s, s.built[i].0, s.built[i].1);
      }
    }
  }

  lemma StepKeepsBuiltIsKept(s: State<SampleKey, SampleRef>, t: Thread, a: Action<SampleKey, SampleRef>)
    requires OncePerKey(s) && VisitStep(s, t, a)
    ensures BuiltIsKept(Next(Unbounded(), s, t, a))
  {
    var s' := Next(Unbounded(), s, t, a);
    StepEffect(s, t, a);
    forall k, v | Completed(s', k, v)
      ensures (k in s'.cache.items && s'.cache.items[k] == v) || exists u: Thread :: Stores(s', u, k, v)
    {
      if !Completed(s, k, v) {
        assert Stores(s', t, k, v);
      } else if k in s.cache.items && s.cache.items[k] == v {
        if a.Store? && PhaseOf(s, t).key == k {
          assert Stores(s, t, k, PhaseOf(s, t).value);
          CompletedOnce(s, k, v, PhaseOf(s, t).value);
        }
      } else {
        var u: Thread :| Stores(s, u, k, v);
        assert u != t ==> Stores(s', u, k, v);
      }
    }
  }

  lemma CompletedOnce(s: State<SampleKey, SampleRef>, k: SampleKey, v: SampleRef, w: SampleRef)
    requires BuiltOnce(s) && Completed(s, k, v) && Completed(s, k, w)
    ensures v == w
  {
  }

  lemma StepKeepsBuildersFirst(s: State<SampleKey, SampleRef>, t: Thread, a: Action<SampleKey, SampleRef>)
    requires OncePerKey(s) && Invariant(s) && VisitStep(s, t, a)
    ensures BuildersAreFirst(Next(Unbounded(), s, t, a))
  {
    var s' := Next(Unbounded(), s, t, a);
    StepEffect(s, t, a);
    OthersUnmoved(Unbounded(), s, t, a);
    forall u: Thread, k, e: nat, v | Owns(s', u, k, e) && PhaseOf(s', u).Building? ensures !Completed(s', k, v) {
      if u != t {
        assert Owns(s, u, k, e);
        if a.FactoryReturns? {
          assert Owns(s, t, PhaseOf(s, t).key, PhaseOf(s, t).event);
        }
      } else if Completed(s, k, v) {
        var w: Thread :| Stores(s, w, k, v);
        assert Owns(s, w, k, PhaseOf(s, w).event);
      }
    }
  }

  lemma StepKeepsOnlyCompleted(s: State<SampleKey, SampleRef>, t: Thread, a: Action<SampleKey, SampleRef>)
    requires OncePerKey(s) && VisitStep(s, t, a)
    ensures OnlyCompleted(Next(Unbounded(), s, t, a))
  {
    StepEffect(s, t, a);
    OthersUnmoved(Unbounded(), s, t, a);
    if a.Store? {
      assert Stores(s, t, PhaseOf(s, t).key, PhaseOf(s, t).value);
    }
  }

  /** What edge visits do with the cache: only `get_or_set`. */
  ghost predicate OnlyVisits(run: Schedule<SampleKey, SampleRef>) {
    forall i :: 0 <= i < |run| ==> !run[i].1.SetEntry? && !run[i].1.ClearAll? && !run[i].1.GetEntry?
  }

  lemma {:induction false} EveryRunBuildsOncePerKey(run: Schedule<SampleKey, SampleRef>)
    requires OnlyVisits(run) && Reached(Unbounded(), run).Some?
    ensures OncePerKey(Reached(Unbounded(), run).value)
  {
    if run != [] {
      var shorter := run[..|run| - 1];
      var (t, a) := run[|run| - 1];
      EveryRunBuildsOncePerKey(shorter);
      EveryRunKeepsInvariant(Unbounded(), shorter);
      var s := Reached(Unbounded(), shorter).value;
      StepEffect(s, t, a);
      StepKeepsBuiltOnce(s, t, a);
      StepKeepsBuiltIsKept(s, t, a);
      StepKeepsBuildersFirst(s, t, a);
      StepKeepsOnlyCompleted(s, t, a);
    }
  }

  /**
   Over every interleaving of visits, failed and stopped ones included, one `ensure_sample` at most
   completes per (server, hash), and every visit that got a sample got that one.
   */
  lemma OneSamplePerKey(run: Schedule<SampleKey, SampleRef>)
    requires OnlyVisits(run) && Reached(Unbounded(), run).Some?
    ensures var s := Reached(Unbounded(), run).value;
      && (forall i, j :: 0 <= i < |s.built| && 0 <= j < |s.built| && s.built[i].0 == s.built[j].0 ==> i == j)
      && (forall i :: 0 <= i < |s.answered| ==> s.answered[i] in s.built)
      && (forall i, j :: 0 <= i < |s.answered| && 0 <= j < |s.answered| && s.answered[i].0 == s.answered[j].0
           ==> s.answered[i] == s.answered[j])
  {
    EveryRunBuildsOncePerKey(run);
    var s := Reached(Unbounded(), run).value;
    forall i | 0 <= i < |s.answered| ensures s.answered[i] in s.built {
      assert Completed(s, s.answered[i].0, s.answered[i].1);
    }
  }
}
