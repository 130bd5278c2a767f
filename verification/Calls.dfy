/** What becomes of the calls of `get_or_set` that threads make: each ends once, and in one of three ways. */
module Calls {
  import opened Collections
  import opened Cache
  import opened SingleFlight

  /** The calls of thread `t`, in order. */
  function CallsOf<K, V>(run: Schedule<K, V>, t: Thread): seq<(K, Request)> {
    if run == [] then []
    else
      var (u, a) := run[|run| - 1];
      CallsOf(run[..|run| - 1], t) + (if u == t && a.Call? then [(a.key, a.req)] else [])
  }

  /** The answer with which step `a` of thread `t` ends its call; None when the call goes on. */
  function Ending<K(==), V>(p: Policy<V>, s: State<K, V>, t: Thread, a: Action<K, V>): Option<Answer<V>>
    requires Enabled(p, s, t, a)
  {
    match a
    case Hit => Some(Returned(s.cache.items[PhaseOf(s, t).key]))
    case StopBeforeClaim => Some(Cancelled)
    case GiveUp => Some(Cancelled)
    case Release => Some(PhaseOf(s, t).answer)
    case _ => None
  }

  /** The calls of `t` that have ended: their keys and answers, in order. */
  function EndsOf<K(==), V>(p: Policy<V>, run: Schedule<K, V>, t: Thread): seq<(K, Answer<V>)>
    requires Reached(p, run).Some?
  {
    if run == [] then []
    else
      var (u, a) := run[|run| - 1];
      var s := Reached(p, run[..|run| - 1]).value;
      var answer := Ending(p, s, u, a);
      EndsOf(p, run[..|run| - 1], t)
      + (if u == t && answer.Some? then [(PhaseOf(s, t).key, answer.value)] else [])
  }

  /** Keys and values of all calls that have ended with a value, in the order of their ends. */
  function HandedOut<K(==), V>(p: Policy<V>, run: Schedule<K, V>): seq<(K, V)>
    requires Reached(p, run).Some?
  {
    if run == [] then []
    else
      var (u, a) := run[|run| - 1];
      var s := Reached(p, run[..|run| - 1]).value;
      var answer := Ending(p, s, u, a);
      HandedOut(p, run[..|run| - 1])
      + (if answer.Some? && answer.value.Returned? then [(PhaseOf(s, u).key, answer.value.value)] else [])
  }

  /** The last call of `calls` is the one that `phase` is inside of, if it is inside of any. */
  predicate Abreast<K(==), V>(phase: Phase<K, V>, calls: seq<(K, Request)>, ended: nat) {
    if phase.Idle? then |calls| == ended
    else
      && |calls| == ended + 1
      && phase.key == calls[ended].0
      && (!phase.Releasing? ==> phase.req == calls[ended].1)
      && (phase.TimedOut? ==> phase.req.stoppable)
      && (phase.Releasing? ==> !phase.answer.Cancelled?)
  }

  ghost predicate EndsMatch<K, V>(calls: seq<(K, Request)>, ends: seq<(K, Answer<V>)>) {
    && |ends| <= |calls|
    && forall i :: 0 <= i < |ends| ==> ends[i].0 == calls[i].0 && (ends[i].1.Cancelled? ==> calls[i].1.stoppable)
  }

  lemma StepKeepsAbreast<K, V>(
    p: Policy<V>, s: State<K, V>, t: Thread, a: Action<K, V>, calls: seq<(K, Request)>, ended: nat)
    requires Enabled(p, s, t, a) && Abreast(PhaseOf(s, t), calls, ended)
    ensures Abreast(PhaseOf(Next(p, s, t, a), t),
                    if a.Call? then calls + [(a.key, a.req)] else calls,
                    if Ending(p, s, t, a).Some? then ended + 1 else ended)
    ensures Ending(p, s, t, a).Some? ==>
              |calls| == ended + 1 && PhaseOf(s, t).key == calls[ended].0
              && (Ending(p, s, t, a).value.Cancelled? ==> calls[ended].1.stoppable)
  {
    hide Put, Read, Caches;
  }

  /**
   * A thread is idle exactly when every call it has made has ended, and at most one has not. Calls end in the order
   * they are made, and only a call that can be stopped ends cancelled.
   */
  lemma {:induction false} EveryCallEndsOnce<K(!new), V>(p: Policy<V>, run: Schedule<K, V>, t: Thread)
    requires Reached(p, run).Some?
    ensures EndsMatch(CallsOf(run, t), EndsOf(p, run, t))
    ensures Abreast(PhaseOf(Reached(p, run).value, t), CallsOf(run, t), |EndsOf(p, run, t)|)
    ensures |CallsOf(run, t)|
         == |EndsOf(p, run, t)| + (if PhaseOf(Reached(p, run).value, t).Idle? then 0 else 1)
  {
    if run != [] {
      var (u, a) := run[|run| - 1];
      var before := run[..|run| - 1];
      RunUnfolds(p, run, t);
      hide Reached, Next, Enabled, Ending, CallsOf, EndsOf;
      var s, calls, ends := Reached(p, before).value, CallsOf(before, t), EndsOf(p, before, t);
      EveryCallEndsOnce(p, before, t);
      if u == t {
        StepKeepsAbreast(p, s, t, a, calls, |ends|);
        EndsMatchLonger(calls, ends, CallsOf(run, t), EndsOf(p, run, t));
      } else {
        OthersUnmoved(p, s, u, a);
      }
    }
  }

  /** The last step of a run. */
  lemma RunUnfolds<K, V>(p: Policy<V>, run: Schedule<K, V>, t: Thread)
    requires run != [] && Reached(p, run).Some?
    ensures var (u, a) := run[|run| - 1];
            var before := run[..|run| - 1];
            && Reached(p, before).Some? && Enabled(p, Reached(p, before).value, u, a)
            && Reached(p, run).value == Next(p, Reached(p, before).value, u, a)
            && CallsOf(run, t) == CallsOf(before, t) + (if u == t && a.Call? then [(a.key, a.req)] else [])
            && EndsOf(p, run, t)
            == EndsOf(p, before, t)
               + (var answer := Ending(p, Reached(p, before).value, u, a);
                  if u == t && answer.Some? then [(PhaseOf(Reached(p, before).value, t).key, answer.value)] else [])
  {
    hide Next, Enabled, Ending;
  }

  lemma EndsMatchLonger<K, V>(
    calls: seq<(K, Request)>, ends: seq<(K, Answer<V>)>, calls': seq<(K, Request)>, ends': seq<(K, Answer<V>)>)
    requires EndsMatch(calls, ends)
    requires calls <= calls' && |ends| <= |ends'| <= |ends| + 1 && ends == ends'[..|ends|]
    requires |ends'| > |ends| ==>
               |calls| > |ends| && ends'[|ends|].0 == calls[|ends|].0
               && (ends'[|ends|].1.Cancelled? ==> calls[|ends|].1.stoppable)
    ensures EndsMatch(calls', ends')
  {
  }

  lemma StepHandsOut<K, V>(p: Policy<V>, s: State<K, V>, t: Thread, a: Action<K, V>)
    requires Enabled(p, s, t, a)
    ensures var answer := Ending(p, s, t, a);
            && Next(p, s, t, a).answered
            == s.answered + (if answer.Some? && answer.value.Returned? then [(PhaseOf(s, t).key, answer.value.value)]
                             else [])
  {
    hide Put, Read, Caches;
  }

  /** What a state records as answered is what calls have ended with. */
  lemma {:induction false} AnsweredIsHandedOut<K, V>(p: Policy<V>, run: Schedule<K, V>)
    requires Reached(p, run).Some?
    ensures Reached(p, run).value.answered == HandedOut(p, run)
  {
    if run != [] {
      var (u, a) := run[|run| - 1];
      AnsweredIsHandedOut(p, run[..|run| - 1]);
      StepHandsOut(p, Reached(p, run[..|run| - 1]).value, u, a);
      hide Next, Enabled, Ending;
    }
  }

  // ---------------------------------------------------------------- failures and values of a call's own

  /** The numbers of the calls that have failed, counted from one. */
  function Failures<K, V>(ends: seq<(K, Answer<V>)>): seq<nat> {
    if ends == [] then []
    else Failures(ends[..|ends| - 1]) + (if ends[|ends| - 1].1.Failed? then [|ends|] else [])
  }

  /** The numbers of the calls of `t` in which the factory or the weigher raised. */
  function Raises<K, V>(run: Schedule<K, V>, t: Thread): seq<nat> {
    if run == [] then []
    else
      var (u, a) := run[|run| - 1];
      var before := run[..|run| - 1];
      Raises(before, t) + (if u == t && (a.FactoryRaises? || a.WeighRaises?) then [|CallsOf(before, t)|] else [])
  }

  /** What the factory returned in the calls of `t`, by the number of the call. */
  function Returns<K, V>(run: Schedule<K, V>, t: Thread): map<nat, V> {
    if run == [] then map[]
    else
      var (u, a) := run[|run| - 1];
      var before := run[..|run| - 1];
      if u == t && a.FactoryReturns? then Returns(before, t)[|CallsOf(before, t)| := a.value] else Returns(before, t)
  }

  /** The call whose failure is about to be handed out. */
  function Pending<K, V>(phase: Phase<K, V>, ended: nat): seq<nat> {
    if phase.Releasing? && phase.answer.Failed? then [ended + 1] else []
  }

  /** A call fails exactly if its own factory or weigher raised, and never because another thread's did. */
  lemma {:induction false} OnlyOwnFailures<K(!new), V>(p: Policy<V>, run: Schedule<K, V>, t: Thread)
    requires Reached(p, run).Some?
    ensures var ends := EndsOf(p, run, t);
            Raises(run, t) == Failures(ends) + Pending(PhaseOf(Reached(p, run).value, t), |ends|)
  {
    if run != [] {
      var (u, a) := run[|run| - 1];
      var before := run[..|run| - 1];
      RunUnfolds(p, run, t);
      RaisesOfStep(run, t);
      hide *;
      var s, ends := Reached(p, before).value, EndsOf(p, before, t);
      OnlyOwnFailures(p, before, t);
      if u == t {
        CallsAndEnds(p, before, t);
        OwnStepFails(p, s, t, a, ends);
      } else {
        OtherStays(p, s, u, a, t);
        assert Raises(run, t) == Raises(before, t);
        assert EndsOf(p, run, t) == ends;
      }
    }
  }

  lemma CallsAndEnds<K(!new), V>(p: Policy<V>, run: Schedule<K, V>, t: Thread)
    requires Reached(p, run).Some?
    ensures !PhaseOf(Reached(p, run).value, t).Idle? ==> |CallsOf(run, t)| == |EndsOf(p, run, t)| + 1
  {
    EveryCallEndsOnce(p, run, t);
    hide *;
  }

  lemma OtherStays<K(!new), V>(p: Policy<V>, s: State<K, V>, t: Thread, a: Action<K, V>, u: Thread)
    requires Enabled(p, s, t, a) && u != t
    ensures PhaseOf(Next(p, s, t, a), u) == PhaseOf(s, u)
  {
    OthersUnmoved(p, s, t, a);
  }

  lemma OwnStepFails<K, V>(p: Policy<V>, s: State<K, V>, t: Thread, a: Action<K, V>, ends: seq<(K, Answer<V>)>)
    requires Enabled(p, s, t, a)
    ensures var answer := Ending(p, s, t, a);
            var ends' := ends + (if answer.Some? then [(PhaseOf(s, t).key, answer.value)] else []);
            && (Failures(ends) + Pending(PhaseOf(s, t), |ends|))
               + (if a.FactoryRaises? || a.WeighRaises? then [|ends| + 1] else [])
            == Failures(ends') + Pending(PhaseOf(Next(p, s, t, a), t), |ends'|)
    ensures a.FactoryRaises? || a.WeighRaises? ==> !PhaseOf(s, t).Idle?
  {
    var answer := Ending(p, s, t, a);
    var ended := |ends| + (if answer.Some? then 1 else 0);
    StepFails(p, s, t, a, |ends|);
    hide *;
    FailuresAppend(ends, PhaseOf(s, t), answer);
    Regroup(Failures(ends), Pending(PhaseOf(s, t), |ends|),
            if a.FactoryRaises? || a.WeighRaises? then [|ends| + 1] else [],
            if answer.Some? && answer.value.Failed? then [|ends| + 1] else [],
            Pending(PhaseOf(Next(p, s, t, a), t), ended));
  }

  lemma Regroup<T>(f: seq<T>, pending: seq<T>, r: seq<T>, e: seq<T>, pending': seq<T>)
    requires e + pending' == pending + r
    ensures (f + pending) + r == (f + e) + pending'
  {
    assert (f + e) + pending' == f + (e + pending');
  }

  lemma RaisesOfStep<K, V>(run: Schedule<K, V>, t: Thread)
    requires run != []
    ensures var (u, a) := run[|run| - 1];
            Raises(run, t) == Raises(run[..|run| - 1], t)
              + (if u == t && (a.FactoryRaises? || a.WeighRaises?) then [|CallsOf(run[..|run| - 1], t)|] else [])
  {
  }

  lemma FailuresAppend<K, V>(ends: seq<(K, Answer<V>)>, phase: Phase<K, V>, answer: Option<Answer<V>>)
    requires answer.Some? ==> !phase.Idle?
    ensures Failures(ends + (if answer.Some? then [(phase.key, answer.value)] else []))
         == Failures(ends) + (if answer.Some? && answer.value.Failed? then [|ends| + 1] else [])
  {
    if answer.Some? {
      assert (ends + [(phase.key, answer.value)])[..|ends|] == ends;
    } else {
      assert ends + [] == ends;
    }
  }

  lemma StepFails<K, V>(p: Policy<V>, s: State<K, V>, t: Thread, a: Action<K, V>, ended: nat)
    requires Enabled(p, s, t, a)
    ensures var ending := Ending(p, s, t, a);
            && (if ending.Some? && ending.value.Failed? then [ended + 1] else [])
               + Pending(PhaseOf(Next(p, s, t, a), t), if ending.Some? then ended + 1 else ended)
            == Pending(PhaseOf(s, t), ended) + (if a.FactoryRaises? || a.WeighRaises? then [ended + 1] else [])
    ensures a.FactoryRaises? || a.WeighRaises? || Ending(p, s, t, a).Some? ==> !PhaseOf(s, t).Idle?
  {
    hide Put, Read, Caches;
  }

  /** The value that call number `n` is about to hand out, if its factory has returned, is what it returned. */
  predicate CarriesOwn<K(==), V(==)>(phase: Phase<K, V>, n: nat, own: map<nat, V>) {
    match phase
    case Idle => true
    case Storing(_, _, _, value) => n in own && own[n] == value
    case Releasing(_, _, Returned(value)) => n in own && own[n] == value
    case Releasing(_, _, _) => true
    case _ => n !in own
  }

  ghost predicate EndsWithOwn<K, V>(ends: seq<(K, Answer<V>)>, own: map<nat, V>) {
    forall i :: 0 <= i < |ends| && i + 1 in own && ends[i].1.Returned? ==> ends[i].1.value == own[i + 1]
  }

  ghost predicate NoLaterThan<V>(own: map<nat, V>, n: nat) {
    forall m :: m in own ==> m <= n
  }

  /** `Returns` after step `a`, when the thread is in its call number `n`. */
  function ReturnsAfter<K, V>(own: map<nat, V>, n: nat, a: Action<K, V>): map<nat, V> {
    if a.FactoryReturns? then own[n := a.value] else own
  }

  lemma StepCarriesOwn<K, V>(
    p: Policy<V>, s: State<K, V>, t: Thread, a: Action<K, V>, n: nat, own: map<nat, V>)
    requires Enabled(p, s, t, a) && CarriesOwn(PhaseOf(s, t), n, own) && NoLaterThan(own, n)
    ensures CarriesOwn(PhaseOf(Next(p, s, t, a), t), if a.Call? then n + 1 else n, ReturnsAfter(own, n, a))
    ensures a.FactoryReturns? ==> n !in own
    ensures !a.Hit? && Ending(p, s, t, a).Some? && Ending(p, s, t, a).value.Returned?
            ==> n in own && Ending(p, s, t, a).value.value == own[n]
    ensures a.Hit? ==> n !in own
    ensures Ending(p, s, t, a).Some? ==> !a.FactoryReturns? && !a.Call?
  {
    hide Put, Read, Caches;
  }

  /** A call whose own factory returned is given what that returned, and no other value. */
  lemma {:induction false} OwnValueIsReturned<K(!new), V>(p: Policy<V>, run: Schedule<K, V>, t: Thread)
    requires Reached(p, run).Some?
    ensures EndsWithOwn(EndsOf(p, run, t), Returns(run, t))
    ensures CarriesOwn(PhaseOf(Reached(p, run).value, t), |CallsOf(run, t)|, Returns(run, t))
    ensures NoLaterThan(Returns(run, t), |CallsOf(run, t)|)
  {
    if run != [] {
      var (u, a) := run[|run| - 1];
      var before := run[..|run| - 1];
      var s, ends, n, own := Reached(p, before).value, EndsOf(p, before, t), |CallsOf(before, t)|, Returns(before, t);
      OwnValueIsReturned(p, before, t);
      RunUnfolds(p, run, t);
      assert Returns(run, t) == if u == t then ReturnsAfter(own, n, a) else own;
      hide *;
      if u == t {
        CallsAndEnds(p, before, t);
        StepCarriesOwn(p, s, t, a, n, own);
        var answer := Ending(p, s, t, a);
        EndsStep(PhaseOf(s, t), a, answer, ends, n, own);
        EndingLeavesCall(p, s, t, a);
      } else {
        OtherStays(p, s, u, a, t);
        assert EndsOf(p, run, t) == ends;
        assert CallsOf(run, t) == CallsOf(before, t);
      }
    }
  }

  lemma EndingLeavesCall<K, V>(p: Policy<V>, s: State<K, V>, t: Thread, a: Action<K, V>)
    requires Enabled(p, s, t, a)
    ensures Ending(p, s, t, a).Some? ==> !PhaseOf(s, t).Idle?
  {
  }

  lemma EndsStep<K, V>(
    phase: Phase<K, V>, a: Action<K, V>, answer: Option<Answer<V>>, ends: seq<(K, Answer<V>)>, n: nat,
    own: map<nat, V>)
    requires EndsWithOwn(ends, own) && NoLaterThan(own, n)
    requires a.FactoryReturns? ==> answer.None? && |ends| < n
    requires answer.Some? ==> !phase.Idle? && n == |ends| + 1
    requires answer.Some? && answer.value.Returned? && n in own ==> answer.value.value == own[n]
    ensures EndsWithOwn(ends + (if answer.Some? then [(phase.key, answer.value)] else []), ReturnsAfter(own, n, a))
    ensures NoLaterThan(ReturnsAfter(own, n, a), if a.Call? then n + 1 else n)
  {
  }

  // ---------------------------------------------------------------- nobody is stuck

  /**
   * A waiter whose event is set looks the key up again: it is given the held value, or builds the key if nobody else
   * does, or waits for who does.
   */
  lemma WaiterIsServed<K(!new), V(!new)>(p: Policy<V>, s: State<K, V>, t: Thread)
    requires PhaseOf(s, t).Waiting? && PhaseOf(s, t).event in s.fired
    ensures forall a: Action<K, V> :: Enabled(p, s, t, a) <==> a.Wake?
    ensures var key, woken := PhaseOf(s, t).key, Next(p, s, t, Wake);
            if key in s.cache.items then
              && Enabled(p, woken, t, Hit)
              && Next(p, woken, t, Hit).answered == s.answered + [(key, s.cache.items[key])]
              && PhaseOf(Next(p, woken, t, Hit), t).Idle?
            else if key in s.inflight then
              Enabled(p, woken, t, Join) && Awaits(Next(p, woken, t, Join), t, key, s.inflight[key])
            else
              Enabled(p, woken, t, Claim) && Owns(Next(p, woken, t, Claim), t, key, s.nextEvent)
  {
    hide Read;
  }

  /** A thread waits on until its event is set and it wakes, or until it gives up; no other step ends its wait. */
  lemma WaiterWaitsOn<K(!new), V>(
    p: Policy<V>, s: State<K, V>, u: Thread, a: Action<K, V>, t: Thread, k: K, e: nat)
    requires Awaits(s, t, k, e) && Enabled(p, s, u, a)
    ensures var after := Next(p, s, u, a);
            || Awaits(after, t, k, e)
            || (u == t && e in s.fired && PhaseOf(after, t) == Entering(k, PhaseOf(s, t).req))
            || (u == t && a.GiveUp? && PhaseOf(after, t).Idle?)
  {
    OthersUnmoved(p, s, u, a);
  }

  /**
   * In every reached state every thread inside a call can take a step, but one that waits for an event that another
   * thread has yet to set; and a thread about to look up a key that is held can only be given the held value.
   */
  lemma NobodyIsStuck<K(!new), V(!new)>(p: Policy<V>, run: Schedule<K, V>, t: Thread)
    requires Reached(p, run).Some?
    requires !PhaseOf(Reached(p, run).value, t).Idle?
    ensures var s, phase := Reached(p, run).value, PhaseOf(Reached(p, run).value, t);
            && ((exists a: Action<K, V> :: Enabled(p, s, t, a))
                || (phase.Waiting? && exists u: Thread :: u != t && Owns(s, u, phase.key, phase.event)))
            && (phase.Entering? && phase.key in s.cache.items ==>
                  Enabled(p, s, t, Hit) && forall a: Action<K, V> :: Enabled(p, s, t, a) ==> a.Hit?)
  {
    var s := Reached(p, run).value;
    var phase := PhaseOf(s, t);
    OneFlightPerKey(p, run);
    hide Reached;
    if phase.Waiting? && phase.event !in s.fired {
      assert Awaits(s, t, phase.key, phase.event);
    } else if phase.Building? || phase.Storing? || phase.Releasing? {
      OwnerCanStep(p, s, t, phase.key, phase.event);
    } else if phase.Entering? {
      EnteringCanStep(p, s, t);
    } else {
      assert Enabled(p, s, t, if phase.Waiting? then Wake else KeepWaiting);
    }
  }

  lemma EnteringCanStep<K(!new), V(!new)>(p: Policy<V>, s: State<K, V>, t: Thread)
    requires PhaseOf(s, t).Entering?
    ensures exists a: Action<K, V> :: Enabled(p, s, t, a)
    ensures PhaseOf(s, t).key in s.cache.items ==> Enabled(p, s, t, Hit)
  {
    var key := PhaseOf(s, t).key;
    assert Enabled(p, s, t, if key in s.cache.items then Hit else if key in s.inflight then Join else Claim);
  }
}
