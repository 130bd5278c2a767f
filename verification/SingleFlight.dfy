/**
 `LockedCache` shared by threads: every step below is one critical section, one wait, or one piece of
 work done outside the lock, and the steps of any number of threads interleave freely.
 */
module SingleFlight {
  import opened Collections
  import opened Cache

  datatype Request = Request(cacheEmpty: bool, stoppable: bool)

  /** Where a thread is inside `get_or_set`; an event is named by a number that is never reused. */
  datatype Phase<K, V> =
    | Idle
    | Entering(key: K, req: Request)                           // about to take the lock at the loop head
    | Waiting(key: K, req: Request, event: nat)                // blocked in wait()
    | TimedOut(key: K, req: Request, event: nat)               // a wait of 0.25 s ran out
    | Building(key: K, req: Request, event: nat)               // running the factory
    | Storing(key: K, req: Request, event: nat, value: V)      // the factory returned; the lock is next
    | Releasing(key: K, event: nat, answer: Answer<V>)         // in `finally`, before taking the lock

  type Thread = nat

  /** `built` and `answered` only record history: factories that returned, and values handed out. */
  datatype State<K(==), V> = State(
    cache: Lru<K, V>,
    inflight: map<K, nat>,
    fired: set<nat>,
    nextEvent: nat,
    threads: map<Thread, Phase<K, V>>,
    built: seq<(K, V)>,
    answered: seq<(K, V)>)

  datatype Action<K, V> =
    | Call(key: K, req: Request)
    | Hit
    | StopBeforeClaim
    | Claim
    | Join
    | Wake
    | TimeOut
    | KeepWaiting
    | GiveUp
    | FactoryReturns(value: V)
    | FactoryRaises
    | WeighRaises
    | Store
    | Release
    | GetEntry(key: K)
    | SetEntry(key: K, value: V)
    | ClearAll

  function PhaseOf<K(==), V>(s: State<K, V>, t: Thread): Phase<K, V> {
    if t in s.threads then s.threads[t] else Idle
  }

  function Goto<K(==), V>(s: State<K, V>, t: Thread, phase: Phase<K, V>): State<K, V> {
    s.(threads := s.threads[t := phase])
  }

  function Initial<K(==), V>(): State<K, V> {
    State(Empty(), map[], {}, 0, map[], [], [])
  }

  /** Whether thread `t` can take `a` now. Stop requests are the environment's choice. */
  predicate Enabled<K(==), V>(p: Policy<V>, s: State<K, V>, t: Thread, a: Action<K, V>) {
    var phase := PhaseOf(s, t);
    match a
    case Call(_, _) => phase.Idle?
    case Hit => phase.Entering? && phase.key in s.cache.items
    case StopBeforeClaim =>
      phase.Entering? && phase.key !in s.cache.items && phase.key !in s.inflight && phase.req.stoppable
    case Claim => phase.Entering? && phase.key !in s.cache.items && phase.key !in s.inflight
    case Join => phase.Entering? && phase.key !in s.cache.items && phase.key in s.inflight
    case Wake => phase.Waiting? && phase.event in s.fired
    case TimeOut => phase.Waiting? && phase.event !in s.fired && phase.req.stoppable
    case KeepWaiting => phase.TimedOut?
    case GiveUp => phase.TimedOut?
    case FactoryReturns(_) => phase.Building?
    case FactoryRaises => phase.Building?
    case WeighRaises => phase.Storing? && Caches(p, phase.req, phase.value) && p.weigh.Some?
    case Store => phase.Storing?
    case Release => phase.Releasing?
    case GetEntry(_) => phase.Idle?
    case SetEntry(_, _) => phase.Idle?
    case ClearAll => phase.Idle?
  }

  predicate Caches<V>(p: Policy<V>, req: Request, value: V) {
    req.cacheEmpty || !p.blank(value)
  }

  function Next<K(==), V>(p: Policy<V>, s: State<K, V>, t: Thread, a: Action<K, V>): State<K, V>
    requires Enabled(p, s, t, a)
  {
    var phase := PhaseOf(s, t);
    match a
    case Call(key, req) => Goto(s, t, Entering(key, req))
    case Hit =>
      Goto(s, t, Idle).(cache := Read(s.cache, phase.key),
                        answered := s.answered + [(phase.key, s.cache.items[phase.key])])
    case StopBeforeClaim => Goto(s, t, Idle)
    case Claim =>
      Goto(s, t, Building(phase.key, phase.req, s.nextEvent)).(
        inflight := s.inflight[phase.key := s.nextEvent], nextEvent := s.nextEvent + 1)
    case Join => Goto(s, t, Waiting(phase.key, phase.req, s.inflight[phase.key]))
    case Wake => Goto(s, t, Entering(phase.key, phase.req))
    case TimeOut => Goto(s, t, TimedOut(phase.key, phase.req, phase.event))
    case KeepWaiting => Goto(s, t, Waiting(phase.key, phase.req, phase.event))
    case GiveUp => Goto(s, t, Idle)
    case FactoryReturns(value) =>
      Goto(s, t, Storing(phase.key, phase.req, phase.event, value)).(built := s.built + [(phase.key, value)])
    case FactoryRaises => Goto(s, t, Releasing(phase.key, phase.event, Failed))
    case WeighRaises => Goto(s, t, Releasing(phase.key, phase.event, Failed))
    case Store =>
      Goto(s, t, Releasing(phase.key, phase.event, Returned(phase.value))).(
        cache := if Caches(p, phase.req, phase.value) then Put(p, s.cache, phase.key, phase.value) else s.cache)
    case Release =>
      Goto(s, t, Idle).(
        inflight := s.inflight - {phase.key},
        fired := s.fired + {phase.event},
        answered := if phase.answer.Returned? then s.answered + [(phase.key, phase.answer.value)] else s.answered)
    case GetEntry(key) => s.(cache := Read(s.cache, key))
    case SetEntry(key, value) => s.(cache := Put(p, s.cache, key, value))
    case ClearAll => s.(cache := Empty())
  }

  /** A run: who did what, in which order. */
  type Schedule<K, V> = seq<(Thread, Action<K, V>)>

  /** The state a schedule leads to; None when some step was not possible. */
  function Reached<K(==), V>(p: Policy<V>, run: Schedule<K, V>): Option<State<K, V>> {
    if run == [] then Some(Initial())
    else
      var (t, a) := run[|run| - 1];
      var before := Reached(p, run[..|run| - 1]);
      if before.Some? && Enabled(p, before.value, t, a) then Some(Next(p, before.value, t, a)) else None
  }

  // ---------------------------------------------------------------- single flight

  /** Thread `t` is between claim and release of `k`, and `e` is the event it created. */
  predicate Owns<K(==), V>(s: State<K, V>, t: Thread, k: K, e: nat) {
    var phase := PhaseOf(s, t);
    (phase.Building? || phase.Storing? || phase.Releasing?) && phase.key == k && phase.event == e
  }

  predicate Awaits<K(==), V>(s: State<K, V>, t: Thread, k: K, e: nat) {
    var phase := PhaseOf(s, t);
    (phase.Waiting? || phase.TimedOut?) && phase.key == k && phase.event == e
  }

  /** Every in-flight event has an owner that has yet to release it. */
  ghost predicate EventsOwned<K(!new), V>(s: State<K, V>) {
    forall k :: k in s.inflight ==> exists t: Thread :: Owns(s, t, k, s.inflight[k])
  }

  /** An owner's event is the one registered for its key, is unset, and has no other owner. */
  ghost predicate OwnersExclusive<K(!new), V>(s: State<K, V>) {
    && (forall t: Thread, k, e: nat :: Owns(s, t, k, e) ==>
         k in s.inflight && s.inflight[k] == e && e < s.nextEvent && e !in s.fired)
    && (forall t: Thread, u: Thread, k, l, e: nat :: Owns(s, t, k, e) && Owns(s, u, l, e) ==> t == u)
    && (forall e :: e in s.fired ==> e < s.nextEvent)
  }

  /** A waiter's event is set already, or still registered for the key the waiter wants. */
  ghost predicate NoLostWakeup<K(!new), V>(s: State<K, V>) {
    forall t: Thread, k, e: nat :: Awaits(s, t, k, e) ==> e in s.fired || (k in s.inflight && s.inflight[k] == e)
  }

  ghost predicate Invariant<K(!new), V>(s: State<K, V>) {
    EventsOwned(s) && OwnersExclusive(s) && NoLostWakeup(s)
  }

  lemma OthersUnmoved<K(!new), V>(p: Policy<V>, s: State<K, V>, t: Thread, a: Action<K, V>)
    requires Enabled(p, s, t, a)
    ensures forall u: Thread :: u != t ==> PhaseOf(Next(p, s, t, a), u) == PhaseOf(s, u)
    ensures forall u: Thread, k, e: nat :: u != t ==> Owns(Next(p, s, t, a), u, k, e) == Owns(s, u, k, e)
    ensures forall u: Thread, k, e: nat :: u != t ==> Awaits(Next(p, s, t, a), u, k, e) == Awaits(s, u, k, e)
  {
    var s' := Next(p, s, t, a);
    assert forall u: Thread :: u != t ==> PhaseOf(s', u) == PhaseOf(s, u);
  }

  lemma StepKeepsEventsOwned<K(!new), V>(p: Policy<V>, s: State<K, V>, t: Thread, a: Action<K, V>)
    requires EventsOwned(s) && OwnersExclusive(s) && Enabled(p, s, t, a)
    ensures EventsOwned(Next(p, s, t, a))
  {
    var s' := Next(p, s, t, a);
    OthersUnmoved(p, s, t, a);
    forall k | k in s'.inflight ensures exists u: Thread :: Owns(s', u, k, s'.inflight[k]) {
      if a.Claim? && k == PhaseOf(s, t).key {
        assert Owns(s', t, k, s'.inflight[k]);
      } else {
        var u: Thread :| Owns(s, u, k, s.inflight[k]);
        assert Owns(s', u, k, s'.inflight[k]);
      }
    }
  }

  lemma StepKeepsOwnersExclusive<K(!new), V>(p: Policy<V>, s: State<K, V>, t: Thread, a: Action<K, V>)
    requires OwnersExclusive(s) && Enabled(p, s, t, a)
    requires forall k :: k in s.inflight ==> s.inflight[k] < s.nextEvent
    ensures OwnersExclusive(Next(p, s, t, a))
  {
    var s' := Next(p, s, t, a);
    var phase := PhaseOf(s, t);
    OthersUnmoved(p, s, t, a);
    if phase.Building? || phase.Storing? || phase.Releasing? {
      assert Owns(s, t, phase.key, phase.event);
    }
    forall u: Thread, k, e: nat | Owns(s', u, k, e)
      ensures if a.Claim? && u == t then k == phase.key && e == s.nextEvent
              else Owns(s, u, k, e) && (a.Release? ==> e != phase.event && k != phase.key)
    {
      if u != t { assert Owns(s, u, k, e); }
    }
  }

  lemma StepKeepsNoLostWakeup<K(!new), V>(p: Policy<V>, s: State<K, V>, t: Thread, a: Action<K, V>)
    requires OwnersExclusive(s) && NoLostWakeup(s) && Enabled(p, s, t, a)
    ensures NoLostWakeup(Next(p, s, t, a))
  {
    var s' := Next(p, s, t, a);
    var phase := PhaseOf(s, t);
    OthersUnmoved(p, s, t, a);
    if a.Release? {
      assert Owns(s, t, phase.key, phase.event);
    }
    forall u: Thread, k, e: nat | Awaits(s', u, k, e)
      ensures e in s'.fired || (k in s'.inflight && s'.inflight[k] == e)
    {
      if u != t || a.TimeOut? || a.KeepWaiting? {
        assert Awaits(s, u, k, e);
      } else {
        assert a.Join?;
      }
    }
  }

  lemma StepKeepsInvariant<K(!new), V>(p: Policy<V>, s: State<K, V>, t: Thread, a: Action<K, V>)
    requires Invariant(s) && Enabled(p, s, t, a)
    ensures Invariant(Next(p, s, t, a))
  {
    forall k | k in s.inflight ensures s.inflight[k] < s.nextEvent {
      var u: Thread :| Owns(s, u, k, s.inflight[k]);
    }
    StepKeepsEventsOwned(p, s, t, a);
    StepKeepsOwnersExclusive(p, s, t, a);
    StepKeepsNoLostWakeup(p, s, t, a);
  }

  lemma {:induction false} EveryRunKeepsInvariant<K(!new), V>(p: Policy<V>, run: Schedule<K, V>)
    requires Reached(p, run).Some?
    ensures Invariant(Reached(p, run).value)
  {
    if run != [] {
      var (t, a) := run[|run| - 1];
      EveryRunKeepsInvariant(p, run[..|run| - 1]);
      StepKeepsInvariant(p, Reached(p, run[..|run| - 1]).value, t, a);
    }
  }

  /** Single flight, in every state of every run. */
  lemma OneFlightPerKey<K(!new), V>(p: Policy<V>, run: Schedule<K, V>)
    requires Reached(p, run).Some?
    ensures var s := Reached(p, run).value;
      && (forall t: Thread, u: Thread, k, d: nat, e: nat :: Owns(s, t, k, d) && Owns(s, u, k, e) ==> t == u && d == e)
      && (forall t: Thread, k, e: nat :: Owns(s, t, k, e) ==> k in s.inflight && s.inflight[k] == e)
      && (forall k :: k in s.inflight ==> exists t: Thread :: Owns(s, t, k, s.inflight[k]))
      && (forall t: Thread, k, e: nat :: Awaits(s, t, k, e) ==> e in s.fired || exists u: Thread :: Owns(s, u, k, e))
  {
    EveryRunKeepsInvariant(p, run);
    var s := Reached(p, run).value;
    forall t: Thread, k, e: nat | Awaits(s, t, k, e) && e !in s.fired ensures exists u: Thread :: Owns(s, u, k, e) {
      assert s.inflight[k] == e;
    }
  }

  // ---------------------------------------------------------------- waiters are released

  function StepsBy<K, V>(run: Schedule<K, V>, t: Thread): nat {
    if run == [] then 0
    else StepsBy(run[..|run| - 1], t) + (if run[|run| - 1].0 == t then 1 else 0)
  }

  /** Steps an owner has left before its event is set. */
  function StepsLeft<K, V>(phase: Phase<K, V>): nat {
    match phase
    case Building(_, _, _) => 3
    case Storing(_, _, _, _) => 2
    case Releasing(_, _, _) => 1
    case _ => 0
  }

  /** An owner is never blocked. */
  lemma OwnerCanStep<K(!new), V>(p: Policy<V>, s: State<K, V>, t: Thread, k: K, e: nat)
    requires Owns(s, t, k, e)
    ensures exists a: Action<K, V> :: Enabled(p, s, t, a) && (a.FactoryRaises? || a.Store? || a.Release?)
  {
    var a: Action<K, V> := match PhaseOf(s, t)
      case Building(_, _, _) => FactoryRaises
      case Storing(_, _, _, _) => Store
      case _ => Release;
    assert Enabled(p, s, t, a);
  }

  lemma OwnerAdvances<K(!new), V>(p: Policy<V>, s: State<K, V>, t: Thread, a: Action<K, V>, u: Thread, k: K, e: nat)
    requires Enabled(p, s, t, a) && Owns(s, u, k, e)
    ensures var s' := Next(p, s, t, a);
      e in s'.fired
      || (Owns(s', u, k, e)
          && StepsLeft(PhaseOf(s', u)) <= StepsLeft(PhaseOf(s, u)) - (if t == u then 1 else 0))
  {
    OthersUnmoved(p, s, t, a);
  }

  /** Whatever the factory does, three steps of an event's owner set it, and it stays set. */
  lemma {:induction false} OwnerSetsItsEvent<K(!new), V>(
    p: Policy<V>, run: Schedule<K, V>, more: Schedule<K, V>, u: Thread, k: K, e: nat)
    requires Reached(p, run).Some? && Reached(p, run + more).Some?
    requires Owns(Reached(p, run).value, u, k, e)
    ensures var s := Reached(p, run + more).value;
      e in s.fired || (Owns(s, u, k, e) && StepsBy(more, u) + StepsLeft(PhaseOf(s, u)) <= 3)
    ensures StepsBy(more, u) >= 3 ==> e in Reached(p, run + more).value.fired
    decreases |more|
  {
    if more == [] {
      assert run + more == run;
    } else {
      var shorter := more[..|more| - 1];
      var (t, a) := more[|more| - 1];
      assert (run + more)[..|run + more| - 1] == run + shorter;
      OwnerSetsItsEvent(p, run, shorter, u, k, e);
      var s := Reached(p, run + shorter).value;
      if e !in s.fired {
        OwnerAdvances(p, s, t, a, u, k, e);
      }
    }
  }

  // ---------------------------------------------------------------- a caller on its own

  function Perform<K(==), V>(p: Policy<V>, s: State<K, V>, t: Thread, todo: seq<Action<K, V>>): Option<State<K, V>>
    decreases |todo|
  {
    if todo == [] then Some(s)
    else if Enabled(p, s, t, todo[0]) then Perform(p, Next(p, s, t, todo[0]), t, todo[1..])
    else None
  }

  /** The steps one undisturbed call takes from `c`. */
  function SoloSteps<K(==), V>(c: Lru<K, V>, key: K, req: Request, built: Built<V>, stopped: bool): seq<Action<K, V>> {
    if key in c.items then [Call(key, req), Hit]
    else if stopped then [Call(key, req), StopBeforeClaim]
    else match built
      case Value(v) => [Call(key, req), Claim, FactoryReturns(v), Store, Release]
      case Raised => [Call(key, req), Claim, FactoryRaises, Release]
  }

  ghost predicate EndsLikeSequential<K, V>(
    p: Policy<V>, s: State<K, V>, t: Thread, key: K, req: Request, built: Built<V>, stopped: bool)
  {
    var end := Perform(p, s, t, SoloSteps(s.cache, key, req, built, stopped));
    var answer := GetOrSetAnswer(s.cache, key, built, stopped);
    && end.Some?
    && PhaseOf(end.value, t).Idle? && end.value.inflight == s.inflight
    && end.value.cache == GetOrSetCache(p, s.cache, key, built, req.cacheEmpty, stopped)
    && end.value.answered == s.answered + (if answer.Returned? then [(key, answer.value)] else [])
  }

  /** Undisturbed, the protocol is the sequential `get_or_set`, and leaves nothing in flight. */
  lemma AloneIsSequential<K(!new), V>(
    p: Policy<V>, s: State<K, V>, t: Thread, key: K, req: Request, built: Built<V>, stopped: bool)
    requires PhaseOf(s, t).Idle? && key !in s.inflight && (stopped ==> req.stoppable)
    ensures EndsLikeSequential(p, s, t, key, req, built, stopped)
  {
    if key in s.cache.items || stopped {
      var todo := SoloSteps(s.cache, key, req, built, stopped);
      PerformStep(p, s, t, todo);
      PerformStep(p, Next(p, s, t, todo[0]), t, todo[1..]);
    } else {
      AloneBuilds(p, s, t, key, req, built);
    }
  }

  lemma AloneBuilds<K(!new), V>(
    p: Policy<V>, s: State<K, V>, t: Thread, key: K, req: Request, built: Built<V>)
    requires PhaseOf(s, t).Idle? && key !in s.inflight && key !in s.cache.items
    ensures EndsLikeSequential(p, s, t, key, req, built, false)
  {
    var (todo, s2) := (SoloSteps(s.cache, key, req, built, false), Claimed(s, t, key, req));
    AloneClaims(p, s, t, key, req, todo);
    AloneFinishes(p, s, s2, t, key, req, built);
    assert todo[2..] == FinishSteps(built);
    assert s2.inflight - {key} == s.inflight;
    hide Perform, Next, Enabled, PhaseOf, SoloSteps, FinishSteps, GetOrSetCache;
  }

  /** Where thread `t` stands once it has claimed `key`. */
  function Claimed<K(==), V>(s: State<K, V>, t: Thread, key: K, req: Request): State<K, V> {
    Goto(Goto(s, t, Entering(key, req)), t, Building(key, req, s.nextEvent)).(
      inflight := s.inflight[key := s.nextEvent], nextEvent := s.nextEvent + 1)
  }

  lemma AloneClaims<K(!new), V>(
    p: Policy<V>, s: State<K, V>, t: Thread, key: K, req: Request, todo: seq<Action<K, V>>)
    requires PhaseOf(s, t).Idle? && key !in s.inflight && key !in s.cache.items
    requires |todo| >= 2 && todo[0] == Call(key, req) && todo[1] == Claim
    ensures Perform(p, s, t, todo) == Perform(p, Claimed(s, t, key, req), t, todo[2..])
    ensures PhaseOf(Claimed(s, t, key, req), t) == Building(key, req, s.nextEvent)
  {
    var s1 := Next(p, s, t, todo[0]);
    PerformStep(p, s, t, todo);
    PerformStep(p, s1, t, todo[1..]);
    hide Perform;
    assert todo[1..][1..] == todo[2..];
  }

  function FinishSteps<K(==), V>(built: Built<V>): seq<Action<K, V>> {
    match built
    case Value(v) => [FactoryReturns(v), Store, Release]
    case Raised => [FactoryRaises, Release]
  }

  lemma AloneFinishes<K(!new), V>(
    p: Policy<V>, s: State<K, V>, s2: State<K, V>, t: Thread, key: K, req: Request, built: Built<V>)
    requires key !in s.cache.items && s2.cache == s.cache && PhaseOf(s2, t) == Building(key, req, s.nextEvent)
    ensures var end := Perform(p, s2, t, FinishSteps(built));
      && end.Some?
      && PhaseOf(end.value, t).Idle? && end.value.inflight == s2.inflight - {key}
      && end.value.cache == GetOrSetCache(p, s.cache, key, built, req.cacheEmpty, false)
      && end.value.answered == s2.answered + (if built.Value? then [(key, built.value)] else [])
  {
    var todo := FinishSteps(built);
    var s3 := Next(p, s2, t, todo[0]);
    PerformStep(p, s2, t, todo);
    if built.Value? {
      var s4 := Next(p, s3, t, Store);
      assert PhaseOf(s4, t) == Releasing(key, s.nextEvent, Returned(built.value));
      PerformStep(p, s3, t, todo[1..]);
      PerformStep(p, s4, t, todo[2..]);
    } else {
      PerformStep(p, s3, t, todo[1..]);
    }
  }

  lemma PerformStep<K(!new), V>(p: Policy<V>, s: State<K, V>, t: Thread, todo: seq<Action<K, V>>)
    requires todo != [] && Enabled(p, s, t, todo[0])
    ensures Perform(p, s, t, todo) == Perform(p, Next(p, s, t, todo[0]), t, todo[1..])
    ensures forall i :: 1 <= i <= |todo| ==> todo[1..][i - 1..] == todo[i..]
  {
  }
}
