/** `_unanchored` of picblocks.py: identical digests anchor one-to-one, entries only to each other. */
module Anchoring {
  import opened Collections
  import opened Blocks

  /** The entry to set aside on each side: only when both functions have one. */
  function EntryAside(a: seq<Block>, b: seq<Block>): Option<nat> {
    if FirstEntry(b).Some? then FirstEntry(a) else None
  }

  /** How many of the first `n` blocks have digest `d`, an entry set aside not counting. */
  function Count(f: seq<Block>, aside: Option<nat>, d: nat, n: nat): nat
    requires n <= |f|
  {
    if n == 0 then 0
    else Count(f, aside, d, n - 1) + (if aside != Some(n - 1) && f[n - 1].digest == d then 1 else 0)
  }

  function Total(f: seq<Block>, aside: Option<nat>, d: nat): nat {
    Count(f, aside, d, |f|)
  }

  /** Block `i` of `a` finds a partner in `b`: fewer equal blocks precede it than `b` has. */
  predicate Anchored(a: seq<Block>, b: seq<Block>, i: nat)
    requires i < |a|
  {
    if EntryAside(a, b) == Some(i) then a[i].digest == b[EntryAside(b, a).value].digest
    else Count(a, EntryAside(a, b), a[i].digest, i) < Total(b, EntryAside(b, a), a[i].digest)
  }

  /** The first `n` indices that are left over, the entry set aside left out. */
  function Surplus(a: seq<Block>, b: seq<Block>, n: nat): seq<nat>
    requires n <= |a|
  {
    if n == 0 then []
    else Surplus(a, b, n - 1) +
         (if EntryAside(a, b) != Some(n - 1) && !Anchored(a, b, n - 1) then [n - 1] else [])
  }

  /** All of `a` that is left over against `b`: in order, the entry last. */
  function LeftOver(a: seq<Block>, b: seq<Block>): seq<nat> {
    Surplus(a, b, |a|) +
    (if EntryAside(a, b).Some? && !Anchored(a, b, EntryAside(a, b).value) then [EntryAside(a, b).value] else [])
  }

  function Slot(slots: map<nat, seq<nat>>, d: nat): seq<nat> {
    if d in slots then slots[d] else []
  }

  /** The indices below `n` with digest `d`, in order. */
  function Positions(f: seq<Block>, aside: Option<nat>, d: nat, n: nat): seq<nat>
    requires n <= |f|
  {
    if n == 0 then []
    else Positions(f, aside, d, n - 1) + (if aside != Some(n - 1) && f[n - 1].digest == d then [n - 1] else [])
  }

  function Min(a: nat, b: nat): nat {
    if a < b then a else b
  }

  lemma {:induction false} PositionsLength(f: seq<Block>, aside: Option<nat>, d: nat, n: nat)
    requires n <= |f|
    ensures |Positions(f, aside, d, n)| == Count(f, aside, d, n)
  {
    if n > 0 {
      PositionsLength(f, aside, d, n - 1);
    }
  }

  /** Where the r-th block of a digest sits. */
  lemma {:induction false} PositionAt(f: seq<Block>, aside: Option<nat>, d: nat, n: nat, r: nat)
    requires n <= |f| && r < Count(f, aside, d, n)
    ensures |Positions(f, aside, d, n)| == Count(f, aside, d, n)
    ensures var j := Positions(f, aside, d, n)[r];
      j < n && aside != Some(j) && f[j].digest == d && Count(f, aside, d, j) == r
  {
    PositionsLength(f, aside, d, n - 1);
    if r < Count(f, aside, d, n - 1) {
      PositionAt(f, aside, d, n - 1, r);
    }
  }

  lemma {:induction false} CountMonotone(f: seq<Block>, aside: Option<nat>, d: nat, m: nat, n: nat)
    requires m <= n <= |f|
    ensures Count(f, aside, d, m) <= Count(f, aside, d, n)
    ensures m < n && aside != Some(m) && f[m].digest == d ==> Count(f, aside, d, m) < Count(f, aside, d, n)
  {
    if m < n {
      CountMonotone(f, aside, d, m, n - 1);
    }
  }

  /** Two blocks of one digest never have the same rank. */
  lemma RankIsUnique(f: seq<Block>, aside: Option<nat>, d: nat, i: nat, j: nat)
    requires i < |f| && f[i].digest == d && aside != Some(i)
    requires j < |f| && f[j].digest == d && aside != Some(j)
    requires Count(f, aside, d, i) == Count(f, aside, d, j)
    ensures i == j
  {
    if i < j { CountMonotone(f, aside, d, i, j); }
    if j < i { CountMonotone(f, aside, d, j, i); }
  }

  /** The target blocks taken by the first `n` source blocks. */
  ghost predicate Taken(source: seq<Block>, target: seq<Block>, n: nat, j: nat)
    requires n <= |source|
  {
    && j < |target| && EntryAside(target, source) != Some(j)
    && Count(target, EntryAside(target, source), target[j].digest, j)
       < Count(source, EntryAside(source, target), target[j].digest, n)
  }

  /** What is still available of digest `d` after the first `n` source blocks. */
  ghost function Available(source: seq<Block>, target: seq<Block>, d: nat, n: nat): seq<nat>
    requires n <= |source|
  {
    var total := Total(target, EntryAside(target, source), d);
    var used := Count(source, EntryAside(source, target), d, n);
    PositionsLength(target, EntryAside(target, source), d, |target|);
    Positions(target, EntryAside(target, source), d, |target|)[Min(used, total)..]
  }

  /** One more source block takes the first available target block of its digest, if there is one. */
  lemma AvailableStep(source: seq<Block>, target: seq<Block>, n: nat)
    requires n < |source| && EntryAside(source, target) != Some(n)
    ensures var d := source[n].digest;
      var available := Available(source, target, d, n);
      && (available != [] <==> Anchored(source, target, n))
      && Available(source, target, d, n + 1) == (if available == [] then [] else available[1..])
    ensures forall e: nat :: e != source[n].digest ==>
            Available(source, target, e, n + 1) == Available(source, target, e, n)
  {
    PositionsLength(target, EntryAside(target, source), source[n].digest, |target|);
  }

  lemma TakenStep(source: seq<Block>, target: seq<Block>, n: nat, j: nat)
    requires n < |source| && EntryAside(source, target) != Some(n)
    ensures var available := Available(source, target, source[n].digest, n);
      Taken(source, target, n + 1, j) <==>
        Taken(source, target, n, j) || (available != [] && j == available[0])
  {
    var d, aside := source[n].digest, EntryAside(target, source);
    var used := Count(source, EntryAside(source, target), d, n);
    var available := Available(source, target, d, n);
    PositionsLength(target, aside, d, |target|);
    if used < Total(target, aside, d) {
      PositionAt(target, aside, d, |target|, used);
      assert available[0] == Positions(target, aside, d, |target|)[used];
      if j < |target| && aside != Some(j) && target[j].digest == d && Count(target, aside, d, j) == used {
        RankIsUnique(target, aside, d, j, available[0]);
      }
    } else if j < |target| && aside != Some(j) && target[j].digest == d {
      CountMonotone(target, aside, d, j, |target|);
    }
  }

  lemma SlotUpdated(slots: map<nat, seq<nat>>, d: nat, value: seq<nat>)
    ensures Slot(slots[d := value], d) == value
    ensures forall e: nat :: e != d ==> Slot(slots[d := value], e) == Slot(slots, e)
  {
  }

  lemma SlotEmpty()
    ensures forall d: nat :: Slot(map[], d) == []
  {
  }

  method FillSlots(target: seq<Block>, aside: Option<nat>) returns (slots: map<nat, seq<nat>>)
    ensures forall d: nat :: Slot(slots, d) == Positions(target, aside, d, |target|)
  {
    slots := map[];
    SlotEmpty();
    hide Slot;
    for index := 0 to |target|
      invariant forall d: nat :: Slot(slots, d) == Positions(target, aside, d, index)
    {
      if aside != Some(index) {
        var digest := target[index].digest;
        SlotUpdated(slots, digest, Slot(slots, digest) + [index]);
        slots := slots[digest := Slot(slots, digest) + [index]];
      }
    }
  }

  /** The loop over the source: each block pops the first free target block of its digest. */
  method TakeSlots(source: seq<Block>, target: seq<Block>, full: map<nat, seq<nat>>)
    returns (sourceLeft: seq<nat>, matchedTargets: set<nat>)
    requires forall d: nat :: Slot(full, d) == Positions(target, EntryAside(target, source), d, |target|)
    ensures sourceLeft == Surplus(source, target, |source|)
    ensures forall j: nat :: j in matchedTargets <==> Taken(source, target, |source|, j)
  {
    var slots: map<nat, seq<nat>> := full;
    matchedTargets := {};
    sourceLeft := [];
    NothingTaken(source, target);
    hide Available, Taken, Positions, Anchored, EntryAside, Slot;
    for index := 0 to |source|
      invariant sourceLeft == Surplus(source, target, index)
      invariant forall d: nat :: Slot(slots, d) == Available(source, target, d, index)
      invariant forall j: nat :: j in matchedTargets <==> Taken(source, target, index, j)
    {
      if EntryAside(source, target) == Some(index) {
        AsideTakesNothing(source, target, index);
        continue;
      }
      AvailableStep(source, target, index);
      forall j: nat { TakenStep(source, target, index, j); }
      var digest := source[index].digest;
      var available := Slot(slots, digest);
      if available != [] {
        matchedTargets := matchedTargets + {available[0]};
        SlotUpdated(slots, digest, available[1..]);
        slots := slots[digest := available[1..]];
      } else {
        sourceLeft := sourceLeft + [index];
      }
      forall d: nat ensures Slot(slots, d) == Available(source, target, d, index + 1) {
        if d != digest {
          assert Available(source, target, d, index + 1) == Available(source, target, d, index);
        }
      }
    }
  }

  lemma NothingTaken(source: seq<Block>, target: seq<Block>)
    ensures forall d: nat ::
      Available(source, target, d, 0) == Positions(target, EntryAside(target, source), d, |target|)
    ensures forall j: nat :: !Taken(source, target, 0, j)
  {
  }

  lemma AsideTakesNothing(source: seq<Block>, target: seq<Block>, n: nat)
    requires n < |source| && EntryAside(source, target) == Some(n)
    ensures forall d: nat :: Available(source, target, d, n + 1) == Available(source, target, d, n)
    ensures forall j: nat :: Taken(source, target, n + 1, j) <==> Taken(source, target, n, j)
  {
  }

  method Unanchored(source: seq<Block>, target: seq<Block>) returns (sourceLeft: seq<nat>, targetLeft: seq<nat>)
    ensures sourceLeft == LeftOver(source, target)
    ensures targetLeft == LeftOver(target, source)
  {
    var sourceEntry, targetEntry := EntryAside(source, target), EntryAside(target, source);
    var slots := FillSlots(target, targetEntry);
    var matchedTargets;
    sourceLeft, matchedTargets := TakeSlots(source, target, slots);
    targetLeft := [];
    for index := 0 to |target|
      invariant targetLeft == Surplus(target, source, index)
    {
      if index !in matchedTargets && targetEntry != Some(index) {
        targetLeft := targetLeft + [index];
      }
    }
    if sourceEntry.Some? && targetEntry.Some? && source[sourceEntry.value].digest != target[targetEntry.value].digest {
      sourceLeft := sourceLeft + [sourceEntry.value];
      targetLeft := targetLeft + [targetEntry.value];
    }
  }

  // ---------------------------------------------------------------- exactly the surplus is left

  /** How many of the given blocks have digest `d`. */
  function Having(f: seq<Block>, indices: seq<nat>, d: nat): nat {
    if indices == [] then 0
    else
      var last := indices[|indices| - 1];
      Having(f, indices[..|indices| - 1], d) + (if last < |f| && f[last].digest == d then 1 else 0)
  }

  lemma {:induction false} SurplusIsExact(a: seq<Block>, b: seq<Block>, d: nat, n: nat)
    requires n <= |a|
    ensures var extra := Count(a, EntryAside(a, b), d, n) - Total(b, EntryAside(b, a), d);
      Having(a, Surplus(a, b, n), d) == if extra > 0 then extra else 0
  {
    if n > 0 {
      SurplusIsExact(a, b, d, n - 1);
      var before := Surplus(a, b, n - 1);
      assert before + [] == before && (before + [n - 1])[..|before|] == before;
    }
  }

  lemma {:induction false} SurplusMembers(a: seq<Block>, b: seq<Block>, n: nat)
    requires n <= |a|
    ensures forall i: nat :: i in Surplus(a, b, n) <==> i < n && EntryAside(a, b) != Some(i) && !Anchored(a, b, i)
    ensures Distinct(Surplus(a, b, n))
  {
    hide EntryAside, Anchored;
    if n > 0 {
      SurplusMembers(a, b, n - 1);
      assert Surplus(a, b, n - 1) + [] == Surplus(a, b, n - 1);
    }
  }

  /** The indices left over are, once each, those of the blocks that are not anchored. */
  lemma LeftOverMembers(a: seq<Block>, b: seq<Block>)
    ensures forall i: nat :: i in LeftOver(a, b) <==> i < |a| && !Anchored(a, b, i)
    ensures forall k :: 0 <= k < |LeftOver(a, b)| ==> LeftOver(a, b)[k] < |a|
    ensures Distinct(LeftOver(a, b))
  {
    SurplusMembers(a, b, |a|);
    assert EntryAside(a, b).Some? ==> EntryAside(a, b).value < |a|;
    hide Anchored, EntryAside;
    forall k | 0 <= k < |LeftOver(a, b)| ensures LeftOver(a, b)[k] < |a| {
      assert LeftOver(a, b)[k] in LeftOver(a, b);
    }
  }

  /** Entries aside, the two sides never leave blocks of the same digest over. */
  lemma LeftOversShareNoDigest(a: seq<Block>, b: seq<Block>, i: nat, j: nat)
    requires i in LeftOver(a, b) && EntryAside(a, b) != Some(i)
    requires j in LeftOver(b, a) && EntryAside(b, a) != Some(j)
    ensures i < |a| && j < |b| && a[i].digest != b[j].digest
  {
    LeftOverMembers(a, b);
    LeftOverMembers(b, a);
    CountMonotone(a, EntryAside(a, b), a[i].digest, i, |a|);
    CountMonotone(b, EntryAside(b, a), b[j].digest, j, |b|);
  }

  /** Entries set aside are left over on both sides or on neither. */
  lemma EntriesTogether(a: seq<Block>, b: seq<Block>)
    ensures EntryAside(a, b).Some? <==> EntryAside(b, a).Some?
    ensures EntryAside(a, b).Some? ==>
      (EntryAside(a, b).value in LeftOver(a, b) <==> EntryAside(b, a).value in LeftOver(b, a))
  {
    LeftOverMembers(a, b);
    LeftOverMembers(b, a);
  }

  /** Of equal blocks, the earliest are the anchored ones. */
  lemma EarliestAreAnchored(a: seq<Block>, b: seq<Block>, i: nat, k: nat)
    requires i < k < |a| && a[i].digest == a[k].digest
    requires EntryAside(a, b) != Some(i) && EntryAside(a, b) != Some(k)
    requires Anchored(a, b, k)
    ensures Anchored(a, b, i)
  {
    CountMonotone(a, EntryAside(a, b), a[i].digest, i, k);
  }

  function AnchoredWith(a: seq<Block>, b: seq<Block>, d: nat): nat -> bool {
    (i: nat) => i < |a| && Anchored(a, b, i) && a[i].digest == d
  }

  lemma {:induction false} AnchoredTally(a: seq<Block>, b: seq<Block>, d: nat, n: nat)
    requires n <= |a|
    ensures var aside := EntryAside(a, b);
      Tally(n, AnchoredWith(a, b, d))
      == Min(Count(a, aside, d, n), Total(b, EntryAside(b, a), d))
         + (if aside.Some? && aside.value < n && AnchoredWith(a, b, d)(aside.value) then 1 else 0)
  {
    if n > 0 {
      AnchoredTally(a, b, d, n - 1);
    }
  }

  /** Each digest is anchored equally often on both sides. */
  lemma AnchoringIsOneToOne(a: seq<Block>, b: seq<Block>, d: nat)
    ensures Tally(|a|, AnchoredWith(a, b, d)) == Tally(|b|, AnchoredWith(b, a, d))
  {
    AnchoredTally(a, b, d, |a|);
    AnchoredTally(b, a, d, |b|);
  }

  // ---------------------------------------------------------------- complete anchoring

  /** Entries equal and the other digests a permutation, or all a permutation when an entry is missing. */
  ghost predicate AnchorsCompletely(a: seq<Block>, b: seq<Block>) {
    && (EntryAside(a, b).Some? ==> a[EntryAside(a, b).value].digest == b[EntryAside(b, a).value].digest)
    && forall d: nat :: Total(a, EntryAside(a, b), d) == Total(b, EntryAside(b, a), d)
  }

  lemma NothingLeftIffComplete(a: seq<Block>, b: seq<Block>)
    ensures LeftOver(a, b) == [] && LeftOver(b, a) == [] <==> AnchorsCompletely(a, b)
  {
    if AnchorsCompletely(a, b) {
      AllAnchored(a, b);
      AllAnchored(b, a);
    }
    if LeftOver(a, b) == [] && LeftOver(b, a) == [] {
      forall d: nat ensures Total(a, EntryAside(a, b), d) == Total(b, EntryAside(b, a), d) {
        SurplusIsExact(a, b, d, |a|);
        SurplusIsExact(b, a, d, |b|);
      }
    }
  }

  lemma AllAnchored(a: seq<Block>, b: seq<Block>)
    requires AnchorsCompletely(a, b)
    ensures LeftOver(a, b) == []
  {
    LeftOverMembers(a, b);
    forall i: nat | i < |a| ensures Anchored(a, b, i) {
      if EntryAside(a, b) != Some(i) {
        CountMonotone(a, EntryAside(a, b), a[i].digest, i, |a|);
      }
    }
    NonEmptyHasMember(LeftOver(a, b));
  }
}
