/** `_changed_pairs` of picblocks.py: leftovers are paired greedily, or by position over budget. */
module Pairing {
  import opened Collections
  import opened Blocks
  import opened Sorting
  import opened Similarity

  const FUZZY_WORK_BUDGET: nat := 40_000_000

  datatype Candidate = Candidate(ratio: real, i: nat, j: nat)

  /** The sort key (-ratio, i, j). */
  function Precedes(): (Candidate, Candidate) -> bool {
    (x: Candidate, y: Candidate) =>
      x.ratio > y.ratio || (x.ratio == y.ratio && (x.i < y.i || (x.i == y.i && x.j <= y.j)))
  }

  predicate Within(indices: seq<nat>, n: nat) {
    forall k :: 0 <= k < |indices| ==> indices[k] < n
  }

  lemma WithoutWithin(indices: seq<nat>, x: nat, n: nat)
    requires Within(indices, n)
    ensures Within(Without(indices, x), n)
    ensures Distinct(indices) ==> Distinct(Without(indices, x))
    ensures forall y :: y in Without(indices, x) ==> y in indices && y != x
  {
    WithoutElements(indices, x);
    if Distinct(indices) {
      WithoutDistinct(indices, x);
    }
    var rest := Without(indices, x);
    forall k | 0 <= k < |rest| ensures rest[k] < n {
      assert rest[k] in rest;
    }
  }

  /** Leftovers `i` and `j` resemble each other enough to be one changed block. */
  predicate Similar(d: Difflib, source: seq<Block>, target: seq<Block>, i: nat, j: nat)
    requires i < |source| && j < |target|
  {
    target[j].escaped != "" && Ratio(d, source[i].escaped, target[j].escaped) >= CHANGED_RATIO
  }

  function CandidatesOf(d: Difflib, source: seq<Block>, target: seq<Block>, left: seq<nat>, j: nat): seq<Candidate>
    requires Within(left, |source|) && j < |target|
  {
    if left == [] then []
    else
      var i := left[|left| - 1];
      CandidatesOf(d, source, target, left[..|left| - 1], j) +
      (if Similar(d, source, target, i, j)
       then [Candidate(Ratio(d, source[i].escaped, target[j].escaped), i, j)] else [])
  }

  /** All similar pairs of leftovers, target by target. */
  function Candidates(
    d: Difflib, source: seq<Block>, target: seq<Block>, left: seq<nat>, right: seq<nat>): seq<Candidate>
    requires Within(left, |source|) && Within(right, |target|)
  {
    if right == [] then []
    else Candidates(d, source, target, left, right[..|right| - 1]) +
         CandidatesOf(d, source, target, left, right[|right| - 1])
  }

  /** Take each candidate whose blocks are both unused. */
  function Greedy(scored: seq<Candidate>, usedSource: set<nat>, usedTarget: set<nat>): seq<Candidate> {
    if scored == [] then []
    else if scored[0].i in usedSource || scored[0].j in usedTarget then Greedy(scored[1..], usedSource, usedTarget)
    else [scored[0]] + Greedy(scored[1..], usedSource + {scored[0].i}, usedTarget + {scored[0].j})
  }

  function Positional(
    d: Difflib, source: seq<Block>, target: seq<Block>, left: seq<nat>, right: seq<nat>): seq<(nat, nat)>
    requires Within(left, |source|) && Within(right, |target|)
  {
    if left == [] || right == [] then []
    else (if Similar(d, source, target, left[0], right[0]) then [(left[0], right[0])] else []) +
         Positional(d, source, target, left[1..], right[1..])
  }

  function TextLength(f: seq<Block>, indices: seq<nat>): nat
    requires Within(indices, |f|)
  {
    if indices == [] then 0 else |f[indices[0]].escaped| + TextLength(f, indices[1..])
  }

  function AsPairs(chosen: seq<Candidate>): seq<(nat, nat)> {
    if chosen == [] then [] else [(chosen[0].i, chosen[0].j)] + AsPairs(chosen[1..])
  }

  predicate OverBudget(source: seq<Block>, target: seq<Block>, left: seq<nat>, right: seq<nat>)
    requires Within(left, |source|) && Within(right, |target|)
  {
    TextLength(source, left) * TextLength(target, right) > FUZZY_WORK_BUDGET
  }

  function GreedyPairs(
    d: Difflib, source: seq<Block>, target: seq<Block>, left: seq<nat>, right: seq<nat>): seq<Candidate>
    requires Within(left, |source|) && Within(right, |target|)
  {
    Greedy(Sort(Candidates(d, source, target, left, right), Precedes()), {}, {})
  }

  function ChangedPairs(
    d: Difflib, source: seq<Block>, target: seq<Block>, left: seq<nat>, right: seq<nat>): seq<(nat, nat)>
    requires Within(left, |source|) && Within(right, |target|)
  {
    if left == [] || right == [] then []
    else if OverBudget(source, target, left, right) then Positional(d, source, target, left, right)
    else AsPairs(GreedyPairs(d, source, target, left, right))
  }

  // ---------------------------------------------------------------- the code's loops

  method PickGreedily(scored: seq<Candidate>) returns (pairs: seq<(nat, nat)>)
    ensures pairs == AsPairs(Greedy(scored, {}, {}))
  {
    var usedSource: set<nat>, usedTarget: set<nat> := {}, {};
    pairs := [];
    for n := 0 to |scored|
      invariant pairs + AsPairs(Greedy(scored[n..], usedSource, usedTarget)) == AsPairs(Greedy(scored, {}, {}))
    {
      var c := scored[n];
      assert scored[n..][1..] == scored[n + 1..];
      if c.i in usedSource || c.j in usedTarget {
        continue;
      }
      usedSource := usedSource + {c.i};
      usedTarget := usedTarget + {c.j};
      pairs := pairs + [(c.i, c.j)];
    }
  }

  method Score(d: Difflib, source: seq<Block>, target: seq<Block>, left: seq<nat>, right: seq<nat>)
    returns (scored: seq<Candidate>)
    requires Within(left, |source|) && Within(right, |target|)
    ensures scored == Candidates(d, source, target, left, right)
  {
    scored := [];
    for n := 0 to |right|
      invariant scored == Candidates(d, source, target, left, right[..n])
    {
      var j := right[n];
      assert right[..n + 1][..n] == right[..n];
      if target[j].escaped == "" {
        NoCandidates(d, source, target, left, j);
        continue;
      }
      ghost var before := scored;
      for m := 0 to |left|
        invariant scored == before + CandidatesOf(d, source, target, left[..m], j)
      {
        var i := left[m];
        CandidatesStep(d, source, target, left, m, j);
        hide CandidatesOf, Candidates, Ratio;
        var ratio := Ratio(d, source[i].escaped, target[j].escaped);
        if ratio >= CHANGED_RATIO {
          scored := scored + [Candidate(ratio, i, j)];
        }
      }
      assert left[..|left|] == left;
    }
    assert right[..|right|] == right;
  }

  lemma CandidatesStep(d: Difflib, source: seq<Block>, target: seq<Block>, left: seq<nat>, m: nat, j: nat)
    requires Within(left, |source|) && m < |left| && j < |target| && target[j].escaped != ""
    ensures var i := left[m];
            var ratio := Ratio(d, source[i].escaped, target[j].escaped);
            && Within(left[..m], |source|) && Within(left[..m + 1], |source|)
            && CandidatesOf(d, source, target, left[..m + 1], j)
            == CandidatesOf(d, source, target, left[..m], j)
               + (if ratio >= CHANGED_RATIO then [Candidate(ratio, i, j)] else [])
  {
    hide Ratio;
    assert left[..m + 1][..m] == left[..m];
  }

  lemma {:induction false} NoCandidates(d: Difflib, source: seq<Block>, target: seq<Block>, left: seq<nat>, j: nat)
    requires Within(left, |source|) && j < |target| && target[j].escaped == ""
    ensures CandidatesOf(d, source, target, left, j) == []
  {
    if left != [] {
      NoCandidates(d, source, target, left[..|left| - 1], j);
    }
  }

  method FindChangedPairs(d: Difflib, source: seq<Block>, target: seq<Block>, left: seq<nat>, right: seq<nat>)
    returns (pairs: seq<(nat, nat)>)
    requires Within(left, |source|) && Within(right, |target|)
    ensures pairs == ChangedPairs(d, source, target, left, right)
  {
    if left == [] || right == [] {
      return [];
    }
    if TextLength(source, left) * TextLength(target, right) > FUZZY_WORK_BUDGET {
      return Positional(d, source, target, left, right);
    }
    var scored := Score(d, source, target, left, right);
    pairs := PickGreedily(Sort(scored, Precedes()));
  }

  // ---------------------------------------------------------------- greedy pairing

  lemma PrecedesIsOrder()
    ensures TotalPreorder(Precedes())
  {
  }

  /** `c` and `g` share a block. */
  predicate Conflict(c: Candidate, g: Candidate) {
    c.i == g.i || c.j == g.j
  }

  ghost predicate OneToOne(s: seq<Candidate>) {
    forall m, n :: 0 <= m < n < |s| ==> !Conflict(s[m], s[n])
  }

  /** Greedy chooses a one-to-one subset, off the used blocks. */
  lemma {:induction false} GreedyIsOneToOne(scored: seq<Candidate>, usedSource: set<nat>, usedTarget: set<nat>)
    ensures var g := Greedy(scored, usedSource, usedTarget);
      && OneToOne(g)
      && forall m :: 0 <= m < |g| ==> g[m] in scored && g[m].i !in usedSource && g[m].j !in usedTarget
  {
    if scored != [] {
      if scored[0].i in usedSource || scored[0].j in usedTarget {
        GreedyIsOneToOne(scored[1..], usedSource, usedTarget);
      } else {
        GreedyIsOneToOne(scored[1..], usedSource + {scored[0].i}, usedTarget + {scored[0].j});
      }
    }
  }

  /** Some chosen candidate shares a block with `c` and sorts before it, or is `c`. */
  ghost predicate Settles(chosen: seq<Candidate>, c: Candidate) {
    exists g :: g in chosen && Conflict(c, g) && Precedes()(g, c)
  }

  /** Every candidate left out shares a block with a chosen one that sorts before it. */
  lemma {:induction false} LeftOutIsBeaten(
    scored: seq<Candidate>, usedSource: set<nat>, usedTarget: set<nat>, c: Candidate)
    requires SortedBy(scored, Precedes()) && c in scored
    requires c.i !in usedSource && c.j !in usedTarget
    ensures Settles(Greedy(scored, usedSource, usedTarget), c)
  {
    var first := scored[0];
    var g := Greedy(scored, usedSource, usedTarget);
    if first.i in usedSource || first.j in usedTarget {
      LeftOutIsBeaten(scored[1..], usedSource, usedTarget, c);
      assert g == Greedy(scored[1..], usedSource, usedTarget);
    } else if Conflict(c, first) {
      assert g[0] == first;
      assert c == first || exists n :: 1 <= n < |scored| && scored[n] == c;
      assert first in g && Precedes()(first, c);
    } else {
      LeftOutIsBeaten(scored[1..], usedSource + {first.i}, usedTarget + {first.j}, c);
      var b :| b in g[1..] && Conflict(c, b) && Precedes()(b, c);
      assert b in g;
    }
  }

  function Weight(s: seq<Candidate>): real {
    if s == [] then 0.0 else s[0].ratio + Weight(s[1..])
  }

  lemma {:induction false} WeightSplits(s: seq<Candidate>, p: Candidate -> bool)
    ensures Weight(s) == Weight(Filter(s, p)) + Weight(Filter(s, x => !p(x)))
  {
    if s != [] {
      var q := (x: Candidate) => !p(x);
      WeightSplits(s[1..], p);
      assert ([s[0]] + Filter(s[1..], p))[1..] == Filter(s[1..], p);
      assert ([s[0]] + Filter(s[1..], q))[1..] == Filter(s[1..], q);
    }
  }

  lemma {:induction false} FilterMembers<T>(s: seq<T>, p: T -> bool)
    ensures forall x :: x in Filter(s, p) <==> x in s && p(x)
  {
    if s != [] {
      FilterMembers(s[1..], p);
    }
  }

  lemma {:induction false} FilterOneToOne(s: seq<Candidate>, p: Candidate -> bool)
    requires OneToOne(s)
    ensures OneToOne(Filter(s, p))
  {
    if s != [] {
      FilterOneToOne(s[1..], p);
      FilterMembers(s[1..], p);
      var rest := Filter(s[1..], p);
      forall n | 0 <= n < |rest| ensures !Conflict(s[0], rest[n]) {
        assert rest[n] in s[1..];
      }
    }
  }

  /** In a one-to-one pairing at most two candidates conflict with `c`, one by each block. */
  lemma {:induction false} ConflictsWeighAtMostTwice(m: seq<Candidate>, c: Candidate, i: bool, j: bool)
    requires OneToOne(m) && c.ratio >= 0.0
    requires forall x :: x in m ==> x.ratio <= c.ratio
    requires !i ==> forall x :: x in m ==> x.i != c.i
    requires !j ==> forall x :: x in m ==> x.j != c.j
    ensures Weight(Filter(m, x => Conflict(x, c))) <= (if i then c.ratio else 0.0) + (if j then c.ratio else 0.0)
  {
    if m != [] {
      var x := m[0];
      assert x in m;
      assert forall y :: y in m[1..] ==> y in m;
      ConflictsWeighAtMostTwice(m[1..], c, i && x.i != c.i, j && x.j != c.j);
      var p := (y: Candidate) => Conflict(y, c);
      assert ([x] + Filter(m[1..], p))[1..] == Filter(m[1..], p);
    }
  }

  /** No one-to-one pairing of the candidates weighs more than twice the greedy one. */
  lemma {:induction false} GreedyIsHalfOptimal(
    scored: seq<Candidate>, usedSource: set<nat>, usedTarget: set<nat>, m: seq<Candidate>)
    requires SortedBy(scored, Precedes())
    requires forall x :: x in scored ==> x.ratio >= 0.0
    requires OneToOne(m)
    requires forall x :: x in m ==> x in scored && x.i !in usedSource && x.j !in usedTarget
    ensures Weight(m) <= 2.0 * Weight(Greedy(scored, usedSource, usedTarget))
    decreases |scored|
  {
    if scored == [] {
      NonEmptyHasMember(m);
    } else {
      var c := scored[0];
      if c.i in usedSource || c.j in usedTarget {
        GreedyIsHalfOptimal(scored[1..], usedSource, usedTarget, m);
      } else {
        var p := (x: Candidate) => Conflict(x, c);
        var rest := Filter(m, x => !p(x));
        WeightSplits(m, p);
        FilterMembers(m, x => !p(x));
        FilterOneToOne(m, x => !p(x));
        assert forall x :: x in m ==> x.ratio <= c.ratio;
        ConflictsWeighAtMostTwice(m, c, true, true);
        GreedyIsHalfOptimal(scored[1..], usedSource + {c.i}, usedTarget + {c.j}, rest);
      }
    }
  }

  // ---------------------------------------------------------------- what a pairing promises

  predicate IsCandidate(
    d: Difflib, source: seq<Block>, target: seq<Block>, left: seq<nat>, right: seq<nat>, c: Candidate)
    requires Within(left, |source|) && Within(right, |target|)
  {
    && c.i in left && c.j in right
    && c.i < |source| && c.j < |target| && Similar(d, source, target, c.i, c.j)
    && c.ratio == Ratio(d, source[c.i].escaped, target[c.j].escaped)
  }

  lemma {:induction false} CandidatesOfMembers(
    d: Difflib, source: seq<Block>, target: seq<Block>, left: seq<nat>, j: nat, c: Candidate)
    requires Within(left, |source|) && j < |target|
    ensures c in CandidatesOf(d, source, target, left, j) <==> c.j == j && IsCandidate(d, source, target, left, [j], c)
  {
    if left != [] {
      var shorter := left[..|left| - 1];
      CandidatesOfMembers(d, source, target, shorter, j, c);
      assert left == shorter + [left[|left| - 1]];
    }
  }

  lemma {:induction false} CandidatesMembers(
    d: Difflib, source: seq<Block>, target: seq<Block>, left: seq<nat>, right: seq<nat>, c: Candidate)
    requires Within(left, |source|) && Within(right, |target|)
    ensures c in Candidates(d, source, target, left, right) <==> IsCandidate(d, source, target, left, right, c)
  {
    if right != [] {
      var shorter, j := right[..|right| - 1], right[|right| - 1];
      CandidatesMembers(d, source, target, left, shorter, c);
      CandidatesOfMembers(d, source, target, left, j, c);
      assert right == shorter + [j];
    }
  }

  /**
   Within the budget: one-to-one, every candidate left out is beaten by a chosen pair that sorts before
   it, no two unpaired leftovers are similar, and at least half the weight of any pairing is reached.
   */
  lemma GreedyPairing(d: Difflib, source: seq<Block>, target: seq<Block>, left: seq<nat>, right: seq<nat>)
    requires Within(left, |source|) && Within(right, |target|)
    ensures var chosen := GreedyPairs(d, source, target, left, right);
      && OneToOne(chosen)
      && (forall c :: c in chosen ==> IsCandidate(d, source, target, left, right, c))
      && (forall c :: IsCandidate(d, source, target, left, right, c) ==> Settles(chosen, c))
      && (forall i, j :: i in left && j in right && i < |source| && j < |target| && Similar(d, source, target, i, j) ==>
           exists g :: g in chosen && (g.i == i || g.j == j))
      && (forall m :: OneToOne(m) && (forall c :: c in m ==> IsCandidate(d, source, target, left, right, c)) ==>
           Weight(m) <= 2.0 * Weight(chosen))
  {
    var cands := Candidates(d, source, target, left, right);
    var scored := Sort(cands, Precedes());
    var chosen := GreedyPairs(d, source, target, left, right);
    PrecedesIsOrder();
    SortIsSorted(cands, Precedes());
    SameElements(scored, cands);
    GreedyIsOneToOne(scored, {}, {});
    forall c ensures c in scored <==> IsCandidate(d, source, target, left, right, c) {
      CandidatesMembers(d, source, target, left, right, c);
    }
    forall c | IsCandidate(d, source, target, left, right, c) ensures Settles(chosen, c) {
      LeftOutIsBeaten(scored, {}, {}, c);
    }
    forall i, j | i in left && j in right && i < |source| && j < |target| && Similar(d, source, target, i, j)
      ensures exists g :: g in chosen && (g.i == i || g.j == j)
    {
      var c := Candidate(Ratio(d, source[i].escaped, target[j].escaped), i, j);
      assert IsCandidate(d, source, target, left, right, c);
      var g :| g in chosen && Conflict(c, g) && Precedes()(g, c);
    }
    forall m | OneToOne(m) && (forall c :: c in m ==> IsCandidate(d, source, target, left, right, c))
      ensures Weight(m) <= 2.0 * Weight(chosen)
    {
      GreedyIsHalfOptimal(scored, {}, {}, m);
    }
  }

  /** `pairs` relates distinct leftovers of one side to distinct leftovers of the other. */
  ghost predicate Matching(pairs: seq<(nat, nat)>, left: seq<nat>, right: seq<nat>) {
    && (forall k :: 0 <= k < |pairs| ==> pairs[k].0 in left && pairs[k].1 in right)
    && (forall k, l :: 0 <= k < l < |pairs| ==> pairs[k].0 != pairs[l].0 && pairs[k].1 != pairs[l].1)
  }

  lemma {:induction false} PositionalIsMatching(
    d: Difflib, source: seq<Block>, target: seq<Block>, left: seq<nat>, right: seq<nat>)
    requires Within(left, |source|) && Within(right, |target|)
    requires Distinct(left) && Distinct(right)
    ensures Matching(Positional(d, source, target, left, right), left, right)
  {
    if left != [] && right != [] {
      PositionalIsMatching(d, source, target, left[1..], right[1..]);
    }
  }

  lemma {:induction false} AsPairsAt(chosen: seq<Candidate>)
    ensures |AsPairs(chosen)| == |chosen|
    ensures forall k :: 0 <= k < |chosen| ==> AsPairs(chosen)[k] == (chosen[k].i, chosen[k].j)
  {
    if chosen != [] {
      AsPairsAt(chosen[1..]);
    }
  }

  /** On both paths the pairing is one-to-one between the leftovers. */
  lemma ChangedPairsIsMatching(d: Difflib, source: seq<Block>, target: seq<Block>, left: seq<nat>, right: seq<nat>)
    requires Within(left, |source|) && Within(right, |target|)
    requires Distinct(left) && Distinct(right)
    ensures Matching(ChangedPairs(d, source, target, left, right), left, right)
  {
    if left == [] || right == [] {
    } else if OverBudget(source, target, left, right) {
      PositionalIsMatching(d, source, target, left, right);
    } else {
      var chosen := GreedyPairs(d, source, target, left, right);
      GreedyPairing(d, source, target, left, right);
      AsPairsAt(chosen);
      assert forall k :: 0 <= k < |chosen| ==> IsCandidate(d, source, target, left, right, chosen[k]);
    }
  }

  /** Over the budget, the pairs are exactly the leftovers at equal places that are similar. */
  lemma {:induction false} PositionalMembers(
    d: Difflib, source: seq<Block>, target: seq<Block>, left: seq<nat>, right: seq<nat>, p: (nat, nat))
    requires Within(left, |source|) && Within(right, |target|)
    ensures p in Positional(d, source, target, left, right)
            <==> exists k: nat :: k < |left| && k < |right| && p == (left[k], right[k])
                                  && Similar(d, source, target, left[k], right[k])
  {
    if left != [] && right != [] {
      var rest := Positional(d, source, target, left[1..], right[1..]);
      PositionalMembers(d, source, target, left[1..], right[1..], p);
      if p in rest {
        var k: nat :| k < |left| - 1 && k < |right| - 1 && p == (left[1..][k], right[1..][k])
                      && Similar(d, source, target, left[1..][k], right[1..][k]);
        assert p == (left[k + 1], right[k + 1]) && Similar(d, source, target, left[k + 1], right[k + 1]);
      }
      if k: nat :| k < |left| && k < |right| && p == (left[k], right[k])
                   && Similar(d, source, target, left[k], right[k])
      {
        if k > 0 {
          assert p == (left[1..][k - 1], right[1..][k - 1]);
        }
      }
    }
  }

  /** A greedy choice keeps the order it chooses in. */
  lemma {:induction false} GreedyKeepsOrder(scored: seq<Candidate>, usedSource: set<nat>, usedTarget: set<nat>)
    requires SortedBy(scored, Precedes())
    ensures SortedBy(Greedy(scored, usedSource, usedTarget), Precedes())
    ensures forall c :: c in Greedy(scored, usedSource, usedTarget) ==> c in scored
    decreases |scored|
  {
    if scored != [] {
      var c, rest := scored[0], scored[1..];
      assert scored == [c] + rest;
      hide Precedes;
      if c.i in usedSource || c.j in usedTarget {
        GreedyKeepsOrder(rest, usedSource, usedTarget);
      } else {
        GreedyKeepsOrder(rest, usedSource + {c.i}, usedTarget + {c.j});
        var later := Greedy(rest, usedSource + {c.i}, usedTarget + {c.j});
        hide Greedy;
        forall k | 0 <= k < |later| ensures Precedes()(c, later[k]) {
          assert later[k] in rest;
        }
      }
    }
  }

  /** Pairs `a` and `b` are those at two places of the lists, one after the other. */
  ghost predicate PlacedBefore(left: seq<nat>, right: seq<nat>, a: (nat, nat), b: (nat, nat)) {
    exists p: nat, q: nat :: p < q < |left| && q < |right| && a == (left[p], right[p]) && b == (left[q], right[q])
  }

  lemma {:induction false} PositionalInOrder(
    d: Difflib, source: seq<Block>, target: seq<Block>, left: seq<nat>, right: seq<nat>, m: nat, n: nat)
    requires Within(left, |source|) && Within(right, |target|)
    requires m < n < |Positional(d, source, target, left, right)|
    ensures PlacedBefore(left, right, Positional(d, source, target, left, right)[m],
                         Positional(d, source, target, left, right)[n])
  {
    var rest := Positional(d, source, target, left[1..], right[1..]);
    hide Similar;
    if Similar(d, source, target, left[0], right[0]) {
      if m == 0 {
        assert rest[n - 1] in rest;
        PositionalMembers(d, source, target, left[1..], right[1..], rest[n - 1]);
        var k: nat :| k < |left| - 1 && k < |right| - 1 && rest[n - 1] == (left[1..][k], right[1..][k]);
        assert rest[n - 1] == (left[k + 1], right[k + 1]);
      } else {
        PositionalInOrder(d, source, target, left[1..], right[1..], m - 1, n - 1);
        PlacedBeforeLater(left, right, rest[m - 1], rest[n - 1]);
      }
    } else {
      PositionalInOrder(d, source, target, left[1..], right[1..], m, n);
      PlacedBeforeLater(left, right, rest[m], rest[n]);
    }
  }

  lemma PlacedBeforeLater(left: seq<nat>, right: seq<nat>, a: (nat, nat), b: (nat, nat))
    requires left != [] && right != [] && PlacedBefore(left[1..], right[1..], a, b)
    ensures PlacedBefore(left, right, a, b)
  {
    var p: nat, q: nat :| p < q < |left| - 1 && q < |right| - 1
                          && a == (left[1..][p], right[1..][p]) && b == (left[1..][q], right[1..][q]);
    assert a == (left[p + 1], right[p + 1]) && b == (left[q + 1], right[q + 1]);
  }

  /**
   * What `_changed_pairs` promises by its work: within forty million character comparisons the greedy pairing of all
   * candidates, with its guarantees; beyond it exactly the similar leftovers at equal places.
   */
  lemma PairingByBudget(d: Difflib, source: seq<Block>, target: seq<Block>, left: seq<nat>, right: seq<nat>)
    returns (chosen: seq<Candidate>)
    requires Within(left, |source|) && Within(right, |target|)
    ensures var pairs, work := ChangedPairs(d, source, target, left, right),
                               TextLength(source, left) * TextLength(target, right);
            && (work <= 40_000_000 ==>
                  && pairs == AsPairs(chosen) && OneToOne(chosen) && SortedBy(chosen, Precedes())
                  && (forall c :: c in chosen ==> IsCandidate(d, source, target, left, right, c))
                  && (forall c :: IsCandidate(d, source, target, left, right, c) ==> Settles(chosen, c))
                  && (forall m :: OneToOne(m)
                                  && (forall c :: c in m ==> IsCandidate(d, source, target, left, right, c)) ==>
                        Weight(m) <= 2.0 * Weight(chosen)))
            && (work > 40_000_000 ==>
                  && (forall m, n :: 0 <= m < n < |pairs| ==> PlacedBefore(left, right, pairs[m], pairs[n]))
                  && forall p :: p in pairs <==> exists k: nat :: k < |left| && k < |right| && p == (left[k], right[k])
                                                                  && Similar(d, source, target, left[k], right[k]))
  {
    chosen := GreedyPairs(d, source, target, left, right);
    if !OverBudget(source, target, left, right) {
      GreedyPairing(d, source, target, left, right);
      GreedyPairsInOrder(d, source, target, left, right);
      if left == [] || right == [] {
        NoLeftoversNoCandidates(d, source, target, left, right);
      }
    } else {
      hide Similar;
      forall m, n | 0 <= m < n < |Positional(d, source, target, left, right)|
        ensures PlacedBefore(left, right, Positional(d, source, target, left, right)[m],
                             Positional(d, source, target, left, right)[n])
      {
        PositionalInOrder(d, source, target, left, right, m, n);
      }
      forall p
        ensures p in Positional(d, source, target, left, right)
                <==> exists k: nat :: k < |left| && k < |right| && p == (left[k], right[k])
                                      && Similar(d, source, target, left[k], right[k])
      {
        PositionalMembers(d, source, target, left, right, p);
      }
    }
  }

  lemma GreedyPairsInOrder(d: Difflib, source: seq<Block>, target: seq<Block>, left: seq<nat>, right: seq<nat>)
    requires Within(left, |source|) && Within(right, |target|)
    ensures SortedBy(GreedyPairs(d, source, target, left, right), Precedes())
  {
    PrecedesIsOrder();
    SortIsSorted(Candidates(d, source, target, left, right), Precedes());
    GreedyKeepsOrder(Sort(Candidates(d, source, target, left, right), Precedes()), {}, {});
  }

  lemma NoLeftoversNoCandidates(d: Difflib, source: seq<Block>, target: seq<Block>, left: seq<nat>, right: seq<nat>)
    requires Within(left, |source|) && Within(right, |target|) && (left == [] || right == [])
    ensures GreedyPairs(d, source, target, left, right) == []
  {
    var chosen := GreedyPairs(d, source, target, left, right);
    GreedyPairing(d, source, target, left, right);
    assert forall c :: !IsCandidate(d, source, target, left, right, c);
    assert forall c :: c !in chosen;
    NonEmptyHasMember(chosen);
  }
}
