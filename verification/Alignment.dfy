/** Which leftovers a rendered diff pairs, with the threshold, the work budget and the order of choice written out. */
module Alignment {
  import opened Collections
  import opened Blocks
  import opened Sorting
  import opened Similarity
  import opened Anchoring
  import opened Pairing
  import opened Painting
  import opened Coverage

  // ---------------------------------------------------------------- resemblance

  /** Two non-empty texts of which at least half the characters match: 2 * matched / (|x| + |y|) >= 1/2. */
  predicate Resembles(d: Difflib, x: string, y: string) {
    x != "" && y != "" && 4 * d.matched(x, y) >= |x| + |y|
  }

  function Likeness(d: Difflib, x: string, y: string): real {
    if |x| + |y| == 0 then 1.0 else 2.0 * d.matched(x, y) as real / (|x| + |y|) as real
  }

  lemma HalfMatches(m: nat, length: nat)
    requires length > 0
    ensures 2.0 * m as real / length as real >= 0.5 <==> 4 * m >= length
  {
    var twice, l := 2.0 * m as real, length as real;
    assert 4 * m >= length <==> twice >= 0.5 * l by {
      assert (4 * m) as real == 2.0 * twice;
    }
    QuotientAtLeastHalf(twice, l, twice / l);
  }

  lemma QuotientAtLeastHalf(x: real, l: real, q: real)
    requires l > 0.0 && q * l == x
    ensures q >= 0.5 <==> x >= 0.5 * l
  {
    if q >= 0.5 {
      assert (q - 0.5) * l >= 0.0;
      assert (q - 0.5) * l == q * l - 0.5 * l;
    } else {
      assert (0.5 - q) * l > 0.0;
      assert (0.5 - q) * l == 0.5 * l - q * l;
    }
  }

  lemma SimilarMeansResembles(d: Difflib, source: seq<Block>, target: seq<Block>, i: nat, j: nat)
    requires Lawful(d) && i < |source| && j < |target|
    ensures Similar(d, source, target, i, j) <==> Resembles(d, source[i].escaped, target[j].escaped)
    ensures Similar(d, source, target, i, j) ==>
              Ratio(d, source[i].escaped, target[j].escaped) == Likeness(d, source[i].escaped, target[j].escaped)
  {
    var x, y := source[i].escaped, target[j].escaped;
    CheapTestsLoseNothing(d, x, y);
    if |x| + |y| > 0 {
      HalfMatches(d.matched(x, y), |x| + |y|);
    }
    hide Ratio, QuickRatio, RealQuickRatio, Lawful;
  }

  // ---------------------------------------------------------------- the leftovers to pair

  /** All the texts of these blocks, one after the other. */
  function AllText(f: seq<Block>, indices: seq<nat>): string
    requires Within(indices, |f|)
  {
    if indices == [] then "" else f[indices[0]].escaped + AllText(f, indices[1..])
  }

  lemma {:induction false} AllTextLength(f: seq<Block>, indices: seq<nat>)
    requires Within(indices, |f|)
    ensures |AllText(f, indices)| == TextLength(f, indices)
  {
    if indices != [] {
      AllTextLength(f, indices[1..]);
    }
  }

  /** `i` is the first entry block among these. */
  ghost predicate FirstEntryIn(f: seq<Block>, indices: seq<nat>, i: nat) {
    exists a :: 0 <= a < |indices| && indices[a] == i && i < |f| && f[i].entry
                && forall b :: 0 <= b < a ==> indices[b] < |f| && !f[indices[b]].entry
  }

  ghost predicate NoEntryIn(f: seq<Block>, indices: seq<nat>) {
    forall a :: 0 <= a < |indices| ==> indices[a] < |f| && !f[indices[a]].entry
  }

  lemma FirstEntryPrepend(f: seq<Block>, x: nat, rest: seq<nat>, i: nat)
    requires x < |f|
    ensures !f[x].entry && FirstEntryIn(f, rest, i) ==> FirstEntryIn(f, [x] + rest, i)
    ensures !f[x].entry && NoEntryIn(f, rest) ==> NoEntryIn(f, [x] + rest)
    ensures f[x].entry ==> FirstEntryIn(f, [x] + rest, x)
  {
    var all := [x] + rest;
    assert all[0] == x;
    if !f[x].entry && FirstEntryIn(f, rest, i) {
      var a :| 0 <= a < |rest| && rest[a] == i && i < |f| && f[i].entry
               && forall b :: 0 <= b < a ==> rest[b] < |f| && !f[rest[b]].entry;
      assert all[a + 1] == i;
      forall b | 0 <= b < a + 1 ensures all[b] < |f| && !f[all[b]].entry {
        assert b > 0 ==> all[b] == rest[b - 1];
      }
    }
  }

  lemma {:induction false} FirstEntryMeans(f: seq<Block>, indices: seq<nat>)
    requires Within(indices, |f|)
    ensures var e := FirstEntryAmong(f, indices);
            if e.Some? then FirstEntryIn(f, indices, e.value) else NoEntryIn(f, indices)
  {
    if indices != [] {
      var x, rest := indices[0], indices[1..];
      assert indices == [x] + rest;
      var e := FirstEntryAmong(f, rest);
      FirstEntryMeans(f, rest);
      hide FirstEntryIn, NoEntryIn;
      FirstEntryPrepend(f, x, rest, if e.Some? then e.value else 0);
    }
  }

  /** What is left of the leftovers of one side once its entry is paired with the other one. */
  function RestOn(source: seq<Block>, target: seq<Block>, side: Side, entries: Option<(nat, nat)>): seq<nat> {
    if entries.Some? then Without(LeftOn(source, target, side), At(entries.value, side))
    else LeftOn(source, target, side)
  }

  // ---------------------------------------------------------------- what is drawn

  /** The strokes on both sides are those of these pairs, and whole blocks for the other leftovers. */
  ghost predicate Draws(d: Difflib, source: seq<Block>, target: seq<Block>, pairs: seq<(nat, nat)>) {
    && PairsWithin(pairs, source, target)
    && (forall side: Side :: DistinctOn(pairs, side))
    && (forall side: Side, i: nat :: DrawsAt(d, source, target, pairs, side, i))
  }

  ghost predicate DrawsAt(
    d: Difflib, source: seq<Block>, target: seq<Block>, pairs: seq<(nat, nat)>, side: Side, i: nat)
    requires PairsWithin(pairs, source, target)
  {
    var strokes := StrokesAt(Marks(d, source, target, side), i);
    && (i !in LeftOn(source, target, side) ==> strokes == [] && !Paired(pairs, side, i))
    && (i in LeftOn(source, target, side) && !Paired(pairs, side, i) ==> strokes == [Stroke(None, false)])
    && (forall n :: 0 <= n < |pairs| && At(pairs[n], side) == i ==>
          strokes == DiffStrokes(d, source[pairs[n].0], target[pairs[n].1], side))
  }

  lemma PairsOfDraws(d: Difflib, source: seq<Block>, target: seq<Block>)
    ensures Draws(d, source, target, PairsOf(d, source, target))
  {
    hide *;
    PairsOfWithin(d, source, target);
    var pairs := PairsOf(d, source, target);
    forall side: Side ensures DistinctOn(pairs, side) {
      PaintedExactlyOnce(d, source, target, side, 0);
    }
    forall side: Side, i: nat ensures DrawsAt(d, source, target, pairs, side, i) {
      PaintedExactlyOnce(d, source, target, side, i);
      DrawsAtUnfolds(d, source, target, pairs, side, i);
    }
    DrawsUnfolds(d, source, target, pairs);
  }

  lemma DrawsAtUnfolds(
    d: Difflib, source: seq<Block>, target: seq<Block>, pairs: seq<(nat, nat)>, side: Side, i: nat)
    requires PairsWithin(pairs, source, target)
    requires var strokes := StrokesAt(Marks(d, source, target, side), i);
             && (i !in LeftOn(source, target, side) ==> strokes == [] && !Paired(pairs, side, i))
             && (i in LeftOn(source, target, side) && !Paired(pairs, side, i) ==> strokes == [Stroke(None, false)])
             && (forall n :: 0 <= n < |pairs| && At(pairs[n], side) == i ==>
                   strokes == DiffStrokes(d, source[pairs[n].0], target[pairs[n].1], side))
    ensures DrawsAt(d, source, target, pairs, side, i)
  {
    hide Marks, StrokesAt, DiffStrokes, Paired, LeftOn, PairsWithin;
  }

  lemma DrawsUnfolds(d: Difflib, source: seq<Block>, target: seq<Block>, pairs: seq<(nat, nat)>)
    requires PairsWithin(pairs, source, target) && forall side: Side :: DistinctOn(pairs, side)
    requires forall side: Side, i: nat :: DrawsAt(d, source, target, pairs, side, i)
    ensures Draws(d, source, target, pairs)
  {
    hide DrawsAt, DistinctOn, PairsWithin;
  }

  // ---------------------------------------------------------------- the choice among the rest

  /** No block is in two of the pairs. */
  ghost predicate Separated(pairs: seq<(nat, nat)>) {
    forall m, n :: 0 <= m < n < |pairs| ==> pairs[m].0 != pairs[n].0 && pairs[m].1 != pairs[n].1
  }

  /** Pairs of blocks that resemble each other, from these two lists. */
  ghost predicate Resembling(
    d: Difflib, source: seq<Block>, target: seq<Block>, left: seq<nat>, right: seq<nat>, pairs: seq<(nat, nat)>)
    requires Within(left, |source|) && Within(right, |target|)
  {
    forall n :: 0 <= n < |pairs| ==>
      ResemblingAt(d, source, target, left, right, pairs[n].0, pairs[n].1)
  }

  predicate ResemblingAt(
    d: Difflib, source: seq<Block>, target: seq<Block>, left: seq<nat>, right: seq<nat>, i: nat, j: nat)
    requires Within(left, |source|) && Within(right, |target|)
  {
    i in left && j in right && i < |source| && j < |target| && Resembles(d, source[i].escaped, target[j].escaped)
  }

  function LikenessAt(d: Difflib, source: seq<Block>, target: seq<Block>, p: (nat, nat)): real {
    if p.0 < |source| && p.1 < |target| then Likeness(d, source[p.0].escaped, target[p.1].escaped) else 0.0
  }

  function TotalLikeness(d: Difflib, source: seq<Block>, target: seq<Block>, pairs: seq<(nat, nat)>): real {
    if pairs == [] then 0.0
    else LikenessAt(d, source, target, pairs[0]) + TotalLikeness(d, source, target, pairs[1..])
  }

  /** Pair `p` comes before `q` in the order of choice: greater likeness, then smaller source, then smaller target. */
  predicate ChosenBefore(d: Difflib, source: seq<Block>, target: seq<Block>, p: (nat, nat), q: (nat, nat)) {
    var a, b := LikenessAt(d, source, target, p), LikenessAt(d, source, target, q);
    a > b || (a == b && (p.0 < q.0 || (p.0 == q.0 && p.1 <= q.1)))
  }

  /** Some pair shares a block with (i, j) and comes no later in the order of choice. */
  ghost predicate Outdone(
    d: Difflib, source: seq<Block>, target: seq<Block>, pairs: seq<(nat, nat)>, i: nat, j: nat)
  {
    exists n :: 0 <= n < |pairs| && (pairs[n].0 == i || pairs[n].1 == j)
                && ChosenBefore(d, source, target, pairs[n], (i, j))
  }

  /** A greedy choice: resembling pairs, one to one, that outdo every resembling pair and reach half of any others. */
  ghost predicate GreedyChoice(
    d: Difflib, source: seq<Block>, target: seq<Block>, left: seq<nat>, right: seq<nat>, pairs: seq<(nat, nat)>)
    requires Within(left, |source|) && Within(right, |target|)
  {
    && Separated(pairs) && Resembling(d, source, target, left, right, pairs)
    && (forall m, n :: 0 <= m < n < |pairs| ==> ChosenBefore(d, source, target, pairs[m], pairs[n]))
    && (forall i: nat, j: nat :: ResemblingAt(d, source, target, left, right, i, j) ==>
          Outdone(d, source, target, pairs, i, j))
    && (forall m :: Separated(m) && Resembling(d, source, target, left, right, m) ==>
          TotalLikeness(d, source, target, m) <= 2.0 * TotalLikeness(d, source, target, pairs))
  }

  /** Exactly the resembling blocks at equal places of the two lists. */
  ghost predicate PlaceByPlace(
    d: Difflib, source: seq<Block>, target: seq<Block>, left: seq<nat>, right: seq<nat>, pairs: seq<(nat, nat)>)
    requires Within(left, |source|) && Within(right, |target|)
  {
    && (forall m, n :: 0 <= m < n < |pairs| ==> PlacedBefore(left, right, pairs[m], pairs[n]))
    && forall p :: p in pairs <==>
         exists k: nat :: k < |left| && k < |right| && p == (left[k], right[k])
                          && Resembles(d, source[left[k]].escaped, target[right[k]].escaped)
  }

  function AsCandidates(d: Difflib, source: seq<Block>, target: seq<Block>, pairs: seq<(nat, nat)>): seq<Candidate> {
    seq(|pairs|, n requires 0 <= n < |pairs| =>
      Candidate(LikenessAt(d, source, target, pairs[n]), pairs[n].0, pairs[n].1))
  }

  lemma {:induction false} WeightIsLikeness(d: Difflib, source: seq<Block>, target: seq<Block>, pairs: seq<(nat, nat)>)
    ensures Weight(AsCandidates(d, source, target, pairs)) == TotalLikeness(d, source, target, pairs)
  {
    if pairs != [] {
      WeightIsLikeness(d, source, target, pairs[1..]);
      assert AsCandidates(d, source, target, pairs)[1..] == AsCandidates(d, source, target, pairs[1..]);
    }
  }

  lemma CandidateMeans(
    d: Difflib, source: seq<Block>, target: seq<Block>, left: seq<nat>, right: seq<nat>, c: Candidate)
    requires Lawful(d) && Within(left, |source|) && Within(right, |target|)
    ensures IsCandidate(d, source, target, left, right, c)
            <==> && ResemblingAt(d, source, target, left, right, c.i, c.j)
                 && c.ratio == LikenessAt(d, source, target, (c.i, c.j))
  {
    if c.i < |source| && c.j < |target| {
      SimilarMeansResembles(d, source, target, c.i, c.j);
    }
    hide Ratio, Likeness, Resembles, Lawful;
  }

  lemma ChosenAreCandidates(
    d: Difflib, source: seq<Block>, target: seq<Block>, left: seq<nat>, right: seq<nat>, chosen: seq<Candidate>)
    requires Lawful(d) && Within(left, |source|) && Within(right, |target|)
    requires OneToOne(chosen) && forall c :: c in chosen ==> IsCandidate(d, source, target, left, right, c)
    ensures Separated(AsPairs(chosen)) && Resembling(d, source, target, left, right, AsPairs(chosen))
    ensures chosen == AsCandidates(d, source, target, AsPairs(chosen))
  {
    AsPairsAt(chosen);
    hide IsCandidate, ResemblingAt, LikenessAt, AsPairs, Lawful;
    forall n | 0 <= n < |chosen|
      ensures ResemblingAt(d, source, target, left, right, chosen[n].i, chosen[n].j)
      ensures chosen[n].ratio == LikenessAt(d, source, target, (chosen[n].i, chosen[n].j))
    {
      assert chosen[n] in chosen;
      CandidateMeans(d, source, target, left, right, chosen[n]);
    }
  }

  lemma OthersAreCandidates(
    d: Difflib, source: seq<Block>, target: seq<Block>, left: seq<nat>, right: seq<nat>, m: seq<(nat, nat)>)
    requires Lawful(d) && Within(left, |source|) && Within(right, |target|)
    requires Separated(m) && Resembling(d, source, target, left, right, m)
    ensures var cands := AsCandidates(d, source, target, m);
            OneToOne(cands) && forall c :: c in cands ==> IsCandidate(d, source, target, left, right, c)
  {
    var cands := AsCandidates(d, source, target, m);
    hide IsCandidate, ResemblingAt, LikenessAt, Lawful;
    forall c | c in cands ensures IsCandidate(d, source, target, left, right, c) {
      CandidateMeans(d, source, target, left, right, c);
    }
  }

  lemma ChosenInOrder(d: Difflib, source: seq<Block>, target: seq<Block>, chosen: seq<Candidate>)
    requires SortedBy(chosen, Precedes()) && chosen == AsCandidates(d, source, target, AsPairs(chosen))
    ensures forall m, n :: 0 <= m < n < |AsPairs(chosen)| ==>
              ChosenBefore(d, source, target, AsPairs(chosen)[m], AsPairs(chosen)[n])
  {
    var pairs := AsPairs(chosen);
    AsPairsAt(chosen);
    hide LikenessAt, AsPairs;
    forall m, n | 0 <= m < n < |pairs| ensures ChosenBefore(d, source, target, pairs[m], pairs[n]) {
      assert Precedes()(chosen[m], chosen[n]);
      assert chosen[m] == AsCandidates(d, source, target, pairs)[m];
      assert chosen[n] == AsCandidates(d, source, target, pairs)[n];
    }
  }

  lemma SettlesOutdoes(
    d: Difflib, source: seq<Block>, target: seq<Block>, left: seq<nat>, right: seq<nat>, chosen: seq<Candidate>,
    i: nat, j: nat)
    requires Within(left, |source|) && Within(right, |target|)
    requires chosen == AsCandidates(d, source, target, AsPairs(chosen))
    requires Settles(chosen, Candidate(LikenessAt(d, source, target, (i, j)), i, j))
    ensures Outdone(d, source, target, AsPairs(chosen), i, j)
  {
    var c := Candidate(LikenessAt(d, source, target, (i, j)), i, j);
    AsPairsAt(chosen);
    var g :| g in chosen && Conflict(c, g) && Precedes()(g, c);
    var n :| 0 <= n < |chosen| && chosen[n] == g;
    assert AsPairs(chosen)[n] == (g.i, g.j);
    assert g.ratio == LikenessAt(d, source, target, (g.i, g.j));
    hide LikenessAt;
  }

  /** Within the budget the choice is greedy; beyond it, place by place. */
  lemma ChoiceByBudget(d: Difflib, source: seq<Block>, target: seq<Block>, left: seq<nat>, right: seq<nat>)
    requires Lawful(d) && Within(left, |source|) && Within(right, |target|)
    ensures var pairs, work := ChangedPairs(d, source, target, left, right),
                               |AllText(source, left)| * |AllText(target, right)|;
            && (work <= 40_000_000 ==> GreedyChoice(d, source, target, left, right, pairs))
            && (work > 40_000_000 ==> PlaceByPlace(d, source, target, left, right, pairs))
  {
    AllTextLength(source, left);
    AllTextLength(target, right);
    var pairs := ChangedPairs(d, source, target, left, right);
    var work := TextLength(source, left) * TextLength(target, right);
    var chosen := PairingByBudget(d, source, target, left, right);
    hide ChangedPairs, TextLength, AllText;
    if work <= 40_000_000 {
      GreedyIsChoice(d, source, target, left, right, chosen);
    } else {
      forall p
        ensures p in pairs <==>
          exists k: nat :: k < |left| && k < |right| && p == (left[k], right[k])
                           && Resembles(d, source[left[k]].escaped, target[right[k]].escaped)
      {
        hide Similar, Resembles;
        forall k: nat | k < |left| && k < |right|
          ensures Similar(d, source, target, left[k], right[k])
                  <==> Resembles(d, source[left[k]].escaped, target[right[k]].escaped)
        {
          SimilarMeansResembles(d, source, target, left[k], right[k]);
        }
      }
    }
  }

  lemma GreedyIsChoice(
    d: Difflib, source: seq<Block>, target: seq<Block>, left: seq<nat>, right: seq<nat>, chosen: seq<Candidate>)
    requires Lawful(d) && Within(left, |source|) && Within(right, |target|)
    requires OneToOne(chosen) && forall c :: c in chosen ==> IsCandidate(d, source, target, left, right, c)
    requires SortedBy(chosen, Precedes())
    requires forall c :: IsCandidate(d, source, target, left, right, c) ==> Settles(chosen, c)
    requires forall m :: OneToOne(m) && (forall c :: c in m ==> IsCandidate(d, source, target, left, right, c)) ==>
               Weight(m) <= 2.0 * Weight(chosen)
    ensures GreedyChoice(d, source, target, left, right, AsPairs(chosen))
  {
    var pairs := AsPairs(chosen);
    hide IsCandidate, ResemblingAt, LikenessAt, Lawful, AsPairs, OneToOne, Separated, Resembling, Settles, Outdone,
      Weight, TotalLikeness, AsCandidates, ChosenBefore, SortedBy;
    ChosenAreCandidates(d, source, target, left, right, chosen);
    ChosenInOrder(d, source, target, chosen);
    forall i: nat, j: nat | ResemblingAt(d, source, target, left, right, i, j)
      ensures Outdone(d, source, target, pairs, i, j)
    {
      CandidateMeans(d, source, target, left, right, Candidate(LikenessAt(d, source, target, (i, j)), i, j));
      SettlesOutdoes(d, source, target, left, right, chosen, i, j);
    }
    WeightIsLikeness(d, source, target, pairs);
    forall m | Separated(m) && Resembling(d, source, target, left, right, m)
      ensures TotalLikeness(d, source, target, m) <= 2.0 * TotalLikeness(d, source, target, pairs)
    {
      OthersAreCandidates(d, source, target, left, right, m);
      WeightIsLikeness(d, source, target, m);
    }
  }

  // ---------------------------------------------------------------- what a diff pairs

  /** Both sides have a left-over entry and these are the first of them, or some side has none. */
  ghost predicate EntriesLeft(source: seq<Block>, target: seq<Block>, entries: Option<(nat, nat)>) {
    if entries.Some? then
      && FirstEntryIn(source, LeftOver(source, target), entries.value.0)
      && FirstEntryIn(target, LeftOver(target, source), entries.value.1)
    else
      NoEntryIn(source, LeftOver(source, target)) || NoEntryIn(target, LeftOver(target, source))
  }

  /** The other pairs, by the texts of the leftovers that are not those entries. */
  ghost predicate PairsRest(
    d: Difflib, source: seq<Block>, target: seq<Block>, entries: Option<(nat, nat)>, others: seq<(nat, nat)>)
  {
    var left, right := RestOn(source, target, Source, entries), RestOn(source, target, Target, entries);
    && Within(left, |source|) && Within(right, |target|)
    && (|AllText(source, left)| * |AllText(target, right)| <= 40_000_000 ==>
          GreedyChoice(d, source, target, left, right, others))
    && (|AllText(source, left)| * |AllText(target, right)| > 40_000_000 ==>
          PlaceByPlace(d, source, target, left, right, others))
  }

  function AsList(entries: Option<(nat, nat)>): seq<(nat, nat)> {
    if entries.Some? then [entries.value] else []
  }

  /**
   * What a diff draws is drawn from pairs: the first left-over entries of both sides, if both have one, and then a
   * greedy choice among the other leftovers within forty million character comparisons, or those at equal places.
   */
  lemma DrawnPairs(d: Difflib, source: seq<Block>, target: seq<Block>)
    returns (entries: Option<(nat, nat)>, others: seq<(nat, nat)>)
    requires Lawful(d)
    ensures EntriesLeft(source, target, entries) && PairsRest(d, source, target, entries, others)
    ensures Draws(d, source, target, AsList(entries) + others)
    ensures PairsOf(d, source, target) == AsList(entries) + others
  {
    entries, others := PairsOfSplits(d, source, target);
    PairsOfDraws(d, source, target);
    hide *;
    ChoiceByBudgetOfRest(d, source, target, entries);
  }

  /** The left-over entries, if both sides have one. */
  function EntriesOf(source: seq<Block>, target: seq<Block>): Option<(nat, nat)> {
    LeftOverWithin(source, target);
    LeftOverWithin(target, source);
    var s, t := FirstEntryAmong(source, LeftOver(source, target)), FirstEntryAmong(target, LeftOver(target, source));
    if s.Some? && t.Some? then Some((s.value, t.value)) else None
  }

  function OthersOf(d: Difflib, source: seq<Block>, target: seq<Block>, entries: Option<(nat, nat)>): seq<(nat, nat)> {
    RestWithin(source, target, Source, entries);
    RestWithin(source, target, Target, entries);
    ChangedPairs(d, source, target, RestOn(source, target, Source, entries), RestOn(source, target, Target, entries))
  }

  lemma RestWithin(source: seq<Block>, target: seq<Block>, side: Side, entries: Option<(nat, nat)>)
    ensures Within(RestOn(source, target, side, entries), |On(source, target, side)|)
  {
    LeftOverWithin(source, target);
    LeftOverWithin(target, source);
    hide LeftOver;
    if entries.Some? {
      WithoutWithin(LeftOn(source, target, side), At(entries.value, side), |On(source, target, side)|);
    }
  }

  lemma PairsOfSplits(d: Difflib, source: seq<Block>, target: seq<Block>)
    returns (entries: Option<(nat, nat)>, others: seq<(nat, nat)>)
    ensures entries == EntriesOf(source, target) && others == OthersOf(d, source, target, entries)
    ensures EntriesLeft(source, target, entries)
    ensures PairsOf(d, source, target) == AsList(entries) + others
  {
    var left, right := LeftOver(source, target), LeftOver(target, source);
    LeftOverWithin(source, target);
    LeftOverWithin(target, source);
    FirstEntryMeans(source, left);
    FirstEntryMeans(target, right);
    entries := EntriesOf(source, target);
    others := OthersOf(d, source, target, entries);
    hide LeftOver, ChangedPairs, FirstEntryIn, NoEntryIn, FirstEntryAmong;
    if entries.None? {
      assert AsList(entries) + others == others;
    }
  }

  lemma ChoiceByBudgetOfRest(d: Difflib, source: seq<Block>, target: seq<Block>, entries: Option<(nat, nat)>)
    requires Lawful(d)
    ensures PairsRest(d, source, target, entries, OthersOf(d, source, target, entries))
  {
    RestWithin(source, target, Source, entries);
    RestWithin(source, target, Target, entries);
    hide RestOn, ChangedPairs, GreedyChoice, PlaceByPlace, AllText, Lawful;
    ChoiceByBudget(d, source, target, RestOn(source, target, Source, entries), RestOn(source, target, Target, entries));
  }

  /** A block drawn as whole and not changed is a leftover that no pair has. */
  lemma DrawnAlone(
    d: Difflib, source: seq<Block>, target: seq<Block>, pairs: seq<(nat, nat)>, side: Side, i: nat)
    requires Lawful(d) && Draws(d, source, target, pairs)
    requires StrokesAt(Marks(d, source, target, side), i) == [Stroke(None, false)]
    ensures i in LeftOn(source, target, side) && !Paired(pairs, side, i)
  {
    assert DrawsAt(d, source, target, pairs, side, i);
    hide Marks, StrokesAt, LeftOn, Draws;
    if Paired(pairs, side, i) {
      var n :| 0 <= n < |pairs| && At(pairs[n], side) == i;
      DiffIsNotAlone(d, source[pairs[n].0], target[pairs[n].1], side);
    }
  }

  lemma DiffIsNotAlone(d: Difflib, left: Block, right: Block, side: Side)
    requires Lawful(d)
    ensures DiffStrokes(d, left, right, side) != [Stroke(None, false)]
  {
    var a, b := Texts(left), Texts(right);
    ScriptStrokesAscend(a, b, d.opcodes(a, b), 0, 0, side);
    NotSingleton(DiffStrokes(d, left, right, side), Stroke(None, false));
  }

  lemma NotSingleton<T>(s: seq<T>, x: T)
    ensures (forall n :: 0 <= n < |s| ==> s[n] != x) ==> s != [x]
  {
    assert [x][0] == x;
  }

  /** How much there is to compare: the texts of all leftovers but a pair of left-over entries. */
  ghost predicate WithinBudget(source: seq<Block>, target: seq<Block>, entries: Option<(nat, nat)>) {
    var left, right := RestOn(source, target, Source, entries), RestOn(source, target, Target, entries);
    && Within(left, |source|) && Within(right, |target|)
    && |AllText(source, left)| * |AllText(target, right)| <= 40_000_000
  }

  /** Within the budget, no two blocks drawn as removed and added resemble each other. */
  lemma RemovedAndAddedDiffer(
    d: Difflib, source: seq<Block>, target: seq<Block>, entries: Option<(nat, nat)>, i: nat, j: nat)
    requires Lawful(d) && EntriesLeft(source, target, entries) && WithinBudget(source, target, entries)
    requires i < |source| && StrokesAt(Marks(d, source, target, Source), i) == [Stroke(None, false)]
    requires j < |target| && StrokesAt(Marks(d, source, target, Target), j) == [Stroke(None, false)]
    ensures !Resembles(d, source[i].escaped, target[j].escaped)
  {
    hide *;
    var drawn, others := DrawnPairs(d, source, target);
    EntriesAreUnique(source, target, entries, drawn);
    var pairs := AsList(entries) + others;
    DrawnAlone(d, source, target, pairs, Source, i);
    DrawnAlone(d, source, target, pairs, Target, j);
    InRest(source, target, entries, others, Source, i);
    InRest(source, target, entries, others, Target, j);
    UnpairedDiffer(d, source, target, entries, others, i, j);
  }

  lemma UnpairedDiffer(
    d: Difflib, source: seq<Block>, target: seq<Block>, entries: Option<(nat, nat)>, others: seq<(nat, nat)>,
    i: nat, j: nat)
    requires PairsRest(d, source, target, entries, others) && WithinBudget(source, target, entries)
    requires i < |source| && j < |target|
    requires i in RestOn(source, target, Source, entries) && j in RestOn(source, target, Target, entries)
    requires !Paired(AsList(entries) + others, Source, i) && !Paired(AsList(entries) + others, Target, j)
    ensures !Resembles(d, source[i].escaped, target[j].escaped)
  {
    var left, right := RestOn(source, target, Source, entries), RestOn(source, target, Target, entries);
    assert GreedyChoice(d, source, target, left, right, others);
    hide Resembles, RestOn, AllText, Separated, Resembling, TotalLikeness, ChosenBefore, Paired, AsList, PlaceByPlace;
    if Resembles(d, source[i].escaped, target[j].escaped) {
      assert ResemblingAt(d, source, target, left, right, i, j);
      assert Outdone(d, source, target, others, i, j);
      var n: nat :| n < |others| && (others[n].0 == i || others[n].1 == j);
      PairedAmong(AsList(entries), others, n);
    }
  }

  lemma PairedAmong(first: seq<(nat, nat)>, others: seq<(nat, nat)>, n: nat)
    requires n < |others|
    ensures Paired(first + others, Source, others[n].0) && Paired(first + others, Target, others[n].1)
  {
    assert (first + others)[|first| + n] == others[n];
    PairedAt(first + others, Source, others[n].0, |first| + n);
    PairedAt(first + others, Target, others[n].1, |first| + n);
  }

  lemma InRest(
    source: seq<Block>, target: seq<Block>, entries: Option<(nat, nat)>, others: seq<(nat, nat)>, side: Side, i: nat)
    requires i in LeftOn(source, target, side) && !Paired(AsList(entries) + others, side, i)
    ensures i in RestOn(source, target, side, entries)
  {
    hide LeftOn;
    if entries.Some? {
      assert (AsList(entries) + others)[0] == entries.value;
      WithoutElements(LeftOn(source, target, side), At(entries.value, side));
    }
  }

  lemma FirstEntryIsUnique(f: seq<Block>, indices: seq<nat>, i: nat, j: nat)
    requires FirstEntryIn(f, indices, i)
    ensures FirstEntryIn(f, indices, j) ==> i == j
    ensures !NoEntryIn(f, indices)
  {
  }

  lemma EntriesAreUnique(source: seq<Block>, target: seq<Block>, e: Option<(nat, nat)>, g: Option<(nat, nat)>)
    requires EntriesLeft(source, target, e) && EntriesLeft(source, target, g)
    ensures e == g
  {
    hide LeftOver, FirstEntryIn, NoEntryIn;
    if e.Some? {
      FirstEntryIsUnique(source, LeftOver(source, target), e.value.0, if g.Some? then g.value.0 else 0);
      FirstEntryIsUnique(target, LeftOver(target, source), e.value.1, if g.Some? then g.value.1 else 0);
    }
    if g.Some? {
      FirstEntryIsUnique(source, LeftOver(source, target), g.value.0, 0);
      FirstEntryIsUnique(target, LeftOver(target, source), g.value.1, 0);
    }
  }

  /**
   * The same on the annotations returned: within the budget, the text of no block painted whole and not as a change on
   * one side resembles that of a block painted so on the other.
   */
  lemma PaintedAsRemovedAndAddedDiffer(
    d: Difflib, source: seq<Block>, target: seq<Block>, entries: Option<(nat, nat)>, x: nat, y: nat)
    requires Lawful(d) && EntriesLeft(source, target, entries) && WithinBudget(source, target, entries)
    requires x < |Painted(d, source, target, Source)| && y < |Painted(d, source, target, Target)|
    requires var a, b := Painted(d, source, target, Source)[x], Painted(d, source, target, Target)[y];
             a.instruction.None? && !a.changed && b.instruction.None? && !b.changed
    ensures !Resembles(d, Painted(d, source, target, Source)[x].block.escaped,
                       Painted(d, source, target, Target)[y].block.escaped)
  {
    hide EntriesLeft, WithinBudget, Lawful, Painted, Resembles;
    var i := PaintedAlone(d, source, target, Source, x);
    var j := PaintedAlone(d, source, target, Target, y);
    RemovedAndAddedDiffer(d, source, target, entries, i, j);
  }

  lemma PaintedAlone(d: Difflib, source: seq<Block>, target: seq<Block>, side: Side, x: nat) returns (i: nat)
    requires Lawful(d) && x < |Painted(d, source, target, side)|
    requires Painted(d, source, target, side)[x].instruction.None? && !Painted(d, source, target, side)[x].changed
    ensures i < |On(source, target, side)| && Painted(d, source, target, side)[x].block == On(source, target, side)[i]
    ensures StrokesAt(Marks(d, source, target, side), i) == [Stroke(None, false)]
  {
    var marks := Marks(d, source, target, side);
    PaintedAt(d, source, target, side, x);
    hide *;
    i := marks[x].i;
    WholeUnchanged(On(source, target, side), marks, x);
    var p := MarkAsStroke(marks, x);
    StrokesAreSeparate(d, source, target, side, i);
    SoleWholeStroke(StrokesAt(marks, i), p);
  }

  lemma WholeUnchanged(f: seq<Block>, marks: seq<Mark>, x: nat)
    requires MarksFit(f, marks) && x < |marks|
    ensures marks[x].i < |f| && MarkFits(f, marks[x])
    ensures var a := EntryChanged(Draw(f[marks[x].i], marks[x].stroke));
            && a.block == f[marks[x].i]
            && (a.instruction.None? && !a.changed ==> marks[x].stroke == Stroke(None, false))
  {
  }

  lemma SoleWholeStroke(strokes: seq<Stroke>, p: nat)
    requires Separate(strokes) && p < |strokes| && strokes[p] == Stroke(None, false)
    ensures strokes == [Stroke(None, false)]
  {
  }
}
