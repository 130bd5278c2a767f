/** What the painted marks are, block by block, and why painted ranges never overlap. */
module Coverage {
  import opened Collections
  import opened Blocks
  import opened Similarity
  import opened Anchoring
  import opened Pairing
  import opened Painting

  /** Everything painted on block `i`, in order. */
  function StrokesAt(marks: seq<Mark>, i: nat): seq<Stroke> {
    if marks == [] then []
    else
      StrokesAt(marks[..|marks| - 1], i) +
      (if marks[|marks| - 1].i == i then [marks[|marks| - 1].stroke] else [])
  }

  lemma {:induction false} StrokesAtConcat(a: seq<Mark>, b: seq<Mark>, i: nat)
    ensures StrokesAt(a + b, i) == StrokesAt(a, i) + StrokesAt(b, i)
  {
    if b == [] {
      ConcatEmpty(a);
      ConcatEmpty(StrokesAt(a, i));
    } else {
      assert (a + b)[..|a + b| - 1] == a + b[..|b| - 1];
      StrokesAtConcat(a, b[..|b| - 1], i);
    }
  }

  lemma {:induction false} StrokesAtLifted(j: nat, strokes: seq<Stroke>, i: nat)
    ensures StrokesAt(Lift(j, strokes), i) == if i == j then strokes else []
  {
    if strokes != [] {
      var shorter := strokes[..|strokes| - 1];
      assert Lift(j, strokes)[..|strokes| - 1] == Lift(j, shorter);
      StrokesAtLifted(j, shorter, i);
    }
  }

  lemma {:induction false} StrokesAtUnpaired(left: seq<nat>, pairs: seq<(nat, nat)>, side: Side, i: nat)
    requires Distinct(left)
    ensures StrokesAt(UnpairedMarks(left, pairs, side), i)
         == if i in left && !Paired(pairs, side, i) then [Stroke(None, false)] else []
  {
    if left != [] {
      var shorter, last := left[..|left| - 1], left[|left| - 1];
      DistinctLast(left, i);
      var before := UnpairedMarks(shorter, pairs, side);
      var added := if Paired(pairs, side, last) then [] else [Mark(last, Stroke(None, false))];
      assert UnpairedMarks(left, pairs, side) == before + added;
      StrokesAtOne(last, Stroke(None, false), i);
      hide *;
      StrokesAtUnpaired(shorter, pairs, side, i);
      StrokesAtConcat(before, added, i);
      ConcatEmpty(StrokesAt(before, i));
      ConcatEmpty(StrokesAt(added, i));
    }
  }

  lemma StrokesAtOne(j: nat, stroke: Stroke, i: nat)
    ensures StrokesAt([Mark(j, stroke)], i) == (if i == j then [stroke] else [])
    ensures StrokesAt([], i) == []
  {
    assert [Mark(j, stroke)][..0] == [];
  }

  ghost predicate DistinctOn(pairs: seq<(nat, nat)>, side: Side) {
    forall m, n :: 0 <= m < n < |pairs| ==> At(pairs[m], side) != At(pairs[n], side)
  }

  /** The strokes of one pair on block `i`. */
  function StrokesOfPair(
    d: Difflib, source: seq<Block>, target: seq<Block>, p: (nat, nat), side: Side, i: nat): seq<Stroke>
    requires p.0 < |source| && p.1 < |target|
  {
    if At(p, side) == i then DiffStrokes(d, source[p.0], target[p.1], side) else []
  }

  lemma StrokesAtLast(
    d: Difflib, source: seq<Block>, target: seq<Block>, pairs: seq<(nat, nat)>, side: Side, i: nat)
    requires PairsWithin(pairs, source, target) && pairs != []
    ensures StrokesAt(PairMarks(d, source, target, pairs, side), i)
            == StrokesAt(PairMarks(d, source, target, pairs[..|pairs| - 1], side), i)
               + StrokesOfPair(d, source, target, pairs[|pairs| - 1], side, i)
  {
    var last, before := pairs[|pairs| - 1], PairMarks(d, source, target, pairs[..|pairs| - 1], side);
    hide DiffStrokes, StrokesAt, Lift, At;
    var strokes := DiffStrokes(d, source[last.0], target[last.1], side);
    StrokesAtConcat(before, Lift(At(last, side), strokes), i);
    StrokesAtLifted(At(last, side), strokes, i);
  }

  lemma {:induction false} StrokesAtNoPair(
    d: Difflib, source: seq<Block>, target: seq<Block>, pairs: seq<(nat, nat)>, side: Side, i: nat)
    requires PairsWithin(pairs, source, target)
    requires forall n :: 0 <= n < |pairs| ==> At(pairs[n], side) != i
    ensures StrokesAt(PairMarks(d, source, target, pairs, side), i) == []
  {
    if pairs != [] {
      hide StrokesAt, PairMarks, DiffStrokes, At;
      StrokesAtNoPair(d, source, target, pairs[..|pairs| - 1], side, i);
      StrokesAtLast(d, source, target, pairs, side, i);
    }
  }

  lemma {:induction false} StrokesAtPair(
    d: Difflib, source: seq<Block>, target: seq<Block>, pairs: seq<(nat, nat)>, side: Side, n: nat)
    requires PairsWithin(pairs, source, target) && DistinctOn(pairs, side) && n < |pairs|
    ensures StrokesAt(PairMarks(d, source, target, pairs, side), At(pairs[n], side))
            == DiffStrokes(d, source[pairs[n].0], target[pairs[n].1], side)
  {
    hide StrokesAt, PairMarks, DiffStrokes, At;
    var shorter, i := pairs[..|pairs| - 1], At(pairs[n], side);
    StrokesAtLast(d, source, target, pairs, side, i);
    ConcatEmpty(DiffStrokes(d, source[pairs[n].0], target[pairs[n].1], side));
    if n < |shorter| {
      assert At(pairs[|pairs| - 1], side) != i;
      StrokesAtPair(d, source, target, shorter, side, n);
    } else {
      StrokesAtNoPair(d, source, target, shorter, side, i);
    }
  }

  lemma StrokesAtPairs(
    d: Difflib, source: seq<Block>, target: seq<Block>, pairs: seq<(nat, nat)>, side: Side, i: nat)
    requires PairsWithin(pairs, source, target) && DistinctOn(pairs, side)
    ensures !Paired(pairs, side, i) ==> StrokesAt(PairMarks(d, source, target, pairs, side), i) == []
    ensures forall n :: 0 <= n < |pairs| && At(pairs[n], side) == i ==>
      StrokesAt(PairMarks(d, source, target, pairs, side), i)
      == DiffStrokes(d, source[pairs[n].0], target[pairs[n].1], side)
  {
    hide StrokesAt, PairMarks, DiffStrokes;
    if !Paired(pairs, side, i) {
      StrokesAtNoPair(d, source, target, pairs, side, i);
    }
    forall n | 0 <= n < |pairs| && At(pairs[n], side) == i
      ensures StrokesAt(PairMarks(d, source, target, pairs, side), i)
              == DiffStrokes(d, source[pairs[n].0], target[pairs[n].1], side)
    {
      StrokesAtPair(d, source, target, pairs, side, n);
    }
  }

  lemma PairedAt(pairs: seq<(nat, nat)>, side: Side, i: nat, n: nat)
    requires n < |pairs| && At(pairs[n], side) == i
    ensures Paired(pairs, side, i)
  {
  }

  /** Anchored blocks are never painted; a leftover is one unpaired block, or painted through its one pair. */
  lemma PaintedExactlyOnce(d: Difflib, source: seq<Block>, target: seq<Block>, side: Side, i: nat)
    ensures var pairs := PairsOf(d, source, target);
      var strokes := StrokesAt(Marks(d, source, target, side), i);
      && PairsWithin(pairs, source, target)
      && (i !in LeftOn(source, target, side) ==> strokes == [] && !Paired(pairs, side, i))
      && (i in LeftOn(source, target, side) && !Paired(pairs, side, i) ==> strokes == [Stroke(None, false)])
      && (forall n :: 0 <= n < |pairs| && At(pairs[n], side) == i ==>
           strokes == DiffStrokes(d, source[pairs[n].0], target[pairs[n].1], side))
      && DistinctOn(pairs, side)
  {
    var pairs := PairsOf(d, source, target);
    var left := LeftOn(source, target, side);
    PairsOfWithin(d, source, target);
    PairsOfIsMatching(d, source, target);
    LeftOverWithin(source, target);
    LeftOverWithin(target, source);
    hide PairsOf, LeftOver;
    MatchingOnSide(pairs, LeftOver(source, target), LeftOver(target, source), side);
    StrokesAtUnpaired(left, pairs, side, i);
    StrokesAtPairs(d, source, target, pairs, side, i);
    StrokesAtConcat(UnpairedMarks(left, pairs, side), PairMarks(d, source, target, pairs, side), i);
    hide DiffStrokes, UnpairedMarks, PairMarks, StrokesAt;
    ConcatEmpty(StrokesAt(PairMarks(d, source, target, pairs, side), i));
    ConcatEmpty(StrokesAt(UnpairedMarks(left, pairs, side), i));
  }

  lemma MatchingOnSide(pairs: seq<(nat, nat)>, left: seq<nat>, right: seq<nat>, side: Side)
    requires Matching(pairs, left, right)
    ensures DistinctOn(pairs, side)
    ensures forall n :: 0 <= n < |pairs| ==> At(pairs[n], side) in (if side.Source? then left else right)
  {
  }

  // ---------------------------------------------------------------- ranges

  /** Instruction strokes only, each of a later instruction than the one before. */
  ghost predicate Ascending(strokes: seq<Stroke>) {
    && (forall n :: 0 <= n < |strokes| ==> strokes[n].k.Some?)
    && (forall m, n :: 0 <= m < n < |strokes| ==> strokes[m].k.value < strokes[n].k.value)
  }

  lemma {:induction false} ScriptStrokesAscend(
    a: seq<string>, b: seq<string>, ops: seq<Opcode>, i: nat, j: nat, side: Side)
    requires ScriptFrom(a, b, ops, i, j)
    ensures Ascending(ScriptStrokes(ops, side))
    ensures forall n :: 0 <= n < |ScriptStrokes(ops, side)| ==>
      ScriptStrokes(ops, side)[n].k.value >= (if side.Source? then i else j)
  {
    if ops != [] {
      ScriptStrokesAscend(a, b, ops[1..], ops[0].i2, ops[0].j2, side);
    }
  }

  /** No two strokes on a block touch: a single one, or different instructions. */
  ghost predicate Separate(strokes: seq<Stroke>) {
    |strokes| <= 1 || Ascending(strokes)
  }

  lemma StrokesAreSeparate(d: Difflib, source: seq<Block>, target: seq<Block>, side: Side, i: nat)
    requires Lawful(d)
    ensures Separate(StrokesAt(Marks(d, source, target, side), i))
  {
    var pairs := PairsOf(d, source, target);
    PaintedExactlyOnce(d, source, target, side, i);
    hide PairsOf, LeftOver, Marks;
    if Paired(pairs, side, i) {
      var n :| 0 <= n < |pairs| && At(pairs[n], side) == i;
      var a, b := Texts(source[pairs[n].0]), Texts(target[pairs[n].1]);
      ScriptStrokesAscend(a, b, d.opcodes(a, b), 0, 0, side);
    }
  }

  /** Two marks on one block are two strokes there. */
  lemma {:induction false} MarksAsStrokes(marks: seq<Mark>, x: nat, y: nat) returns (p: nat, q: nat)
    requires x < y < |marks| && marks[x].i == marks[y].i
    ensures p < q < |StrokesAt(marks, marks[x].i)|
    ensures StrokesAt(marks, marks[x].i)[p] == marks[x].stroke
    ensures StrokesAt(marks, marks[x].i)[q] == marks[y].stroke
    decreases |marks|
  {
    var shorter := marks[..|marks| - 1];
    if y < |marks| - 1 {
      p, q := MarksAsStrokes(shorter, x, y);
    } else {
      p := MarkAsStroke(shorter, x);
      q := |StrokesAt(shorter, marks[x].i)|;
    }
  }

  lemma {:induction false} MarkAsStroke(marks: seq<Mark>, x: nat) returns (p: nat)
    requires x < |marks|
    ensures p < |StrokesAt(marks, marks[x].i)| && StrokesAt(marks, marks[x].i)[p] == marks[x].stroke
    decreases |marks|
  {
    var shorter := marks[..|marks| - 1];
    if x < |marks| - 1 {
      p := MarkAsStroke(shorter, x);
    } else {
      p := |StrokesAt(shorter, marks[x].i)|;
    }
  }

  predicate Disjoint(offset1: int, size1: int, offset2: int, size2: int) {
    offset1 + size1 <= offset2 || offset2 + size2 <= offset1
  }

  predicate Inside(offset: int, size: int, b: Block) {
    b.offset <= offset && offset + size <= b.offset + b.size
  }

  /** Blocks do not overlap, and the instructions of each lie inside it without overlapping. */
  ghost predicate LaidOut(f: seq<Block>) {
    && (forall i, j :: 0 <= i < j < |f| ==> Disjoint(f[i].offset, f[i].size, f[j].offset, f[j].size))
    && (forall i, k :: 0 <= i < |f| && 0 <= k < |f[i].instructions| ==>
         Inside(f[i].instructions[k].offset, f[i].instructions[k].size, f[i]))
    && (forall i, k, l :: 0 <= i < |f| && 0 <= k < l < |f[i].instructions| ==>
         Disjoint(f[i].instructions[k].offset, f[i].instructions[k].size,
                  f[i].instructions[l].offset, f[i].instructions[l].size))
  }

  function Offset(a: Annotation): int {
    if a.instruction.Some? then a.instruction.value.offset else a.block.offset
  }

  function Size(a: Annotation): int {
    if a.instruction.Some? then a.instruction.value.size else a.block.size
  }

  lemma MarkInside(f: seq<Block>, m: Mark)
    requires LaidOut(f) && MarkFits(f, m)
    ensures var a := EntryChanged(Draw(f[m.i], m.stroke));
      a.block == f[m.i] && Inside(Offset(a), Size(a), a.block)
  {
  }

  lemma MarksApart(f: seq<Block>, m: Mark, n: Mark)
    requires LaidOut(f) && MarkFits(f, m) && MarkFits(f, n)
    requires m.i != n.i || (m.stroke.k.Some? && n.stroke.k.Some? && m.stroke.k.value < n.stroke.k.value)
    ensures var a, b := EntryChanged(Draw(f[m.i], m.stroke)), EntryChanged(Draw(f[n.i], n.stroke));
      Disjoint(Offset(a), Size(a), Offset(b), Size(b))
  {
    MarkInside(f, m);
    MarkInside(f, n);
    if m.i != n.i {
      var i, j := if m.i < n.i then m.i else n.i, if m.i < n.i then n.i else m.i;
      assert Disjoint(f[i].offset, f[i].size, f[j].offset, f[j].size);
    }
  }

  ghost predicate OnLeftOver(source: seq<Block>, target: seq<Block>, side: Side, a: Annotation) {
    exists i: nat :: i in LeftOn(source, target, side) && i < |On(source, target, side)|
      && a.block == On(source, target, side)[i]
  }

  lemma PaintedAt(d: Difflib, source: seq<Block>, target: seq<Block>, side: Side, x: nat)
    requires Lawful(d) && x < |Painted(d, source, target, side)|
    ensures var marks := Marks(d, source, target, side);
      && MarksFit(On(source, target, side), marks) && x < |marks|
      && Painted(d, source, target, side)[x]
         == EntryChanged(Draw(On(source, target, side)[marks[x].i], marks[x].stroke))
  {
    AllMarksFit(d, source, target, side);
  }

  /** A mark on a block exists only if the block is left over. */
  lemma MarkedIsLeftOver(d: Difflib, source: seq<Block>, target: seq<Block>, side: Side, x: nat)
    requires x < |Marks(d, source, target, side)|
    ensures Marks(d, source, target, side)[x].i in LeftOn(source, target, side)
  {
    hide Marks, LeftOn;
    var p := MarkAsStroke(Marks(d, source, target, side), x);
    PaintedExactlyOnce(d, source, target, side, Marks(d, source, target, side)[x].i);
  }

  lemma PaintedInside(d: Difflib, source: seq<Block>, target: seq<Block>, side: Side, x: nat)
    requires Lawful(d) && LaidOut(On(source, target, side)) && x < |Painted(d, source, target, side)|
    ensures var a := Painted(d, source, target, side)[x];
      && Inside(Offset(a), Size(a), a.block)
      && OnLeftOver(source, target, side, a)
  {
    hide Painted, Marks, LeftOn, LaidOut, Lawful, Draw, EntryChanged;
    PaintedAt(d, source, target, side, x);
    MarkedIsLeftOver(d, source, target, side, x);
    MarkInside(On(source, target, side), Marks(d, source, target, side)[x]);
  }

  lemma PaintedApart(d: Difflib, source: seq<Block>, target: seq<Block>, side: Side, x: nat, y: nat)
    requires Lawful(d) && LaidOut(On(source, target, side)) && x < y < |Painted(d, source, target, side)|
    ensures var a, b := Painted(d, source, target, side)[x], Painted(d, source, target, side)[y];
      Disjoint(Offset(a), Size(a), Offset(b), Size(b))
  {
    hide Painted, Marks, LeftOn, LaidOut, Lawful, Draw, EntryChanged, StrokesAt;
    var marks := Marks(d, source, target, side);
    PaintedAt(d, source, target, side, x);
    PaintedAt(d, source, target, side, y);
    if marks[x].i == marks[y].i {
      var p, q := MarksAsStrokes(marks, x, y);
      StrokesAreSeparate(d, source, target, side, marks[x].i);
    }
    MarksApart(On(source, target, side), marks[x], marks[y]);
  }

  /** On each side painted ranges are pairwise disjoint and stay inside a block that is not anchored. */
  lemma PaintedRangesAreDisjoint(d: Difflib, source: seq<Block>, target: seq<Block>, side: Side)
    requires Lawful(d) && LaidOut(On(source, target, side))
    ensures var out := Painted(d, source, target, side);
      && (forall x :: 0 <= x < |out| ==> Inside(Offset(out[x]), Size(out[x]), out[x].block))
      && (forall x :: 0 <= x < |out| ==> OnLeftOver(source, target, side, out[x]))
      && (forall x, y :: 0 <= x < y < |out| ==> Disjoint(Offset(out[x]), Size(out[x]), Offset(out[y]), Size(out[y])))
  {
    hide *;
    var out := Painted(d, source, target, side);
    forall x | 0 <= x < |out|
      ensures Inside(Offset(out[x]), Size(out[x]), out[x].block)
      ensures OnLeftOver(source, target, side, out[x])
    {
      PaintedInside(d, source, target, side, x);
    }
    forall x, y | 0 <= x < y < |out|
      ensures Disjoint(Offset(out[x]), Size(out[x]), Offset(out[y]), Size(out[y]))
    {
      PaintedApart(d, source, target, side, x, y);
    }
  }
}
