/** `_instruction_diff`, `_entry_changed` and `_annotations` of picblocks.py: what a rendered diff paints. */
module Painting {
  import opened Collections
  import opened Blocks
  import opened Similarity
  import opened Anchoring
  import opened Pairing

  datatype Side = Source | Target

  /** Something painted on a block: all of it, or its k-th instruction. */
  datatype Stroke = Stroke(k: Option<nat>, changed: bool)

  /** A stroke on the i-th block of a function. */
  datatype Mark = Mark(i: nat, stroke: Stroke)

  function At(pair: (nat, nat), side: Side): nat {
    if side.Source? then pair.0 else pair.1
  }

  function Texts(b: Block): seq<string> {
    seq(|b.instructions|, k requires 0 <= k < |b.instructions| => b.instructions[k].escaped)
  }

  // ---------------------------------------------------------------- the specification

  function Range(op: Opcode, side: Side): (nat, nat) {
    if side.Source? then (op.i1, op.i2) else (op.j1, op.j2)
  }

  /** One stroke for each instruction of one side that is not matched. */
  function OpcodeStrokes(op: Opcode, side: Side): seq<Stroke> {
    var (lo, hi) := Range(op, side);
    if op.tag.Equal? || hi < lo then []
    else seq(hi - lo, n requires 0 <= n < hi - lo => Stroke(Some(lo + n), op.tag.Replace?))
  }

  function ScriptStrokes(ops: seq<Opcode>, side: Side): seq<Stroke> {
    if ops == [] then [] else OpcodeStrokes(ops[0], side) + ScriptStrokes(ops[1..], side)
  }

  /** How one block of a changed pair is painted. */
  function DiffStrokes(d: Difflib, left: Block, right: Block, side: Side): seq<Stroke> {
    if left.instructions == [] || right.instructions == [] then [Stroke(None, true)]
    else ScriptStrokes(d.opcodes(Texts(left), Texts(right)), side)
  }

  function Lift(i: nat, strokes: seq<Stroke>): seq<Mark> {
    seq(|strokes|, n requires 0 <= n < |strokes| => Mark(i, strokes[n]))
  }

  /** The pairs of changed blocks: the entries if both are left over, then the similar leftovers. */
  function PairsOf(d: Difflib, source: seq<Block>, target: seq<Block>): seq<(nat, nat)> {
    LeftOverWithin(source, target);
    LeftOverWithin(target, source);
    PairsAmong(d, source, target, LeftOver(source, target), LeftOver(target, source))
  }

  function PairsAmong(
    d: Difflib, source: seq<Block>, target: seq<Block>, left: seq<nat>, right: seq<nat>): seq<(nat, nat)>
    requires Within(left, |source|) && Within(right, |target|)
  {
    var sourceEntry, targetEntry := FirstEntryAmong(source, left), FirstEntryAmong(target, right);
    if sourceEntry.Some? && targetEntry.Some? then
      WithoutWithin(left, sourceEntry.value, |source|);
      WithoutWithin(right, targetEntry.value, |target|);
      [(sourceEntry.value, targetEntry.value)] +
      ChangedPairs(d, source, target, Without(left, sourceEntry.value), Without(right, targetEntry.value))
    else
      ChangedPairs(d, source, target, left, right)
  }

  lemma LeftOverWithin(a: seq<Block>, b: seq<Block>)
    ensures Within(LeftOver(a, b), |a|) && Distinct(LeftOver(a, b))
  {
    LeftOverMembers(a, b);
  }

  predicate Paired(pairs: seq<(nat, nat)>, side: Side, i: nat) {
    exists n :: 0 <= n < |pairs| && At(pairs[n], side) == i
  }

  /** Whole-block marks for the leftovers that found no partner. */
  function UnpairedMarks(left: seq<nat>, pairs: seq<(nat, nat)>, side: Side): seq<Mark> {
    if left == [] then []
    else
      UnpairedMarks(left[..|left| - 1], pairs, side) +
      (if Paired(pairs, side, left[|left| - 1]) then [] else [Mark(left[|left| - 1], Stroke(None, false))])
  }

  predicate PairsWithin(pairs: seq<(nat, nat)>, source: seq<Block>, target: seq<Block>) {
    forall n :: 0 <= n < |pairs| ==> pairs[n].0 < |source| && pairs[n].1 < |target|
  }

  function PairMarks(
    d: Difflib, source: seq<Block>, target: seq<Block>, pairs: seq<(nat, nat)>, side: Side): seq<Mark>
    requires PairsWithin(pairs, source, target)
  {
    if pairs == [] then []
    else
      var last := pairs[|pairs| - 1];
      PairMarks(d, source, target, pairs[..|pairs| - 1], side) +
      Lift(At(last, side), DiffStrokes(d, source[last.0], target[last.1], side))
  }

  function LeftOn(source: seq<Block>, target: seq<Block>, side: Side): seq<nat> {
    if side.Source? then LeftOver(source, target) else LeftOver(target, source)
  }

  function On(source: seq<Block>, target: seq<Block>, side: Side): seq<Block> {
    if side.Source? then source else target
  }

  /** Everything painted on one side. */
  function Marks(d: Difflib, source: seq<Block>, target: seq<Block>, side: Side): seq<Mark> {
    PairsOfWithin(d, source, target);
    var pairs := PairsOf(d, source, target);
    UnpairedMarks(LeftOn(source, target, side), pairs, side) + PairMarks(d, source, target, pairs, side)
  }

  /** The entries paired first leave the rest free of them, so the whole pairing is one-to-one. */
  lemma PairsAmongIsMatching(d: Difflib, source: seq<Block>, target: seq<Block>, left: seq<nat>, right: seq<nat>)
    requires Within(left, |source|) && Within(right, |target|) && Distinct(left) && Distinct(right)
    ensures Matching(PairsAmong(d, source, target, left, right), left, right)
  {
    var sourceEntry, targetEntry := FirstEntryAmong(source, left), FirstEntryAmong(target, right);
    if sourceEntry.Some? && targetEntry.Some? {
      WithoutWithin(left, sourceEntry.value, |source|);
      WithoutWithin(right, targetEntry.value, |target|);
      ChangedPairsIsMatching(d, source, target, Without(left, sourceEntry.value), Without(right, targetEntry.value));
    } else {
      ChangedPairsIsMatching(d, source, target, left, right);
    }
  }

  lemma PairsOfIsMatching(d: Difflib, source: seq<Block>, target: seq<Block>)
    ensures Matching(PairsOf(d, source, target), LeftOver(source, target), LeftOver(target, source))
  {
    LeftOverWithin(source, target);
    LeftOverWithin(target, source);
    PairsAmongIsMatching(d, source, target, LeftOver(source, target), LeftOver(target, source));
  }

  lemma PairsOfWithin(d: Difflib, source: seq<Block>, target: seq<Block>)
    ensures PairsWithin(PairsOf(d, source, target), source, target)
  {
    PairsOfIsMatching(d, source, target);
    LeftOverWithin(source, target);
    LeftOverWithin(target, source);
    MatchingWithin(PairsOf(d, source, target), LeftOver(source, target), LeftOver(target, source), source, target);
  }

  lemma MatchingWithin(pairs: seq<(nat, nat)>, left: seq<nat>, right: seq<nat>, source: seq<Block>, target: seq<Block>)
    requires Matching(pairs, left, right) && Within(left, |source|) && Within(right, |target|)
    ensures PairsWithin(pairs, source, target)
  {
  }

  // ---------------------------------------------------------------- strokes stay inside their block

  predicate StrokesFit(strokes: seq<Stroke>, size: nat) {
    forall n :: 0 <= n < |strokes| && strokes[n].k.Some? ==> strokes[n].k.value < size
  }

  lemma {:induction false} ScriptStrokesFit(
    a: seq<string>, b: seq<string>, ops: seq<Opcode>, i: nat, j: nat, side: Side)
    requires ScriptFrom(a, b, ops, i, j)
    ensures StrokesFit(ScriptStrokes(ops, side), if side.Source? then |a| else |b|)
  {
    if ops != [] {
      ScriptStrokesFit(a, b, ops[1..], ops[0].i2, ops[0].j2, side);
    }
  }

  function BlockOn(left: Block, right: Block, side: Side): Block {
    if side.Source? then left else right
  }

  lemma DiffStrokesFit(d: Difflib, left: Block, right: Block, side: Side)
    requires Lawful(d)
    ensures StrokesFit(DiffStrokes(d, left, right, side), |BlockOn(left, right, side).instructions|)
  {
    var a, b := Texts(left), Texts(right);
    ScriptStrokesFit(a, b, d.opcodes(a, b), 0, 0, side);
  }

  predicate MarkFits(f: seq<Block>, m: Mark) {
    m.i < |f| && (m.stroke.k.Some? ==> m.stroke.k.value < |f[m.i].instructions|)
  }

  predicate MarksFit(f: seq<Block>, marks: seq<Mark>) {
    forall n :: 0 <= n < |marks| ==> MarkFits(f, marks[n])
  }

  lemma {:induction false} UnpairedMarksFit(f: seq<Block>, left: seq<nat>, pairs: seq<(nat, nat)>, side: Side)
    requires Within(left, |f|)
    ensures MarksFit(f, UnpairedMarks(left, pairs, side))
  {
    if left != [] {
      UnpairedMarksFit(f, left[..|left| - 1], pairs, side);
    }
  }

  lemma {:induction false} PairMarksFit(
    d: Difflib, source: seq<Block>, target: seq<Block>, pairs: seq<(nat, nat)>, side: Side)
    requires Lawful(d) && PairsWithin(pairs, source, target)
    ensures MarksFit(On(source, target, side), PairMarks(d, source, target, pairs, side))
  {
    if pairs != [] {
      var last := pairs[|pairs| - 1];
      PairMarksFit(d, source, target, pairs[..|pairs| - 1], side);
      DiffStrokesFit(d, source[last.0], target[last.1], side);
    }
  }

  lemma AllMarksFit(d: Difflib, source: seq<Block>, target: seq<Block>, side: Side)
    requires Lawful(d)
    ensures MarksFit(On(source, target, side), Marks(d, source, target, side))
  {
    PairsOfWithin(d, source, target);
    LeftOverWithin(source, target);
    LeftOverWithin(target, source);
    hide PairsOf, LeftOver;
    UnpairedMarksFit(On(source, target, side), LeftOn(source, target, side), PairsOf(d, source, target), side);
    PairMarksFit(d, source, target, PairsOf(d, source, target), side);
  }

  // ---------------------------------------------------------------- annotations

  function Draw(b: Block, stroke: Stroke): Annotation
    requires stroke.k.Some? ==> stroke.k.value < |b.instructions|
  {
    Annotation(b, stroke.changed, if stroke.k.None? then None else Some(b.instructions[stroke.k.value]))
  }

  function DrawBlock(b: Block, strokes: seq<Stroke>): seq<Annotation>
    requires StrokesFit(strokes, |b.instructions|)
  {
    seq(|strokes|, n requires 0 <= n < |strokes| => Draw(b, strokes[n]))
  }

  function DrawMarks(f: seq<Block>, marks: seq<Mark>): seq<Annotation>
    requires MarksFit(f, marks)
  {
    seq(|marks|, n requires 0 <= n < |marks| => Draw(f[marks[n].i], marks[n].stroke))
  }

  /** `_entry_changed`: the start of an entry block never counts as removed or added. */
  function EntryChanged(a: Annotation): Annotation {
    var offset := if a.instruction.Some? then a.instruction.value.offset else a.block.offset;
    if a.block.entry && offset == a.block.offset then a.(changed := true) else a
  }

  function PaintAll(f: seq<Block>, marks: seq<Mark>): seq<Annotation>
    requires MarksFit(f, marks)
  {
    seq(|marks|, n requires 0 <= n < |marks| => EntryChanged(Draw(f[marks[n].i], marks[n].stroke)))
  }

  /** What `annotation_blocks` returns for one side. */
  function Painted(d: Difflib, source: seq<Block>, target: seq<Block>, side: Side): seq<Annotation>
    requires Lawful(d)
  {
    AllMarksFit(d, source, target, side);
    if source == [] || target == [] then []
    else PaintAll(On(source, target, side), Marks(d, source, target, side))
  }

  // ---------------------------------------------------------------- the code's loops

  /** `BlockAnnotation(block, changed, ins) for ins in instructions[lo:hi]`. */
  function Extension(b: Block, changed: bool, lo: nat, hi: nat): seq<Annotation>
    requires lo <= hi <= |b.instructions|
  {
    seq(hi - lo, m requires 0 <= m < hi - lo => Annotation(b, changed, Some(b.instructions[lo + m])))
  }

  /** What one opcode adds to one side. */
  function OpcodeAnnotations(b: Block, op: Opcode, side: Side): seq<Annotation> {
    var (lo, hi) := Range(op, side);
    if op.tag.Equal? || hi < lo || |b.instructions| < hi then [] else Extension(b, op.tag.Replace?, lo, hi)
  }

  function ScriptAnnotations(b: Block, ops: seq<Opcode>, side: Side): seq<Annotation> {
    if ops == [] then [] else OpcodeAnnotations(b, ops[0], side) + ScriptAnnotations(b, ops[1..], side)
  }

  lemma DrawBlockConcat(b: Block, s: seq<Stroke>, t: seq<Stroke>)
    requires StrokesFit(s + t, |b.instructions|)
    ensures StrokesFit(s, |b.instructions|) && StrokesFit(t, |b.instructions|)
    ensures DrawBlock(b, s + t) == DrawBlock(b, s) + DrawBlock(b, t)
  {
    assert forall n :: 0 <= n < |s| ==> (s + t)[n] == s[n];
    assert forall n :: 0 <= n < |t| ==> (s + t)[|s| + n] == t[n];
  }

  lemma OpcodeDrawn(b: Block, op: Opcode, side: Side)
    requires Range(op, side).1 <= |b.instructions|
    ensures StrokesFit(OpcodeStrokes(op, side), |b.instructions|)
    ensures DrawBlock(b, OpcodeStrokes(op, side)) == OpcodeAnnotations(b, op, side)
  {
  }

  lemma {:induction false} ScriptDrawn(
    blk: Block, a: seq<string>, b: seq<string>, ops: seq<Opcode>, i: nat, j: nat, side: Side)
    requires ScriptFrom(a, b, ops, i, j) && |blk.instructions| == (if side.Source? then |a| else |b|)
    ensures StrokesFit(ScriptStrokes(ops, side), |blk.instructions|)
    ensures DrawBlock(blk, ScriptStrokes(ops, side)) == ScriptAnnotations(blk, ops, side)
  {
    ScriptStrokesFit(a, b, ops, i, j, side);
    if ops != [] {
      ScriptDrawn(blk, a, b, ops[1..], ops[0].i2, ops[0].j2, side);
      OpcodeDrawn(blk, ops[0], side);
      hide DrawBlock, OpcodeStrokes, OpcodeAnnotations;
      DrawBlockConcat(blk, OpcodeStrokes(ops[0], side), ScriptStrokes(ops[1..], side));
    }
  }

  lemma ScriptStep(left: Block, right: Block, ops: seq<Opcode>, n: nat, i: nat, j: nat)
    requires n < |ops| && ScriptFrom(Texts(left), Texts(right), ops[n..], i, j)
    ensures var op := ops[n];
      && op.i1 <= op.i2 <= |left.instructions| && op.j1 <= op.j2 <= |right.instructions|
      && ScriptFrom(Texts(left), Texts(right), ops[n + 1..], op.i2, op.j2)
      && ScriptAnnotations(left, ops[n..], Source)
         == (if op.tag == Equal then [] else Extension(left, op.tag == Replace, op.i1, op.i2))
            + ScriptAnnotations(left, ops[n + 1..], Source)
      && ScriptAnnotations(right, ops[n..], Target)
         == (if op.tag == Equal then [] else Extension(right, op.tag == Replace, op.j1, op.j2))
            + ScriptAnnotations(right, ops[n + 1..], Target)
  {
    assert ops[n..][1..] == ops[n + 1..];
  }

  /** The loop over the opcodes. */
  method ScriptDiff(left: Block, right: Block, ops: seq<Opcode>)
    returns (source: seq<Annotation>, target: seq<Annotation>)
    requires ScriptFrom(Texts(left), Texts(right), ops, 0, 0)
    ensures source == ScriptAnnotations(left, ops, Source)
    ensures target == ScriptAnnotations(right, ops, Target)
  {
    source, target := [], [];
    ghost var i, j := 0, 0;
    assert ops[0..] == ops;
    assert ScriptAnnotations(left, [], Source) == [] && ScriptAnnotations(right, [], Target) == [];
    hide ScriptAnnotations, Extension, ScriptFrom;
    for n := 0 to |ops|
      invariant ScriptFrom(Texts(left), Texts(right), ops[n..], i, j)
      invariant source + ScriptAnnotations(left, ops[n..], Source) == ScriptAnnotations(left, ops, Source)
      invariant target + ScriptAnnotations(right, ops[n..], Target) == ScriptAnnotations(right, ops, Target)
    {
      var op := ops[n];
      ScriptStep(left, right, ops, n, i, j);
      i, j := op.i2, op.j2;
      if op.tag == Equal {
        ConcatEmpty(ScriptAnnotations(left, ops[n + 1..], Source));
        ConcatEmpty(ScriptAnnotations(right, ops[n + 1..], Target));
        continue;
      }
      ghost var s, t := ScriptAnnotations(left, ops[n + 1..], Source), ScriptAnnotations(right, ops[n + 1..], Target);
      var removed := Extension(left, op.tag == Replace, op.i1, op.i2);
      var added := Extension(right, op.tag == Replace, op.j1, op.j2);
      ConcatAssociates(source, removed, s);
      ConcatAssociates(target, added, t);
      source := source + removed;
      target := target + added;
    }
  }

  lemma ConcatEmpty<T>(a: seq<T>)
    ensures [] + a == a && a + [] == a
  {
  }

  lemma ConcatAssociates<T>(a: seq<T>, b: seq<T>, c: seq<T>)
    ensures a + (b + c) == (a + b) + c
  {
  }

  method InstructionDiff(d: Difflib, left: Block, right: Block)
    returns (source: seq<Annotation>, target: seq<Annotation>)
    requires Lawful(d)
    ensures StrokesFit(DiffStrokes(d, left, right, Source), |left.instructions|)
    ensures StrokesFit(DiffStrokes(d, left, right, Target), |right.instructions|)
    ensures source == DrawBlock(left, DiffStrokes(d, left, right, Source))
    ensures target == DrawBlock(right, DiffStrokes(d, left, right, Target))
  {
    DiffStrokesFit(d, left, right, Source);
    DiffStrokesFit(d, left, right, Target);
    if left.instructions == [] || right.instructions == [] {
      return [Annotation(left, true, None)], [Annotation(right, true, None)];
    }
    var a, b := Texts(left), Texts(right);
    source, target := ScriptDiff(left, right, d.opcodes(a, b));
    ScriptDrawn(left, a, b, d.opcodes(a, b), 0, 0, Source);
    ScriptDrawn(right, a, b, d.opcodes(a, b), 0, 0, Target);
  }

  lemma DrawMarksConcat(f: seq<Block>, s: seq<Mark>, t: seq<Mark>)
    requires MarksFit(f, s) && MarksFit(f, t)
    ensures MarksFit(f, s + t) && DrawMarks(f, s + t) == DrawMarks(f, s) + DrawMarks(f, t)
  {
  }

  lemma DrawLifted(f: seq<Block>, i: nat, strokes: seq<Stroke>)
    requires i < |f| && StrokesFit(strokes, |f[i].instructions|)
    ensures MarksFit(f, Lift(i, strokes)) && DrawMarks(f, Lift(i, strokes)) == DrawBlock(f[i], strokes)
  {
  }

  /** One more pair extends what is drawn on a side by its strokes there. */
  lemma PairDrawn(
    d: Difflib, source: seq<Block>, target: seq<Block>, before: seq<Mark>, pairs: seq<(nat, nat)>, n: nat, side: Side)
    requires Lawful(d) && PairsWithin(pairs, source, target) && n < |pairs|
    requires MarksFit(On(source, target, side), before + PairMarks(d, source, target, pairs[..n], side))
    ensures var f := On(source, target, side); var (l, r) := (source[pairs[n].0], target[pairs[n].1]);
      && StrokesFit(DiffStrokes(d, l, r, side), |BlockOn(l, r, side).instructions|)
      && MarksFit(f, before + PairMarks(d, source, target, pairs[..n + 1], side))
      && DrawMarks(f, before + PairMarks(d, source, target, pairs[..n + 1], side))
         == DrawMarks(f, before + PairMarks(d, source, target, pairs[..n], side))
            + DrawBlock(BlockOn(l, r, side), DiffStrokes(d, l, r, side))
  {
    var f := On(source, target, side);
    var (l, r) := (source[pairs[n].0], target[pairs[n].1]);
    var strokes, i := DiffStrokes(d, l, r, side), At(pairs[n], side);
    var sofar := before + PairMarks(d, source, target, pairs[..n], side);
    DiffStrokesFit(d, l, r, side);
    PairMarksStep(d, source, target, before, pairs, n, side);
    assert f[i] == BlockOn(l, r, side);
    hide *;
    DrawMore(f, sofar, i, strokes);
  }

  lemma PairMarksStep(
    d: Difflib, source: seq<Block>, target: seq<Block>, before: seq<Mark>, pairs: seq<(nat, nat)>, n: nat, side: Side)
    requires PairsWithin(pairs, source, target) && n < |pairs|
    ensures before + PairMarks(d, source, target, pairs[..n + 1], side)
         == (before + PairMarks(d, source, target, pairs[..n], side))
            + Lift(At(pairs[n], side), DiffStrokes(d, source[pairs[n].0], target[pairs[n].1], side))
  {
    hide Lift, DiffStrokes;
    assert pairs[..n + 1][..n] == pairs[..n];
  }

  lemma DrawMore(f: seq<Block>, sofar: seq<Mark>, i: nat, strokes: seq<Stroke>)
    requires MarksFit(f, sofar) && i < |f| && StrokesFit(strokes, |f[i].instructions|)
    ensures MarksFit(f, sofar + Lift(i, strokes))
    ensures DrawMarks(f, sofar + Lift(i, strokes)) == DrawMarks(f, sofar) + DrawBlock(f[i], strokes)
  {
    DrawLifted(f, i, strokes);
    DrawMarksConcat(f, sofar, Lift(i, strokes));
  }

  method FindPairs(d: Difflib, source: seq<Block>, target: seq<Block>, left: seq<nat>, right: seq<nat>)
    returns (pairs: seq<(nat, nat)>)
    requires Within(left, |source|) && Within(right, |target|)
    ensures pairs == PairsAmong(d, source, target, left, right)
  {
    var sourceEntry, targetEntry := FirstEntryAmong(source, left), FirstEntryAmong(target, right);
    if sourceEntry.Some? && targetEntry.Some? {
      WithoutWithin(left, sourceEntry.value, |source|);
      WithoutWithin(right, targetEntry.value, |target|);
      var rest := FindChangedPairs(d, source, target,
                                   Without(left, sourceEntry.value), Without(right, targetEntry.value));
      pairs := [(sourceEntry.value, targetEntry.value)] + rest;
    } else {
      pairs := FindChangedPairs(d, source, target, left, right);
    }
  }

  method DrawPairs(
    d: Difflib, source: seq<Block>, target: seq<Block>, pairs: seq<(nat, nat)>,
    ghost s0: seq<Mark>, ghost t0: seq<Mark>, sourceStart: seq<Annotation>, targetStart: seq<Annotation>)
    returns (sourceOut: seq<Annotation>, targetOut: seq<Annotation>)
    requires Lawful(d) && PairsWithin(pairs, source, target) && MarksFit(source, s0) && MarksFit(target, t0)
    requires sourceStart == DrawMarks(source, s0) && targetStart == DrawMarks(target, t0)
    ensures MarksFit(source, s0 + PairMarks(d, source, target, pairs, Source))
    ensures MarksFit(target, t0 + PairMarks(d, source, target, pairs, Target))
    ensures sourceOut == DrawMarks(source, s0 + PairMarks(d, source, target, pairs, Source))
    ensures targetOut == DrawMarks(target, t0 + PairMarks(d, source, target, pairs, Target))
  {
    sourceOut, targetOut := sourceStart, targetStart;
    ConcatEmpty(s0);
    ConcatEmpty(t0);
    assert PairMarks(d, source, target, pairs[..0], Source) == [] == PairMarks(d, source, target, pairs[..0], Target);
    hide DrawMarks, PairMarks, MarksFit, DrawBlock, DiffStrokes, Lawful;
    for n := 0 to |pairs|
      invariant MarksFit(source, s0 + PairMarks(d, source, target, pairs[..n], Source))
      invariant MarksFit(target, t0 + PairMarks(d, source, target, pairs[..n], Target))
      invariant sourceOut == DrawMarks(source, s0 + PairMarks(d, source, target, pairs[..n], Source))
      invariant targetOut == DrawMarks(target, t0 + PairMarks(d, source, target, pairs[..n], Target))
    {
      PairDrawn(d, source, target, s0, pairs, n, Source);
      PairDrawn(d, source, target, t0, pairs, n, Target);
      var left, right := InstructionDiff(d, source[pairs[n].0], target[pairs[n].1]);
      sourceOut := sourceOut + left;
      targetOut := targetOut + right;
    }
    assert pairs[..|pairs|] == pairs;
  }

  function EntryChangedAll(annotations: seq<Annotation>): seq<Annotation> {
    seq(|annotations|, n requires 0 <= n < |annotations| => EntryChanged(annotations[n]))
  }

  method Annotations(d: Difflib, source: seq<Block>, target: seq<Block>)
    returns (sourceOut: seq<Annotation>, targetOut: seq<Annotation>)
    requires Lawful(d)
    ensures MarksFit(source, Marks(d, source, target, Source))
    ensures MarksFit(target, Marks(d, source, target, Target))
    ensures sourceOut == PaintAll(source, Marks(d, source, target, Source))
    ensures targetOut == PaintAll(target, Marks(d, source, target, Target))
  {
    var sourceLeft, targetLeft := Unanchored(source, target);
    LeftOverWithin(source, target);
    LeftOverWithin(target, source);
    var pairs := FindPairs(d, source, target, sourceLeft, targetLeft);
    PairsOfWithin(d, source, target);
    hide LeftOver, PairsAmong, Lawful, MarksFit, DrawMarks, PaintAll, EntryChangedAll, PairMarks, UnpairedMarks;
    UnpairedMarksFit(source, sourceLeft, pairs, Source);
    UnpairedMarksFit(target, targetLeft, pairs, Target);
    var s0, t0 := UnpairedMarks(sourceLeft, pairs, Source), UnpairedMarks(targetLeft, pairs, Target);
    sourceOut, targetOut := DrawPairs(d, source, target, pairs, s0, t0, DrawMarks(source, s0), DrawMarks(target, t0));
    PaintIsEntryChanged(source, s0 + PairMarks(d, source, target, pairs, Source));
    PaintIsEntryChanged(target, t0 + PairMarks(d, source, target, pairs, Target));
    sourceOut, targetOut := EntryChangedAll(sourceOut), EntryChangedAll(targetOut);
  }

  lemma PaintIsEntryChanged(f: seq<Block>, marks: seq<Mark>)
    requires MarksFit(f, marks)
    ensures EntryChangedAll(DrawMarks(f, marks)) == PaintAll(f, marks)
  {
  }

  method AnnotationBlocks(d: Difflib, source: seq<Block>, target: seq<Block>)
    returns (sourceOut: seq<Annotation>, targetOut: seq<Annotation>)
    requires Lawful(d)
    ensures sourceOut == Painted(d, source, target, Source)
    ensures targetOut == Painted(d, source, target, Target)
  {
    if source == [] || target == [] {
      return [], [];
    }
    sourceOut, targetOut := Annotations(d, source, target);
  }
}
