/** What the `changed` flag of an annotation says: the painted range has a counterpart that differs. */
module Changes {
  import opened Collections
  import opened Blocks
  import opened Similarity
  import opened Painting
  import opened Coverage

  function Other(side: Side): Side {
    if side.Source? then Target else Source
  }

  /** Where a painted range lies: an unpaired block, a block of pair `n`, or instruction `k` in its opcode `o`. */
  datatype Place = Alone(i: nat) | Whole(n: nat) | Piece(n: nat, o: nat, k: nat)

  /** The edit script between the blocks of a pair. */
  function Script(d: Difflib, source: seq<Block>, target: seq<Block>, p: (nat, nat)): seq<Opcode>
    requires p.0 < |source| && p.1 < |target|
  {
    d.opcodes(Texts(source[p.0]), Texts(target[p.1]))
  }

  /** The blocks of a pair are compared by instruction. */
  predicate Comparable(source: seq<Block>, target: seq<Block>, p: (nat, nat))
    requires p.0 < |source| && p.1 < |target|
  {
    source[p.0].instructions != [] && target[p.1].instructions != []
  }

  /** Annotation `a` on one side is the range at this place, and the place is one to paint. */
  predicate Lies(d: Difflib, source: seq<Block>, target: seq<Block>, side: Side, place: Place, a: Annotation) {
    var f, pairs := On(source, target, side), PairsOf(d, source, target);
    match place
    case Alone(i) =>
      && i < |f| && i in LeftOn(source, target, side) && !Paired(pairs, side, i)
      && a.block == f[i] && a.instruction == None
    case Whole(n) =>
      && n < |pairs| && pairs[n].0 < |source| && pairs[n].1 < |target| && !Comparable(source, target, pairs[n])
      && a.block == f[At(pairs[n], side)] && a.instruction == None
    case Piece(n, o, k) =>
      && n < |pairs| && pairs[n].0 < |source| && pairs[n].1 < |target| && Comparable(source, target, pairs[n])
      && o < |Script(d, source, target, pairs[n])|
      && (var op, b := Script(d, source, target, pairs[n])[o], f[At(pairs[n], side)];
          && op.tag != Equal && Range(op, side).0 <= k < Range(op, side).1 && k < |b.instructions|
          && a.block == b && a.instruction == Some(b.instructions[k]))
  }

  /** Annotation `b` on the other side is a counterpart: the other block of the pair, or a piece in the same opcode. */
  predicate Counterpart(d: Difflib, source: seq<Block>, target: seq<Block>, side: Side, place: Place, b: Annotation) {
    var pairs := PairsOf(d, source, target);
    match place
    case Alone(_) => false
    case Whole(n) => Lies(d, source, target, Other(side), place, b)
    case Piece(n, o, _) =>
      && n < |pairs| && At(pairs[n], Other(side)) < |On(source, target, Other(side))|
      && exists l: nat :: l < |On(source, target, Other(side))[At(pairs[n], Other(side))].instructions|
                          && Lies(d, source, target, Other(side), Piece(n, o, l), b)
  }

  /** The annotation starts at the start of an entry block, as the function header does. */
  predicate AtEntry(a: Annotation) {
    a.block.entry && Offset(a) == a.block.offset
  }

  // ---------------------------------------------------------------- strokes and the opcodes they come from

  /** Opcode `o` of the script strikes instruction `k`. */
  predicate Struck(ops: seq<Opcode>, side: Side, o: nat, k: nat) {
    o < |ops| && ops[o].tag != Equal && Range(ops[o], side).0 <= k < Range(ops[o], side).1
  }

  lemma {:induction false} StrokeOrigin(ops: seq<Opcode>, side: Side, p: nat) returns (o: nat, k: nat)
    requires p < |ScriptStrokes(ops, side)|
    ensures Struck(ops, side, o, k) && ScriptStrokes(ops, side)[p] == Stroke(Some(k), ops[o].tag.Replace?)
  {
    var first := OpcodeStrokes(ops[0], side);
    if p < |first| {
      o, k := 0, Range(ops[0], side).0 + p;
    } else {
      o, k := StrokeOrigin(ops[1..], side, p - |first|);
      o := o + 1;
    }
  }

  lemma {:induction false} StrokeOfOpcode(ops: seq<Opcode>, side: Side, o: nat, k: nat) returns (p: nat)
    requires Struck(ops, side, o, k)
    ensures p < |ScriptStrokes(ops, side)| && ScriptStrokes(ops, side)[p] == Stroke(Some(k), ops[o].tag.Replace?)
  {
    if o == 0 {
      p := k - Range(ops[0], side).0;
      assert OpcodeStrokes(ops[0], side)[p] == Stroke(Some(k), ops[0].tag.Replace?);
    } else {
      var q := StrokeOfOpcode(ops[1..], side, o - 1, k);
      p := |OpcodeStrokes(ops[0], side)| + q;
    }
  }

  lemma {:induction false} OpcodeShape(a: seq<string>, b: seq<string>, ops: seq<Opcode>, i: nat, j: nat, o: nat)
    requires ScriptFrom(a, b, ops, i, j) && o < |ops|
    ensures ops[o].i1 <= ops[o].i2 <= |a| && ops[o].j1 <= ops[o].j2 <= |b|
    ensures ops[o].tag.Replace? ==> ops[o].i1 < ops[o].i2 && ops[o].j1 < ops[o].j2
    ensures ops[o].tag.Delete? ==> ops[o].j1 == ops[o].j2
    ensures ops[o].tag.Insert? ==> ops[o].i1 == ops[o].i2
  {
    if o > 0 {
      OpcodeShape(a, b, ops[1..], ops[0].i2, ops[0].j2, o - 1);
    }
  }

  lemma {:induction false} StrokeIsMarked(marks: seq<Mark>, i: nat, p: nat) returns (x: nat)
    requires p < |StrokesAt(marks, i)|
    ensures x < |marks| && marks[x] == Mark(i, StrokesAt(marks, i)[p])
    decreases |marks|
  {
    var shorter := marks[..|marks| - 1];
    if p < |StrokesAt(shorter, i)| {
      x := StrokeIsMarked(shorter, i, p);
    } else {
      x := |marks| - 1;
    }
  }

  // ---------------------------------------------------------------- places and their strokes

  /** Whether the place is one whose other side is painted too. */
  predicate Matched(d: Difflib, source: seq<Block>, target: seq<Block>, place: Place) {
    var pairs := PairsOf(d, source, target);
    match place
    case Alone(_) => false
    case Whole(_) => true
    case Piece(n, o, _) =>
      && n < |pairs| && pairs[n].0 < |source| && pairs[n].1 < |target|
      && o < |Script(d, source, target, pairs[n])| && Script(d, source, target, pairs[n])[o].tag.Replace?
  }

  /** Every stroke on a block is that of some place, and is changed exactly if the place is matched. */
  lemma StrokePlace(d: Difflib, source: seq<Block>, target: seq<Block>, side: Side, i: nat, p: nat, a: Annotation)
    returns (place: Place)
    requires Lawful(d) && i < |On(source, target, side)| && i in LeftOn(source, target, side)
    requires p < |StrokesAt(Marks(d, source, target, side), i)|
    requires var stroke := StrokesAt(Marks(d, source, target, side), i)[p];
             && MarkFits(On(source, target, side), Mark(i, stroke))
             && a == EntryChanged(Draw(On(source, target, side)[i], stroke))
    ensures Lies(d, source, target, side, place, a)
    ensures Matched(d, source, target, place) == StrokesAt(Marks(d, source, target, side), i)[p].changed
  {
    var pairs := PairsOf(d, source, target);
    PaintedExactlyOnce(d, source, target, side, i);
    hide PairsOf, LeftOn, Marks, Lawful, StrokesAt, ScriptStrokes;
    if !Paired(pairs, side, i) {
      place := Alone(i);
    } else {
      var n: nat :| n < |pairs| && At(pairs[n], side) == i;
      if Comparable(source, target, pairs[n]) {
        var o, k := StrokeOrigin(Script(d, source, target, pairs[n]), side, p);
        place := Piece(n, o, k);
      } else {
        place := Whole(n);
      }
    }
  }

  lemma PaintedPlace(d: Difflib, source: seq<Block>, target: seq<Block>, side: Side, x: nat) returns (place: Place)
    requires Lawful(d) && x < |Painted(d, source, target, side)|
    ensures Lies(d, source, target, side, place, Painted(d, source, target, side)[x])
    ensures Painted(d, source, target, side)[x].changed
            <==> AtEntry(Painted(d, source, target, side)[x]) || Matched(d, source, target, place)
  {
    var marks, f := Marks(d, source, target, side), On(source, target, side);
    PaintedAt(d, source, target, side, x);
    MarkedIsLeftOver(d, source, target, side, x);
    hide Painted, Marks, LeftOn, Lawful, Lies, Matched, StrokesAt;
    var p := MarkAsStroke(marks, x);
    place := StrokePlace(d, source, target, side, marks[x].i, p, Painted(d, source, target, side)[x]);
  }

  /** A stroke on a block is painted as an annotation there. */
  lemma StrokeIsPainted(d: Difflib, source: seq<Block>, target: seq<Block>, side: Side, i: nat, p: nat) returns (y: nat)
    requires Lawful(d) && source != [] && target != [] && p < |StrokesAt(Marks(d, source, target, side), i)|
    ensures var stroke := StrokesAt(Marks(d, source, target, side), i)[p];
            && MarkFits(On(source, target, side), Mark(i, stroke)) && y < |Painted(d, source, target, side)|
            && Painted(d, source, target, side)[y] == EntryChanged(Draw(On(source, target, side)[i], stroke))
  {
    AllMarksFit(d, source, target, side);
    hide Marks, Lawful, StrokesAt;
    y := StrokeIsMarked(Marks(d, source, target, side), i, p);
  }

  /** The strokes of a pair on either of its blocks are all there is on that block. */
  lemma PairStrokes(d: Difflib, source: seq<Block>, target: seq<Block>, side: Side, n: nat)
    requires n < |PairsOf(d, source, target)|
    ensures var pair := PairsOf(d, source, target)[n];
            && pair.0 < |source| && pair.1 < |target|
            && StrokesAt(Marks(d, source, target, side), At(pair, side))
               == DiffStrokes(d, source[pair.0], target[pair.1], side)
  {
    hide *;
    PaintedExactlyOnce(d, source, target, side, At(PairsOf(d, source, target)[n], side));
    PairsOfWithin(d, source, target);
    WithinAt(PairsOf(d, source, target), source, target, n);
  }

  lemma WithinAt(pairs: seq<(nat, nat)>, source: seq<Block>, target: seq<Block>, n: nat)
    requires PairsWithin(pairs, source, target) && n < |pairs|
    ensures pairs[n].0 < |source| && pairs[n].1 < |target|
  {
  }

  lemma WholeHasCounterpart(d: Difflib, source: seq<Block>, target: seq<Block>, side: Side, n: nat, a: Annotation)
    returns (y: nat)
    requires Lawful(d) && source != [] && target != [] && Lies(d, source, target, side, Whole(n), a)
    ensures y < |Painted(d, source, target, Other(side))| && Painted(d, source, target, Other(side))[y].changed
    ensures Lies(d, source, target, Other(side), Whole(n), Painted(d, source, target, Other(side))[y])
  {
    hide PairsOf, LeftOn, Marks, Lawful, StrokesAt, Painted;
    var j := At(PairsOf(d, source, target)[n], Other(side));
    PairStrokes(d, source, target, Other(side), n);
    y := StrokeIsPainted(d, source, target, Other(side), j, 0);
  }

  lemma PieceHasCounterpart(
    d: Difflib, source: seq<Block>, target: seq<Block>, side: Side, n: nat, o: nat, k: nat, a: Annotation)
    returns (y: nat, l: nat)
    requires Lawful(d) && source != [] && target != [] && Lies(d, source, target, side, Piece(n, o, k), a)
    requires Matched(d, source, target, Piece(n, o, k))
    ensures y < |Painted(d, source, target, Other(side))| && Painted(d, source, target, Other(side))[y].changed
    ensures Lies(d, source, target, Other(side), Piece(n, o, l), Painted(d, source, target, Other(side))[y])
  {
    var pair := PairsOf(d, source, target)[n];
    var ops := Script(d, source, target, pair);
    OpcodeShape(Texts(source[pair.0]), Texts(target[pair.1]), ops, 0, 0, o);
    l := Range(ops[o], Other(side)).0;
    hide PairsOf, LeftOn, Marks, Lawful, StrokesAt, Painted, ScriptStrokes;
    PairStrokes(d, source, target, Other(side), n);
    var q := StrokeOfOpcode(ops, Other(side), o, l);
    y := StrokeIsPainted(d, source, target, Other(side), At(pair, Other(side)), q);
  }

  /** A matched place has a changed counterpart on the other side. */
  lemma MatchedHasCounterpart(
    d: Difflib, source: seq<Block>, target: seq<Block>, side: Side, place: Place, a: Annotation) returns (y: nat)
    requires Lawful(d) && source != [] && target != []
    requires Lies(d, source, target, side, place, a) && Matched(d, source, target, place)
    ensures y < |Painted(d, source, target, Other(side))| && Painted(d, source, target, Other(side))[y].changed
    ensures Counterpart(d, source, target, side, place, Painted(d, source, target, Other(side))[y])
  {
    hide PairsOf, LeftOn, Marks, Lawful, Painted;
    if place.Whole? {
      y := WholeHasCounterpart(d, source, target, side, place.n, a);
    } else {
      var l: nat;
      y, l := PieceHasCounterpart(d, source, target, side, place.n, place.o, place.k, a);
    }
  }

  /** Only a matched place has a counterpart: what is inserted or deleted faces nothing. */
  lemma CounterpartIsMatched(
    d: Difflib, source: seq<Block>, target: seq<Block>, side: Side, place: Place, a: Annotation, b: Annotation)
    requires Lawful(d) && Lies(d, source, target, side, place, a)
    requires Counterpart(d, source, target, side, place, b)
    ensures Matched(d, source, target, place)
  {
    if place.Piece? {
      var pair := PairsOf(d, source, target)[place.n];
      var ops := Script(d, source, target, pair);
      OpcodeShape(Texts(source[pair.0]), Texts(target[pair.1]), ops, 0, 0, place.o);
    }
  }

  /**
   * A painted range is marked as changed exactly if it starts an entry block or has a counterpart painted on the other
   * side, and then some counterpart is marked as changed too. What has none was removed or added.
   */
  lemma ChangedMeansCounterpart(d: Difflib, source: seq<Block>, target: seq<Block>, side: Side, x: nat)
    returns (place: Place)
    requires Lawful(d) && x < |Painted(d, source, target, side)|
    ensures var a, others := Painted(d, source, target, side)[x], Painted(d, source, target, Other(side));
            && Lies(d, source, target, side, place, a)
            && (a.changed <==>
                  AtEntry(a) || exists y :: 0 <= y < |others| && Counterpart(d, source, target, side, place, others[y]))
            && (a.changed && !AtEntry(a) ==>
                  exists y :: 0 <= y < |others| && others[y].changed
                              && Counterpart(d, source, target, side, place, others[y]))
  {
    var a, others := Painted(d, source, target, side)[x], Painted(d, source, target, Other(side));
    assert source != [] && target != [];
    hide *;
    place := PaintedPlace(d, source, target, side, x);
    if Matched(d, source, target, place) {
      var y := MatchedHasCounterpart(d, source, target, side, place, a);
    }
    forall y | 0 <= y < |others| && Counterpart(d, source, target, side, place, others[y])
      ensures Matched(d, source, target, place)
    {
      CounterpartIsMatched(d, source, target, side, place, a, others[y]);
    }
  }
}
