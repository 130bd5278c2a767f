/** What a rendered diff leaves unpainted, and when it paints nothing. */
module Remainder {
  import opened Collections
  import opened Blocks
  import opened Similarity
  import opened Anchoring
  import opened Painting
  import opened Coverage

  // ---------------------------------------------------------------- what hash_smda_function guarantees

  /** A block's text is that of its instructions, when they are kept. */
  ghost predicate Hashed(f: seq<Block>) {
    forall i :: 0 <= i < |f| && f[i].instructions != [] ==> f[i].escaped == Join(f[i].instructions)
  }

  /** Equal texts have equal digests. */
  ghost predicate DigestOfText(source: seq<Block>, target: seq<Block>) {
    forall x, y :: x in source + target && y in source + target && x.escaped == y.escaped ==> x.digest == y.digest
  }

  /** The digest separates texts: no two different texts collide. */
  ghost predicate DigestSeparates(source: seq<Block>, target: seq<Block>) {
    forall x, y :: x in source + target && y in source + target && x.digest == y.digest ==> x.escaped == y.escaped
  }

  ghost predicate AtMostOneEntry(f: seq<Block>) {
    forall i, j :: 0 <= i < |f| && 0 <= j < |f| && f[i].entry && f[j].entry ==> i == j
  }

  // ---------------------------------------------------------------- erasing what is painted

  predicate Strikes(strokes: seq<Stroke>, k: Option<nat>) {
    exists n :: 0 <= n < |strokes| && strokes[n].k == k
  }

  function KeptIf(texts: seq<string>, struck: nat -> bool, k: nat): string
    requires k <= |texts|
    decreases |texts| - k
  {
    if k == |texts| then "" else (if struck(k) then "" else texts[k]) + KeptIf(texts, struck, k + 1)
  }

  function StruckBy(strokes: seq<Stroke>): nat -> bool {
    (k: nat) => Strikes(strokes, Some(k))
  }

  function StrokeText(b: Block, strokes: seq<Stroke>): string {
    if Strikes(strokes, None) then ""
    else if b.instructions == [] then b.escaped
    else KeptIf(Texts(b), StruckBy(strokes), 0)
  }

  // ---------------------------------------------------------------- a changed pair keeps equal text

  function Concat(texts: seq<string>): string {
    if texts == [] then "" else texts[0] + Concat(texts[1..])
  }

  lemma {:induction false} StruckRange(texts: seq<string>, struck: nat -> bool, lo: nat, hi: nat)
    requires lo <= hi <= |texts| && forall k: nat :: lo <= k < hi ==> struck(k)
    ensures KeptIf(texts, struck, lo) == KeptIf(texts, struck, hi)
    decreases hi - lo
  {
    if lo < hi {
      StruckRange(texts, struck, lo + 1, hi);
    }
  }

  lemma {:induction false} KeptRange(texts: seq<string>, struck: nat -> bool, lo: nat, hi: nat)
    requires lo <= hi <= |texts| && forall k: nat :: lo <= k < hi ==> !struck(k)
    ensures KeptIf(texts, struck, lo) == Concat(texts[lo..hi]) + KeptIf(texts, struck, hi)
    decreases hi - lo
  {
    if lo < hi {
      KeptRange(texts, struck, lo + 1, hi);
      assert texts[lo..hi][1..] == texts[lo + 1..hi];
      ConcatAssociates(texts[lo], Concat(texts[lo + 1..hi]), KeptIf(texts, struck, hi));
    }
  }

  /** From (i, j) on, what a script leaves unstruck is the same on both sides. */
  lemma {:induction false} ScriptKeepsEqualText(
    a: seq<string>, b: seq<string>, ops: seq<Opcode>, i: nat, j: nat, struckA: nat -> bool, struckB: nat -> bool)
    requires ScriptFrom(a, b, ops, i, j) && i <= |a| && j <= |b|
    requires forall k: nat :: i <= k ==> (struckA(k) <==> Strikes(ScriptStrokes(ops, Source), Some(k)))
    requires forall k: nat :: j <= k ==> (struckB(k) <==> Strikes(ScriptStrokes(ops, Target), Some(k)))
    ensures KeptIf(a, struckA, i) == KeptIf(b, struckB, j)
  {
    if ops != [] {
      var op := ops[0];
      OpcodeStrikes(a, b, ops, i, j, Source);
      OpcodeStrikes(a, b, ops, i, j, Target);
      ScriptKeepsEqualText(a, b, ops[1..], op.i2, op.j2, struckA, struckB);
      hide ScriptStrokes, KeptIf, Concat, Strikes, ScriptFrom;
      if op.tag == Equal {
        KeptRange(a, struckA, op.i1, op.i2);
        KeptRange(b, struckB, op.j1, op.j2);
      } else {
        StruckRange(a, struckA, op.i1, op.i2);
        StruckRange(b, struckB, op.j1, op.j2);
      }
    }
  }

  /** The first opcode strikes all of its range or none of it, and nothing beyond. */
  lemma OpcodeStrikes(a: seq<string>, b: seq<string>, ops: seq<Opcode>, i: nat, j: nat, side: Side)
    requires ops != [] && ScriptFrom(a, b, ops, i, j)
    ensures var (lo, hi) := Range(ops[0], side);
      && (forall k: nat :: lo <= k < hi ==> (Strikes(ScriptStrokes(ops, side), Some(k)) <==> ops[0].tag != Equal))
      && (forall k: nat :: hi <= k ==>
           (Strikes(ScriptStrokes(ops, side), Some(k)) <==> Strikes(ScriptStrokes(ops[1..], side), Some(k))))
  {
    var (lo, hi) := Range(ops[0], side);
    var first, rest := OpcodeStrokes(ops[0], side), ScriptStrokes(ops[1..], side);
    assert ScriptStrokes(ops, side) == first + rest;
    ScriptStrokesAscend(a, b, ops[1..], ops[0].i2, ops[0].j2, side);
    forall k: nat | k < hi ensures !Strikes(rest, Some(k)) {
    }
    hide OpcodeStrokes, ScriptStrokes, Strikes, ScriptFrom;
    forall k: nat ensures Strikes(first + rest, Some(k)) <==> Strikes(first, Some(k)) || Strikes(rest, Some(k)) {
      StrikesConcat(first, rest, Some(k));
    }
    forall k: nat ensures Strikes(first, Some(k)) <==> ops[0].tag != Equal && lo <= k < hi {
      OpcodeStrikesRange(ops[0], side, k);
    }
  }

  lemma OpcodeStrikesRange(op: Opcode, side: Side, k: nat)
    ensures var (lo, hi) := Range(op, side);
      Strikes(OpcodeStrokes(op, side), Some(k)) <==> op.tag != Equal && lo <= k < hi
  {
    var (lo, hi) := Range(op, side);
    if op.tag != Equal && lo <= k < hi {
      assert OpcodeStrokes(op, side)[k - lo].k == Some(k);
    }
  }

  lemma StrikesConcat(s: seq<Stroke>, t: seq<Stroke>, k: Option<nat>)
    ensures Strikes(s + t, k) <==> Strikes(s, k) || Strikes(t, k)
  {
    if n :| 0 <= n < |s| && s[n].k == k {
      assert (s + t)[n].k == k;
    }
    if n :| 0 <= n < |t| && t[n].k == k {
      assert (s + t)[|s| + n].k == k;
    }
  }

  /** Erasing the painted instructions of a changed pair leaves the same text on both sides. */
  lemma PairKeepsEqualText(d: Difflib, left: Block, right: Block)
    requires Lawful(d)
    ensures StrokeText(left, DiffStrokes(d, left, right, Source))
            == StrokeText(right, DiffStrokes(d, left, right, Target))
  {
    if left.instructions == [] || right.instructions == [] {
      assert Strikes([Stroke(None, true)], None) by { assert [Stroke(None, true)][0].k == None; }
    } else {
      var a, b := Texts(left), Texts(right);
      var ops := d.opcodes(a, b);
      ScriptStrokesAscend(a, b, ops, 0, 0, Source);
      ScriptStrokesAscend(a, b, ops, 0, 0, Target);
      ScriptKeepsEqualText(a, b, ops, 0, 0, StruckBy(ScriptStrokes(ops, Source)), StruckBy(ScriptStrokes(ops, Target)));
    }
  }

  lemma {:induction false} AllKept(b: Block, struck: nat -> bool, k: nat)
    requires k <= |b.instructions| && forall l: nat :: !struck(l)
    ensures KeptIf(Texts(b), struck, k) == Join(b.instructions[k..])
    decreases |b.instructions| - k
  {
    if k < |b.instructions| {
      AllKept(b, struck, k + 1);
      assert b.instructions[k..][1..] == b.instructions[k + 1..];
    }
  }

  lemma UnpaintedBlockKeepsText(b: Block)
    requires b.instructions != [] ==> b.escaped == Join(b.instructions)
    ensures StrokeText(b, []) == b.escaped
  {
    AllKept(b, StruckBy([]), 0);
    assert b.instructions[0..] == b.instructions;
  }

  // ---------------------------------------------------------------- the unpainted remainders agree

  /** Block `i` of one side keeps exactly `text` once everything painted on it is erased. */
  predicate Keeps(d: Difflib, source: seq<Block>, target: seq<Block>, side: Side, text: string, i: nat) {
    && i < |On(source, target, side)|
    && StrokeText(On(source, target, side)[i], StrokesAt(Marks(d, source, target, side), i)) == text
  }

  /** The pair with number `n` keeps `text` on that side. */
  predicate PairKeeps(
    d: Difflib, source: seq<Block>, target: seq<Block>, pairs: seq<(nat, nat)>, side: Side, text: string, n: nat)
  {
    && n < |pairs| && pairs[n].0 < |source| && pairs[n].1 < |target|
    && StrokeText(On(source, target, side)[At(pairs[n], side)],
                  DiffStrokes(d, source[pairs[n].0], target[pairs[n].1], side)) == text
  }

  predicate HitBy(
    d: Difflib, source: seq<Block>, target: seq<Block>, pairs: seq<(nat, nat)>, side: Side, text: string, i: nat)
  {
    exists n: nat :: n < |pairs| && At(pairs[n], side) == i && PairKeeps(d, source, target, pairs, side, text, n)
  }

  predicate AnchoredOn(source: seq<Block>, target: seq<Block>, side: Side, i: nat)
    requires i < |On(source, target, side)|
  {
    if side.Source? then Anchored(source, target, i) else Anchored(target, source, i)
  }

  /** A non-empty remainder is that of an anchored block, or of one block of a changed pair. */
  lemma KeepsMeans(d: Difflib, source: seq<Block>, target: seq<Block>, side: Side, text: string, i: nat)
    requires text != "" && Hashed(On(source, target, side))
    requires i < |On(source, target, side)|
    ensures var pairs := PairsOf(d, source, target);
      && (Keeps(d, source, target, side, text, i) <==>
           (AnchoredOn(source, target, side, i) && On(source, target, side)[i].escaped == text)
           || HitBy(d, source, target, pairs, side, text, i))
      && (AnchoredOn(source, target, side, i) ==> !Paired(pairs, side, i))
  {
    var f := On(source, target, side);
    var marks := Marks(d, source, target, side);
    var pairs := PairsOf(d, source, target);
    LeftOverMembers(source, target);
    LeftOverMembers(target, source);
    assert AnchoredOn(source, target, side, i) <==> i !in LeftOn(source, target, side);
    hide Marks, PairsOf, LeftOn, AnchoredOn, StrokesAt, DiffStrokes;
    PaintedExactlyOnce(d, source, target, side, i);
    UnpaintedBlockKeepsText(f[i]);
    assert Strikes([Stroke(None, false)], None) by { assert [Stroke(None, false)][0].k == None; }
    hide StrokeText, Strikes;
    if Paired(pairs, side, i) {
      var n: nat :| n < |pairs| && At(pairs[n], side) == i;
      assert f[At(pairs[n], side)] == f[i];
      assert HitBy(d, source, target, pairs, side, text, i) <==> PairKeeps(d, source, target, pairs, side, text, n);
    }
  }

  // ---------------------------------------------------------------- counting the remainders

  /** Some place in the list that satisfies `w` names `i`. */
  ghost predicate Listed(hits: seq<nat>, w: nat -> bool, i: nat) {
    exists m: nat :: m < |hits| && hits[m] == i && w(m)
  }

  /** Counting the indices that some listed, distinct index hits is counting the list. */
  lemma {:induction false} TallyOfList(n: nat, hits: seq<nat>, p: nat -> bool, w: nat -> bool)
    requires Distinct(hits) && forall m :: 0 <= m < |hits| ==> hits[m] < n
    requires forall i: nat :: i < n ==> (p(i) <==> Listed(hits, w, i))
    ensures Tally(n, p) == Tally(|hits|, w)
    decreases |hits|
  {
    if hits == [] {
      TallyNone(n, p);
    } else {
      var last := |hits| - 1;
      var shorter := hits[..last];
      var q := (i: nat) => Listed(shorter, w, i);
      var r := (i: nat) => i == hits[last] && w(last);
      forall i: nat | i < n ensures (p(i) <==> q(i) || r(i)) && !(q(i) && r(i)) {
        ListedExtends(hits, w, i);
      }
      assert forall i: nat :: q(i) == Listed(shorter, w, i);
      hide Tally, Listed, Distinct;
      TallyOfList(n, shorter, q, w);
      TallySingle(n, hits[last], w(last), r);
      TallySplits(n, p, q, r);
      TallyLast(|hits|, w);
    }
  }

  lemma TallyLast(n: nat, w: nat -> bool)
    requires n > 0
    ensures Tally(n, w) == Tally(n - 1, w) + (if w(n - 1) then 1 else 0)
  {
  }

  lemma ListedExtends(hits: seq<nat>, w: nat -> bool, i: nat)
    requires hits != [] && Distinct(hits)
    ensures var last := |hits| - 1; var here := i == hits[last] && w(last);
      && (Listed(hits, w, i) <==> Listed(hits[..last], w, i) || here)
      && !(Listed(hits[..last], w, i) && here)
      && Distinct(hits[..last])
  {
    var last := |hits| - 1;
    var shorter := hits[..last];
    if m: nat :| m < |shorter| && shorter[m] == i && w(m) {
      assert hits[m] == i;
    }
    if m: nat :| m < |hits| && hits[m] == i && w(m) {
      assert m < last ==> shorter[m] == i;
    }
  }

  lemma {:induction false} TallyNone(n: nat, p: nat -> bool)
    requires forall i: nat :: i < n ==> !p(i)
    ensures Tally(n, p) == 0
  {
    if n > 0 {
      TallyNone(n - 1, p);
    }
  }

  lemma {:induction false} TallySingle(n: nat, at: nat, here: bool, r: nat -> bool)
    requires forall i: nat :: i < n ==> (r(i) <==> i == at && here)
    ensures Tally(n, r) == if here && at < n then 1 else 0
  {
    if n > 0 {
      TallySingle(n - 1, at, here, r);
    }
  }

  function Hits(pairs: seq<(nat, nat)>, side: Side): seq<nat> {
    seq(|pairs|, n requires 0 <= n < |pairs| => At(pairs[n], side))
  }

  /** How many blocks of a side keep exactly `text`. */
  function Remaining(d: Difflib, source: seq<Block>, target: seq<Block>, side: Side, text: string): nat {
    Tally(|On(source, target, side)|, (i: nat) => Keeps(d, source, target, side, text, i))
  }

  predicate AnchoredText(source: seq<Block>, target: seq<Block>, side: Side, text: string, i: nat) {
    i < |On(source, target, side)| && AnchoredOn(source, target, side, i) && On(source, target, side)[i].escaped == text
  }

  function AnchoredRemaining(source: seq<Block>, target: seq<Block>, side: Side, text: string): nat {
    Tally(|On(source, target, side)|, (i: nat) => AnchoredText(source, target, side, text, i))
  }

  function PairsRemaining(d: Difflib, source: seq<Block>, target: seq<Block>, side: Side, text: string): nat {
    Tally(|PairsOf(d, source, target)|,
          (n: nat) => PairKeeps(d, source, target, PairsOf(d, source, target), side, text, n))
  }

  /** Remainders come from anchored blocks and from changed pairs, once each. */
  lemma RemainingSplits(d: Difflib, source: seq<Block>, target: seq<Block>, side: Side, text: string)
    requires text != "" && Hashed(On(source, target, side))
    ensures Remaining(d, source, target, side, text)
         == AnchoredRemaining(source, target, side, text) + PairsRemaining(d, source, target, side, text)
  {
    var f := On(source, target, side);
    var pairs := PairsOf(d, source, target);
    var p := (i: nat) => Keeps(d, source, target, side, text, i);
    var q := (i: nat) => AnchoredText(source, target, side, text, i);
    var r := (i: nat) => HitBy(d, source, target, pairs, side, text, i);
    assert Remaining(d, source, target, side, text) == Tally(|f|, p);
    assert AnchoredRemaining(source, target, side, text) == Tally(|f|, q);
    PairsTally(d, source, target, side, text);
    hide *;
    forall i: nat | i < |f| ensures (p(i) <==> q(i) || r(i)) && !(q(i) && r(i)) {
      KeepsSplits(d, source, target, side, text, i);
    }
    TallySplits(|f|, p, q, r);
  }

  lemma KeepsSplits(d: Difflib, source: seq<Block>, target: seq<Block>, side: Side, text: string, i: nat)
    requires text != "" && Hashed(On(source, target, side))
    requires i < |On(source, target, side)|
    ensures var pairs := PairsOf(d, source, target);
      && (Keeps(d, source, target, side, text, i) <==>
           AnchoredText(source, target, side, text, i) || HitBy(d, source, target, pairs, side, text, i))
      && !(AnchoredText(source, target, side, text, i) && HitBy(d, source, target, pairs, side, text, i))
  {
    var pairs := PairsOf(d, source, target);
    hide PairsOf, Keeps, AnchoredOn, Hashed, PairKeeps;
    KeepsMeans(d, source, target, side, text, i);
    if HitBy(d, source, target, pairs, side, text, i) {
      var n: nat :| n < |pairs| && At(pairs[n], side) == i;
      PairedAt(pairs, side, i, n);
    }
  }

  lemma PairsTally(d: Difflib, source: seq<Block>, target: seq<Block>, side: Side, text: string)
    ensures var pairs := PairsOf(d, source, target);
      Tally(|On(source, target, side)|, (i: nat) => HitBy(d, source, target, pairs, side, text, i))
      == PairsRemaining(d, source, target, side, text)
  {
    var f := On(source, target, side);
    var pairs := PairsOf(d, source, target);
    var r := (i: nat) => HitBy(d, source, target, pairs, side, text, i);
    var w := (n: nat) => PairKeeps(d, source, target, pairs, side, text, n);
    assert PairsRemaining(d, source, target, side, text) == Tally(|pairs|, w);
    assert forall i: nat :: r(i) <==> exists n: nat :: n < |pairs| && At(pairs[n], side) == i && w(n);
    PairsOfWithin(d, source, target);
    PaintedExactlyOnce(d, source, target, side, 0);
    assert forall n :: 0 <= n < |pairs| ==> At(pairs[n], side) < |f|;
    hide *;
    HitsTally(|f|, pairs, side, r, w);
  }

  lemma HitsTally(size: nat, pairs: seq<(nat, nat)>, side: Side, r: nat -> bool, w: nat -> bool)
    requires DistinctOn(pairs, side) && forall n :: 0 <= n < |pairs| ==> At(pairs[n], side) < size
    requires forall i: nat :: r(i) <==> exists n: nat :: n < |pairs| && At(pairs[n], side) == i && w(n)
    ensures Tally(size, r) == Tally(|pairs|, w)
  {
    var hits := Hits(pairs, side);
    assert |hits| == |pairs| && forall n :: 0 <= n < |pairs| ==> hits[n] == At(pairs[n], side);
    assert Distinct(hits);
    hide Hits, At, DistinctOn, Tally;
    forall i: nat | i < size ensures r(i) <==> Listed(hits, w, i) {
      if m: nat :| m < |hits| && hits[m] == i && w(m) {
        assert At(pairs[m], side) == i;
      }
    }
    TallyOfList(size, hits, r, w);
  }

  /** Both blocks of a pair keep the same text. */
  lemma PairsRemainingAgree(d: Difflib, source: seq<Block>, target: seq<Block>, text: string)
    requires Lawful(d)
    ensures PairsRemaining(d, source, target, Source, text) == PairsRemaining(d, source, target, Target, text)
  {
    var pairs := PairsOf(d, source, target);
    var v := (n: nat) => PairKeeps(d, source, target, pairs, Source, text, n);
    var w := (n: nat) => PairKeeps(d, source, target, pairs, Target, text, n);
    forall n: nat | n < |pairs| ensures v(n) <==> w(n) {
      hide PairsOf, Lawful, StrokeText, DiffStrokes;
      if pairs[n].0 < |source| && pairs[n].1 < |target| {
        PairKeepsEqualText(d, source[pairs[n].0], target[pairs[n].1]);
      }
    }
    TallyAgrees(|pairs|, v, w);
  }

  /** Anchored blocks of one text are equally many on both sides. */
  lemma AnchoredRemainingAgree(source: seq<Block>, target: seq<Block>, text: string)
    requires DigestOfText(source, target) && DigestSeparates(source, target)
    ensures AnchoredRemaining(source, target, Source, text) == AnchoredRemaining(source, target, Target, text)
  {
    var p := (i: nat) => AnchoredText(source, target, Source, text, i);
    var q := (j: nat) => AnchoredText(source, target, Target, text, j);
    if b :| b in source + target && b.escaped == text {
      AnchoringIsOneToOne(source, target, b.digest);
      forall i: nat | i < |source| ensures p(i) <==> AnchoredWith(source, target, b.digest)(i) {
        assert source[i] in source + target;
      }
      forall j: nat | j < |target| ensures q(j) <==> AnchoredWith(target, source, b.digest)(j) {
        assert target[j] in source + target;
      }
      TallyAgrees(|source|, p, AnchoredWith(source, target, b.digest));
      TallyAgrees(|target|, q, AnchoredWith(target, source, b.digest));
    } else {
      assert forall i: nat :: i < |source| ==> source[i] in source + target;
      assert forall j: nat :: j < |target| ==> target[j] in source + target;
      TallyNone(|source|, p);
      TallyNone(|target|, q);
    }
  }

  /**
   Erasing everything painted leaves the same non-empty block remainders on both sides, counted with
   multiplicity, provided the digest separates block texts.
   */
  lemma UnpaintedRemaindersAgree(d: Difflib, source: seq<Block>, target: seq<Block>, text: string)
    requires Lawful(d) && source != [] && target != [] && text != ""
    requires Hashed(source) && Hashed(target)
    requires DigestOfText(source, target) && DigestSeparates(source, target)
    ensures Remaining(d, source, target, Source, text) == Remaining(d, source, target, Target, text)
  {
    assert On(source, target, Source) == source && On(source, target, Target) == target;
    hide *;
    RemainingSplits(d, source, target, Source, text);
    RemainingSplits(d, source, target, Target, text);
    AnchoredRemainingAgree(source, target, text);
    PairsRemainingAgree(d, source, target, text);
  }

  // ---------------------------------------------------------------- the same, erasing annotations by their values

  /** Block `b` is painted: all of it, or the given instruction. */
  ghost predicate Paints(out: seq<Annotation>, b: Block, part: Option<Instruction>) {
    exists x :: 0 <= x < |out| && out[x].block == b && out[x].instruction == part
  }

  ghost function KeptFrom(out: seq<Annotation>, b: Block, k: nat): string
    requires k <= |b.instructions|
    decreases |b.instructions| - k
  {
    if k == |b.instructions| then ""
    else (if Paints(out, b, Some(b.instructions[k])) then "" else b.instructions[k].escaped) + KeptFrom(out, b, k + 1)
  }

  /** The text of block `b` that the annotations leave unpainted. */
  ghost function Unpainted(out: seq<Annotation>, b: Block): string {
    if Paints(out, b, None) then ""
    else if b.instructions == [] then b.escaped
    else KeptFrom(out, b, 0)
  }

  /** No two blocks coincide, nor two instructions of one block. */
  ghost predicate NoTwins(f: seq<Block>) {
    Distinct(f) && forall i :: 0 <= i < |f| ==> Distinct(f[i].instructions)
  }

  lemma {:induction false} StrikesAreMarks(marks: seq<Mark>, i: nat, k: Option<nat>)
    ensures Strikes(StrokesAt(marks, i), k)
            <==> exists x :: 0 <= x < |marks| && marks[x].i == i && marks[x].stroke.k == k
  {
    if marks != [] {
      var shorter, last := marks[..|marks| - 1], marks[|marks| - 1];
      StrikesAreMarks(shorter, i, k);
      var before := StrokesAt(shorter, i);
      if Strikes(before, k) {
        var n :| 0 <= n < |before| && before[n].k == k;
        assert StrokesAt(marks, i)[n].k == k;
        var x :| 0 <= x < |shorter| && shorter[x].i == i && shorter[x].stroke.k == k;
        assert marks[x] == shorter[x];
      }
      if last.i == i && last.stroke.k == k {
        assert StrokesAt(marks, i)[|before|].k == k;
        assert marks[|marks| - 1].i == i;
      }
      if Strikes(StrokesAt(marks, i), k) && !Strikes(before, k) {
        assert last.i == i && last.stroke.k == k;
      }
      if x :| 0 <= x < |marks| && marks[x].i == i && marks[x].stroke.k == k {
        if x < |shorter| {
          assert shorter[x] == marks[x];
        }
      }
    }
  }

  function Part(b: Block, k: Option<nat>): Option<Instruction>
    requires k.Some? ==> k.value < |b.instructions|
  {
    if k.None? then None else Some(b.instructions[k.value])
  }

  lemma PaintsAreStrikes(f: seq<Block>, marks: seq<Mark>, i: nat, k: Option<nat>)
    requires MarksFit(f, marks) && NoTwins(f) && i < |f| && (k.Some? ==> k.value < |f[i].instructions|)
    ensures Paints(PaintAll(f, marks), f[i], Part(f[i], k)) <==> Strikes(StrokesAt(marks, i), k)
  {
    var out := PaintAll(f, marks);
    hide StrokesAt, Strikes;
    StrikesAreMarks(marks, i, k);
    assert |out| == |marks|;
    forall x | 0 <= x < |marks|
      ensures out[x].block == f[i] && out[x].instruction == Part(f[i], k) <==> marks[x].i == i && marks[x].stroke.k == k
    {
      assert out[x] == EntryChanged(Draw(f[marks[x].i], marks[x].stroke));
    }
  }

  lemma {:induction false} KeptFromIsKeptIf(out: seq<Annotation>, b: Block, struck: nat -> bool, k: nat)
    requires k <= |b.instructions|
    requires forall l: nat :: l < |b.instructions| ==> (Paints(out, b, Some(b.instructions[l])) <==> struck(l))
    ensures KeptFrom(out, b, k) == KeptIf(Texts(b), struck, k)
    decreases |b.instructions| - k
  {
    if k < |b.instructions| {
      KeptFromIsKeptIf(out, b, struck, k + 1);
    }
  }

  /** Erasing annotations and erasing strokes come to the same. */
  lemma UnpaintedIsStrokeText(f: seq<Block>, marks: seq<Mark>, i: nat)
    requires MarksFit(f, marks) && NoTwins(f) && i < |f|
    ensures Unpainted(PaintAll(f, marks), f[i]) == StrokeText(f[i], StrokesAt(marks, i))
  {
    PaintsAreStrikes(f, marks, i, None);
    forall k: nat | k < |f[i].instructions|
      ensures Paints(PaintAll(f, marks), f[i], Some(f[i].instructions[k])) <==> Strikes(StrokesAt(marks, i), Some(k))
    {
      PaintsAreStrikes(f, marks, i, Some(k));
    }
    hide Strikes, Paints, PaintAll, NoTwins, StrokesAt;
    KeptFromIsKeptIf(PaintAll(f, marks), f[i], StruckBy(StrokesAt(marks, i)), 0);
  }

  ghost predicate KeepsByValue(d: Difflib, source: seq<Block>, target: seq<Block>, side: Side, text: string, i: nat)
    requires Lawful(d)
  {
    i < |On(source, target, side)| && Unpainted(Painted(d, source, target, side), On(source, target, side)[i]) == text
  }

  ghost function RemainingByValue(d: Difflib, source: seq<Block>, target: seq<Block>, side: Side, text: string): nat
    requires Lawful(d)
  {
    Tally(|On(source, target, side)|, (i: nat) => KeepsByValue(d, source, target, side, text, i))
  }

  lemma ByValueIsByIndex(d: Difflib, source: seq<Block>, target: seq<Block>, side: Side, text: string)
    requires Lawful(d) && source != [] && target != [] && NoTwins(On(source, target, side))
    ensures RemainingByValue(d, source, target, side, text) == Remaining(d, source, target, side, text)
  {
    var f, marks := On(source, target, side), Marks(d, source, target, side);
    var p := (i: nat) => KeepsByValue(d, source, target, side, text, i);
    var q := (i: nat) => Keeps(d, source, target, side, text, i);
    AllMarksFit(d, source, target, side);
    assert Painted(d, source, target, side) == PaintAll(f, marks);
    hide Painted, PaintAll, Marks, Unpainted, StrokeText, StrokesAt, MarksFit, NoTwins, Lawful;
    forall i: nat | i < |f| ensures p(i) <==> q(i) {
      UnpaintedIsStrokeText(f, marks, i);
    }
    TallyAgrees(|f|, p, q);
  }

  /** When no two blocks or instructions coincide, erasing the annotations' values leaves equal remainders too. */
  lemma ErasingAnnotationsAgrees(d: Difflib, source: seq<Block>, target: seq<Block>, text: string)
    requires Lawful(d) && source != [] && target != [] && text != ""
    requires NoTwins(source) && NoTwins(target) && Hashed(source) && Hashed(target)
    requires DigestOfText(source, target) && DigestSeparates(source, target)
    ensures RemainingByValue(d, source, target, Source, text) == RemainingByValue(d, source, target, Target, text)
  {
    assert On(source, target, Source) == source && On(source, target, Target) == target;
    hide *;
    ByValueIsByIndex(d, source, target, Source, text);
    ByValueIsByIndex(d, source, target, Target, text);
    UnpaintedRemaindersAgree(d, source, target, text);
  }
}
