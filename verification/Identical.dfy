/** When nothing is painted: exactly when the functions anchor completely. */
module Identical {
  import opened Collections
  import opened Blocks
  import opened Similarity
  import opened Anchoring
  import opened Pairing
  import opened Painting
  import opened Coverage
  import opened Remainder

  /** With one entry at most, the entry set aside is the only entry block. */
  lemma OnlyEntryIsAside(a: seq<Block>, b: seq<Block>, i: nat)
    requires AtMostOneEntry(a) && EntryAside(a, b).Some? && i < |a|
    ensures a[i].entry <==> EntryAside(a, b) == Some(i)
  {
  }

  lemma FirstEntryIsAside(a: seq<Block>, b: seq<Block>)
    requires AtMostOneEntry(a) && EntryAside(a, b).Some?
    ensures Within(LeftOver(a, b), |a|)
    ensures FirstEntryAmong(a, LeftOver(a, b))
         == if EntryAside(a, b).value in LeftOver(a, b) then EntryAside(a, b) else None
  {
    var left := LeftOver(a, b);
    LeftOverWithin(a, b);
    var e := EntryAside(a, b).value;
    OnlyEntryIsAside(a, b, e);
    var first := FirstEntryAmong(a, left);
    if first.Some? {
      OnlyEntryIsAside(a, b, first.value);
    }
  }

  lemma EntryIsAside(a: seq<Block>, b: seq<Block>, i: nat, j: nat)
    requires AtMostOneEntry(a) && i < |a| && a[i].entry && j < |b| && b[j].entry
    ensures EntryAside(a, b) == Some(i)
  {
    assert Indices(|a|)[i] == i && Indices(|b|)[j] == j;
  }

  /** Two entries are anchored to each other, or left over and paired with each other. */
  lemma EntriesStayTogether(d: Difflib, source: seq<Block>, target: seq<Block>, s: nat, t: nat)
    requires AtMostOneEntry(source) && AtMostOneEntry(target)
    requires s < |source| && source[s].entry && t < |target| && target[t].entry
    ensures var pairs := PairsOf(d, source, target);
      && (Anchored(source, target, s) <==> Anchored(target, source, t))
      && (Anchored(source, target, s) || (pairs != [] && pairs[0] == (s, t)))
      && forall n :: 0 <= n < |pairs| ==> (pairs[n].0 == s <==> pairs[n].1 == t)
  {
    EntryIsAside(source, target, s, t);
    EntryIsAside(target, source, t, s);
    FirstEntryIsAside(source, target);
    FirstEntryIsAside(target, source);
    LeftOverMembers(source, target);
    LeftOverMembers(target, source);
    PairsOfIsMatching(d, source, target);
    hide LeftOver, FirstEntry, AtMostOneEntry, ChangedPairs;
  }

  /** Paired blocks never have the same digest. */
  lemma PairedDigestsDiffer(d: Difflib, source: seq<Block>, target: seq<Block>, n: nat)
    requires AtMostOneEntry(source) && AtMostOneEntry(target) && n < |PairsOf(d, source, target)|
    ensures var (i, j) := PairsOf(d, source, target)[n];
      i < |source| && j < |target| && source[i].digest != target[j].digest
  {
    var (i, j) := PairsOf(d, source, target)[n];
    PairsOfIsMatching(d, source, target);
    LeftOverMembers(source, target);
    LeftOverMembers(target, source);
    if FirstEntry(source).Some? && FirstEntry(target).Some? {
      EntriesStayTogether(d, source, target, FirstEntry(source).value, FirstEntry(target).value);
    }
    if EntryAside(source, target) != Some(i) {
      hide PairsOf, LeftOver;
      LeftOversShareNoDigest(source, target, i, j);
    }
  }

  lemma {:induction false} NoStrokesMeansEqual(a: seq<string>, b: seq<string>, ops: seq<Opcode>, i: nat, j: nat)
    requires ScriptFrom(a, b, ops, i, j) && i <= |a| && j <= |b|
    requires ScriptStrokes(ops, Source) == [] && ScriptStrokes(ops, Target) == []
    ensures a[i..] == b[j..]
  {
    if ops != [] {
      var op := ops[0];
      NoStrokesFirst(a, b, ops, i, j);
      NoStrokesMeansEqual(a, b, ops[1..], op.i2, op.j2);
      hide *;
      SplitSuffix(a, i, op.i2);
      SplitSuffix(b, j, op.j2);
    }
  }

  lemma NoStrokesFirst(a: seq<string>, b: seq<string>, ops: seq<Opcode>, i: nat, j: nat)
    requires ops != [] && ScriptFrom(a, b, ops, i, j)
    requires ScriptStrokes(ops, Source) == [] && ScriptStrokes(ops, Target) == []
    ensures ops[0].i2 <= |a| && ops[0].j2 <= |b| && i <= ops[0].i2 && j <= ops[0].j2
    ensures a[i..ops[0].i2] == b[j..ops[0].j2]
    ensures ScriptStrokes(ops[1..], Source) == [] && ScriptStrokes(ops[1..], Target) == []
    ensures ScriptFrom(a, b, ops[1..], ops[0].i2, ops[0].j2)
  {
    assert OpcodeStrokes(ops[0], Source) == [] && OpcodeStrokes(ops[0], Target) == [];
  }

  lemma SplitSuffix<T>(s: seq<T>, i: nat, m: nat)
    requires i <= m <= |s|
    ensures s[i..] == s[i..m] + s[m..]
  {
  }

  lemma {:induction false} EqualTextsJoinEqually(x: seq<Instruction>, y: seq<Instruction>)
    requires |x| == |y| && forall k :: 0 <= k < |x| ==> x[k].escaped == y[k].escaped
    ensures Join(x) == Join(y)
  {
    if x != [] {
      EqualTextsJoinEqually(x[1..], y[1..]);
    }
  }

  /** A changed pair with different texts is painted on at least one side. */
  lemma DifferentTextsArePainted(d: Difflib, left: Block, right: Block)
    requires Lawful(d) && left.escaped != right.escaped
    requires left.instructions != [] ==> left.escaped == Join(left.instructions)
    requires right.instructions != [] ==> right.escaped == Join(right.instructions)
    ensures DiffStrokes(d, left, right, Source) != [] || DiffStrokes(d, left, right, Target) != []
  {
    if left.instructions != [] && right.instructions != [] {
      var a, b := Texts(left), Texts(right);
      if DiffStrokes(d, left, right, Source) == [] && DiffStrokes(d, left, right, Target) == [] {
        NoStrokesMeansEqual(a, b, d.opcodes(a, b), 0, 0);
        assert a[0..] == a && b[0..] == b;
        assert forall k :: 0 <= k < |a| ==>
          left.instructions[k].escaped == a[k] == b[k] == right.instructions[k].escaped;
        EqualTextsJoinEqually(left.instructions, right.instructions);
      }
    }
  }

  lemma StrokesArePainted(d: Difflib, source: seq<Block>, target: seq<Block>, side: Side, i: nat)
    requires Lawful(d) && source != [] && target != []
    requires StrokesAt(Marks(d, source, target, side), i) != []
    ensures Painted(d, source, target, side) != []
  {
    AllMarksFit(d, source, target, side);
    assert |Painted(d, source, target, side)| == |Marks(d, source, target, side)|;
  }

  /** A function pair with a leftover is painted somewhere. */
  lemma LeftOverIsPainted(d: Difflib, source: seq<Block>, target: seq<Block>, side: Side, i: nat)
    requires Lawful(d) && source != [] && target != []
    requires Hashed(source) && Hashed(target) && AtMostOneEntry(source) && AtMostOneEntry(target)
    requires DigestOfText(source, target)
    requires i in LeftOn(source, target, side)
    ensures Painted(d, source, target, Source) != [] || Painted(d, source, target, Target) != []
  {
    var pairs := PairsOf(d, source, target);
    hide PairsOf, LeftOn, Painted, Marks, Lawful, DiffStrokes, StrokesAt, AtMostOneEntry;
    PaintedExactlyOnce(d, source, target, side, i);
    if !Paired(pairs, side, i) {
      StrokesArePainted(d, source, target, side, i);
    } else {
      var n :| 0 <= n < |pairs| && At(pairs[n], side) == i;
      var (l, r) := pairs[n];
      PairedDigestsDiffer(d, source, target, n);
      assert source[l] in source + target && target[r] in source + target;
      DifferentTextsArePainted(d, source[l], target[r]);
      if DiffStrokes(d, source[l], target[r], Source) != [] {
        PaintedExactlyOnce(d, source, target, Source, l);
        StrokesArePainted(d, source, target, Source, l);
      } else {
        PaintedExactlyOnce(d, source, target, Target, r);
        StrokesArePainted(d, source, target, Target, r);
      }
    }
  }

  lemma NothingLeftNothingPainted(d: Difflib, source: seq<Block>, target: seq<Block>, side: Side)
    requires Lawful(d) && LeftOver(source, target) == [] && LeftOver(target, source) == []
    ensures Painted(d, source, target, side) == []
  {
    AllMarksFit(d, source, target, side);
    assert PairsOf(d, source, target) == [];
    assert Marks(d, source, target, side) == [];
  }

  /**
   For functions built by `hash_smda_function`: nothing is painted on either side exactly when the
   entries agree and the other digests are a permutation, or all are when an entry is missing.
   */
  lemma NothingPaintedIffComplete(d: Difflib, source: seq<Block>, target: seq<Block>)
    requires Lawful(d) && source != [] && target != []
    requires Hashed(source) && Hashed(target) && AtMostOneEntry(source) && AtMostOneEntry(target)
    requires DigestOfText(source, target)
    ensures Painted(d, source, target, Source) == [] && Painted(d, source, target, Target) == []
       <==> AnchorsCompletely(source, target)
  {
    assert LeftOn(source, target, Source) == LeftOver(source, target);
    assert LeftOn(source, target, Target) == LeftOver(target, source);
    hide *;
    NothingLeftIffComplete(source, target);
    if LeftOver(source, target) != [] {
      LeftOverIsPainted(d, source, target, Source, LeftOver(source, target)[0]);
    } else if LeftOver(target, source) != [] {
      LeftOverIsPainted(d, source, target, Target, LeftOver(target, source)[0]);
    } else {
      NothingLeftNothingPainted(d, source, target, Source);
      NothingLeftNothingPainted(d, source, target, Target);
    }
  }
}
