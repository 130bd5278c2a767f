/** The order in which a diff leaves blocks over and paints them, and which entry it sets aside. */
module DiffOrder {
  import opened Collections
  import opened Blocks
  import opened Similarity
  import opened Anchoring
  import opened Painting
  import opened Coverage
  import opened Alignment

  lemma FirstEntryIs(f: seq<Block>, i: nat)
    ensures FirstEntry(f) == Some(i) <==> i < |f| && f[i].entry && forall j :: 0 <= j < i ==> !f[j].entry
    ensures FirstEntry(f).Some? <==> exists j :: 0 <= j < |f| && f[j].entry
  {
    var all, first := Indices(|f|), FirstEntry(f);
    FirstEntryMeans(f, all);
    hide FirstEntryAmong;
    if first.Some? {
      var a :| 0 <= a < |all| && all[a] == first.value && forall b :: 0 <= b < a ==> !f[all[b]].entry;
      forall j | 0 <= j < a ensures !f[j].entry {
        assert all[j] == j;
      }
      assert first.value == a && f[a].entry;
    } else {
      forall j | 0 <= j < |f| ensures !f[j].entry {
        assert all[j] == j;
      }
    }
  }

  /** The first of the entry blocks of `a`, when `b` has one too, is set aside. */
  lemma FirstEntryIsSetAside(a: seq<Block>, b: seq<Block>, i: nat)
    ensures EntryAside(a, b) == Some(i)
            <==> && i < |a| && a[i].entry && (forall j :: 0 <= j < i ==> !a[j].entry)
                 && exists j :: 0 <= j < |b| && b[j].entry
  {
    FirstEntryIs(a, i);
    FirstEntryIs(b, 0);
    hide FirstEntry;
  }

  /** Blocks are left over in the order of the function, but for the entry set aside, which comes last. */
  lemma LeftOverInOrder(a: seq<Block>, b: seq<Block>)
    ensures var left := LeftOver(a, b);
            forall m, n :: 0 <= m < n < |left| ==>
              EntryAside(a, b) != Some(left[m]) && (left[m] < left[n] || EntryAside(a, b) == Some(left[n]))
  {
    SurplusInOrder(a, b, |a|);
    hide Surplus, Anchored, EntryAside;
  }

  lemma {:induction false} SurplusInOrder(a: seq<Block>, b: seq<Block>, n: nat)
    requires n <= |a|
    ensures forall k :: 0 <= k < |Surplus(a, b, n)| ==>
              Surplus(a, b, n)[k] < n && EntryAside(a, b) != Some(Surplus(a, b, n)[k])
    ensures forall j, k :: 0 <= j < k < |Surplus(a, b, n)| ==> Surplus(a, b, n)[j] < Surplus(a, b, n)[k]
  {
    if n > 0 {
      SurplusInOrder(a, b, n - 1);
      hide Anchored, EntryAside;
    }
  }

  /** `i` stands in `list` no later than `j` does. */
  ghost predicate NoLater(list: seq<nat>, i: nat, j: nat) {
    exists p, q :: 0 <= p <= q < |list| && list[p] == i && list[q] == j
  }

  function Column(pairs: seq<(nat, nat)>, side: Side): seq<nat> {
    seq(|pairs|, n requires 0 <= n < |pairs| => At(pairs[n], side))
  }

  lemma NoLaterLonger(list: seq<nat>, x: nat, i: nat, j: nat)
    requires NoLater(list, i, j)
    ensures NoLater(list + [x], i, j)
  {
    var p, q :| 0 <= p <= q < |list| && list[p] == i && list[q] == j;
    assert (list + [x])[p] == i && (list + [x])[q] == j;
  }

  lemma LastNoEarlier(list: seq<nat>, i: nat, x: nat)
    requires i in list + [x]
    ensures NoLater(list + [x], i, x)
  {
    var p :| 0 <= p < |list + [x]| && (list + [x])[p] == i;
    assert (list + [x])[|list|] == x;
  }

  lemma {:induction false} UnpairedInOrder(left: seq<nat>, pairs: seq<(nat, nat)>, side: Side)
    ensures forall x :: 0 <= x < |UnpairedMarks(left, pairs, side)| ==>
              var m := UnpairedMarks(left, pairs, side)[x];
              m.i in left && !Paired(pairs, side, m.i) && m.stroke == Stroke(None, false)
    ensures forall x, y :: 0 <= x < y < |UnpairedMarks(left, pairs, side)| ==>
              NoLater(left, UnpairedMarks(left, pairs, side)[x].i, UnpairedMarks(left, pairs, side)[y].i)
  {
    if left != [] {
      var n := |left| - 1;
      UnpairedInOrder(left[..n], pairs, side);
      assert left == left[..n] + [left[n]];
      var before, all := UnpairedMarks(left[..n], pairs, side), UnpairedMarks(left, pairs, side);
      hide UnpairedMarks, Paired, NoLater;
      forall x, y | 0 <= x < y < |all| ensures NoLater(left, all[x].i, all[y].i) {
        if y < |before| {
          NoLaterLonger(left[..n], left[n], before[x].i, before[y].i);
        } else {
          LastNoEarlier(left[..n], before[x].i, left[n]);
        }
      }
    }
  }

  lemma {:induction false} PairsInOrder(
    d: Difflib, source: seq<Block>, target: seq<Block>, pairs: seq<(nat, nat)>, side: Side)
    requires PairsWithin(pairs, source, target)
    ensures forall x :: 0 <= x < |PairMarks(d, source, target, pairs, side)| ==>
              PairMarks(d, source, target, pairs, side)[x].i in Column(pairs, side)
    ensures forall x, y :: 0 <= x < y < |PairMarks(d, source, target, pairs, side)| ==>
              NoLater(Column(pairs, side), PairMarks(d, source, target, pairs, side)[x].i,
                      PairMarks(d, source, target, pairs, side)[y].i)
  {
    if pairs != [] {
      var n := |pairs| - 1;
      PairsInOrder(d, source, target, pairs[..n], side);
      var before, last := PairMarks(d, source, target, pairs[..n], side), At(pairs[n], side);
      var lifted := Lift(last, DiffStrokes(d, source[pairs[n].0], target[pairs[n].1], side));
      assert PairMarks(d, source, target, pairs, side) == before + lifted;
      assert Column(pairs, side) == Column(pairs[..n], side) + [last];
      assert forall x :: 0 <= x < |lifted| ==> lifted[x].i == last;
      hide *;
      MarksAppendInOrder(before, lifted, Column(pairs[..n], side), last);
    }
  }

  lemma MarksAppendInOrder(before: seq<Mark>, lifted: seq<Mark>, list: seq<nat>, last: nat)
    requires forall x :: 0 <= x < |lifted| ==> lifted[x].i == last
    requires forall x :: 0 <= x < |before| ==> before[x].i in list
    requires forall x, y :: 0 <= x < y < |before| ==> NoLater(list, before[x].i, before[y].i)
    ensures var all := before + lifted;
            && (forall x :: 0 <= x < |all| ==> all[x].i in list + [last])
            && (forall x, y :: 0 <= x < y < |all| ==> NoLater(list + [last], all[x].i, all[y].i))
  {
    var all := before + lifted;
    assert (list + [last])[|list|] == last;
    hide NoLater;
    forall x, y | 0 <= x < y < |all| ensures NoLater(list + [last], all[x].i, all[y].i) {
      if y < |before| {
        NoLaterLonger(list, last, before[x].i, before[y].i);
      } else {
        LastNoEarlier(list, all[x].i, last);
      }
    }
  }

  /**
   * One side is painted in this order: first, as whole blocks, the leftovers without a partner as they are left over;
   * from mark `cut` on the blocks of the pairs, pair by pair.
   */
  lemma MarksInOrder(d: Difflib, source: seq<Block>, target: seq<Block>, side: Side) returns (cut: nat)
    ensures var marks, pairs, left := Marks(d, source, target, side), PairsOf(d, source, target),
                                      LeftOn(source, target, side);
            && cut <= |marks|
            && (forall x :: 0 <= x < cut ==> !Paired(pairs, side, marks[x].i) && marks[x].stroke == Stroke(None, false))
            && (forall x, y :: 0 <= x < y < cut ==> NoLater(left, marks[x].i, marks[y].i))
            && (forall x :: cut <= x < |marks| ==> marks[x].i in Column(pairs, side))
            && (forall x, y :: cut <= x < y < |marks| ==> NoLater(Column(pairs, side), marks[x].i, marks[y].i))
  {
    PairsOfWithin(d, source, target);
    var pairs, left := PairsOf(d, source, target), LeftOn(source, target, side);
    assert Marks(d, source, target, side)
        == UnpairedMarks(left, pairs, side) + PairMarks(d, source, target, pairs, side);
    hide *;
    UnpairedInOrder(left, pairs, side);
    PairsInOrder(d, source, target, pairs, side);
    cut := |UnpairedMarks(left, pairs, side)|;
  }
}
