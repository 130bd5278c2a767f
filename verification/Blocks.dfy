/** Hashed blocks and the annotations of picblocks.py. */
module Blocks {
  import opened Collections

  datatype Instruction = Instruction(offset: int, size: int, escaped: string)

  datatype Block = Block(
    offset: int,
    size: int,
    digest: nat,
    escaped: string,
    instructions: seq<Instruction>,
    entry: bool)

  datatype Annotation = Annotation(block: Block, changed: bool, instruction: Option<Instruction>)

  function Join(instructions: seq<Instruction>): string {
    if instructions == [] then "" else instructions[0].escaped + Join(instructions[1..])
  }

  /** The first entry block of a function, `next(...)` with default None. */
  function FirstEntry(f: seq<Block>): Option<nat> {
    FirstEntryAmong(f, Indices(|f|))
  }

  /** 0, .., n - 1. */
  function Indices(n: nat): seq<nat> {
    seq(n, i => i)
  }

  /** The first of the given indices that names an entry block. */
  function FirstEntryAmong(f: seq<Block>, indices: seq<nat>): (r: Option<nat>)
    requires forall k :: 0 <= k < |indices| ==> indices[k] < |f|
    ensures r.Some? ==> r.value in indices && r.value < |f| && f[r.value].entry
    ensures r.None? ==> forall k :: 0 <= k < |indices| ==> !f[indices[k]].entry
  {
    if indices == [] then None
    else if f[indices[0]].entry then Some(indices[0])
    else FirstEntryAmong(f, indices[1..])
  }

  // ---------------------------------------------------------------- counting

  /** How many of 0, .., n - 1 satisfy `p`. */
  function Tally(n: nat, p: nat -> bool): nat {
    if n == 0 then 0 else Tally(n - 1, p) + (if p(n - 1) then 1 else 0)
  }

  lemma {:induction false} TallySplits(n: nat, p: nat -> bool, q: nat -> bool, r: nat -> bool)
    requires forall i: nat :: i < n ==> (p(i) <==> q(i) || r(i)) && !(q(i) && r(i))
    ensures Tally(n, p) == Tally(n, q) + Tally(n, r)
  {
    if n > 0 {
      TallySplits(n - 1, p, q, r);
    }
  }

  lemma {:induction false} TallyAgrees(n: nat, p: nat -> bool, q: nat -> bool)
    requires forall i: nat :: i < n ==> (p(i) <==> q(i))
    ensures Tally(n, p) == Tally(n, q)
  {
    if n > 0 {
      TallyAgrees(n - 1, p, q);
    }
  }
}
