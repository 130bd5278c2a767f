/** difflib by its contract, and `_ratio` of picblocks.py. */
module Similarity {

  datatype Tag = Equal | Replace | Delete | Insert

  datatype Opcode = Opcode(tag: Tag, i1: nat, i2: nat, j1: nat, j2: nat)

  /** What SequenceMatcher(a, b) computes: the length it matches and its edit script. */
  datatype Difflib = Difflib(
    matched: (string, string) -> nat,
    opcodes: (seq<string>, seq<string>) -> seq<Opcode>)

  predicate Subsequence<T(==)>(s: seq<T>, t: seq<T>) {
    if s == [] then true
    else if t == [] then false
    else (s[0] == t[0] && Subsequence(s[1..], t[1..])) || Subsequence(s, t[1..])
  }

  /** `n` characters can be matched in order. */
  ghost predicate Matchable(a: string, b: string, n: nat) {
    exists s: string :: |s| == n && Subsequence(s, a) && Subsequence(s, b)
  }

  /** One opcode continues a script that has reached (i, j). */
  ghost predicate Continues(a: seq<string>, b: seq<string>, op: Opcode, i: nat, j: nat) {
    && op.i1 == i <= op.i2 <= |a| && op.j1 == j <= op.j2 <= |b|
    && match op.tag
       case Equal => a[op.i1..op.i2] == b[op.j1..op.j2] && op.i1 < op.i2
       case Replace => op.i1 < op.i2 && op.j1 < op.j2
       case Delete => op.i1 < op.i2 && op.j1 == op.j2
       case Insert => op.i1 == op.i2 && op.j1 < op.j2
  }

  /** The opcodes tile a[i..] and b[j..]. */
  ghost predicate ScriptFrom(a: seq<string>, b: seq<string>, ops: seq<Opcode>, i: nat, j: nat) {
    if ops == [] then i == |a| && j == |b|
    else Continues(a, b, ops[0], i, j) && ScriptFrom(a, b, ops[1..], ops[0].i2, ops[0].j2)
  }

  ghost predicate Lawful(d: Difflib) {
    && (forall a, b :: Matchable(a, b, d.matched(a, b)))
    && (forall a, b :: ScriptFrom(a, b, d.opcodes(a, b), 0, 0))
  }

  const CHANGED_RATIO := 0.5

  /** difflib's `_calculate_ratio`. */
  function RatioOf(matches: nat, length: nat): real {
    if length == 0 then 1.0 else 2.0 * matches as real / length as real
  }

  function FullRatio(d: Difflib, left: string, right: string): real {
    RatioOf(d.matched(left, right), |left| + |right|)
  }

  /** Upper bound by shared characters, order ignored. */
  function QuickRatio(left: string, right: string): real {
    RatioOf(|multiset(left) * multiset(right)|, |left| + |right|)
  }

  /** Upper bound by length alone. */
  function RealQuickRatio(left: string, right: string): real {
    RatioOf(if |left| < |right| then |left| else |right|, |left| + |right|)
  }

  function Ratio(d: Difflib, left: string, right: string): real {
    if left == "" then 0.0
    else if RealQuickRatio(left, right) < CHANGED_RATIO || QuickRatio(left, right) < CHANGED_RATIO then 0.0
    else FullRatio(d, left, right)
  }

  // ---------------------------------------------------------------- the early exits lose nothing

  lemma {:induction false} SubsequenceElements<T>(s: seq<T>, t: seq<T>)
    requires Subsequence(s, t)
    ensures multiset(s) <= multiset(t)
  {
    if s != [] {
      assert s == [s[0]] + s[1..] && t == [t[0]] + t[1..];
      if s[0] == t[0] && Subsequence(s[1..], t[1..]) {
        SubsequenceElements(s[1..], t[1..]);
      } else {
        SubsequenceElements(s, t[1..]);
      }
    }
  }

  lemma MultisetCardinality<T>(a: multiset<T>, b: multiset<T>)
    requires a <= b
    ensures |a| <= |b|
  {
    assert b == a + (b - a);
  }

  /** Any common subsequence is bounded by the shared characters, and those by the shorter text. */
  lemma CommonSubsequenceBounds(a: string, b: string, n: nat)
    requires Matchable(a, b, n)
    ensures n <= |multiset(a) * multiset(b)| <= |a|
    ensures |multiset(a) * multiset(b)| <= |b|
  {
    var s :| |s| == n && Subsequence(s, a) && Subsequence(s, b);
    SubsequenceElements(s, a);
    SubsequenceElements(s, b);
    MultisetCardinality(multiset(s), multiset(a) * multiset(b));
    MultisetCardinality(multiset(a) * multiset(b), multiset(a));
    MultisetCardinality(multiset(a) * multiset(b), multiset(b));
  }

  lemma RatioMonotone(m: nat, n: nat, length: nat)
    requires m <= n
    ensures RatioOf(m, length) <= RatioOf(n, length)
  {
    if length > 0 {
      var l, x, y := length as real, 2.0 * m as real, 2.0 * n as real;
      assert y / l - x / l == (y - x) / l >= 0.0;
    }
  }

  /** The early exits accept exactly the pairs whose full ratio reaches the threshold. */
  lemma CheapTestsLoseNothing(d: Difflib, left: string, right: string)
    requires Matchable(left, right, d.matched(left, right))
    ensures FullRatio(d, left, right) <= QuickRatio(left, right) <= RealQuickRatio(left, right)
    ensures Ratio(d, left, right) >= CHANGED_RATIO <==> left != "" && FullRatio(d, left, right) >= CHANGED_RATIO
    ensures Ratio(d, left, right) >= CHANGED_RATIO ==> Ratio(d, left, right) == FullRatio(d, left, right)
  {
    CommonSubsequenceBounds(left, right, d.matched(left, right));
    var shared := |multiset(left) * multiset(right)|;
    RatioMonotone(d.matched(left, right), shared, |left| + |right|);
    RatioMonotone(shared, if |left| < |right| then |left| else |right|, |left| + |right|);
  }
}
