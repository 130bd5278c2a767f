/** What the parsed matches promise: margins, uniqueness, order, limits and the split of a corpus result. */
module Ranking {
  import opened Collections
  import opened Sorting
  import opened Parse
  import Scoring

  // ---------------------------------------------------------------- the statistics do not depend on order

  ghost predicate Consistent(stats: Stats) {
    && (stats.best.None? ==> stats.runnerUp.None?)
    && (stats.runnerUp.Some? ==> stats.runnerUp.value <= stats.best.value)
  }

  lemma CountsCommute(stats: Stats, a: FunctionMatch, b: FunctionMatch)
    requires Consistent(stats)
    ensures Count(Count(stats, a), b) == Count(Count(stats, b), a)
    ensures Consistent(Count(stats, a))
  {
  }

  lemma {:induction false} TallyIsConsistent(s: seq<FunctionMatch>)
    ensures Consistent(Tally(s)) && Tally(s).candidates == |s|
    ensures s != [] ==> Tally(s).best.Some?
    ensures |s| >= 2 ==> Tally(s).runnerUp.Some?
  {
    if s != [] {
      TallyIsConsistent(s[..|s| - 1]);
    }
  }

  /** Any candidate may be counted last. */
  lemma {:induction false} CountLast(s: seq<FunctionMatch>, i: nat)
    requires i < |s|
    ensures Tally(s) == Count(Tally(DropAt(s, i)), s[i])
  {
    var n := |s| - 1;
    if i == n {
      assert DropAt(s, i) == s[..n];
    } else {
      var rest := DropAt(s[..n], i);
      assert DropAt(s, i) == rest + [s[n]];
      assert s[..n] + [s[n]] == s;
      hide Tally, Count, DropAt, Consistent;
      CountLast(s[..n], i);
      TallyAppend(s[..n], s[n]);
      TallyAppend(rest, s[n]);
      TallyIsConsistent(rest);
      CountsCommute(Tally(rest), s[i], s[n]);
    }
  }

  lemma TallyAppend(s: seq<FunctionMatch>, m: FunctionMatch)
    ensures Tally(s + [m]) == Count(Tally(s), m)
  {
    hide Count;
    assert (s + [m])[..|s|] == s;
  }

  lemma {:induction false} TallyIgnoresOrder(s: seq<FunctionMatch>, t: seq<FunctionMatch>)
    requires multiset(s) == multiset(t)
    ensures Tally(s) == Tally(t)
    decreases |s|
  {
    assert |s| == |multiset(s)| == |multiset(t)| == |t|;
    if s != [] {
      var n := |s| - 1;
      assert s[n] in multiset(s);
      var i := IndexOf(t, s[n]);
      DropAtElements(s, n);
      DropAtElements(t, i);
      CountLast(s, n);
      CountLast(t, i);
      TallyIgnoresOrder(DropAt(s, n), DropAt(t, i));
    }
  }

  // ---------------------------------------------------------------- margins

  ghost predicate IsTopScore(s: seq<FunctionMatch>, score: real) {
    && (exists i :: 0 <= i < |s| && s[i].score == score)
    && (forall i :: 0 <= i < |s| ==> s[i].score <= score)
  }

  lemma {:induction false} BestIsTopScore(s: seq<FunctionMatch>)
    requires s != []
    ensures Tally(s).best.Some? && IsTopScore(s, Tally(s).best.value)
  {
    var n := |s| - 1;
    assert s[n].score == s[n].score;
    if n > 0 {
      BestIsTopScore(s[..n]);
      var i :| 0 <= i < n && s[..n][i].score == Tally(s[..n]).best.value;
      assert s[i].score == Tally(s[..n]).best.value;
      assert forall k :: 0 <= k < n ==> s[k] == s[..n][k];
    }
  }

  /** `margin` is the lead of candidate `i` over the strongest of all the others; none for a sole candidate. */
  ghost predicate IsLead(group: seq<FunctionMatch>, i: nat, margin: Option<real>)
    requires i < |group|
  {
    if |group| == 1 then margin.None?
    else margin.Some? && IsTopScore(DropAt(group, i), group[i].score - margin.value)
  }

  lemma MarginIsLead(group: seq<FunctionMatch>, i: nat)
    requires i < |group|
    ensures IsLead(group, i, group[i].(stats := Tally(group)).Margin())
  {
    hide *;
    TallyIsConsistent(group);
    if |group| == 1 {
      SoleHasNoLead(group, i, Tally(group));
    } else {
      var rest := DropAt(group, i);
      DropAtLength(group, i);
      CountLast(group, i);
      TallyIsConsistent(rest);
      BestIsTopScore(rest);
      LeadOfLast(Tally(rest), group[i]);
      LeadOverTop(group, i, Tally(rest).best.value);
    }
  }

  lemma DropAtLength<T>(s: seq<T>, i: nat)
    requires i < |s|
    ensures |DropAt(s, i)| == |s| - 1
  {
  }

  lemma SoleHasNoLead(group: seq<FunctionMatch>, i: nat, stats: Stats)
    requires i < |group| == 1 == stats.candidates
    ensures IsLead(group, i, group[i].(stats := stats).Margin())
  {
  }

  lemma LeadOverTop(group: seq<FunctionMatch>, i: nat, top: real)
    requires i < |group| && |group| > 1 && IsTopScore(DropAt(group, i), top)
    ensures IsLead(group, i, Some(group[i].score - top))
  {
    hide IsTopScore, DropAt;
    assert group[i].score - (group[i].score - top) == top;
  }

  lemma LeadOfLast(stats: Stats, m: FunctionMatch)
    requires Consistent(stats) && stats.candidates >= 1 && stats.best.Some?
    ensures m.(stats := Count(stats, m)).Margin() == Some(m.score - stats.best.value)
  {
  }

  lemma MarginFollowsScore(a: FunctionMatch, b: FunctionMatch)
    requires a.stats == b.stats && Consistent(a.stats) && a.stats.candidates >= 2 && a.stats.runnerUp.Some?
    requires a.score <= b.score
    ensures a.Margin().Some? && b.Margin().Some? && a.Margin().value <= b.Margin().value
  {
  }

  // ---------------------------------------------------------------- the matches of one source function

  lemma MiddleOut<T>(a: seq<T>, b: seq<T>, c: seq<T>)
    ensures multiset(a + (b + c)) == multiset(a + c) + multiset(b)
  {
  }

  lemma FilterMiddle<T>(a: seq<T>, x: T, c: seq<T>, p: T -> bool)
    ensures multiset(Filter(a + ([x] + c), p)) == multiset(Filter(a + c, p)) + multiset(Filter([x], p))
  {
    hide *;
    FilterConcat(a, [x] + c, p);
    FilterConcat([x], c, p);
    FilterConcat(a, c, p);
    MiddleOut(Filter(a, p), Filter([x], p), Filter(c, p));
  }

  lemma FilterDropAt<T>(s: seq<T>, i: nat, p: T -> bool)
    requires i < |s|
    ensures multiset(Filter(s, p)) == multiset(Filter(DropAt(s, i), p)) + multiset(Filter([s[i]], p))
  {
    hide Filter;
    assert s == s[..i] + ([s[i]] + s[i + 1..]);
    FilterMiddle(s[..i], s[i], s[i + 1..], p);
  }

  lemma {:induction false} FilterIgnoresOrder<T>(s: seq<T>, t: seq<T>, p: T -> bool)
    requires multiset(s) == multiset(t)
    ensures multiset(Filter(s, p)) == multiset(Filter(t, p))
    decreases |s|
  {
    assert |s| == |multiset(s)| == |multiset(t)| == |t|;
    if s != [] {
      assert s[0] in multiset(s);
      var i := IndexOf(t, s[0]);
      DropAtElements(s, 0);
      DropAtElements(t, i);
      FilterIgnoresOrder(DropAt(s, 0), DropAt(t, i), p);
      FilterDropAt(s, 0, p);
      FilterDropAt(t, i, p);
    }
  }

  lemma KeyLeIsTotalPreorder()
    ensures TotalPreorder(KeyLe)
  {
  }

  lemma RankedIsOfGroup(group: seq<FunctionMatch>, limit: nat, o: int)
    requires forall i :: 0 <= i < |group| ==> group[i].sourceOffset == o
    ensures forall i :: 0 <= i < |Ranked(group, limit)| ==> Ranked(group, limit)[i].sourceOffset == o
    ensures group == [] ==> Ranked(group, limit) == []
  {
    KeyLeIsTotalPreorder();
    var ranked := Sort(group, KeyLe);
    SortIsSorted(group, KeyLe);
    SameElements(ranked, group);
    forall i | 0 <= i < |ranked| ensures ranked[i].sourceOffset == o {
      assert ranked[i] in group;
    }
  }

  lemma BlockSlice(hits: seq<FunctionMatch>, limit: nat, last: int, o: int)
    ensures Filter(Ranked(Filter(hits, At(last)), limit), At(o))
            == (if o == last then Ranked(Filter(hits, At(o)), limit) else [])
  {
    var block := Ranked(Filter(hits, At(last)), limit);
    hide Ranked, Filter;
    FilterKeeps(hits, At(last));
    RankedIsOfGroup(Filter(hits, At(last)), limit, last);
    if o == last {
      FilterAll(block, At(o));
    } else {
      FilterNone(block, At(o));
    }
  }

  lemma {:induction false} SelectedSlice(offsets: seq<int>, hits: seq<FunctionMatch>, limit: nat, o: int)
    requires Distinct(offsets)
    ensures Filter(Selected(offsets, hits, limit), At(o))
            == (if o in offsets then Ranked(Filter(hits, At(o)), limit) else [])
  {
    if offsets != [] {
      var n := |offsets| - 1;
      var last := offsets[n];
      DistinctLast(offsets, o);
      assert offsets[..n + 1] == offsets;
      hide *;
      SelectedSlice(offsets[..n], hits, limit, o);
      SelectedStep(offsets, n, hits, limit);
      BlockSlice(hits, limit, last, o);
      var before, block := Selected(offsets[..n], hits, limit), Ranked(Filter(hits, At(last)), limit);
      FilterConcat(before, block, At(o));
      assert Filter(before, At(o)) + [] == Filter(before, At(o)) && [] + Filter(block, At(o)) == Filter(block, At(o));
    }
  }

  /** The candidates of one source function that the query accepts. */
  function Candidates(payload: seq<Summary>, q: Query, o: int): seq<FunctionMatch> {
    Filter(Accepted(payload, q), At(o))
  }

  /** The parsed matches of one source function. */
  function Slice(payload: seq<Summary>, q: Query, o: int): seq<FunctionMatch> {
    Filter(Parsed(payload, q), At(o))
  }

  lemma SliceIsRanked(payload: seq<Summary>, q: Query, o: int)
    ensures Slice(payload, q, o) == Ranked(Candidates(payload, q, o), Limit(q))
  {
    var hits := Accepted(payload, q);
    OffsetsAreTheSources(hits);
    SelectedSlice(Offsets(hits), hits, Limit(q), o);
    if Filter(hits, At(o)) == [] {
      RankedIsOfGroup([], Limit(q), o);
    }
  }

  lemma RankedAt(group: seq<FunctionMatch>, limit: nat, k: nat)
    requires k < |Ranked(group, limit)|
    ensures multiset(Sort(group, KeyLe)) == multiset(group) && |Sort(group, KeyLe)| == |group|
    ensures |Ranked(group, limit)| == (if limit < |group| then limit else |group|)
    ensures Ranked(group, limit)[k] == Sort(group, KeyLe)[k].(stats := Tally(group))
  {
    KeyLeIsTotalPreorder();
    SortIsSorted(group, KeyLe);
    TallyIgnoresOrder(Sort(group, KeyLe), group);
  }

  lemma {:induction false} HitsArePlain(s: Summary, rows: seq<Row>, q: Query)
    requires s.Summary?
    ensures forall i :: 0 <= i < |HitsOf(s, rows, q)| ==> HitsOf(s, rows, q)[i].stats == DEFAULT_STATS
  {
    if rows != [] {
      HitsArePlain(s, rows[..|rows| - 1], q);
    }
  }

  lemma {:induction false} AcceptedArePlain(payload: seq<Summary>, q: Query)
    ensures forall i :: 0 <= i < |Accepted(payload, q)| ==> Accepted(payload, q)[i].stats == DEFAULT_STATS
  {
    if payload != [] {
      var last := payload[|payload| - 1];
      AcceptedArePlain(payload[..|payload| - 1], q);
      if last.Summary? {
        HitsArePlain(last, last.rows, q);
      }
    }
  }

  lemma CandidatesArePlain(payload: seq<Summary>, q: Query, o: int, m: FunctionMatch)
    requires m in Candidates(payload, q, o)
    ensures m.Plain() == m
  {
    AcceptedArePlain(payload, q);
    var hits := Accepted(payload, q);
    FilterKeeps(hits, At(o));
    assert multiset(Filter(hits, At(o)))[m] > 0;
    assert m in multiset(hits);
  }

  /** Which candidate a parsed match stands for, and that its margin is that candidate's lead over all the others. */
  lemma MarginsAreLeads(payload: seq<Summary>, q: Query, o: int, k: nat) returns (i: nat)
    requires k < |Slice(payload, q, o)|
    ensures i < |Candidates(payload, q, o)| && Candidates(payload, q, o)[i] == Slice(payload, q, o)[k].Plain()
    ensures IsLead(Candidates(payload, q, o), i, Slice(payload, q, o)[k].Margin())
  {
    SliceIsRanked(payload, q, o);
    var group := Candidates(payload, q, o);
    RankedAt(group, Limit(q), k);
    var m := Sort(group, KeyLe)[k];
    assert m in multiset(Sort(group, KeyLe));
    i := IndexOf(group, m);
    CandidatesArePlain(payload, q, o, m);
    MarginIsLead(group, i);
  }

  lemma LeadsDoNotCoexist(ranked: seq<FunctionMatch>, j: nat, k: nat, a: Option<real>, b: Option<real>)
    requires j < k < |ranked| && IsLead(ranked, j, a) && IsLead(ranked, k, b)
    ensures a.Some? && b.Some? && (a.value <= 0.0 || b.value <= 0.0)
  {
    assert DropAt(ranked, j)[k - 1] == ranked[k];
    assert DropAt(ranked, k)[j] == ranked[j];
  }

  /** Of several candidates at most one is given more than the weight of a tie. */
  lemma AtMostOneIsUnique(payload: seq<Summary>, q: Query, o: int, j: nat, k: nat)
    requires j < k < |Slice(payload, q, o)|
    ensures Scoring.UniquenessWeight(Slice(payload, q, o)[j].Margin()) <= 0.5
            || Scoring.UniquenessWeight(Slice(payload, q, o)[k].Margin()) <= 0.5
  {
    SliceIsRanked(payload, q, o);
    var group := Candidates(payload, q, o);
    var ranked := Sort(group, KeyLe);
    var a, b := Slice(payload, q, o)[j].Margin(), Slice(payload, q, o)[k].Margin();
    hide *;
    RankedAt(group, Limit(q), j);
    RankedAt(group, Limit(q), k);
    TallyIgnoresOrder(ranked, group);
    MarginIsLead(ranked, j);
    MarginIsLead(ranked, k);
    LeadsDoNotCoexist(ranked, j, k, a, b);
    Scoring.UniquenessIsMonotone(a.value, a.value);
    Scoring.UniquenessIsMonotone(b.value, b.value);
  }

  /** Among the candidates of one function that are not PicHash and have one size, confidence follows the score. */
  lemma ConfidenceFollowsScore(payload: seq<Summary>, q: Query, o: int, j: nat, k: nat)
    requires j < |Slice(payload, q, o)| && k < |Slice(payload, q, o)|
    requires var a, b := Slice(payload, q, o)[j], Slice(payload, q, o)[k];
             !a.IsPicHash() && !b.IsPicHash() && a.numBytes == b.numBytes && a.score <= b.score
    ensures Slice(payload, q, o)[j].Confidence() <= Slice(payload, q, o)[k].Confidence()
  {
    var a, b := Slice(payload, q, o)[j], Slice(payload, q, o)[k];
    var group := Candidates(payload, q, o);
    SliceIsRanked(payload, q, o);
    RankedAt(group, Limit(q), j);
    RankedAt(group, Limit(q), k);
    TallyIsConsistent(group);
    if |group| > 1 {
      assert a.stats == b.stats == Tally(group);
      hide *;
      MarginFollowsScore(a, b);
      Scoring.ConfidenceIsMonotone(a.score, b.score, a.flags, b.flags, a.numBytes, a.Margin(), b.Margin(),
                                   a.stats.pichash, b.stats.pichash);
    }
  }

  predicate IsPicHashMatch(m: FunctionMatch) {
    m.IsPicHash()
  }

  lemma {:induction false} TallyCountsPicHash(s: seq<FunctionMatch>)
    ensures Tally(s).pichash == |Filter(s, IsPicHashMatch)|
  {
    if s != [] {
      var n := |s| - 1;
      TallyCountsPicHash(s[..n]);
      assert s == s[..n] + [s[n]];
      FilterConcat(s[..n], [s[n]], IsPicHashMatch);
    }
  }

  /** A PicHash match is certain exactly if it is the only one among the candidates, and half certain otherwise. */
  lemma PicHashIsCertainIffSole(payload: seq<Summary>, q: Query, o: int, k: nat)
    requires k < |Slice(payload, q, o)| && Slice(payload, q, o)[k].IsPicHash()
    ensures Slice(payload, q, o)[k].Confidence()
            == (if |Filter(Candidates(payload, q, o), IsPicHashMatch)| == 1 then 255 else 128)
  {
    var group := Candidates(payload, q, o);
    SliceIsRanked(payload, q, o);
    RankedAt(group, Limit(q), k);
    TallyCountsPicHash(group);
    var m := Sort(group, KeyLe)[k];
    assert m in multiset(Sort(group, KeyLe)) && m.IsPicHash();
    hide Sort, Slice, Filter, Tally, Ranked;
    FilterKeeps(group, IsPicHashMatch);
    assert multiset(Filter(group, IsPicHashMatch))[m] > 0;
    assert Filter(group, IsPicHashMatch) != [];
  }

  /** Neither the order of the payload nor the limit changes what is said of a match. */
  lemma OrderAndLimitDoNotMatter(
    payload1: seq<Summary>, q1: Query, payload2: seq<Summary>, q2: Query, o: int, j: nat, k: nat)
    requires multiset(Accepted(payload1, q1)) == multiset(Accepted(payload2, q2))
    requires j < |Slice(payload1, q1, o)| && k < |Slice(payload2, q2, o)|
    requires Slice(payload1, q1, o)[j].Plain() == Slice(payload2, q2, o)[k].Plain()
    ensures Slice(payload1, q1, o)[j] == Slice(payload2, q2, o)[k]
  {
    var group1, group2 := Candidates(payload1, q1, o), Candidates(payload2, q2, o);
    SliceIsRanked(payload1, q1, o);
    SliceIsRanked(payload2, q2, o);
    RankedAt(group1, Limit(q1), j);
    RankedAt(group2, Limit(q2), k);
    hide *;
    FilterIgnoresOrder(Accepted(payload1, q1), Accepted(payload2, q2), At(o));
    assert multiset(group1) == multiset(group2);
    TallyIgnoresOrder(group1, group2);
  }

  /** The matches that neither PicHash nor score nor size tells from `z`. */
  function RanksLike(z: FunctionMatch): FunctionMatch -> bool {
    (m: FunctionMatch) => m.IsPicHash() == z.IsPicHash() && m.score == z.score && m.numBytes == z.numBytes
  }

  lemma RankedInPayloadOrder(group: seq<FunctionMatch>)
    ensures forall z :: Filter(Sort(group, KeyLe), RanksLike(z)) == Filter(group, RanksLike(z))
  {
    forall z ensures Filter(Sort(group, KeyLe), RanksLike(z)) == Filter(group, RanksLike(z)) {
      KeyLeIsTotalPreorder();
      SortIsStable(group, KeyLe, z);
      FilterSame(Sort(group, KeyLe), Alike(z, KeyLe), RanksLike(z));
      FilterSame(group, Alike(z, KeyLe), RanksLike(z));
    }
  }

  /**
   * The matches of a function are the first `limit` of its candidates: PicHash matches first, then by falling score,
   * then by falling size, and ties in payload order.
   */
  lemma SliceIsBestFirst(payload: seq<Summary>, q: Query, o: int)
    returns (ranked: seq<FunctionMatch>)
    ensures multiset(ranked) == multiset(Candidates(payload, q, o)) && |ranked| == |Candidates(payload, q, o)|
    ensures forall z :: Filter(ranked, RanksLike(z)) == Filter(Candidates(payload, q, o), RanksLike(z))
    ensures var limit, count := if q.maxResults > 1 then q.maxResults else 1, |Candidates(payload, q, o)|;
            |Slice(payload, q, o)| == (if limit < count then limit else count)
    ensures Candidates(payload, q, o) != [] ==> Slice(payload, q, o) != []
    ensures forall k :: 0 <= k < |Slice(payload, q, o)| ==> Slice(payload, q, o)[k].Plain() == ranked[k]
    ensures forall j, k :: 0 <= j < k < |ranked| ==>
              var a, b := ranked[j], ranked[k];
              && (b.IsPicHash() ==> a.IsPicHash())
              && (a.IsPicHash() == b.IsPicHash() ==> a.score >= b.score)
              && (a.IsPicHash() == b.IsPicHash() && a.score == b.score ==> a.numBytes >= b.numBytes)
  {
    var group := Candidates(payload, q, o);
    ranked := Sort(group, KeyLe);
    KeyLeIsTotalPreorder();
    SortIsSorted(group, KeyLe);
    assert |ranked| == |group|;
    RankedInPayloadOrder(group);
    SliceIsRanked(payload, q, o);
    forall k | 0 <= k < |Slice(payload, q, o)| ensures Slice(payload, q, o)[k].Plain() == ranked[k] {
      RankedAt(group, Limit(q), k);
      assert ranked[k] in multiset(ranked);
      CandidatesArePlain(payload, q, o, ranked[k]);
    }
  }

  // ---------------------------------------------------------------- what is accepted

  /** The match says what the summary and the row say. */
  predicate ComesFrom(m: FunctionMatch, s: Summary, row: Row) {
    && s.Summary? && row.Row? && row.score == Finite(m.score)
    && m.sourceOffset == s.offset && m.numBytes == s.numBytes
    && m.sourceFunctionId >= 0 && (m.sourceFunctionId == s.functionId || m.sourceFunctionId == -s.functionId)
    && m.targetFamilyId == row.family && m.targetSampleId == row.sample && m.targetFunctionId == row.function_
    && m.flags == row.flags && m.targetOffset.None? && m.stats == DEFAULT_STATS
  }

  /** The match is one the query asks for. */
  predicate Meets(m: FunctionMatch, q: Query) {
    && m.score >= q.minScore
    && (q.includeLibrary || !Scoring.IsLibrary(m.flags))
    && (q.targetSample.Some? ==> m.targetSampleId == q.targetSample.value)
  }

  lemma HitIff(s: Summary, row: Row, q: Query, m: FunctionMatch)
    requires s.Summary?
    ensures Hit(s, row, q) == Some(m) <==> ComesFrom(m, s, row) && Meets(m, q)
  {
  }

  lemma {:induction false} HitsIff(s: Summary, rows: seq<Row>, q: Query, m: FunctionMatch)
    requires s.Summary?
    ensures m in HitsOf(s, rows, q) <==> Meets(m, q) && exists r :: 0 <= r < |rows| && ComesFrom(m, s, rows[r])
  {
    if rows != [] {
      var n := |rows| - 1;
      HitsIff(s, rows[..n], q, m);
      HitIff(s, rows[n], q, m);
      hide Hit, ComesFrom, Meets;
      if r :| 0 <= r < |rows| && ComesFrom(m, s, rows[r]) {
        assert r < n ==> ComesFrom(m, s, rows[..n][r]);
      }
    }
  }

  /** A row of the payload says what the match says. */
  ghost predicate InPayload(m: FunctionMatch, payload: seq<Summary>) {
    exists i, r :: 0 <= i < |payload| && payload[i].Summary? && 0 <= r < |payload[i].rows|
                   && ComesFrom(m, payload[i], payload[i].rows[r])
  }

  /** The candidates are exactly the rows of the payload that the query asks for. */
  lemma {:induction false} AcceptedIff(payload: seq<Summary>, q: Query, m: FunctionMatch)
    ensures m in Accepted(payload, q) <==> InPayload(m, payload) && Meets(m, q)
  {
    if payload != [] {
      var n := |payload| - 1;
      var last := payload[n];
      AcceptedIff(payload[..n], q, m);
      hide HitsOf, ComesFrom, Meets;
      if last.Summary? {
        HitsIff(last, last.rows, q, m);
      }
      if InPayload(m, payload[..n]) {
        var i, r :| 0 <= i < n && payload[..n][i].Summary? && 0 <= r < |payload[..n][i].rows|
                    && ComesFrom(m, payload[..n][i], payload[..n][i].rows[r]);
        assert ComesFrom(m, payload[i], payload[i].rows[r]);
      }
      if InPayload(m, payload) {
        var i, r :| 0 <= i < |payload| && payload[i].Summary? && 0 <= r < |payload[i].rows|
                    && ComesFrom(m, payload[i], payload[i].rows[r]);
        assert i < n ==> ComesFrom(m, payload[..n][i], payload[..n][i].rows[r]);
      }
    }
  }

  /** Every parsed match is a row of the payload that the query asks for. */
  lemma ParsedMeetsQuery(payload: seq<Summary>, q: Query, k: nat)
    requires k < |Parsed(payload, q)|
    ensures var m := Parsed(payload, q)[k].Plain(); InPayload(m, payload) && Meets(m, q)
  {
    var all := Parsed(payload, q);
    var m := all[k];
    var o := m.sourceOffset;
    FilterKeeps(all, At(o));
    assert m in multiset(all) && multiset(Slice(payload, q, o))[m] > 0;
    var j := IndexOf(Slice(payload, q, o), m);
    var i := MarginsAreLeads(payload, q, o, j);
    var plain := Candidates(payload, q, o)[i];
    FilterKeeps(Accepted(payload, q), At(o));
    hide Parsed, Accepted, Slice, Filter;
    assert plain in multiset(Candidates(payload, q, o));
    assert plain in multiset(Accepted(payload, q));
    AcceptedIff(payload, q, plain);
  }

  // ---------------------------------------------------------------- limits and the corpus split

  /** A smaller limit gives, function by function, a prefix of what a larger one gives. */
  lemma SmallerLimitIsPrefix(payload: seq<Summary>, q: Query, limit: int, o: int)
    requires q.maxResults <= limit
    ensures Slice(payload, q, o) <= Slice(payload, q.(maxResults := limit), o)
  {
    var larger := q.(maxResults := limit);
    SameAccepted(payload, q, larger);
    SliceIsRanked(payload, q, o);
    SliceIsRanked(payload, larger, o);
  }

  lemma {:induction false} SameHits(s: Summary, rows: seq<Row>, q: Query, p: Query)
    requires s.Summary? && p == q.(maxResults := p.maxResults)
    ensures HitsOf(s, rows, q) == HitsOf(s, rows, p)
  {
    if rows != [] {
      SameHits(s, rows[..|rows| - 1], q, p);
    }
  }

  lemma {:induction false} SameAccepted(payload: seq<Summary>, q: Query, p: Query)
    requires p == q.(maxResults := p.maxResults)
    ensures Accepted(payload, q) == Accepted(payload, p)
  {
    if payload != [] {
      var last := payload[|payload| - 1];
      SameAccepted(payload[..|payload| - 1], q, p);
      if last.Summary? {
        SameHits(last, last.rows, q, p);
      }
    }
  }

  /** The rows of one sample, order kept. */
  function RowsOf(rows: seq<Row>, sample: int): seq<Row> {
    if rows == [] then []
    else
      var last := rows[|rows| - 1];
      RowsOf(rows[..|rows| - 1], sample) + (if last.Row? && last.sample == sample then [last] else [])
  }

  /** The payload a query of that one sample would give. */
  function PayloadOf(payload: seq<Summary>, sample: int): seq<Summary> {
    seq(|payload|, i requires 0 <= i < |payload| =>
      if payload[i].Summary? then payload[i].(rows := RowsOf(payload[i].rows, sample)) else BadSummary)
  }

  lemma SplitHit(s: Summary, row: Row, q: Query, sample: int, rows: seq<Row>)
    requires s.Summary? && q.targetSample == Some(sample)
    ensures Hit(s, row, q)
            == (if row.Row? && row.sample == sample then Hit(s.(rows := rows), row, q.(targetSample := None)) else None)
  {
  }

  lemma HitsOfAppend(s: Summary, rows: seq<Row>, row: Row, q: Query)
    requires s.Summary?
    ensures HitsOf(s, rows + [row], q)
            == HitsOf(s, rows, q) + (if Hit(s, row, q).Some? then [Hit(s, row, q).value] else [])
  {
    assert (rows + [row])[..|rows|] == rows;
  }

  lemma {:induction false} SplitHits(s: Summary, rows: seq<Row>, q: Query, sample: int)
    requires s.Summary? && q.targetSample == Some(sample)
    ensures HitsOf(s, rows, q)
            == HitsOf(s.(rows := RowsOf(s.rows, sample)), RowsOf(rows, sample), q.(targetSample := None))
  {
    if rows != [] {
      var n := |rows| - 1;
      var row := rows[n];
      SplitHits(s, rows[..n], q, sample);
      var one, kept, direct := s.(rows := RowsOf(s.rows, sample)), RowsOf(rows[..n], sample), q.(targetSample := None);
      assert rows == rows[..n] + [row];
      assert RowsOf(rows, sample) == (if row.Row? && row.sample == sample then kept + [row] else kept);
      hide *;
      SplitHit(s, row, q, sample, RowsOf(s.rows, sample));
      HitsOfAppend(s, rows[..n], row, q);
      HitsOfAppend(one, kept, row, direct);
      assert HitsOf(s, rows[..n], q) + [] == HitsOf(s, rows[..n], q);
    }
  }

  lemma {:induction false} SplitAccepted(payload: seq<Summary>, q: Query, sample: int)
    requires q.targetSample == Some(sample)
    ensures Accepted(payload, q) == Accepted(PayloadOf(payload, sample), q.(targetSample := None))
  {
    if payload != [] {
      var n := |payload| - 1;
      SplitAccepted(payload[..n], q, sample);
      assert PayloadOf(payload, sample)[..n] == PayloadOf(payload[..n], sample);
      if payload[n].Summary? {
        SplitHits(payload[n], payload[n].rows, q, sample);
      }
    }
  }

  /** Splitting one corpus result for an edge gives exactly what querying that edge gives. */
  lemma SplitEqualsDirect(payload: seq<Summary>, q: Query, sample: int)
    requires q.targetSample == Some(sample)
    ensures Parsed(payload, q) == Parsed(PayloadOf(payload, sample), q.(targetSample := None))
  {
    SplitAccepted(payload, q, sample);
  }
}
