/**
 * mcrit/parse.py: function matches from a MatcherVs payload, filtered, grouped by source function,
 * ranked, and given the candidate statistics that `margin` reads.
 */
module Parse {
  import opened Collections
  import opened Sorting
  import Scoring

  /** What the candidates of one source function have in common. */
  datatype Stats = Stats(candidates: nat, best: Option<real>, runnerUp: Option<real>, pichash: nat)

  datatype FunctionMatch = FunctionMatch(
    sourceOffset: int, targetOffset: Option<int>, sourceFunctionId: int, targetFunctionId: int,
    targetSampleId: int, targetFamilyId: int, score: real, flags: int, numBytes: real, stats: Stats)
  {
    predicate IsPicHash() {
      Scoring.IsPicHash(flags)
    }

    /** The lead over the strongest other candidate, read off the shared statistics. */
    function Margin(): Option<real> {
      if stats.candidates < 2 || stats.best.None? || stats.runnerUp.None? then None
      else Some(score - (if score >= stats.best.value then stats.runnerUp.value else stats.best.value))
    }

    function Confidence(): int {
      Scoring.ConfidenceFromMatch(score, flags, numBytes, Margin(), stats.pichash)
    }

    /** The match as it was before the statistics were known. */
    function Plain(): FunctionMatch {
      this.(stats := DEFAULT_STATS)
    }
  }

  const DEFAULT_STATS := Stats(1, None, None, 0)

  datatype Score = Finite(value: real) | NonFinite

  /** One decoded candidate row; `Malformed` is any row that the decoding skips. */
  datatype Row = Row(family: int, sample: int, function_: int, score: Score, flags: int) | Malformed

  /** One decoded source function; `BadSummary` is any entry that the decoding skips. */
  datatype Summary = Summary(offset: int, functionId: int, numBytes: real, rows: seq<Row>) | BadSummary

  datatype Query = Query(minScore: real, includeLibrary: bool, maxResults: int, targetSample: Option<int>)

  function Limit(q: Query): nat {
    if q.maxResults < 1 then 1 else q.maxResults
  }

  // ---------------------------------------------------------------- specification

  function Hit(s: Summary, row: Row, q: Query): Option<FunctionMatch>
    requires s.Summary?
  {
    if row.Malformed? || (!q.includeLibrary && Scoring.IsLibrary(row.flags)) then None
    else if row.score.NonFinite? || row.score.value < q.minScore then None
    else if q.targetSample.Some? && row.sample != q.targetSample.value then None
    else Some(FunctionMatch(s.offset, None, if s.functionId < 0 then -s.functionId else s.functionId, row.function_,
                            row.sample, row.family, row.score.value, row.flags, s.numBytes, DEFAULT_STATS))
  }

  function HitsOf(s: Summary, rows: seq<Row>, q: Query): seq<FunctionMatch>
    requires s.Summary?
  {
    if rows == [] then []
    else
      var hit := Hit(s, rows[|rows| - 1], q);
      HitsOf(s, rows[..|rows| - 1], q) + (if hit.Some? then [hit.value] else [])
  }

  /** Every accepted candidate, in payload order. */
  function Accepted(payload: seq<Summary>, q: Query): seq<FunctionMatch> {
    if payload == [] then []
    else
      var last := payload[|payload| - 1];
      Accepted(payload[..|payload| - 1], q) + (if last.Summary? then HitsOf(last, last.rows, q) else [])
  }

  function At(offset: int): FunctionMatch -> bool {
    (m: FunctionMatch) => m.sourceOffset == offset
  }

  /** The source offsets in order of first appearance. */
  function Offsets(hits: seq<FunctionMatch>): seq<int> {
    if hits == [] then []
    else
      var rest, last := Offsets(hits[..|hits| - 1]), hits[|hits| - 1].sourceOffset;
      if last in rest then rest else rest + [last]
  }

  predicate KeyLe(a: FunctionMatch, b: FunctionMatch) {
    if a.IsPicHash() != b.IsPicHash() then a.IsPicHash()
    else if a.score != b.score then a.score > b.score
    else a.numBytes >= b.numBytes
  }

  function Count(stats: Stats, m: FunctionMatch): Stats {
    var pichash := stats.pichash + if m.IsPicHash() then 1 else 0;
    if stats.best.None? || m.score >= stats.best.value then
      Stats(stats.candidates + 1, Some(m.score), stats.best, pichash)
    else if stats.runnerUp.None? || m.score > stats.runnerUp.value then
      Stats(stats.candidates + 1, stats.best, Some(m.score), pichash)
    else
      Stats(stats.candidates + 1, stats.best, stats.runnerUp, pichash)
  }

  function Tally(s: seq<FunctionMatch>): Stats {
    if s == [] then Stats(0, None, None, 0) else Count(Tally(s[..|s| - 1]), s[|s| - 1])
  }

  function WithStats(s: seq<FunctionMatch>, stats: Stats): seq<FunctionMatch> {
    seq(|s|, i requires 0 <= i < |s| => s[i].(stats := stats))
  }

  function Take<T>(s: seq<T>, n: nat): seq<T> {
    if n < |s| then s[..n] else s
  }

  function Ranked(group: seq<FunctionMatch>, limit: nat): seq<FunctionMatch> {
    var ranked := Sort(group, KeyLe);
    WithStats(Take(ranked, limit), Tally(ranked))
  }

  function Selected(offsets: seq<int>, hits: seq<FunctionMatch>, limit: nat): seq<FunctionMatch> {
    if offsets == [] then []
    else
      var n := |offsets| - 1;
      Selected(offsets[..n], hits, limit) + Ranked(Filter(hits, At(offsets[n])), limit)
  }

  function Parsed(payload: seq<Summary>, q: Query): seq<FunctionMatch> {
    var hits := Accepted(payload, q);
    Selected(Offsets(hits), hits, Limit(q))
  }

  // ---------------------------------------------------------------- the parser

  ghost predicate Grouped(order: seq<int>, grouped: map<int, seq<FunctionMatch>>, hits: seq<FunctionMatch>) {
    && order == Offsets(hits)
    && (forall o :: o in grouped <==> o in order)
    && (forall o :: o in grouped ==> grouped[o] == Filter(hits, At(o)))
  }

  lemma {:induction false} OffsetsAreTheSources(hits: seq<FunctionMatch>)
    ensures forall o :: o in Offsets(hits) <==> Filter(hits, At(o)) != []
    ensures Distinct(Offsets(hits))
  {
    if hits != [] {
      var n := |hits| - 1;
      OffsetsAreTheSources(hits[..n]);
      assert hits == hits[..n] + [hits[n]];
      forall o ensures o in Offsets(hits) <==> Filter(hits, At(o)) != [] {
        FilterConcat(hits[..n], [hits[n]], At(o));
      }
    }
  }

  lemma GroupedAfterAppend(
    order: seq<int>, grouped: map<int, seq<FunctionMatch>>, hits: seq<FunctionMatch>, m: FunctionMatch)
    requires Grouped(order, grouped, hits)
    ensures Grouped(
              if m.sourceOffset in grouped then order else order + [m.sourceOffset],
              grouped[m.sourceOffset := (if m.sourceOffset in grouped then grouped[m.sourceOffset] else []) + [m]],
              hits + [m])
  {
    assert (hits + [m])[..|hits|] == hits;
    forall o ensures Filter(hits + [m], At(o)) == Filter(hits, At(o)) + (if o == m.sourceOffset then [m] else []) {
      FilterConcat(hits, [m], At(o));
    }
    OffsetsAreTheSources(hits);
  }

  lemma HitsStep(s: Summary, n: nat, q: Query, hits: seq<FunctionMatch>)
    requires s.Summary? && n < |s.rows|
    ensures hits + HitsOf(s, s.rows[..n + 1], q)
            == hits + HitsOf(s, s.rows[..n], q)
               + (if Hit(s, s.rows[n], q).Some? then [Hit(s, s.rows[n], q).value] else [])
  {
    assert s.rows[..n + 1][..n] == s.rows[..n];
  }

  method GroupRows(
    s: Summary, q: Query, order0: seq<int>, grouped0: map<int, seq<FunctionMatch>>, ghost hits: seq<FunctionMatch>)
    returns (order: seq<int>, grouped: map<int, seq<FunctionMatch>>)
    requires s.Summary? && Grouped(order0, grouped0, hits)
    ensures Grouped(order, grouped, hits + HitsOf(s, s.rows, q))
  {
    order, grouped := order0, grouped0;
    assert hits + HitsOf(s, s.rows[..0], q) == hits;
    assert s.rows[..|s.rows|] == s.rows;
    hide *;
    for r := 0 to |s.rows|
      invariant Grouped(order, grouped, hits + HitsOf(s, s.rows[..r], q))
    {
      var hit := Hit(s, s.rows[r], q);
      HitsStep(s, r, q, hits);
      if hit.Some? {
        var m := hit.value;
        GroupedAfterAppend(order, grouped, hits + HitsOf(s, s.rows[..r], q), m);
        var group := if m.sourceOffset in grouped then grouped[m.sourceOffset] else [];
        order := if m.sourceOffset in grouped then order else order + [m.sourceOffset];
        grouped := grouped[m.sourceOffset := group + [m]];
      } else {
        assert hits + HitsOf(s, s.rows[..r], q) + [] == hits + HitsOf(s, s.rows[..r], q);
      }
    }
  }

  /** The two best scores and the PicHash count, in one pass over the ranked candidates. */
  method CandidateStats(ranked: seq<FunctionMatch>) returns (stats: Stats)
    ensures stats == Tally(ranked)
  {
    var best, runnerUp, pichash := None, None, 0;
    for i := 0 to |ranked|
      invariant Tally(ranked[..i]) == Stats(i, best, runnerUp, pichash)
    {
      var m := ranked[i];
      assert ranked[..i + 1][..i] == ranked[..i];
      if m.IsPicHash() {
        pichash := pichash + 1;
      }
      if best.None? || m.score >= best.value {
        runnerUp := best;
        best := Some(m.score);
      } else if runnerUp.None? || m.score > runnerUp.value {
        runnerUp := Some(m.score);
      }
    }
    assert ranked[..|ranked|] == ranked;
    stats := Stats(|ranked|, best, runnerUp, pichash);
  }

  lemma AcceptedStep(payload: seq<Summary>, n: nat, q: Query)
    requires n < |payload|
    ensures Accepted(payload[..n + 1], q)
            == Accepted(payload[..n], q) + (if payload[n].Summary? then HitsOf(payload[n], payload[n].rows, q) else [])
  {
    assert payload[..n + 1][..n] == payload[..n];
  }

  method GroupMatches(payload: seq<Summary>, q: Query) returns (order: seq<int>, grouped: map<int, seq<FunctionMatch>>)
    ensures Grouped(order, grouped, Accepted(payload, q))
  {
    order, grouped := [], map[];
    assert Grouped(order, grouped, Accepted(payload[..0], q));
    assert payload[..|payload|] == payload;
    hide *;
    for n := 0 to |payload|
      invariant Grouped(order, grouped, Accepted(payload[..n], q))
    {
      AcceptedStep(payload, n, q);
      if payload[n].Summary? {
        order, grouped := GroupRows(payload[n], q, order, grouped, Accepted(payload[..n], q));
      } else {
        assert Accepted(payload[..n], q) + [] == Accepted(payload[..n], q);
      }
    }
  }

  lemma GroupedAt(order: seq<int>, grouped: map<int, seq<FunctionMatch>>, hits: seq<FunctionMatch>, n: nat)
    requires Grouped(order, grouped, hits) && n < |order|
    ensures order == Offsets(hits)
    ensures order[n] in grouped && grouped[order[n]] == Filter(hits, At(order[n]))
  {
    var o := order[n];
    assert o in order;
    assert o in grouped;
  }

  lemma SelectedStep(offsets: seq<int>, n: nat, hits: seq<FunctionMatch>, limit: nat)
    requires n < |offsets|
    ensures Selected(offsets[..n + 1], hits, limit)
            == Selected(offsets[..n], hits, limit) + Ranked(Filter(hits, At(offsets[n])), limit)
  {
    assert offsets[..n + 1][..n] == offsets[..n];
  }

  method ParseVsResult(payload: seq<Summary>, q: Query) returns (selected: seq<FunctionMatch>)
    ensures selected == Parsed(payload, q)
  {
    var order, grouped := GroupMatches(payload, q);
    ghost var hits := Accepted(payload, q);
    assert order[..|order|] == order == Offsets(hits);
    selected := [];
    for n := 0 to |order|
      invariant selected == Selected(order[..n], hits, Limit(q))
    {
      GroupedAt(order, grouped, hits, n);
      SelectedStep(order, n, hits, Limit(q));
      hide Grouped, Selected, Accepted, Offsets, At, Filter, Sort, Tally, Take, WithStats, Limit, Parsed;
      var ranked := Sort(grouped[order[n]], KeyLe);
      var stats := CandidateStats(ranked);
      selected := selected + WithStats(Take(ranked, Limit(q)), stats);
    }
  }
}
