/** Which rows of a payload become candidates, each once and in what order, and in what order their functions follow. */
module Placement {
  import opened Sorting
  import opened Parse
  import opened Ranking
  import Scoring

  /** Row `row` of summary `entry`. */
  datatype Place = Place(entry: nat, row: nat)

  predicate Before(a: Place, b: Place) {
    a.entry < b.entry || (a.entry == b.entry && a.row < b.row)
  }

  /** A row of the payload that the query asks for. */
  predicate AskedFor(payload: seq<Summary>, q: Query, at: Place) {
    && at.entry < |payload| && payload[at.entry].Summary? && at.row < |payload[at.entry].rows|
    && var row := payload[at.entry].rows[at.row];
       && row.Row? && row.score.Finite? && row.score.value >= q.minScore
       && (q.includeLibrary || !Scoring.IsLibrary(row.flags))
       && (q.targetSample.Some? ==> row.sample == q.targetSample.value)
  }

  /** `hits` are the rows asked for before `end`, each once and in order; `places` says where they are. */
  ghost predicate AreRows(
    hits: seq<FunctionMatch>, places: seq<Place>, payload: seq<Summary>, q: Query, end: Place)
  {
    && |places| == |hits|
    && (forall k :: 0 <= k < |places| ==>
          && AskedFor(payload, q, places[k]) && Before(places[k], end)
          && ComesFrom(hits[k], payload[places[k].entry], payload[places[k].entry].rows[places[k].row]))
    && (forall j, k :: 0 <= j < k < |places| ==> Before(places[j], places[k]))
    && (forall at :: AskedFor(payload, q, at) && Before(at, end) ==> at in places)
  }

  lemma NextRow(
    hits: seq<FunctionMatch>, places: seq<Place>, payload: seq<Summary>, q: Query, n: nat, r: nat)
    returns (more: seq<Place>)
    requires n < |payload| && payload[n].Summary? && r < |payload[n].rows|
    requires AreRows(hits, places, payload, q, Place(n, r))
    ensures AreRows(hits + (var hit := Hit(payload[n], payload[n].rows[r], q); if hit.Some? then [hit.value] else []),
                    more, payload, q, Place(n, r + 1))
  {
    var hit, at := Hit(payload[n], payload[n].rows[r], q), Place(n, r);
    HitIsAskedFor(payload, q, at);
    hide Hit, AskedFor, ComesFrom;
    assert forall b :: Before(b, Place(n, r + 1)) <==> Before(b, at) || b == at;
    if hit.Some? {
      more := places + [at];
      forall b | AskedFor(payload, q, b) && Before(b, Place(n, r + 1)) ensures b in more {
        assert b == at ==> more[|places|] == b;
      }
    } else {
      more := places;
      assert hits + [] == hits;
    }
  }

  lemma HitIsAskedFor(payload: seq<Summary>, q: Query, at: Place)
    requires at.entry < |payload| && payload[at.entry].Summary? && at.row < |payload[at.entry].rows|
    ensures var s, hit := payload[at.entry], Hit(payload[at.entry], payload[at.entry].rows[at.row], q);
            && (hit.Some? <==> AskedFor(payload, q, at))
            && (hit.Some? ==> ComesFrom(hit.value, s, s.rows[at.row]))
  {
  }

  lemma {:induction false} RowsOfEntry(
    hits: seq<FunctionMatch>, places: seq<Place>, payload: seq<Summary>, q: Query, n: nat, r: nat)
    returns (more: seq<Place>)
    requires n < |payload| && payload[n].Summary? && r <= |payload[n].rows|
    requires AreRows(hits, places, payload, q, Place(n, 0))
    ensures AreRows(hits + HitsOf(payload[n], payload[n].rows[..r], q), more, payload, q, Place(n, r))
    decreases r
  {
    if r == 0 {
      more := places;
      assert hits + [] == hits;
    } else {
      more := RowsOfEntry(hits, places, payload, q, n, r - 1);
      HitsStep(payload[n], r - 1, q, hits);
      hide AreRows, HitsOf, Hit;
      more := NextRow(hits + HitsOf(payload[n], payload[n].rows[..r - 1], q), more, payload, q, n, r - 1);
    }
  }

  lemma NextEntry(hits: seq<FunctionMatch>, places: seq<Place>, payload: seq<Summary>, q: Query, n: nat)
    requires n < |payload|
    requires AreRows(hits, places, payload, q, Place(n, if payload[n].Summary? then |payload[n].rows| else 0))
    ensures AreRows(hits, places, payload, q, Place(n + 1, 0))
  {
    hide ComesFrom;
  }

  lemma {:induction false} AcceptedUpTo(payload: seq<Summary>, q: Query, n: nat) returns (places: seq<Place>)
    requires n <= |payload|
    ensures AreRows(Accepted(payload[..n], q), places, payload, q, Place(n, 0))
    decreases n
  {
    if n == 0 {
      places := [];
    } else {
      places := AcceptedUpTo(payload, q, n - 1);
      AcceptedStep(payload, n - 1, q);
      hide AreRows, HitsOf, Accepted;
      var hits, last := Accepted(payload[..n - 1], q), payload[n - 1];
      if last.Summary? {
        places := RowsOfEntry(hits, places, payload, q, n - 1, |last.rows|);
        assert last.rows[..|last.rows|] == last.rows;
      } else {
        assert hits + [] == hits;
      }
      NextEntry(Accepted(payload[..n], q), places, payload, q, n - 1);
    }
  }

  /** The candidates are the rows asked for, each once, in the order of the payload. */
  lemma AcceptedAreTheRows(payload: seq<Summary>, q: Query) returns (places: seq<Place>)
    ensures var hits := Accepted(payload, q);
            && |places| == |hits|
            && (forall k :: 0 <= k < |places| ==>
                  && AskedFor(payload, q, places[k])
                  && ComesFrom(hits[k], payload[places[k].entry], payload[places[k].entry].rows[places[k].row]))
            && (forall j, k :: 0 <= j < k < |places| ==> Before(places[j], places[k]))
            && (forall at :: AskedFor(payload, q, at) ==> at in places)
  {
    places := AcceptedUpTo(payload, q, |payload|);
    assert payload[..|payload|] == payload;
    hide ComesFrom, Accepted;
    assert forall at :: AskedFor(payload, q, at) ==> Before(at, Place(|payload|, 0));
  }

  // ---------------------------------------------------------------- the order of the functions

  /** Function `a` has a candidate before every candidate of function `b`. */
  ghost predicate AppearsFirst(hits: seq<FunctionMatch>, a: int, b: int) {
    exists i :: 0 <= i < |hits| && hits[i].sourceOffset == a
                && forall j :: 0 <= j < |hits| && hits[j].sourceOffset == b ==> i < j
  }

  ghost predicate Appears(hits: seq<FunctionMatch>, o: int) {
    exists i :: 0 <= i < |hits| && hits[i].sourceOffset == o
  }

  lemma {:induction false} OffsetsAppear(hits: seq<FunctionMatch>, n: nat)
    requires n < |Offsets(hits)|
    ensures Appears(hits, Offsets(hits)[n])
  {
    var k := |hits| - 1;
    if n < |Offsets(hits[..k])| {
      OffsetsAppear(hits[..k], n);
      var i :| 0 <= i < k && hits[..k][i].sourceOffset == Offsets(hits[..k])[n];
      assert hits[i].sourceOffset == Offsets(hits)[n];
    } else {
      assert hits[k].sourceOffset == Offsets(hits)[n];
    }
  }

  lemma {:induction false} AppearingIsListed(hits: seq<FunctionMatch>, i: nat)
    requires i < |hits|
    ensures hits[i].sourceOffset in Offsets(hits)
  {
    var k := |hits| - 1;
    if i < k {
      AppearingIsListed(hits[..k], i);
    }
  }

  lemma {:induction false} OffsetsInOrder(hits: seq<FunctionMatch>, m: nat, n: nat)
    requires m < n < |Offsets(hits)|
    ensures AppearsFirst(hits, Offsets(hits)[m], Offsets(hits)[n])
  {
    var k := |hits| - 1;
    var rest := Offsets(hits[..k]);
    if n < |rest| {
      OffsetsInOrder(hits[..k], m, n);
      LaterAppears(hits, rest[m], rest[n]);
    } else {
      OffsetsAppear(hits[..k], m);
      NewAppearsLast(hits, rest[m]);
    }
  }

  lemma LaterAppears(hits: seq<FunctionMatch>, a: int, b: int)
    requires hits != [] && AppearsFirst(hits[..|hits| - 1], a, b)
    ensures AppearsFirst(hits, a, b)
  {
    var k := |hits| - 1;
    var i :| 0 <= i < k && hits[..k][i].sourceOffset == a
             && forall j :: 0 <= j < k && hits[..k][j].sourceOffset == b ==> i < j;
    assert hits[i].sourceOffset == a;
    forall j | 0 <= j < |hits| && hits[j].sourceOffset == b ensures i < j {
      assert j < k ==> hits[..k][j].sourceOffset == b;
    }
  }

  lemma NewAppearsLast(hits: seq<FunctionMatch>, a: int)
    requires hits != [] && Appears(hits[..|hits| - 1], a)
    requires hits[|hits| - 1].sourceOffset !in Offsets(hits[..|hits| - 1])
    ensures AppearsFirst(hits, a, hits[|hits| - 1].sourceOffset)
  {
    var k := |hits| - 1;
    hide Offsets;
    var i :| 0 <= i < k && hits[..k][i].sourceOffset == a;
    assert hits[i].sourceOffset == a;
    forall j | 0 <= j < |hits| && hits[j].sourceOffset == hits[k].sourceOffset ensures i < j {
      if j < k {
        AppearingIsListed(hits[..k], j);
      }
    }
  }

  /** The blocks of the parsed list that two of its matches lie in. */
  lemma {:induction false} BlocksInOrder(offsets: seq<int>, hits: seq<FunctionMatch>, limit: nat, a: nat, b: nat)
    returns (m: nat, n: nat)
    requires a < b < |Selected(offsets, hits, limit)|
    ensures m <= n < |offsets|
    ensures var all := Selected(offsets, hits, limit);
            all[a].sourceOffset == offsets[m] && all[b].sourceOffset == offsets[n]
    decreases |offsets|
  {
    n := |offsets| - 1;
    var before := Selected(offsets[..n], hits, limit);
    var block := Ranked(Filter(hits, At(offsets[n])), limit);
    assert Selected(offsets, hits, limit) == before + block;
    FilterKeeps(hits, At(offsets[n]));
    RankedIsOfGroup(Filter(hits, At(offsets[n])), limit, offsets[n]);
    hide Ranked, Filter, Selected;
    if b < |before| {
      m, n := BlocksInOrder(offsets[..n], hits, limit, a, b);
    } else {
      m := n;
      if a < |before| {
        m := BlockOf(offsets[..n], hits, limit, a);
      }
    }
  }

  lemma {:induction false} BlockOf(offsets: seq<int>, hits: seq<FunctionMatch>, limit: nat, a: nat) returns (m: nat)
    requires a < |Selected(offsets, hits, limit)|
    ensures m < |offsets| && Selected(offsets, hits, limit)[a].sourceOffset == offsets[m]
    decreases |offsets|
  {
    m := |offsets| - 1;
    var before := Selected(offsets[..m], hits, limit);
    var block := Ranked(Filter(hits, At(offsets[m])), limit);
    assert Selected(offsets, hits, limit) == before + block;
    FilterKeeps(hits, At(offsets[m]));
    RankedIsOfGroup(Filter(hits, At(offsets[m])), limit, offsets[m]);
    hide Ranked, Filter, Selected;
    if a < |before| {
      m := BlockOf(offsets[..m], hits, limit, a);
    }
  }

  /**
   * The functions follow in the order in which their first candidates stand in the payload, the matches of each
   * together: of two parsed matches of different functions, that of the function which appears first comes first.
   */
  lemma FunctionsInOrder(payload: seq<Summary>, q: Query, a: nat, b: nat)
    requires a < b < |Parsed(payload, q)|
    ensures var all := Parsed(payload, q);
            all[a].sourceOffset == all[b].sourceOffset
            || AppearsFirst(Accepted(payload, q), all[a].sourceOffset, all[b].sourceOffset)
  {
    var hits := Accepted(payload, q);
    hide Accepted, Selected, AppearsFirst, Offsets;
    var m, n := BlocksInOrder(Offsets(hits), hits, Limit(q), a, b);
    if m < n {
      OffsetsInOrder(hits, m, n);
    }
  }
}
