/** When an export is stopped, and whose report it answers with when others build the same one. */
module ExportStops {
  import opened Cache
  import opened Reports
  import opened ReportAnswers

  /** Some question to stop after the view has settled is answered with yes. */
  ghost predicate StoppedLater(stopped: nat -> bool, waits: nat) {
    exists n: nat :: 2 <= n <= 2 + waits && stopped(n)
  }

  lemma {:induction false} JoinGivesUp(c: Caches, key: Key, stopped: nat -> bool, waits: nat, others: Others)
    requires Alone(others)
    ensures Join(c, key, stopped, waits, others)
            == (c, key !in c.reports.items && exists n: nat :: 2 < n <= 2 + waits && stopped(n))
    decreases waits
  {
    if key !in c.reports.items && waits > 0 && !stopped(2 + waits) {
      JoinGivesUp(c, key, stopped, waits - 1, others);
    }
  }

  /**
   * In a call alone an export is cancelled exactly if a stop is asked for before the view has settled, or later while
   * its report is not in memory: before each wait for the build of another thread, and before its own.
   */
  lemma CancelledIffStopped(
    c: Caches, view: View, stopped: nat -> bool, waits: nat, built: Built<Report>, written: Written, folder: bool,
    others: Others)
    requires Alone(others) && HasBytes(view)
    ensures Export(c, view, stopped, waits, built, written, folder, others).1.Cancelled?
            <==> stopped(0) || stopped(1) || (KeyOf(c, view) !in c.reports.items && StoppedLater(stopped, waits))
  {
    RawHashAlone(c, view, others);
    var now, key := RawHash(c, view, others).0, KeyOf(c, view);
    JoinGivesUp(now, key, stopped, waits, others);
    hide RawHash, KeyOf, Join, LoadOrBuild, Exported, Read, Hold;
  }

  /** The caches after `k` builds by others have been waited for. */
  function Waited(c: Caches, others: Others, k: nat): Caches
    decreases k
  {
    if k == 0 then c else Waited(others(27, c), others, k - 1)
  }

  lemma {:induction false} JoinFinds(
    c: Caches, key: Key, stopped: nat -> bool, waits: nat, others: Others, k: nat)
    requires k <= waits && key in Waited(c, others, k).reports.items
    requires forall j: nat :: j < k ==> key !in Waited(c, others, j).reports.items
    requires forall n: nat :: !stopped(n)
    ensures Join(c, key, stopped, waits, others) == (Waited(c, others, k), false)
    decreases waits
  {
    if k > 0 {
      assert key !in Waited(c, others, 0).reports.items;
      forall j: nat | j < k - 1 ensures key !in Waited(others(27, c), others, j).reports.items {
        assert key !in Waited(c, others, j + 1).reports.items;
      }
      JoinFinds(others(27, c), key, stopped, waits - 1, others, k - 1);
    }
  }

  /** An export answers with the report that another thread has built by the end of the `k`-th wait, and builds none. */
  lemma JoinedBuildIsAnswered(
    c: Caches, view: View, stopped: nat -> bool, waits: nat, built: Built<Report>, written: Written, folder: bool,
    others: Others, k: nat)
    requires HasBytes(view) && (forall n: nat :: !stopped(n)) && k <= waits
    requires var (now, hash) := RawHash(c, view, others);
             var key := Key(hash, view.functions);
             && key in Waited(now, others, k).reports.items
             && forall j: nat :: j < k ==> key !in Waited(now, others, j).reports.items
    ensures var (now, hash) := RawHash(c, view, others);
            Export(c, view, stopped, waits, built, written, folder, others).1
            == Returned(Waited(now, others, k).reports.items[Key(hash, view.functions)])
  {
    var (now, hash) := RawHash(c, view, others);
    JoinFinds(now, Key(hash, view.functions), stopped, waits, others, k);
    hide RawHash, Waited, Join, LoadOrBuild, Exported, Read, Hold;
  }
}
