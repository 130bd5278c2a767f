/** How much the report caches hold, over every run of renders, preloads and exports. */
module ReportLimits {
  import opened Collections
  import opened Cache
  import opened CacheRuns
  import opened CacheLimits
  import opened Reports
  import opened ReportRuns

  ghost predicate Within<K, V>(p: Policy<V>, c: Lru<K, V>) {
    WellFormed(p, c) && WithinLimits(p, c)
  }

  ghost predicate AllWithin(c: Caches) {
    && Within(ReportPolicy(), c.reports)
    && Within(SessionPolicy(), c.reportKeys)
    && Within(SessionPolicy(), c.coldHashes)
    && Within(SessionPolicy(), c.rawHashes)
    && Within(SessionPolicy(), c.coldMisses)
    && Within(SessionPolicy(), c.exportedKeys)
  }

  /** Other threads store and evict, but within the limits. */
  ghost predicate Moderate(others: Others) {
    forall n, c: Caches :: AllWithin(c) ==> AllWithin(others(n, c))
  }

  lemma PutStaysWithin<K, V>(p: Policy<V>, c: Lru<K, V>, key: K, value: V)
    requires Within(p, c)
    ensures Within(p, Put(p, c, key, value))
  {
    hide WellFormed, WithinLimits, Put;
    PutKeepsWellFormed(p, c, key, value);
    StoreKeepsWithinLimits(p, c, key, value);
  }

  lemma ReadStaysWithin<K, V>(p: Policy<V>, c: Lru<K, V>, key: K)
    requires Within(p, c)
    ensures Within(p, Read(c, key))
  {
    hide WellFormed, WithinLimits, Read;
    ReadKeepsWellFormed(p, c, key);
    ReadKeepsWithinLimits(p, c, key);
  }

  // ---------------------------------------------------------------- what every access keeps, every call keeps

  /** Neither an access to a cache or to the folder nor what others do breaks `inv`. */
  ghost predicate Stable(inv: Caches -> bool, others: Others) {
    && (forall n, c: Caches :: inv(c) ==> inv(others(n, c)))
    && (forall c: Caches, disk :: inv(c) ==> inv(c.(disk := disk)))
    && (forall c: Caches, k :: inv(c) ==> inv(c.(reports := Read(c.reports, k))))
    && (forall c: Caches, k, r :: inv(c) ==> inv(Hold(c, k, r)))
    && (forall c: Caches, s :: inv(c) ==> inv(c.(reportKeys := Read(c.reportKeys, s))))
    && (forall c: Caches, s, k :: inv(c) ==> inv(Bind(c, s, k)))
    && (forall c: Caches, s :: inv(c) ==> inv(c.(exportedKeys := Read(c.exportedKeys, s))))
    && (forall c: Caches, s, k :: inv(c) ==> inv(c.(exportedKeys := Put(SessionPolicy(), c.exportedKeys, s, k))))
    && (forall c: Caches, s :: inv(c) ==> inv(c.(coldHashes := Read(c.coldHashes, s))))
    && (forall c: Caches, s, h :: inv(c) ==> inv(c.(coldHashes := Put(SessionPolicy(), c.coldHashes, s, h))))
    && (forall c: Caches, p :: inv(c) ==> inv(c.(rawHashes := Read(c.rawHashes, p))))
    && (forall c: Caches, p, h :: inv(c) ==> inv(c.(rawHashes := Put(SessionPolicy(), c.rawHashes, p, h))))
    && (forall c: Caches, m :: inv(c) ==> inv(c.(coldMisses := Read(c.coldMisses, m))))
    && (forall c: Caches, m :: inv(c) ==> inv(c.(coldMisses := Put(SessionPolicy(), c.coldMisses, m, true))))
  }

  lemma RawHashKeeps(inv: Caches -> bool, c: Caches, view: View, others: Others)
    requires Stable(inv, others) && inv(c) && HasBytes(view)
    ensures inv(RawHash(c, view, others).0)
  {
    hide Put, Read;
  }

  lemma LoadKeeps(inv: Caches -> bool, c: Caches, view: View, hash: Hash, folder: bool, others: Others)
    requires Stable(inv, others) && inv(c)
    ensures inv(LoadCurrent(c, view, hash, others).0)
    ensures inv(LoadSmall(c, view, hash, folder, others).0)
  {
    hide Put, Read, Drifted;
  }

  lemma RenderKeeps(inv: Caches -> bool, c: Caches, view: View, folder: bool, others: Others)
    requires Stable(inv, others) && inv(c)
    ensures inv(Render(c, view, folder, others).0)
  {
    hide Put, Read, Drifted, RawHash, LoadSmall;
    if HasBytes(view) {
      RawHashKeeps(inv, others(4, others(14, c.(reportKeys := Read(c.reportKeys, view.session)))), view, others);
    }
    forall d, hash | inv(d) ensures inv(LoadSmall(d, view, hash, folder, others).0) {
      LoadKeeps(inv, d, view, hash, folder, others);
    }
  }

  lemma PreloadKeeps(
    inv: Caches -> bool, c: Caches, view: View, architectures: set<string>, folder: bool, others: Others)
    requires Stable(inv, others) && inv(c)
    ensures inv(Preload(c, view, architectures, folder, others))
  {
    hide Put, Read, Drifted, RawHash, LoadCurrent;
    if HasBytes(view) {
      RawHashKeeps(inv, others(15, c), view, others);
    }
    forall d, hash | inv(d) ensures inv(LoadCurrent(d, view, hash, others).0) {
      LoadKeeps(inv, d, view, hash, folder, others);
    }
  }

  lemma {:induction false} JoinKeeps(
    inv: Caches -> bool, c: Caches, key: Key, stopped: nat -> bool, waits: nat, others: Others)
    requires Stable(inv, others) && inv(c)
    ensures inv(Join(c, key, stopped, waits, others).0)
    decreases waits
  {
    if key !in c.reports.items && waits > 0 && !stopped(2 + waits) {
      JoinKeeps(inv, others(27, c), key, stopped, waits - 1, others);
    }
  }

  lemma ExportKeeps(
    inv: Caches -> bool, c: Caches, view: View, stopped: nat -> bool, waits: nat, built: Built<Report>,
    written: Written, folder: bool, others: Others)
    requires Stable(inv, others) && inv(c)
    ensures inv(Export(c, view, stopped, waits, built, written, folder, others).0)
  {
    hide Put, Read, RawHash, LoadCurrent, Join;
    if HasBytes(view) {
      RawHashKeeps(inv, c, view, others);
      var (now, hash) := RawHash(c, view, others);
      JoinKeeps(inv, now, Key(hash, view.functions), stopped, waits, others);
    }
    forall d, hash | inv(d) ensures inv(LoadCurrent(d, view, hash, others).0) {
      LoadKeeps(inv, d, view, hash, folder, others);
    }
  }

  // ---------------------------------------------------------------- the limits are kept

  lemma WithinIsStable(others: Others)
    requires Moderate(others)
    ensures Stable(c => AllWithin(c), others)
  {
    AllPutsStayWithin<Key, Report>(ReportPolicy());
    AllPutsStayWithin<Session, Key>(SessionPolicy());
    AllPutsStayWithin<Session, Hash>(SessionPolicy());
    AllPutsStayWithin<(Session, int), Hash>(SessionPolicy());
    AllPutsStayWithin<(Session, Key), bool>(SessionPolicy());
    hide Within, Put, Read, ReportPolicy, SessionPolicy;
  }

  lemma AllPutsStayWithin<K(!new), V(!new)>(p: Policy<V>)
    ensures forall c: Lru<K, V>, k, v :: Within(p, c) ==> Within(p, Put(p, c, k, v))
    ensures forall c: Lru<K, V>, k :: Within(p, c) ==> Within(p, Read(c, k))
  {
    hide Within, Put, Read;
    forall c: Lru<K, V>, k, v | Within(p, c) ensures Within(p, Put(p, c, k, v)) {
      PutStaysWithin(p, c, k, v);
    }
    forall c: Lru<K, V>, k | Within(p, c) ensures Within(p, Read(c, k)) {
      ReadStaysWithin(p, c, k);
    }
  }

  // ---------------------------------------------------------------- runs

  /** What others do in these events stays within the limits. */
  ghost predicate ModerateRun(events: seq<Event>) {
    forall i :: 0 <= i < |events| ==>
      match events[i].call
      case Rendered(_, others) => Moderate(others)
      case Preloaded(_, others) => Moderate(others)
      case Exporting(_, _, _, _, _, others) => Moderate(others)
      case Outside(now) => AllWithin(now)
  }

  lemma {:induction false} EveryRunStaysWithin(
    events: seq<Event>, disk: map<Hash, File>, architectures: set<string>, folder: bool)
    requires ModerateRun(events)
    ensures AllWithin(Run(events, disk, architectures, folder))
  {
    if events != [] {
      var earlier, call := events[..|events| - 1], events[|events| - 1].call;
      var c := Run(earlier, disk, architectures, folder);
      var inv := (c: Caches) => AllWithin(c);
      hide AllWithin, Moderate, Render, Preload, Export, Stable;
      EveryRunStaysWithin(earlier, disk, architectures, folder);
      match call {
        case Rendered(view, others) =>
          WithinIsStable(others);
          RenderKeeps(inv, c, view, folder, others);
        case Preloaded(view, others) =>
          WithinIsStable(others);
          PreloadKeeps(inv, c, view, architectures, folder, others);
        case Exporting(view, stopped, waits, built, written, others) =>
          WithinIsStable(others);
          ExportKeeps(inv, c, view, stopped, waits, built, written, folder, others);
        case Outside(now) =>
      }
    }
  }

  /** The instructions of the reports held under these keys. */
  function Instructions(keys: seq<Key>, reports: map<Key, Report>): int {
    if keys == [] then 0
    else (if keys[0] in reports then reports[keys[0]].numInstructions else 0) + Instructions(keys[1..], reports)
  }

  lemma {:induction false} LoadIsInstructions(keys: seq<Key>, reports: map<Key, Report>)
    ensures Load(ReportPolicy(), keys, reports) == Instructions(keys, reports)
  {
    if keys != [] {
      LoadIsInstructions(keys[1..], reports);
    }
  }

  /**
   * After every run there is at most one report in memory, or at most sixteen of together at most five million
   * instructions; and of sessions each cache remembers at most 1024.
   */
  lemma HeldReportsAreFew(events: seq<Event>, disk: map<Hash, File>, architectures: set<string>, folder: bool)
    requires ModerateRun(events)
    ensures var c := Run(events, disk, architectures, folder);
            && c.reports.items.Keys == Elements(c.reports.order) && Distinct(c.reports.order)
            && (|c.reports.order| > 1 ==>
                  |c.reports.order| <= 16 && Instructions(c.reports.order, c.reports.items) <= 5_000_000)
            && |c.reportKeys.order| <= 1024 && |c.coldHashes.order| <= 1024 && |c.rawHashes.order| <= 1024
            && |c.coldMisses.order| <= 1024 && |c.exportedKeys.order| <= 1024
  {
    EveryRunStaysWithin(events, disk, architectures, folder);
    var c := Run(events, disk, architectures, folder);
    LoadIsInstructions(c.reports.order, c.reports.items);
    hide Run, Load, Instructions;
  }

  /** A store evicts no report while there are at most sixteen of together at most five million instructions. */
  lemma RoomForSixteen(c: Lru<Key, Report>, key: Key, report: Report)
    requires WellFormed(ReportPolicy(), c)
    requires |WithNewest(c.order, key)| <= 16
    requires Instructions(WithNewest(c.order, key), c.items[key := report]) <= 5_000_000
    ensures Put(ReportPolicy(), c, key, report).order == WithNewest(c.order, key)
  {
    var all := WithNewest(c.order, key);
    EveryStoreEvictsNoMoreThanItMust(ReportPolicy(), c, key, report);
    LoadIsInstructions(all, c.items[key := report]);
    hide Put, WithNewest, Load, Instructions, WellFormed;
    assert all[0..] == all;
  }

  /** And no session is forgotten while there are at most 1024. */
  lemma RoomForSessions<K, V>(c: Lru<K, V>, key: K, value: V)
    requires WellFormed(SessionPolicy(), c) && |WithNewest(c.order, key)| <= 1024
    ensures Put(SessionPolicy(), c, key, value).order == WithNewest(c.order, key)
  {
    var all := WithNewest(c.order, key);
    EveryStoreEvictsNoMoreThanItMust(SessionPolicy(), c, key, value);
    hide Put, WithNewest, Load, WellFormed;
    assert all[0..] == all;
  }
}
