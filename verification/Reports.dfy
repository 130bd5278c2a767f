/**
 * export.py: SMDA reports of open files, in memory and on disk.
 *
 * The caches are the `Lru` values that `LockedCache` objects hold. Between any two accesses to them `others` lets
 * other threads, evictions and anything else that touches the caches or the folder act; the identity is a call alone.
 */
module Reports {
  import opened Collections
  import opened Cache

  type Session = nat
  type Hash = string

  /** The bytes of a file, as far as they matter: their SHA-256 and their length. */
  datatype Raw = Raw(hash: Hash, length: int)

  /** An open file: its bytes, the functions the view lists, and those that an export keeps. */
  datatype View = View(
    session: Session, raw: Option<Raw>, functions: nat, kept: nat, arch: Option<string>, rawView: bool)

  datatype Key = Key(hash: Hash, functions: nat)

  /** How a report came to be held: built here, or taken from disk against a view that keeps `counted` functions. */
  datatype Provenance = FromView | FromDisk(session: Session, counted: nat)

  /** `origin` is the hash of the bytes the report was built from. */
  datatype Report = Report(origin: Hash, numFunctions: nat, numInstructions: nat, provenance: Provenance)

  /** A stored report, or a file that does not load. */
  datatype File = Good(report: Report, size: nat) | Bad(size: nat)

  datatype Caches = Caches(
    reports: Lru<Key, Report>,
    reportKeys: Lru<Session, Key>,
    coldHashes: Lru<Session, Hash>,
    rawHashes: Lru<(Session, int), Hash>,
    coldMisses: Lru<(Session, Key), bool>,
    exportedKeys: Lru<Session, Key>,
    disk: map<Hash, File>)

  const COLD_MAX_RAW_BYTES := 4 * 1024 * 1024
  const COLD_MAX_STORED_BYTES := 768 * 1024
  const PRELOAD_MAX_RAW_BYTES := 64 * 1024 * 1024

  function ReportPolicy(): Policy<Report> {
    Policy(Some(16), Some(5_000_000), Some((r: Report) => r.numInstructions), (r: Report) => false)
  }

  function SessionPolicy<V>(): Policy<V> {
    Policy(Some(1024), None, None, (v: V) => false)
  }

  type Others = (nat, Caches) -> Caches

  /** What storing a report comes to: whether it is written, its size, and what pruning takes. */
  datatype Written = Written(ok: bool, size: nat, pruned: set<Hash>)

  // ---------------------------------------------------------------- specification

  predicate Drifted(numFunctions: nat, counted: nat) {
    var gap := if counted < numFunctions then numFunctions - counted else counted - numFunctions;
    gap > (if counted / 50 > 8 then counted / 50 else 8)
  }

  predicate HasBytes(view: View) {
    view.raw.Some? && view.raw.value.length > 0
  }

  function RawHash(c: Caches, view: View, others: Others): (Caches, Hash)
    requires HasBytes(view)
  {
    var key := (view.session, view.raw.value.length);
    if key in c.rawHashes.items then (others(0, c.(rawHashes := Read(c.rawHashes, key))), c.rawHashes.items[key])
    else
      var now := others(1, c);
      (others(2, now.(rawHashes := Put(SessionPolicy(), now.rawHashes, key, view.raw.value.hash))), view.raw.value.hash)
  }

  /** The hash for a lookup on the user-interface thread; empty when the file is too large. */
  function ColdHash(c: Caches, view: View, others: Others): (Caches, Hash) {
    var session := view.session;
    if session in c.coldHashes.items then
      (others(3, c.(coldHashes := Read(c.coldHashes, session))), c.coldHashes.items[session])
    else
      var (now, hash) :=
        if HasBytes(view) && view.raw.value.length <= COLD_MAX_RAW_BYTES then RawHash(others(4, c), view, others)
        else (others(5, c), "");
      (others(6, now.(coldHashes := Put(SessionPolicy(), now.coldHashes, session, hash))), hash)
  }

  function LoadCurrent(c: Caches, view: View, hash: Hash, others: Others): (Caches, Option<Report>) {
    if hash !in c.disk then (c, None)
    else if c.disk[hash].Bad? then (others(7, c.(disk := c.disk - {hash})), None)
    else if Drifted(c.disk[hash].report.numFunctions, view.kept) then (others(8, c), None)
    else (others(9, c), Some(c.disk[hash].report.(provenance := FromDisk(view.session, view.kept))))
  }

  function LoadSmall(c: Caches, view: View, hash: Hash, folder: bool, others: Others): (Caches, Option<Report>) {
    if !folder || hash !in c.disk || c.disk[hash].size > COLD_MAX_STORED_BYTES then (c, None)
    else LoadCurrent(others(10, c), view, hash, others)
  }

  function Bind(c: Caches, session: Session, key: Key): Caches {
    c.(reportKeys := Put(SessionPolicy(), c.reportKeys, session, key))
  }

  function Hold(c: Caches, key: Key, report: Report): Caches {
    c.(reports := Put(ReportPolicy(), c.reports, key, report))
  }

  function RenderKey(c: Caches, view: View, key: Key, folder: bool, others: Others): (Caches, Option<Report>) {
    var session := view.session;
    var held := Peek(c.reports, key);
    var c1 := others(11, c.(reports := Read(c.reports, key)));
    if held.Some? then (Bind(c1, session, key), held)
    else if Peek(c1.coldMisses, (session, key)) == Some(true) then
      (c1.(coldMisses := Read(c1.coldMisses, (session, key))), None)
    else
      var (c2, loaded) := LoadSmall(others(12, c1.(coldMisses := Read(c1.coldMisses, (session, key)))), view, key.hash,
                                    folder, others);
      if loaded.None? then (c2.(coldMisses := Put(SessionPolicy(), c2.coldMisses, (session, key), true)), None)
      else (Bind(others(13, Hold(c2, key, loaded.value)), session, key), loaded)
  }

  /** `cached_report`: the report for a render. */
  function Render(c: Caches, view: View, folder: bool, others: Others): (Caches, Option<Report>) {
    var session := view.session;
    var bound := Peek(c.reportKeys, session);
    var c1 := others(14, c.(reportKeys := Read(c.reportKeys, session)));
    if bound.Some? then RenderKey(c1, view, bound.value, folder, others)
    else
      var (c2, hash) := ColdHash(c1, view, others);
      if hash == "" then (c2, None) else RenderKey(c2, view, Key(hash, view.functions), folder, others)
  }

  predicate Preloadable(view: View, architectures: set<string>) {
    && (view.arch.None? || view.arch.value in architectures)
    && !view.rawView && HasBytes(view) && view.raw.value.length <= PRELOAD_MAX_RAW_BYTES
  }

  function Preload(c: Caches, view: View, architectures: set<string>, folder: bool, others: Others): Caches {
    var session := view.session;
    if !Preloadable(view, architectures) || !folder then c
    else if session in c.reportKeys.items then c.(reportKeys := Read(c.reportKeys, session))
    else
      var (c1, hash) := RawHash(others(15, c), view, others);
      var c2 := if view.raw.value.length <= COLD_MAX_RAW_BYTES
                then others(16, c1.(coldHashes := Put(SessionPolicy(), c1.coldHashes, session, hash))) else c1;
      PreloadKey(c2, view, Key(hash, view.functions), others)
  }

  function PreloadKey(c: Caches, view: View, key: Key, others: Others): Caches {
    var session := view.session;
    if key in c.reports.items then Bind(others(17, c.(reports := Read(c.reports, key))), session, key)
    else
      var (now, loaded) := LoadCurrent(others(18, c), view, key.hash, others);
      if loaded.None? then now else Bind(others(19, Hold(now, key, loaded.value)), session, key)
  }

  function Store(c: Caches, hash: Hash, report: Report, written: Written): Caches {
    if written.ok then c.(disk := (c.disk - written.pruned)[hash := Good(report, written.size)]) else c
  }

  /** The report of a first export may come from disk; any other is built, and stored. */
  function LoadOrBuild(
    c: Caches, view: View, hash: Hash, built: Built<Report>, written: Written, folder: bool, others: Others)
    : (Caches, Built<Report>)
  {
    if !folder then (c, built)
    else
      var session := view.session;
      var firstExport := session !in c.exportedKeys.items;
      var c1 := others(20, c.(exportedKeys := Read(c.exportedKeys, session)));
      var (c2, loaded) := if firstExport then LoadCurrent(c1, view, hash, others) else (c1, None);
      if loaded.Some? then (c2, Value(loaded.value))
      else if built.Raised? then (c2, Raised)
      else (others(21, Store(others(26, c2), hash, built.value, written)), built)
  }

  /**
   * `export_smda_report` of a view whose analysis has settled. `stopped` says what each question to stop answers, and
   * `waits` how many builds of the same report by other threads are met and waited for.
   */
  function Export(
    c: Caches, view: View, stopped: nat -> bool, waits: nat, built: Built<Report>, written: Written, folder: bool,
    others: Others)
    : (Caches, Answer<Report>)
  {
    if stopped(0) || stopped(1) then (c, Cancelled)
    else if !HasBytes(view) then (c, if built.Value? then Returned(built.value) else Failed)
    else
      var (now, hash) := RawHash(c, view, others);
      ExportKey(now, view, Key(hash, view.functions), stopped, waits, built, written, folder, others)
  }

  /** Waits for builds by others while the report is not held; whether a stop ended the waiting. */
  function Join(c: Caches, key: Key, stopped: nat -> bool, waits: nat, others: Others): (Caches, bool)
    decreases waits
  {
    if key in c.reports.items || waits == 0 then (c, false)
    else if stopped(2 + waits) then (c, true)
    else Join(others(27, c), key, stopped, waits - 1, others)
  }

  function ExportKey(
    c: Caches, view: View, key: Key, stopped: nat -> bool, waits: nat, built: Built<Report>, written: Written,
    folder: bool, others: Others)
    : (Caches, Answer<Report>)
  {
    var (joined, gaveUp) := Join(c, key, stopped, waits, others);
    if gaveUp then (joined, Cancelled)
    else if key in joined.reports.items then
      (Exported(others(22, joined.(reports := Read(joined.reports, key))), view.session, key, others),
       Returned(joined.reports.items[key]))
    else if stopped(2) then (joined, Cancelled)
    else
      var (now, report) := LoadOrBuild(others(23, joined), view, key.hash, built, written, folder, others);
      if report.Raised? then (now, Failed)
      else (Exported(others(24, Hold(now, key, report.value)), view.session, key, others), Returned(report.value))
  }

  function Exported(c: Caches, session: Session, key: Key, others: Others): Caches {
    var c1 := others(25, Bind(c, session, key));
    c1.(exportedKeys := Put(SessionPolicy(), c1.exportedKeys, session, key))
  }

  // ---------------------------------------------------------------- the module's state and entry points

  class ReportStore {
    const folder: bool
    const architectures: set<string>
    const others: Others
    var reports: Lru<Key, Report>
    var reportKeys: Lru<Session, Key>
    var coldHashes: Lru<Session, Hash>
    var rawHashes: Lru<(Session, int), Hash>
    var coldMisses: Lru<(Session, Key), bool>
    var exportedKeys: Lru<Session, Key>
    var disk: map<Hash, File>

    constructor (folder: bool, architectures: set<string>, others: Others, disk: map<Hash, File>)
      ensures this.folder == folder && this.architectures == architectures && this.others == others
      ensures Contents() == Caches(Empty(), Empty(), Empty(), Empty(), Empty(), Empty(), disk)
    {
      this.folder, this.architectures, this.others, this.disk := folder, architectures, others, disk;
      reports, reportKeys, coldHashes := Empty(), Empty(), Empty();
      rawHashes, coldMisses, exportedKeys := Empty(), Empty(), Empty();
    }

    function Contents(): Caches
      reads this
    {
      Caches(reports, reportKeys, coldHashes, rawHashes, coldMisses, exportedKeys, disk)
    }

    /** Others act. */
    method Yield(point: nat)
      modifies this
      ensures Contents() == others(point, old(Contents()))
    {
      var now := others(point, Contents());
      reports, reportKeys, coldHashes := now.reports, now.reportKeys, now.coldHashes;
      rawHashes, coldMisses, exportedKeys := now.rawHashes, now.coldMisses, now.exportedKeys;
      disk := now.disk;
    }

    method RawSha256Cached(view: View) returns (hash: Hash)
      requires HasBytes(view)
      modifies this
      ensures (Contents(), hash) == RawHash(old(Contents()), view, others)
    {
      var key := (view.session, view.raw.value.length);
      var known := Peek(rawHashes, key);
      if known.Some? {
        rawHashes := Read(rawHashes, key);
        Yield(0);
        return known.value;
      }
      Yield(1);
      hash := view.raw.value.hash;
      rawHashes := Put(SessionPolicy(), rawHashes, key, hash);
      Yield(2);
    }

    method ColdSha256(view: View) returns (hash: Hash)
      modifies this
      ensures (Contents(), hash) == ColdHash(old(Contents()), view, others)
    {
      var known := Peek(coldHashes, view.session);
      if known.Some? {
        coldHashes := Read(coldHashes, view.session);
        Yield(3);
        return known.value;
      }
      if view.raw.None? || !(0 < view.raw.value.length <= COLD_MAX_RAW_BYTES) {
        Yield(5);
        hash := "";
      } else {
        Yield(4);
        hash := RawSha256Cached(view);
      }
      coldHashes := Put(SessionPolicy(), coldHashes, view.session, hash);
      Yield(6);
    }

    method LoadCurrentReport(view: View, hash: Hash) returns (report: Option<Report>)
      modifies this
      ensures (Contents(), report) == LoadCurrent(old(Contents()), view, hash, others)
    {
      if hash !in disk {
        return None;
      }
      var file := disk[hash];
      if file.Bad? {
        disk := disk - {hash};
        Yield(7);
        return None;
      }
      if Drifted(file.report.numFunctions, view.kept) {
        Yield(8);
        return None;
      }
      Yield(9);
      report := Some(file.report.(provenance := FromDisk(view.session, view.kept)));
    }

    method LoadSmallReport(view: View, key: Key) returns (report: Option<Report>)
      modifies this
      ensures (Contents(), report) == LoadSmall(old(Contents()), view, key.hash, folder, others)
    {
      if !folder {
        return None;
      }
      if key.hash !in disk || disk[key.hash].size > COLD_MAX_STORED_BYTES {
        return None;
      }
      Yield(10);
      report := LoadCurrentReport(view, key.hash);
    }

    method CachedReport(view: View) returns (report: Option<Report>)
      modifies this
      ensures (Contents(), report) == Render(old(Contents()), view, folder, others)
    {
      hide Put, ColdHash, LoadSmall;
      var session := view.session;
      var bound := Peek(reportKeys, session);
      reportKeys := Read(reportKeys, session);
      Yield(14);
      var key: Key;
      if bound.Some? {
        key := bound.value;
      } else {
        var hash := ColdSha256(view);
        if hash == "" {
          return None;
        }
        key := Key(hash, view.functions);
      }
      report := Peek(reports, key);
      reports := Read(reports, key);
      Yield(11);
      if report.None? {
        var missed := Peek(coldMisses, (session, key));
        coldMisses := Read(coldMisses, (session, key));
        if missed == Some(true) {
          return None;
        }
        Yield(12);
        report := LoadSmallReport(view, key);
        if report.None? {
          coldMisses := Put(SessionPolicy(), coldMisses, (session, key), true);
          return None;
        }
        reports := Put(ReportPolicy(), reports, key, report.value);
        Yield(13);
      }
      reportKeys := Put(SessionPolicy(), reportKeys, session, key);
    }

    method PreloadReport(view: View)
      modifies this
      ensures Contents() == Preload(old(Contents()), view, architectures, folder, others)
    {
      hide Put, RawHash, LoadCurrent, ReportPolicy, SessionPolicy;
      if view.arch.Some? && view.arch.value !in architectures {
        return;
      }
      if view.rawView || view.raw.None? || !(0 < view.raw.value.length <= PRELOAD_MAX_RAW_BYTES) {
        return;
      }
      var session := view.session;
      if !folder {
        return;
      }
      var bound := Peek(reportKeys, session);
      reportKeys := Read(reportKeys, session);
      if bound.Some? {
        return;
      }
      Yield(15);
      var hash := RawSha256Cached(view);
      if view.raw.value.length <= COLD_MAX_RAW_BYTES {
        coldHashes := Put(SessionPolicy(), coldHashes, session, hash);
        Yield(16);
      }
      var key := Key(hash, view.functions);
      var report := Peek(reports, key);
      reports := Read(reports, key);
      if report.Some? {
        Yield(17);
      } else {
        Yield(18);
        report := LoadCurrentReport(view, hash);
        if report.None? {
          return;
        }
        reports := Put(ReportPolicy(), reports, key, report.value);
        Yield(19);
      }
      reportKeys := Put(SessionPolicy(), reportKeys, session, key);
    }

    method LoadOrBuildReport(view: View, hash: Hash, built: Built<Report>, written: Written)
      returns (report: Built<Report>)
      modifies this
      ensures (Contents(), report) == LoadOrBuild(old(Contents()), view, hash, built, written, folder, others)
    {
      if !folder {
        return built;
      }
      var earlier := Peek(exportedKeys, view.session);
      exportedKeys := Read(exportedKeys, view.session);
      Yield(20);
      var loaded := None;
      if earlier.None? {
        loaded := LoadCurrentReport(view, hash);
      }
      if loaded.Some? {
        return Value(loaded.value);
      }
      if built.Raised? {
        return Raised;
      }
      Yield(26);
      if written.ok {
        disk := (disk - written.pruned)[hash := Good(built.value, written.size)];
      }
      Yield(21);
      report := built;
    }

    /** Waits as long as others build the report and it is not held. */
    method JoinBuild(key: Key, stopped: nat -> bool, waits: nat) returns (gaveUp: bool)
      modifies this
      ensures (Contents(), gaveUp) == Join(old(Contents()), key, stopped, waits, others)
    {
      var left := waits;
      while key !in reports.items && left > 0
        invariant Join(Contents(), key, stopped, left, others) == Join(old(Contents()), key, stopped, waits, others)
        decreases left
      {
        if stopped(2 + left) {
          return true;
        }
        Yield(27);
        left := left - 1;
      }
      gaveUp := false;
    }

    method ExportSmdaReport(
      view: View, stopped: nat -> bool, waits: nat, built: Built<Report>, written: Written)
      returns (answer: Answer<Report>)
      modifies this
      ensures (Contents(), answer) == Export(old(Contents()), view, stopped, waits, built, written, folder, others)
    {
      if stopped(0) {
        return Cancelled;
      }
      if stopped(1) {
        return Cancelled;
      }
      if view.raw.None? || view.raw.value.length <= 0 {
        return if built.Value? then Returned(built.value) else Failed;
      }
      var hash := RawSha256Cached(view);
      var key := Key(hash, view.functions);
      var gaveUp := JoinBuild(key, stopped, waits);
      if gaveUp {
        return Cancelled;
      }
      var held := Peek(reports, key);
      var report: Report;
      if held.Some? {
        report := held.value;
        reports := Read(reports, key);
        Yield(22);
      } else {
        if stopped(2) {
          return Cancelled;
        }
        Yield(23);
        var made := LoadOrBuildReport(view, hash, built, written);
        if made.Raised? {
          return Failed;
        }
        report := made.value;
        reports := Put(ReportPolicy(), reports, key, report);
        Yield(24);
      }
      reportKeys := Put(SessionPolicy(), reportKeys, view.session, key);
      Yield(25);
      exportedKeys := Put(SessionPolicy(), exportedKeys, view.session, key);
      answer := Returned(report);
    }
  }
}
