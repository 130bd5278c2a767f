/** What renders, preloads and exports answer when nothing else touches the caches meanwhile. */
module ReportAnswers {
  import opened Collections
  import opened Cache
  import opened Reports
  import opened ReportRuns

  ghost predicate Alone(others: Others) {
    forall n, c: Caches :: others(n, c) == c
  }

  /** The report has as many functions as the view keeps, give or take eight or a fiftieth. */
  predicate Near(report: Report, kept: nat) {
    -8 <= report.numFunctions - kept <= 8 || -(kept / 50) <= report.numFunctions - kept <= kept / 50
  }

  /** The stored report, if it loads and has not drifted from the view. */
  function Current(c: Caches, view: View, hash: Hash): Option<Report> {
    if hash in c.disk && c.disk[hash].Good? && Near(c.disk[hash].report, view.kept) then
      Some(c.disk[hash].report.(provenance := FromDisk(view.session, view.kept)))
    else None
  }

  /** The key a file is held under; a hash remembered for it stands in for hashing again. */
  function KeyOf(c: Caches, view: View): Key
    requires HasBytes(view)
  {
    var place := (view.session, view.raw.value.length);
    Key(if place in c.rawHashes.items then c.rawHashes.items[place] else view.raw.value.hash, view.functions)
  }

  lemma RawHashAlone(c: Caches, view: View, others: Others)
    requires Alone(others) && HasBytes(view)
    ensures var (now, hash) := RawHash(c, view, others);
            && now.reports == c.reports && now.disk == c.disk && now.exportedKeys == c.exportedKeys
            && Key(hash, view.functions) == KeyOf(c, view)
  {
    hide Put, Read;
  }

  lemma CurrentAgrees(c: Caches, now: Caches, view: View, hash: Hash)
    requires now.disk == c.disk
    ensures Current(now, view, hash) == Current(c, view, hash)
  {
    hide Near;
  }

  lemma BuiltOrLoaded(
    c: Caches, view: View, hash: Hash, built: Built<Report>, written: Written, folder: bool, others: Others)
    requires Alone(others)
    ensures var stored := if folder && view.session !in c.exportedKeys.items then Current(c, view, hash) else None;
            var (after, report) := LoadOrBuild(c, view, hash, built, written, folder, others);
            && report == (if stored.Some? then Value(stored.value) else built)
            && (folder && stored.None? && built.Value? && written.ok ==>
                  after.disk == (c.disk - written.pruned)[hash := Good(built.value, written.size)])
  {
    if built.Value? {
      StoreReplaces(c.disk, hash, Good(built.value, written.size), written.pruned);
    }
    hide Put, Read;
  }

  lemma StoreReplaces(disk: map<Hash, File>, hash: Hash, file: File, pruned: set<Hash>)
    ensures (disk - {hash} - pruned)[hash := file] == (disk - pruned)[hash := file]
  {
  }

  /**
   * What an export answers: the report in memory under its key; else, for a session without a remembered export, the
   * current stored one; else one built from the view as it is now.
   */
  lemma ExportAnswers(
    c: Caches, view: View, stopped: nat -> bool, waits: nat, built: Built<Report>, written: Written, folder: bool,
    others: Others)
    requires Alone(others) && HasBytes(view) && (forall n :: !stopped(n))
    ensures var key := KeyOf(c, view);
            var stored := if folder && view.session !in c.exportedKeys.items then Current(c, view, key.hash) else None;
            Export(c, view, stopped, waits, built, written, folder, others).1
            == (if key in c.reports.items then Returned(c.reports.items[key])
                else if stored.Some? then Returned(stored.value)
                else if built.Value? then Returned(built.value) else Failed)
    ensures var key, answer := KeyOf(c, view), Export(c, view, stopped, waits, built, written, folder, others).1;
            key !in c.reports.items && folder && view.session !in c.exportedKeys.items
            && key.hash in c.disk && c.disk[key.hash].Good? ==>
              var report, n, kept := c.disk[key.hash].report, c.disk[key.hash].report.numFunctions, view.kept;
              if -8 <= n - kept <= 8 || -(kept / 50) <= n - kept <= kept / 50 then
                answer == Returned(report.(provenance := FromDisk(view.session, kept)))
              else answer == if built.Value? then Returned(built.value) else Failed
  {
    hide Put, Read, Exported, RawHash, Drifted, KeyOf, LoadOrBuild, Join;
    RawHashAlone(c, view, others);
    var now := RawHash(c, view, others).0;
    JoinAlone(now, KeyOf(c, view), stopped, waits, others);
    BuiltOrLoaded(now, view, KeyOf(c, view).hash, built, written, folder, others);
    CurrentAgrees(c, now, view, KeyOf(c, view).hash);
  }

  /** A built report is on disk after the export, when it could be written, and what pruning took is not. */
  lemma BuiltIsStored(
    c: Caches, view: View, stopped: nat -> bool, waits: nat, built: Built<Report>, written: Written, folder: bool,
    others: Others)
    requires Alone(others) && HasBytes(view) && folder && written.ok && (forall n :: !stopped(n)) && built.Value?
    requires KeyOf(c, view) !in c.reports.items
    requires view.session in c.exportedKeys.items || Current(c, view, KeyOf(c, view).hash).None?
    ensures var (after, answer) := Export(c, view, stopped, waits, built, written, folder, others);
            var hash := KeyOf(c, view).hash;
            after.disk == (c.disk - written.pruned)[hash := Good(built.value, written.size)]
            && answer == Returned(built.value)
  {
    hide Put, Read, RawHash, Drifted, KeyOf, Current, LoadOrBuild, Join;
    RawHashAlone(c, view, others);
    var now := RawHash(c, view, others).0;
    JoinAlone(now, KeyOf(c, view), stopped, waits, others);
    BuiltOrLoaded(now, view, KeyOf(c, view).hash, built, written, folder, others);
    CurrentAgrees(c, now, view, KeyOf(c, view).hash);
  }

  lemma {:induction false} JoinAlone(c: Caches, key: Key, stopped: nat -> bool, waits: nat, others: Others)
    requires Alone(others) && forall n :: !stopped(n)
    ensures Join(c, key, stopped, waits, others) == (c, false)
    decreases waits
  {
    if key !in c.reports.items && waits > 0 {
      JoinAlone(c, key, stopped, waits - 1, others);
    }
  }

  /** An export stopped before its view settles, or of a view without bytes, leaves every cache and the folder alone. */
  lemma ExportLeavesAlone(
    c: Caches, view: View, stopped: nat -> bool, waits: nat, built: Built<Report>, written: Written, folder: bool,
    others: Others)
    requires stopped(0) || stopped(1) || view.raw.None? || view.raw.value.length <= 0
    ensures var (after, answer) := Export(c, view, stopped, waits, built, written, folder, others);
            && after == c
            && (answer.Cancelled? <==> stopped(0) || stopped(1))
            && (!stopped(0) && !stopped(1) && built.Value? ==> answer == Returned(built.value))
  {
    hide ExportKey, RawHash;
  }

  // ---------------------------------------------------------------- renders

  /** The key a render looks under: the bound one, else one from a remembered hash or that of a small file. */
  function RenderKeyOf(c: Caches, view: View): Option<Key> {
    if view.session in c.reportKeys.items then Some(c.reportKeys.items[view.session])
    else if view.session in c.coldHashes.items then
      (if c.coldHashes.items[view.session] == "" then None
       else Some(Key(c.coldHashes.items[view.session], view.functions)))
    else if HasBytes(view) && view.raw.value.length <= COLD_MAX_RAW_BYTES && KeyOf(c, view).hash != "" then
      Some(KeyOf(c, view))
    else None
  }

  predicate Missed(c: Caches, session: Session, key: Key) {
    Peek(c.coldMisses, (session, key)) == Some(true)
  }

  /** The current stored report, if its file is small enough for the user-interface thread. */
  function SmallCurrent(c: Caches, view: View, hash: Hash, folder: bool): Option<Report> {
    if folder && hash in c.disk && c.disk[hash].size <= COLD_MAX_STORED_BYTES then Current(c, view, hash) else None
  }

  function RenderAnswer(c: Caches, view: View, folder: bool): Option<Report> {
    var key := RenderKeyOf(c, view);
    if key.None? then None
    else if key.value in c.reports.items then Some(c.reports.items[key.value])
    else if Missed(c, view.session, key.value) then None
    else SmallCurrent(c, view, key.value.hash, folder)
  }

  lemma ColdHashAlone(c: Caches, view: View, others: Others)
    requires Alone(others) && view.session !in c.reportKeys.items
    ensures var (now, hash) := ColdHash(c, view, others);
            && now.reports == c.reports && now.disk == c.disk && now.coldMisses == c.coldMisses
            && RenderKeyOf(c, view) == (if hash == "" then None else Some(Key(hash, view.functions)))
  {
    hide Put, Read;
  }

  lemma RenderKeyAnswers(c: Caches, view: View, key: Key, folder: bool, others: Others)
    requires Alone(others)
    ensures var (after, answer) := RenderKey(c, view, key, folder, others);
            && answer == (if key in c.reports.items then Some(c.reports.items[key])
                          else if Missed(c, view.session, key) then None
                          else SmallCurrent(c, view, key.hash, folder))
            && (answer.None? ==> Missed(after, view.session, key))
  {
    hide Put;
    ReadItems(c.coldMisses, (view.session, key));
    MissRemembered(Read(c.coldMisses, (view.session, key)), (view.session, key));
  }

  lemma MissRemembered(misses: Lru<(Session, Key), bool>, at: (Session, Key))
    ensures Peek(Put(SessionPolicy(), misses, at, true), at) == Some(true)
  {
    PutHoldsNewest(SessionPolicy(), misses, at, true);
    hide Put;
  }

  /**
   * What a render shows: the report in memory; else nothing once a miss is remembered; else the current stored report
   * of at most 768 KiB. Nothing at all is shown of a file that is neither bound, nor remembered, nor small.
   */
  lemma RenderAnswers(c: Caches, view: View, folder: bool, others: Others)
    requires Alone(others)
    ensures Render(c, view, folder, others).1 == RenderAnswer(c, view, folder)
    ensures var key, answer := RenderKeyOf(c, view), Render(c, view, folder, others).1;
            key.Some? && key.value !in c.reports.items && !Missed(c, view.session, key.value) && folder
            && key.value.hash in c.disk && c.disk[key.value.hash].Good? ==>
              var file, kept := c.disk[key.value.hash], view.kept;
              var n := file.report.numFunctions;
              if file.size <= 768 * 1024 && (-8 <= n - kept <= 8 || -(kept / 50) <= n - kept <= kept / 50) then
                answer == Some(file.report.(provenance := FromDisk(view.session, kept)))
              else answer == None
  {
    hide Put, Read, ColdHash, RenderKey, Missed, KeyOf;
    var session := view.session;
    var bound, c1 := Peek(c.reportKeys, session), c.(reportKeys := Read(c.reportKeys, session));
    ReadItems(c.reportKeys, session);
    if bound.Some? {
      RenderKeyAnswers(c1, view, bound.value, folder, others);
      SameAnswer(c, c1, view, bound.value, folder);
    } else {
      ColdHashAlone(c1, view, others);
      RenderKeySame(c, c1, view);
      var (c2, hash) := ColdHash(c1, view, others);
      var key := Key(hash, view.functions);
      RenderKeyAnswers(c2, view, key, folder, others);
      SameAnswer(c, c2, view, key, folder);
    }
  }

  /** A render reads the disk only for a small stored report, of a file that is bound, remembered or small. */
  lemma ColdRenderIsBounded(c: Caches, view: View, folder: bool, others: Others)
    requires Alone(others) && Render(c, view, folder, others).1.Some?
    ensures var report := Render(c, view, folder, others).1.value;
            (exists k :: k in c.reports.items && c.reports.items[k] == report)
            || (folder
                && exists h :: h in c.disk && c.disk[h].size <= 768 * 1024 && Current(c, view, h) == Some(report))
    ensures view.session in c.reportKeys.items || view.session in c.coldHashes.items
            || (view.raw.Some? && 0 < view.raw.value.length <= 4 * 1024 * 1024)
  {
    RenderAnswers(c, view, folder, others);
    hide Render, Current, Missed, KeyOf;
  }

  lemma RenderKeySame(c: Caches, now: Caches, view: View)
    requires now.reportKeys.items == c.reportKeys.items
    requires now.coldHashes == c.coldHashes && now.rawHashes == c.rawHashes
    ensures RenderKeyOf(now, view) == RenderKeyOf(c, view)
  {
  }

  lemma SameAnswer(c: Caches, now: Caches, view: View, key: Key, folder: bool)
    requires now.disk == c.disk && now.coldMisses == c.coldMisses
    ensures SmallCurrent(now, view, key.hash, folder) == SmallCurrent(c, view, key.hash, folder)
    ensures Missed(now, view.session, key) == Missed(c, view.session, key)
  {
  }

  // ---------------------------------------------------------------- preloads

  lemma LoadAlone(c: Caches, view: View, hash: Hash, others: Others)
    requires Alone(others)
    ensures var (now, report) := LoadCurrent(c, view, hash, others);
            report == Current(c, view, hash) && now.reports == c.reports && now.reportKeys == c.reportKeys
  {
  }

  lemma AloneSpares(others: Others, session: Session, key: Key, report: Report)
    requires Alone(others)
    ensures Spares(others, session, key, report)
  {
  }

  /** The report a preload finds: the held one, else the current stored one of any size. */
  function Preloadworthy(c: Caches, view: View, key: Key): Option<Report> {
    if key in c.reports.items then Some(c.reports.items[key]) else Current(c, view, key.hash)
  }

  lemma BindShows(c: Caches, session: Session, key: Key, report: Report)
    requires Peek(c.reports, key) == Some(report)
    ensures Shows(Bind(c, session, key), session, key, report)
  {
    PutHoldsNewest(SessionPolicy(), c.reportKeys, session, key);
    hide Put;
  }

  lemma PreloadKeyAnswers(c: Caches, view: View, key: Key, others: Others)
    requires Alone(others) && view.session !in c.reportKeys.items
    ensures var report, after := Preloadworthy(c, view, key), PreloadKey(c, view, key, others);
            && (report.Some? ==> Shows(after, view.session, key, report.value))
            && (report.None? ==> view.session !in after.reportKeys.items)
  {
    LoadAlone(c, view, key.hash, others);
    hide Current, LoadCurrent, Shows;
    var session := view.session;
    if key in c.reports.items {
      ReadItems(c.reports, key);
      hide Put, Read;
      BindShows(c.(reports := Read(c.reports, key)), session, key, c.reports.items[key]);
    } else {
      var (now, loaded) := LoadCurrent(c, view, key.hash, others);
      if loaded.Some? {
        PutHoldsNewest(ReportPolicy(), now.reports, key, loaded.value);
        hide Put;
        BindShows(Hold(now, key, loaded.value), session, key, loaded.value);
      }
    }
  }

  /**
   * After a preload of an unbound file, a render shows the held or else the current stored report, whatever its size
   * and whatever misses are remembered; the file stays unbound exactly when there is neither.
   */
  lemma PreloadAnswers(
    c: Caches, view: View, architectures: set<string>, others: Others, later: View, folder: bool, during: Others)
    requires Alone(others) && view.session !in c.reportKeys.items
    requires view.raw.Some? && 0 < view.raw.value.length <= 64 * 1024 * 1024
    requires !view.rawView && (view.arch.None? || view.arch.value in architectures)
    requires later.session == view.session
    requires Preloadworthy(c, view, KeyOf(c, view)).Some? ==>
               Spares(during, view.session, KeyOf(c, view), Preloadworthy(c, view, KeyOf(c, view)).value)
    ensures var report, after := Preloadworthy(c, view, KeyOf(c, view)), Preload(c, view, architectures, true, others);
            && (report.Some? ==> Render(after, later, folder, during).1 == report)
            && (report.Some? ==> Shows(after, view.session, KeyOf(c, view), report.value))
            && (report.None? <==> view.session !in after.reportKeys.items)
    ensures var key, after := KeyOf(c, view), Preload(c, view, architectures, true, others);
            key !in c.reports.items && key.hash in c.disk && c.disk[key.hash].Good? ==>
              var report, n, kept := c.disk[key.hash].report, c.disk[key.hash].report.numFunctions, view.kept;
              if -8 <= n - kept <= 8 || -(kept / 50) <= n - kept <= kept / 50 then
                Render(after, later, folder, during).1
                == Some(report.(provenance := FromDisk(view.session, kept)))
              else view.session !in after.reportKeys.items
  {
    RawHashAlone(c, view, others);
    var (c1, hash) := RawHash(c, view, others);
    var c2 := if view.raw.value.length <= COLD_MAX_RAW_BYTES
              then c1.(coldHashes := Put(SessionPolicy(), c1.coldHashes, view.session, hash)) else c1;
    var key := KeyOf(c, view);
    RawHashKeepsKeys(c, view, others);
    CurrentAgrees(c, c2, view, hash);
    assert Preload(c, view, architectures, true, others) == PreloadKey(c2, view, key, others);
    hide Put, Read, RawHash, PreloadKey, Render, Spares, KeyOf;
    PreloadKeyAnswers(c2, view, key, others);
    if Preloadworthy(c, view, key).Some? {
      ShownIsRendered(PreloadKey(c2, view, key, others), later, folder, during, key,
                      Preloadworthy(c, view, key).value);
    }
  }

  /** A preload of a raw, empty, large, foreign or already bound view holds and binds nothing. */
  lemma PreloadLeavesAlone(
    c: Caches, view: View, architectures: set<string>, folder: bool, others: Others)
    requires !folder || view.session in c.reportKeys.items || view.rawView || view.raw.None?
             || !(0 < view.raw.value.length <= 64 * 1024 * 1024)
             || (view.arch.Some? && view.arch.value !in architectures)
    ensures var after := Preload(c, view, architectures, folder, others);
            && after.reports == c.reports && after.disk == c.disk && after.coldHashes == c.coldHashes
            && after.reportKeys.items == c.reportKeys.items
  {
    hide PreloadKey, RawHash;
  }

  lemma RawHashKeepsKeys(c: Caches, view: View, others: Others)
    requires Alone(others) && HasBytes(view)
    ensures RawHash(c, view, others).0.reportKeys == c.reportKeys
    ensures RawHash(c, view, others).0.coldMisses == c.coldMisses
  {
    hide Put, Read;
  }

  // ---------------------------------------------------------------- remembered hashes

  /** A hash is computed once: hashing remembers it under session and length, a cold lookup under the session. */
  lemma HashesAreRemembered(c: Caches, view: View, others: Others)
    requires Alone(others)
    ensures HasBytes(view) ==>
              Peek(RawHash(c, view, others).0.rawHashes, (view.session, view.raw.value.length))
              == Some(RawHash(c, view, others).1)
    ensures Peek(ColdHash(c, view, others).0.coldHashes, view.session) == Some(ColdHash(c, view, others).1)
  {
    if HasBytes(view) {
      RawHashIsRemembered(c, view, others);
    }
    var session, small := view.session, HasBytes(view) && view.raw.value.length <= COLD_MAX_RAW_BYTES;
    var now, hash := if small then RawHash(c, view, others).0 else c, if small then RawHash(c, view, others).1 else "";
    hide Put, Read, RawHash;
    assert session !in c.coldHashes.items ==>
        ColdHash(c, view, others) == (now.(coldHashes := Put(SessionPolicy(), now.coldHashes, session, hash)), hash);
    PutHoldsNewest(SessionPolicy(), now.coldHashes, session, hash);
    if session in c.coldHashes.items {
      ReadItems(c.coldHashes, session);
    }
  }

  lemma RawHashIsRemembered(c: Caches, view: View, others: Others)
    requires Alone(others) && HasBytes(view)
    ensures Peek(RawHash(c, view, others).0.rawHashes, (view.session, view.raw.value.length))
            == Some(RawHash(c, view, others).1)
  {
    PutHoldsNewest(SessionPolicy(), c.rawHashes, (view.session, view.raw.value.length), view.raw.value.hash);
    hide Put;
  }

  /** A preload of a file small enough for the user-interface thread leaves it the hash, and of no other. */
  lemma PreloadRemembersHash(c: Caches, view: View, architectures: set<string>, others: Others)
    requires Alone(others) && view.session !in c.reportKeys.items
    requires view.raw.Some? && 0 < view.raw.value.length <= 64 * 1024 * 1024
    requires !view.rawView && (view.arch.None? || view.arch.value in architectures)
    ensures var after := Preload(c, view, architectures, true, others);
            if view.raw.value.length <= 4 * 1024 * 1024 then
              Peek(after.coldHashes, view.session) == Some(KeyOf(c, view).hash)
            else after.coldHashes == c.coldHashes
  {
    var (now, hash) := RawHash(c, view, others);
    PutHoldsNewest(SessionPolicy(), now.coldHashes, view.session, hash);
    RawHashAlone(c, view, others);
    RawHashKeepsCold(c, view, others);
    var key := Key(hash, view.functions);
    PreloadKeyKeepsCold(now, view, key, others);
    var told := now.(coldHashes := Put(SessionPolicy(), now.coldHashes, view.session, hash));
    PreloadKeyKeepsCold(told, view, key, others);
    hide Put, Read, RawHash, PreloadKey, KeyOf;
  }

  lemma RawHashKeepsCold(c: Caches, view: View, others: Others)
    requires Alone(others) && HasBytes(view)
    ensures RawHash(c, view, others).0.coldHashes == c.coldHashes
  {
    hide Put, Read;
  }

  lemma PreloadKeyKeepsCold(c: Caches, view: View, key: Key, others: Others)
    requires Alone(others)
    ensures PreloadKey(c, view, key, others).coldHashes == c.coldHashes
  {
    hide Put, Read, Drifted;
  }

  // ---------------------------------------------------------------- what a render leaves behind

  /** The folder once a report was looked for in it: a file that does not load is gone. */
  function Swept(c: Caches, hash: Hash): map<Hash, File> {
    if hash in c.disk && c.disk[hash].Bad? then c.disk - {hash} else c.disk
  }

  lemma LoadSweeps(c: Caches, view: View, hash: Hash, others: Others)
    requires Alone(others)
    ensures LoadCurrent(c, view, hash, others).0.disk == Swept(c, hash)
  {
    hide Drifted;
  }

  lemma SmallAlone(c: Caches, view: View, hash: Hash, folder: bool, others: Others)
    requires Alone(others)
    ensures var (now, report) := LoadSmall(c, view, hash, folder, others);
            && report == SmallCurrent(c, view, hash, folder) && now.reports == c.reports
            && (folder && hash in c.disk && c.disk[hash].size <= COLD_MAX_STORED_BYTES ==>
                  now.disk == Swept(c, hash))
  {
    LoadAlone(c, view, hash, others);
    LoadSweeps(c, view, hash, others);
    hide LoadCurrent, Swept, Current;
  }

  lemma HeldShows(c: Caches, session: Session, key: Key, report: Report)
    ensures Shows(Bind(Hold(c, key, report), session, key), session, key, report)
  {
    PutHoldsNewest(ReportPolicy(), c.reports, key, report);
    hide Put, Bind;
    BindShows(Hold(c, key, report), session, key, report);
  }

  lemma RenderKeyLeaves(c: Caches, view: View, key: Key, folder: bool, others: Others)
    requires Alone(others)
    ensures var (after, answer) := RenderKey(c, view, key, folder, others);
            && (answer.Some? ==> Shows(after, view.session, key, answer.value))
            && (key !in c.reports.items && !Missed(c, view.session, key)
                && folder && key.hash in c.disk && c.disk[key.hash].size <= COLD_MAX_STORED_BYTES ==>
                  after.disk == Swept(c, key.hash))
  {
    var session := view.session;
    var held, c1 := Peek(c.reports, key), c.(reports := Read(c.reports, key));
    ReadItems(c.reports, key);
    var start := c1.(coldMisses := Read(c1.coldMisses, (session, key)));
    SmallAlone(start, view, key.hash, folder, others);
    assert Swept(start, key.hash) == Swept(c, key.hash);
    hide Put, Read, LoadSmall, Swept, Shows, SmallCurrent;
    if held.Some? {
      BindShows(c1, session, key, held.value);
    } else if !Missed(c, session, key) {
      var (now, loaded) := LoadSmall(start, view, key.hash, folder, others);
      if loaded.Some? {
        HeldShows(now, session, key, loaded.value);
      }
    }
  }

  lemma RenderLooksUnder(c: Caches, view: View, folder: bool, others: Others) returns (now: Caches)
    requires Alone(others)
    ensures now.disk == c.disk && now.reports == c.reports && now.coldMisses == c.coldMisses
    ensures RenderKeyOf(c, view).Some? ==>
              Render(c, view, folder, others) == RenderKey(now, view, RenderKeyOf(c, view).value, folder, others)
    ensures RenderKeyOf(c, view).None? ==> Render(c, view, folder, others).1 == None
  {
    var session := view.session;
    now := c.(reportKeys := Read(c.reportKeys, session));
    ReadItems(c.reportKeys, session);
    if session !in c.reportKeys.items {
      RenderKeySame(c, now, view);
      hide Put, Read, ColdHash, RenderKey, KeyOf;
      ColdHashAlone(now, view, others);
      now := ColdHash(now, view, others).0;
    }
  }

  /** A render that shows a report leaves it in memory, bound to the file. */
  lemma RenderLeavesShown(c: Caches, view: View, folder: bool, others: Others)
    requires Alone(others) && Render(c, view, folder, others).1.Some?
    ensures RenderKeyOf(c, view).Some?
    ensures Shows(Render(c, view, folder, others).0, view.session, RenderKeyOf(c, view).value,
                  Render(c, view, folder, others).1.value)
  {
    hide Render, RenderKey, RenderKeyOf, Shows;
    var now := RenderLooksUnder(c, view, folder, others);
    if RenderKeyOf(c, view).Some? {
      RenderKeyLeaves(now, view, RenderKeyOf(c, view).value, folder, others);
    }
  }

  /** A render that comes upon a small file that does not load shows nothing, drops the file and remembers the miss. */
  lemma RenderDropsUnreadable(c: Caches, view: View, others: Others)
    requires Alone(others) && RenderKeyOf(c, view).Some?
    requires var key := RenderKeyOf(c, view).value;
             && key !in c.reports.items && !Missed(c, view.session, key) && key.hash in c.disk
             && c.disk[key.hash].Bad? && c.disk[key.hash].size <= COLD_MAX_STORED_BYTES
    ensures var (after, answer) := Render(c, view, true, others);
            && answer == None && after.disk == c.disk - {RenderKeyOf(c, view).value.hash}
            && Missed(after, view.session, RenderKeyOf(c, view).value)
  {
    hide Render, RenderKey, RenderKeyOf;
    var now := RenderLooksUnder(c, view, true, others);
    RenderKeyLeaves(now, view, RenderKeyOf(c, view).value, true, others);
    RenderKeyAnswers(now, view, RenderKeyOf(c, view).value, true, others);
  }

  // ---------------------------------------------------------------- a remembered miss hides a stored report

  /** A small current stored report of a known file that is not in memory is shown exactly if no miss is remembered. */
  lemma StoredIsShownIffNotMissed(c: Caches, view: View, folder: bool, others: Others)
    requires Alone(others) && RenderKeyOf(c, view).Some? && RenderKeyOf(c, view).value !in c.reports.items
    requires SmallCurrent(c, view, RenderKeyOf(c, view).value.hash, folder).Some?
    ensures Render(c, view, folder, others).1 == SmallCurrent(c, view, RenderKeyOf(c, view).value.hash, folder)
            <==> !Missed(c, view.session, RenderKeyOf(c, view).value)
    ensures Render(c, view, folder, others).1.None? <==> Missed(c, view.session, RenderKeyOf(c, view).value)
  {
    RenderAnswers(c, view, folder, others);
    hide Render, SmallCurrent, Missed, RenderKeyOf;
  }

  function Fresh(): Caches {
    Caches(Empty(), Empty(), Empty(), Empty(), Empty(), Empty(), map[])
  }

  lemma FirstRenderMisses(view: View, others: Others)
    requires Alone(others) && HasBytes(view) && view.raw.value.length <= 4 * 1024 * 1024 && view.raw.value.hash != ""
    ensures var (after, answer) := Render(Fresh(), view, true, others);
            && answer == None && Missed(after, view.session, Key(view.raw.value.hash, view.functions))
            && after.reports == Empty() && after.disk == map[] && after.exportedKeys == Empty()
            && KeyOf(after, view) == Key(view.raw.value.hash, view.functions)
  {
    var session, place, hash := view.session, (view.session, view.raw.value.length), view.raw.value.hash;
    var raws := Put(SessionPolicy(), Empty<(Session, int), Hash>(), place, hash);
    var colds := Put(SessionPolicy(), Empty<Session, Hash>(), session, hash);
    PutHoldsNewest(SessionPolicy(), Empty<(Session, int), Hash>(), place, hash);
    var now := Fresh().(rawHashes := raws, coldHashes := colds);
    assert Render(Fresh(), view, true, others) == RenderKey(now, view, Key(hash, view.functions), true, others);
    MissRemembered(Empty(), (session, Key(hash, view.functions)));
    hide Put;
  }

  lemma ExportKeepsMisses(
    c: Caches, view: View, stopped: nat -> bool, waits: nat, built: Built<Report>, written: Written, folder: bool,
    others: Others)
    requires Alone(others) && HasBytes(view) && forall n :: !stopped(n)
    ensures Export(c, view, stopped, waits, built, written, folder, others).0.coldMisses == c.coldMisses
  {
    hide RawHash, ExportKey;
    RawHashKeepsKeys(c, view, others);
    var (now, hash) := RawHash(c, view, others);
    ExportKeyKeepsMisses(now, view, Key(hash, view.functions), stopped, waits, built, written, folder, others);
  }

  lemma ExportKeyKeepsMisses(
    c: Caches, view: View, key: Key, stopped: nat -> bool, waits: nat, built: Built<Report>, written: Written,
    folder: bool, others: Others)
    requires Alone(others) && forall n :: !stopped(n)
    ensures ExportKey(c, view, key, stopped, waits, built, written, folder, others).0.coldMisses == c.coldMisses
  {
    hide Put, Read, Join, LoadOrBuild;
    JoinAlone(c, key, stopped, waits, others);
    BuildKeepsMisses(c, view, key.hash, built, written, folder, others);
  }

  lemma BuildKeepsMisses(
    c: Caches, view: View, hash: Hash, built: Built<Report>, written: Written, folder: bool, others: Others)
    requires Alone(others)
    ensures LoadOrBuild(c, view, hash, built, written, folder, others).0.coldMisses == c.coldMisses
  {
    hide Put, Read, Drifted;
  }

  /** Rendered once without success, then exported. */
  function RenderedThenExported(view: View, report: Report, size: nat, others: Others): (Caches, Answer<Report>) {
    Export(Render(Fresh(), view, true, others).0, view, (n: nat) => false, 0, Value(report),
           Written(true, size, {}), true, others)
  }

  lemma ExportAfterMiss(view: View, report: Report, size: nat, others: Others)
    requires Alone(others) && HasBytes(view) && view.raw.value.length <= 4 * 1024 * 1024 && view.raw.value.hash != ""
    ensures var (exported, answer) := RenderedThenExported(view, report, size, others);
            var key := Key(view.raw.value.hash, view.functions);
            && answer == Returned(report) && Shows(exported, view.session, key, report)
            && Missed(exported, view.session, key)
            && key.hash in exported.disk && exported.disk[key.hash] == Good(report, size)
  {
    var key, never, written := Key(view.raw.value.hash, view.functions), (n: nat) => false, Written(true, size, {});
    FirstRenderMisses(view, others);
    var rendered := Render(Fresh(), view, true, others).0;
    assert Current(rendered, view, key.hash) == None && key !in rendered.reports.items;
    hide Render, Export, RawHash, Spares, KeyOf, Shows, Current;
    ExportAnswers(rendered, view, never, 0, Value(report), written, true, others);
    BuiltIsStored(rendered, view, never, 0, Value(report), written, true, others);
    ExportKeepsMisses(rendered, view, never, 0, Value(report), written, true, others);
    RawHashAlone(rendered, view, others);
    AloneSpares(others, view.session, key, report);
    ExportShows(rendered, view, never, 0, Value(report), written, true, others);
  }

  /**
   * A file is rendered before anything is stored for it, then exported, and then its report is evicted from memory:
   * the miss of the first render hides the small, current, stored report from then on.
   */
  lemma EvictedExportIsHidden(view: View, report: Report, size: nat, others: Others)
    requires Alone(others) && HasBytes(view) && view.raw.value.length <= 4 * 1024 * 1024 && view.raw.value.hash != ""
    requires size <= 768 * 1024 && Near(report, view.kept)
    ensures var (exported, answer) := RenderedThenExported(view, report, size, others);
            var evicted := exported.(reports := Empty());
            && answer == Returned(report)
            && Render(exported, view, true, others).1 == Some(report)
            && SmallCurrent(evicted, view, view.raw.value.hash, true).Some?
            && Render(evicted, view, true, others).1 == None
  {
    hide RenderedThenExported, Render;
    ExportAfterMiss(view, report, size, others);
    var exported := RenderedThenExported(view, report, size, others).0;
    var key := Key(view.raw.value.hash, view.functions);
    AloneSpares(others, view.session, key, report);
    ShownIsRendered(exported, view, true, others, key, report);
    RenderAnswers(exported.(reports := Empty()), view, true, others);
  }
}
