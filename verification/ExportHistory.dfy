/** What a remembered export of a session promises for its later exports, and what it does not. */
module ExportHistory {
  import opened Collections
  import opened Cache
  import opened Reports
  import opened ReportRuns
  import opened ReportAnswers

  // ---------------------------------------------------------------- an export is remembered

  lemma ExportedRemembers(c: Caches, session: Session, key: Key, others: Others)
    ensures Peek(Exported(c, session, key, others).exportedKeys, session) == Some(key)
  {
    PutHoldsNewest(SessionPolicy(), others(25, Bind(c, session, key)).exportedKeys, session, key);
    hide Put, Bind;
  }

  /** Whatever others do, an export that returns leaves its session and key among the remembered exports. */
  lemma ExportIsRemembered(
    c: Caches, view: View, stopped: nat -> bool, waits: nat, built: Built<Report>, written: Written, folder: bool,
    others: Others)
    requires HasBytes(view) && Export(c, view, stopped, waits, built, written, folder, others).1.Returned?
    ensures Peek(Export(c, view, stopped, waits, built, written, folder, others).0.exportedKeys, view.session)
            == Some(Key(RawHash(c, view, others).1, view.functions))
  {
    var (now, hash) := RawHash(c, view, others);
    var key := Key(hash, view.functions);
    var joined := Join(now, key, stopped, waits, others).0;
    hide RawHash, Join, LoadOrBuild, Exported;
    if key in joined.reports.items {
      ExportedRemembers(others(22, joined.(reports := Read(joined.reports, key))), view.session, key, others);
    } else {
      var (made, report) := LoadOrBuild(others(23, joined), view, key.hash, built, written, folder, others);
      ExportedRemembers(others(24, Hold(made, key, report.value)), view.session, key, others);
    }
  }

  /** Others may do anything but forget the session's export. */
  ghost predicate KeepsExported(others: Others, session: Session) {
    forall n, c: Caches :: session in c.exportedKeys.items ==> session in others(n, c).exportedKeys.items
  }

  lemma RawHashKeepsExported(c: Caches, view: View, others: Others)
    requires HasBytes(view) && KeepsExported(others, view.session) && view.session in c.exportedKeys.items
    ensures view.session in RawHash(c, view, others).0.exportedKeys.items
  {
    hide Put, Read;
  }

  lemma {:induction false} JoinKeepsExported(
    c: Caches, session: Session, key: Key, stopped: nat -> bool, waits: nat, others: Others)
    requires KeepsExported(others, session) && session in c.exportedKeys.items
    ensures session in Join(c, key, stopped, waits, others).0.exportedKeys.items
    decreases waits
  {
    if key !in c.reports.items && waits > 0 && !stopped(2 + waits) {
      JoinKeepsExported(others(27, c), session, key, stopped, waits - 1, others);
    }
  }

  /** The answer of an export is the report held when it had joined the builds of others, or the one it built itself. */
  ghost predicate NotLoaded(
    c: Caches, view: View, stopped: nat -> bool, waits: nat, built: Built<Report>, others: Others, answer: Report)
    requires HasBytes(view)
  {
    var (now, hash) := RawHash(c, view, others);
    var key := Key(hash, view.functions);
    built == Value(answer) || Peek(Join(now, key, stopped, waits, others).0.reports, key) == Some(answer)
  }

  /** While its export is remembered, no export of a session takes a report from disk. */
  lemma RememberedExportLoadsNothing(
    c: Caches, view: View, stopped: nat -> bool, waits: nat, built: Built<Report>, written: Written, folder: bool,
    others: Others)
    requires HasBytes(view) && Export(c, view, stopped, waits, built, written, folder, others).1.Returned?
    requires KeepsExported(others, view.session) && view.session in c.exportedKeys.items
    ensures NotLoaded(c, view, stopped, waits, built, others,
                      Export(c, view, stopped, waits, built, written, folder, others).1.value)
  {
    var (now, hash) := RawHash(c, view, others);
    var key := Key(hash, view.functions);
    var joined := Join(now, key, stopped, waits, others).0;
    RawHashKeepsExported(c, view, others);
    hide RawHash, Join, Exported, Put, Read, LoadCurrent;
    JoinKeepsExported(now, view.session, key, stopped, waits, others);
    assert view.session in others(23, joined).exportedKeys.items;
  }

  // ---------------------------------------------------------------- over runs

  function StateAt(
    events: seq<Event>, n: nat, disk: map<Hash, File>, architectures: set<string>, folder: bool): Caches
    requires n <= |events|
  {
    Run(events[..n], disk, architectures, folder)
  }

  lemma StateStep(events: seq<Event>, n: nat, disk: map<Hash, File>, architectures: set<string>, folder: bool)
    requires n < |events|
    ensures StateAt(events, n + 1, disk, architectures, folder)
            == Step(StateAt(events, n, disk, architectures, folder), events[n].call, architectures, folder)
  {
    hide Step;
    assert events[..n + 1][..n] == events[..n];
  }

  /** Some event from `i` up to `j` made the cache forget the session's export. */
  ghost predicate Forgotten(
    events: seq<Event>, session: Session, i: nat, j: nat, disk: map<Hash, File>, architectures: set<string>,
    folder: bool)
    requires j <= |events|
  {
    exists k :: i <= k < j
                && session in StateAt(events, k, disk, architectures, folder).exportedKeys.items
                && session !in StateAt(events, k + 1, disk, architectures, folder).exportedKeys.items
  }

  lemma {:induction false} RememberedUnlessForgotten(
    events: seq<Event>, session: Session, i: nat, j: nat, disk: map<Hash, File>, architectures: set<string>,
    folder: bool)
    requires i <= j <= |events| && session in StateAt(events, i, disk, architectures, folder).exportedKeys.items
    ensures session in StateAt(events, j, disk, architectures, folder).exportedKeys.items
            || Forgotten(events, session, i, j, disk, architectures, folder)
  {
    hide StateAt;
    if i < j {
      RememberedUnlessForgotten(events, session, i, j - 1, disk, architectures, folder);
    }
  }

  /** Event `n` exports a file of the session with bytes, and returns. */
  predicate Exports(
    events: seq<Event>, n: nat, session: Session, disk: map<Hash, File>, architectures: set<string>, folder: bool)
    requires n < |events|
  {
    var call := events[n].call;
    && call.Exporting? && call.view.session == session && HasBytes(call.view)
    && Export(StateAt(events, n, disk, architectures, folder), call.view, call.stopped, call.waits, call.built,
              call.written, folder, call.others).1.Returned?
  }

  /**
   * Over every run, once a session was exported, each of its later exports answers with a report in memory or one it
   * builds itself, unless the remembered export was evicted in between.
   */
  lemma LaterExportsLoadNothing(
    events: seq<Event>, i: nat, j: nat, session: Session, disk: map<Hash, File>, architectures: set<string>,
    folder: bool)
    requires i < j < |events|
    requires Exports(events, i, session, disk, architectures, folder)
    requires Exports(events, j, session, disk, architectures, folder)
    requires KeepsExported(events[j].call.others, session)
    ensures var call, c := events[j].call, StateAt(events, j, disk, architectures, folder);
            Forgotten(events, session, i + 1, j, disk, architectures, folder)
            || NotLoaded(c, call.view, call.stopped, call.waits, call.built, call.others,
                         Export(c, call.view, call.stopped, call.waits, call.built, call.written, folder,
                                call.others).1.value)
  {
    hide Export, StateAt, KeepsExported, Forgotten, RawHash, NotLoaded;
    var first, call := events[i].call, events[j].call;
    var before, c := StateAt(events, i, disk, architectures, folder), StateAt(events, j, disk, architectures, folder);
    ExportIsRemembered(before, first.view, first.stopped, first.waits, first.built, first.written, folder,
                       first.others);
    StateStep(events, i, disk, architectures, folder);
    RememberedUnlessForgotten(events, session, i + 1, j, disk, architectures, folder);
    if session in c.exportedKeys.items {
      RememberedExportLoadsNothing(c, call.view, call.stopped, call.waits, call.built, call.written, folder,
                                   call.others);
    }
  }

  // ---------------------------------------------------------------- a stored earlier analysis can stand in

  /**
   * In a call alone, by a session whose export is remembered, the answer is a report from disk exactly if such a report
   * is held in memory under the key the file has now.
   */
  lemma StoredStandsInIffHeld(
    c: Caches, view: View, stopped: nat -> bool, waits: nat, built: Report, written: Written, folder: bool,
    others: Others)
    requires Alone(others) && HasBytes(view) && (forall n :: !stopped(n))
    requires view.session in c.exportedKeys.items && built.provenance.FromView?
    ensures var answer := Export(c, view, stopped, waits, Value(built), written, folder, others).1;
            && answer.Returned?
            && (answer.value.provenance.FromDisk? <==>
                  KeyOf(c, view) in c.reports.items && c.reports.items[KeyOf(c, view)].provenance.FromDisk?)
  {
    ExportAnswers(c, view, stopped, waits, Value(built), written, folder, others);
    hide Export, KeyOf, Current;
  }

  lemma CoherentKey(w: World, c: Caches, view: View)
    requires Coherent(w, c) && IsOf(w, view) && HasBytes(view)
    ensures KeyOf(c, view) == Key(view.raw.value.hash, view.functions)
  {
  }

  lemma PreloadKeepsExports(
    c: Caches, view: View, architectures: set<string>, folder: bool, others: Others)
    requires Alone(others)
    ensures Preload(c, view, architectures, folder, others).exportedKeys == c.exportedKeys
  {
    hide Put, Read, Drifted;
  }

  /** A first export from nothing holds and binds only its own report. */
  lemma FirstExport(w: World, view: View, report: Report, size: nat, others: Others)
    requires Alone(others) && IsOf(w, view) && HasBytes(view) && BuiltFrom(view, report) && report in w.builds
    ensures var (c, answer) := Export(Fresh(), view, (n: nat) => false, 0, Value(report), Written(true, size, {}), true,
                                      others);
            && answer == Returned(report) && Coherent(w, c) && view.session in c.exportedKeys.items
            && view.raw.value.hash in c.disk && c.disk[view.raw.value.hash] == Good(report, size)
            && (forall k :: k in c.reports.items ==> k.functions == view.functions)
            && (forall s :: s in c.reportKeys.items ==> s == view.session)
  {
    var never, written := (n: nat) => false, Written(true, size, {});
    assert Coherent(w, Fresh());
    assert KeyOf(Fresh(), view) !in Fresh().reports.items && Current(Fresh(), view, KeyOf(Fresh(), view).hash) == None;
    CoherentKey(w, Fresh(), view);
    FirstExportHolds(view, report, size, others);
    hide Export, Coherent, KeyOf, Current, RawHash;
    ExportAnswers(Fresh(), view, never, 0, Value(report), written, true, others);
    BuiltIsStored(Fresh(), view, never, 0, Value(report), written, true, others);
    ExportIsRemembered(Fresh(), view, never, 0, Value(report), written, true, others);
    ExportIsCoherent(w, Fresh(), view, never, 0, Value(report), written, true, others);
  }

  lemma FirstExportHolds(view: View, report: Report, size: nat, others: Others)
    requires Alone(others) && HasBytes(view)
    ensures var written := Written(true, size, {});
            var c := Export(Fresh(), view, (n: nat) => false, 0, Value(report), written, true, others).0;
            && (forall k :: k in c.reports.items ==> k.functions == view.functions)
            && (forall s :: s in c.reportKeys.items ==> s == view.session)
  {
    var never, written := (n: nat) => false, Written(true, size, {});
    hide RawHash, ExportKey, Put;
    RawHashAlone(Fresh(), view, others);
    RawHashKeepsKeys(Fresh(), view, others);
    var (now, hash) := RawHash(Fresh(), view, others);
    ExportKeyHolds(now, view, Key(hash, view.functions), never, Value(report), written, others);
  }

  lemma BuildKeepsHeld(
    c: Caches, view: View, hash: Hash, built: Built<Report>, written: Written, folder: bool, others: Others)
    requires Alone(others)
    ensures var after := LoadOrBuild(c, view, hash, built, written, folder, others).0;
            after.reports == c.reports && after.reportKeys == c.reportKeys
  {
    hide Put, Read, Drifted;
  }

  lemma ExportKeyHolds(
    c: Caches, view: View, key: Key, stopped: nat -> bool, built: Built<Report>, written: Written, others: Others)
    requires Alone(others) && c.reports == Empty() && c.reportKeys == Empty() && forall n :: !stopped(n)
    ensures var after := ExportKey(c, view, key, stopped, 0, built, written, true, others).0;
            && (forall k :: k in after.reports.items ==> k == key)
            && (forall s :: s in after.reportKeys.items ==> s == view.session)
  {
    hide Put, LoadOrBuild, Join;
    JoinAlone(c, key, stopped, 0, others);
    BuildKeepsHeld(c, view, key.hash, built, written, true, others);
    var (now, made) := LoadOrBuild(c, view, key.hash, built, written, true, others);
    if made.Value? {
      PutItems(ReportPolicy(), Empty<Key, Report>(), key, made.value);
      PutItems(SessionPolicy(), Empty<Session, Key>(), view.session, key);
    }
  }

  /**
   * One session exports its file and the report is stored; another session preloads the same bytes at a function count
   * within the drift; then the first session, now at that count, exports again. It is answered with the report of its
   * earlier analysis, and not with the one built now.
   */
  lemma StoredStandsIn(
    w: World, first: View, second: View, again: View, earlier: Report, now: Report, size: nat,
    architectures: set<string>, others: Others)
    requires Alone(others) && IsOf(w, first) && IsOf(w, second) && IsOf(w, again)
    requires HasBytes(first) && again.session == first.session != second.session
    requires second.raw.Some? && 0 < second.raw.value.length <= 64 * 1024 * 1024
    requires !second.rawView && (second.arch.None? || second.arch.value in architectures)
    requires second.raw.value.hash == first.raw.value.hash
    requires again.functions == second.functions != first.functions
    requires BuiltFrom(first, earlier) && BuiltFrom(again, now) && earlier in w.builds && now in w.builds
    requires Near(earlier, second.kept)
    ensures var never, written := (n: nat) => false, Written(true, size, {});
            var exported := Export(Fresh(), first, never, 0, Value(earlier), written, true, others).0;
            var preloaded := Preload(exported, second, architectures, true, others);
            var answer := Export(preloaded, again, never, 0, Value(now), written, true, others).1;
            && again.session in preloaded.exportedKeys.items
            && answer == Returned(earlier.(provenance := FromDisk(second.session, second.kept)))
            && answer != Returned(now)
  {
    var never, written := (n: nat) => false, Written(true, size, {});
    var exported := Export(Fresh(), first, never, 0, Value(earlier), written, true, others).0;
    var preloaded := Preload(exported, second, architectures, true, others);
    FirstExport(w, first, earlier, size, others);
    CoherentKey(w, exported, second);
    hide Export, Preload, Coherent, KeyOf, Render, Drifted, Spares;
    var key := KeyOf(exported, second);
    var loaded := earlier.(provenance := FromDisk(second.session, second.kept));
    assert Preloadworthy(exported, second, key) == Some(loaded);
    AloneSpares(others, second.session, key, loaded);
    PreloadAnswers(exported, second, architectures, others, second, true, others);
    PreloadKeepsExports(exported, second, architectures, true, others);
    PreloadIsCoherent(w, exported, second, architectures, true, others);
    CoherentKey(w, preloaded, again);
    ExportAnswers(preloaded, again, never, 0, Value(now), written, true, others);
  }

  /** An instance: 100 functions, then 103 of the same bytes. */
  lemma StoredStandsInAt100And103(others: Others)
    requires Alone(others)
    ensures var raw := Some(Raw("h", 4096));
            var first, second, again := View(1, raw, 100, 100, None, false), View(2, raw, 103, 103, None, false),
                                        View(1, raw, 103, 103, None, false);
            var earlier, now := Report("h", 100, 1000, FromView), Report("h", 103, 1030, FromView);
            var never, written := (n: nat) => false, Written(true, 1, {});
            var exported := Export(Fresh(), first, never, 0, Value(earlier), written, true, others).0;
            var preloaded := Preload(exported, second, {}, true, others);
            Export(preloaded, again, never, 0, Value(now), written, true, others).1
            == Returned(earlier.(provenance := FromDisk(2, 103)))
  {
    var raw := Some(Raw("h", 4096));
    var earlier, now := Report("h", 100, 1000, FromView), Report("h", 103, 1030, FromView);
    var w := World((s: Session) => raw, {earlier, now});
    hide Export, Preload;
    StoredStandsIn(w, View(1, raw, 100, 100, None, false), View(2, raw, 103, 103, None, false),
                   View(1, raw, 103, 103, None, false), earlier, now, 1, {}, others);
  }
}
