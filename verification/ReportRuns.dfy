/** Coherence of sessions, keys and reports over every run, with anything coherent happening in between. */
module ReportRuns {
  import opened Collections
  import opened Cache
  import opened Reports

  /** The bytes of each open file, which do not change while it is open; and the reports that exports have built. */
  datatype World = World(files: Session -> Option<Raw>, builds: set<Report>)

  ghost predicate Names(w: World, session: Session, hash: Hash) {
    w.files(session).Some? && w.files(session).value.hash == hash && hash != ""
  }

  /**
   * A report was built by an export, or it was taken from disk for a view of the bytes it was stored for that keeps as
   * many functions, give or take eight or a fiftieth.
   */
  ghost predicate Sound(w: World, report: Report) {
    match report.provenance
    case FromView => report in w.builds
    case FromDisk(session, counted) =>
      && Names(w, session, report.origin)
      && (-8 <= report.numFunctions - counted <= 8
          || -(counted / 50) <= report.numFunctions - counted <= counted / 50)
  }

  ghost predicate KeysCoherent(w: World, keys: Lru<Session, Key>) {
    forall s :: s in keys.items ==> Names(w, s, keys.items[s].hash)
  }

  ghost predicate ReportsCoherent(w: World, reports: Lru<Key, Report>) {
    forall k :: k in reports.items ==> reports.items[k].origin == k.hash && Sound(w, reports.items[k])
  }

  ghost predicate ColdCoherent(w: World, hashes: Lru<Session, Hash>) {
    forall s :: s in hashes.items ==> hashes.items[s] == "" || Names(w, s, hashes.items[s])
  }

  ghost predicate RawCoherent(w: World, hashes: Lru<(Session, int), Hash>) {
    forall k :: k in hashes.items ==> Names(w, k.0, hashes.items[k])
  }

  ghost predicate DiskCoherent(disk: map<Hash, File>) {
    forall h :: h in disk && disk[h].Good? ==> disk[h].report.origin == h
  }

  ghost predicate Coherent(w: World, c: Caches) {
    && KeysCoherent(w, c.reportKeys)
    && KeysCoherent(w, c.exportedKeys)
    && ReportsCoherent(w, c.reports)
    && ColdCoherent(w, c.coldHashes)
    && RawCoherent(w, c.rawHashes)
    && DiskCoherent(c.disk)
  }

  /** Other threads, evictions and pruning may do anything that leaves the caches coherent. */
  ghost predicate Polite(w: World, others: Others) {
    forall n, c: Caches :: Coherent(w, c) ==> Coherent(w, others(n, c))
  }

  ghost predicate IsOf(w: World, view: View) {
    view.raw == w.files(view.session) && (view.raw.Some? ==> view.raw.value.hash != "")
  }

  // ---------------------------------------------------------------- single accesses

  lemma PutItems<K, V>(p: Policy<V>, c: Lru<K, V>, key: K, value: V)
    ensures forall k :: k in Put(p, c, key, value).items ==>
              if k == key then Put(p, c, key, value).items[k] == value
              else k in c.items && Put(p, c, key, value).items[k] == c.items[k]
  {
  }

  lemma PutHoldsNewest<K, V>(p: Policy<V>, c: Lru<K, V>, key: K, value: V)
    ensures key in Put(p, c, key, value).items && Put(p, c, key, value).items[key] == value
  {
    var order := Touch(c.order, key);
    TrimIsLongestSettledSuffix(p, order, Reweigh(p, c.weights, key, value));
    var kept := Trim(p, order, Reweigh(p, c.weights, key, value));
    assert kept[|kept| - 1] == key;
    assert key in kept;
  }

  lemma BindIsCoherent(w: World, c: Caches, session: Session, key: Key)
    requires Coherent(w, c) && Names(w, session, key.hash)
    ensures Coherent(w, Bind(c, session, key))
    ensures Coherent(w, c.(exportedKeys := Put(SessionPolicy(), c.exportedKeys, session, key)))
  {
    PutItems(SessionPolicy(), c.reportKeys, session, key);
    PutItems(SessionPolicy(), c.exportedKeys, session, key);
    hide Put;
  }

  lemma HoldIsCoherent(w: World, c: Caches, key: Key, report: Report)
    requires Coherent(w, c) && report.origin == key.hash && Sound(w, report)
    ensures Coherent(w, Hold(c, key, report))
  {
    PutItems(ReportPolicy(), c.reports, key, report);
    hide Put;
  }

  lemma HashesAreCoherent(w: World, c: Caches, session: Session, length: int, hash: Hash)
    requires Coherent(w, c)
    ensures Names(w, session, hash) ==>
              Coherent(w, c.(rawHashes := Put(SessionPolicy(), c.rawHashes, (session, length), hash)))
    ensures hash == "" || Names(w, session, hash) ==>
              Coherent(w, c.(coldHashes := Put(SessionPolicy(), c.coldHashes, session, hash)))
  {
    PutItems(SessionPolicy(), c.rawHashes, (session, length), hash);
    PutItems(SessionPolicy(), c.coldHashes, session, hash);
    hide Put;
  }

  lemma ReadItems<K, V>(c: Lru<K, V>, key: K)
    ensures Read(c, key).items == c.items
  {
  }

  lemma ReadsAreCoherent(w: World, c: Caches, session: Session, length: int, key: Key)
    requires Coherent(w, c)
    ensures Coherent(w, c.(reports := Read(c.reports, key)))
    ensures Coherent(w, c.(reportKeys := Read(c.reportKeys, session)))
    ensures Coherent(w, c.(exportedKeys := Read(c.exportedKeys, session)))
    ensures Coherent(w, c.(coldHashes := Read(c.coldHashes, session)))
    ensures Coherent(w, c.(rawHashes := Read(c.rawHashes, (session, length))))
  {
    ReadItems(c.reports, key);
    ReadItems(c.reportKeys, session);
    ReadItems(c.exportedKeys, session);
    ReadItems(c.coldHashes, session);
    ReadItems(c.rawHashes, (session, length));
    hide Read;
  }

  // ---------------------------------------------------------------- parts of calls

  lemma RawHashIsCoherent(w: World, c: Caches, view: View, others: Others)
    requires Coherent(w, c) && Polite(w, others) && IsOf(w, view) && HasBytes(view)
    ensures var (after, hash) := RawHash(c, view, others);
            Coherent(w, after) && Names(w, view.session, hash)
  {
    var key := (view.session, view.raw.value.length);
    ReadsAreCoherent(w, c, view.session, view.raw.value.length, Key("", 0));
    HashesAreCoherent(w, others(1, c), view.session, view.raw.value.length, view.raw.value.hash);
    hide Put, Read;
  }

  lemma ColdHashIsCoherent(w: World, c: Caches, view: View, others: Others)
    requires Coherent(w, c) && Polite(w, others) && IsOf(w, view)
    ensures var (after, hash) := ColdHash(c, view, others);
            Coherent(w, after) && (hash == "" || Names(w, view.session, hash))
  {
    var session := view.session;
    hide Put, Read, RawHash;
    if session in c.coldHashes.items {
      ReadsAreCoherent(w, c, session, 0, Key("", 0));
    } else if HasBytes(view) && view.raw.value.length <= COLD_MAX_RAW_BYTES {
      RawHashIsCoherent(w, others(4, c), view, others);
      var (now, hash) := RawHash(others(4, c), view, others);
      HashesAreCoherent(w, now, session, 0, hash);
    } else {
      HashesAreCoherent(w, others(5, c), session, 0, "");
    }
  }

  /** A report is taken from disk only if it has not drifted from the view, and then says against what it was tested. */
  ghost predicate Vetted(w: World, view: View, hash: Hash, report: Option<Report>) {
    report.Some? ==>
      && report.value.origin == hash && Sound(w, report.value)
      && report.value.provenance == FromDisk(view.session, view.kept)
      && (-8 <= report.value.numFunctions - view.kept <= 8
          || -(view.kept / 50) <= report.value.numFunctions - view.kept <= view.kept / 50)
  }

  lemma LoadIsCoherent(w: World, c: Caches, view: View, hash: Hash, folder: bool, others: Others)
    requires Coherent(w, c) && Polite(w, others) && Names(w, view.session, hash)
    ensures var (after, report) := LoadCurrent(c, view, hash, others);
            Coherent(w, after) && Vetted(w, view, hash, report)
    ensures var (after, report) := LoadSmall(c, view, hash, folder, others);
            Coherent(w, after) && Vetted(w, view, hash, report)
    ensures var report, kept := LoadCurrent(c, view, hash, others).1, view.kept;
            report.Some? ==>
              -8 <= report.value.numFunctions - kept <= 8
              || -(kept / 50) <= report.value.numFunctions - kept <= kept / 50
  {
    CurrentIsCoherent(w, c, view, hash, others);
    hide Vetted;
    CurrentIsCoherent(w, others(10, c), view, hash, others);
    assert Vetted(w, view, hash, None) by {
      NothingIsVetted(w, view, hash);
    }
    hide LoadCurrent;
  }

  lemma NothingIsVetted(w: World, view: View, hash: Hash)
    ensures Vetted(w, view, hash, None)
  {
  }

  lemma CurrentIsCoherent(w: World, c: Caches, view: View, hash: Hash, others: Others)
    requires Coherent(w, c) && Polite(w, others) && Names(w, view.session, hash)
    ensures var (after, report) := LoadCurrent(c, view, hash, others);
            Coherent(w, after) && Vetted(w, view, hash, report)
  {
    assert Coherent(w, c.(disk := c.disk - {hash}));
  }

  lemma RenderKeyIsCoherent(w: World, c: Caches, view: View, key: Key, folder: bool, others: Others)
    requires Coherent(w, c) && Polite(w, others) && Names(w, view.session, key.hash)
    ensures var (after, report) := RenderKey(c, view, key, folder, others);
            Coherent(w, after) && (report.Some? ==> report.value.origin == key.hash && Sound(w, report.value))
  {
    var session := view.session;
    ReadsAreCoherent(w, c, session, 0, key);
    hide Put, Read, LoadSmall, LoadCurrent;
    var held, c1 := Peek(c.reports, key), others(11, c.(reports := Read(c.reports, key)));
    if held.Some? {
      BindIsCoherent(w, c1, session, key);
    } else if Peek(c1.coldMisses, (session, key)) != Some(true) {
      var start := others(12, c1.(coldMisses := Read(c1.coldMisses, (session, key))));
      LoadIsCoherent(w, start, view, key.hash, folder, others);
      var (c2, loaded) := LoadSmall(start, view, key.hash, folder, others);
      if loaded.Some? {
        HoldIsCoherent(w, c2, key, loaded.value);
        BindIsCoherent(w, others(13, Hold(c2, key, loaded.value)), session, key);
      }
    }
  }

  // ---------------------------------------------------------------- whole calls

  /** A render keeps the caches coherent, and what it shows was made from the bytes of the file it is for. */
  lemma RenderIsCoherent(w: World, c: Caches, view: View, folder: bool, others: Others)
    requires Coherent(w, c) && Polite(w, others) && IsOf(w, view)
    ensures var (after, report) := Render(c, view, folder, others);
            && Coherent(w, after)
            && (report.Some? ==> Names(w, view.session, report.value.origin) && Sound(w, report.value))
  {
    var session := view.session;
    ReadsAreCoherent(w, c, session, 0, Key("", 0));
    hide Put, Read, ColdHash, RenderKey, Sound;
    var bound, c1 := Peek(c.reportKeys, session), others(14, c.(reportKeys := Read(c.reportKeys, session)));
    if bound.Some? {
      RenderKeyIsCoherent(w, c1, view, bound.value, folder, others);
    } else {
      ColdHashIsCoherent(w, c1, view, others);
      var (c2, hash) := ColdHash(c1, view, others);
      if hash != "" {
        RenderKeyIsCoherent(w, c2, view, Key(hash, view.functions), folder, others);
      }
    }
  }

  lemma PreloadKeyIsCoherent(w: World, c: Caches, view: View, key: Key, others: Others)
    requires Coherent(w, c) && Polite(w, others) && Names(w, view.session, key.hash)
    ensures Coherent(w, PreloadKey(c, view, key, others))
  {
    var session := view.session;
    ReadsAreCoherent(w, c, session, 0, key);
    hide Put, Read, LoadCurrent, LoadSmall, Sound, Coherent;
    if key in c.reports.items {
      BindIsCoherent(w, others(17, c.(reports := Read(c.reports, key))), session, key);
    } else {
      LoadIsCoherent(w, others(18, c), view, key.hash, true, others);
      var (now, loaded) := LoadCurrent(others(18, c), view, key.hash, others);
      if loaded.Some? {
        HoldIsCoherent(w, now, key, loaded.value);
        BindIsCoherent(w, others(19, Hold(now, key, loaded.value)), session, key);
      }
    }
  }

  lemma PreloadIsCoherent(
    w: World, c: Caches, view: View, architectures: set<string>, folder: bool, others: Others)
    requires Coherent(w, c) && Polite(w, others) && IsOf(w, view)
    ensures Coherent(w, Preload(c, view, architectures, folder, others))
  {
    var session := view.session;
    ReadsAreCoherent(w, c, session, 0, Key("", 0));
    if Preloadable(view, architectures) && folder && session !in c.reportKeys.items {
      hide Put, Read, RawHash, PreloadKey, Coherent;
      RawHashIsCoherent(w, others(15, c), view, others);
      var (c1, hash) := RawHash(others(15, c), view, others);
      HashesAreCoherent(w, c1, session, 0, hash);
      var c2 := if view.raw.value.length <= COLD_MAX_RAW_BYTES
                then others(16, c1.(coldHashes := Put(SessionPolicy(), c1.coldHashes, session, hash))) else c1;
      PreloadKeyIsCoherent(w, c2, view, Key(hash, view.functions), others);
    }
  }

  /** A report built from a view is of the view's bytes. */
  ghost predicate BuiltFrom(view: View, report: Report) {
    view.raw.Some? && report.origin == view.raw.value.hash && report.provenance == FromView
  }

  lemma LoadOrBuildIsCoherent(
    w: World, c: Caches, view: View, hash: Hash, built: Built<Report>, written: Written, folder: bool, others: Others)
    requires Coherent(w, c) && Polite(w, others) && Names(w, view.session, hash)
    requires built.Value? ==>
            built.value.origin == hash && built.value.provenance == FromView && built.value in w.builds
    ensures var (after, report) := LoadOrBuild(c, view, hash, built, written, folder, others);
            Coherent(w, after) && (report.Value? ==> report.value.origin == hash && Sound(w, report.value))
  {
    var session := view.session;
    if folder {
      ReadsAreCoherent(w, c, session, 0, Key("", 0));
      hide Put, Read, LoadCurrent, LoadSmall;
      var c1 := others(20, c.(exportedKeys := Read(c.exportedKeys, session)));
      LoadIsCoherent(w, c1, view, hash, folder, others);
      var (c2, loaded) := if session !in c.exportedKeys.items then LoadCurrent(c1, view, hash, others) else (c1, None);
      if loaded.None? && built.Value? {
        var c3 := others(26, c2);
        assert DiskCoherent(Store(c3, hash, built.value, written).disk);
        assert Coherent(w, Store(c3, hash, built.value, written));
      }
    }
  }

  lemma HeldIsSound(w: World, c: Caches, key: Key)
    requires Coherent(w, c) && key in c.reports.items
    ensures c.reports.items[key].origin == key.hash && Sound(w, c.reports.items[key])
  {
  }

  lemma ExportedIsCoherent(w: World, c: Caches, session: Session, key: Key, others: Others)
    requires Coherent(w, c) && Polite(w, others) && Names(w, session, key.hash)
    ensures Coherent(w, Exported(c, session, key, others))
  {
    BindIsCoherent(w, c, session, key);
    BindIsCoherent(w, others(25, Bind(c, session, key)), session, key);
    hide Put, Bind, Coherent;
  }

  lemma {:induction false} JoinIsCoherent(
    w: World, c: Caches, key: Key, stopped: nat -> bool, waits: nat, others: Others)
    requires Coherent(w, c) && Polite(w, others)
    ensures Coherent(w, Join(c, key, stopped, waits, others).0)
    decreases waits
  {
    if key !in c.reports.items && waits > 0 && !stopped(2 + waits) {
      JoinIsCoherent(w, others(27, c), key, stopped, waits - 1, others);
    }
  }

  lemma HeldExportIsCoherent(w: World, c: Caches, session: Session, key: Key, others: Others)
    requires Coherent(w, c) && Polite(w, others) && Names(w, session, key.hash)
    ensures Coherent(w, Exported(others(22, c.(reports := Read(c.reports, key))), session, key, others))
  {
    ReadsAreCoherent(w, c, session, 0, key);
    hide Exported, Coherent, Read;
    ExportedIsCoherent(w, others(22, c.(reports := Read(c.reports, key))), session, key, others);
  }

  lemma NewExportIsCoherent(w: World, c: Caches, session: Session, key: Key, report: Report, others: Others)
    requires Coherent(w, c) && Polite(w, others) && Names(w, session, key.hash)
    requires report.origin == key.hash && Sound(w, report)
    ensures Coherent(w, Exported(others(24, Hold(c, key, report)), session, key, others))
  {
    HoldIsCoherent(w, c, key, report);
    hide Exported, Coherent, Hold;
    ExportedIsCoherent(w, others(24, Hold(c, key, report)), session, key, others);
  }

  lemma ExportKeyIsCoherent(
    w: World, c: Caches, view: View, key: Key, stopped: nat -> bool, waits: nat, built: Built<Report>, written: Written,
    folder: bool, others: Others)
    requires Coherent(w, c) && Polite(w, others) && Names(w, view.session, key.hash)
    requires built.Value? ==>
               built.value.origin == key.hash && built.value.provenance == FromView && built.value in w.builds
    ensures var (after, answer) := ExportKey(c, view, key, stopped, waits, built, written, folder, others);
            && Coherent(w, after)
            && (answer.Returned? ==> answer.value.origin == key.hash && Sound(w, answer.value))
  {
    hide Read, Hold, LoadOrBuild, Exported, Sound, Coherent, Join, Names;
    JoinIsCoherent(w, c, key, stopped, waits, others);
    var joined := Join(c, key, stopped, waits, others).0;
    if key in joined.reports.items {
      HeldIsSound(w, joined, key);
      HeldExportIsCoherent(w, joined, view.session, key, others);
    } else {
      LoadOrBuildIsCoherent(w, others(23, joined), view, key.hash, built, written, folder, others);
      var (now, report) := LoadOrBuild(others(23, joined), view, key.hash, built, written, folder, others);
      if report.Value? {
        NewExportIsCoherent(w, now, view.session, key, report.value, others);
      }
    }
  }

  /** An export keeps the caches coherent and answers with a report of the bytes of the file it is for. */
  lemma ExportIsCoherent(
    w: World, c: Caches, view: View, stopped: nat -> bool, waits: nat, built: Built<Report>, written: Written,
    folder: bool, others: Others)
    requires Coherent(w, c) && Polite(w, others) && IsOf(w, view)
    requires built.Value? && view.raw.Some? ==> BuiltFrom(view, built.value) && built.value in w.builds
    ensures var (after, answer) := Export(c, view, stopped, waits, built, written, folder, others);
            && Coherent(w, after)
            && (answer.Returned? && HasBytes(view) ==>
                  Names(w, view.session, answer.value.origin) && Sound(w, answer.value))
  {
    if HasBytes(view) {
      RawHashIsCoherent(w, c, view, others);
      var (now, hash) := RawHash(c, view, others);
      hide RawHash, ExportKey, Coherent, Sound;
      ExportKeyIsCoherent(w, now, view, Key(hash, view.functions), stopped, waits, built, written, folder, others);
    }
  }

  // ---------------------------------------------------------------- runs

  datatype Call =
    | Rendered(view: View, others: Others)
    | Preloaded(view: View, others: Others)
    | Exporting(view: View, stopped: nat -> bool, waits: nat, built: Built<Report>, written: Written, others: Others)
    | Outside(now: Caches)   // an eviction, a pruning or anything else coherent

  /** One call, and the reports that exports by other threads build from views of theirs in the meantime. */
  datatype Event = Event(meanwhile: seq<(View, Report)>, call: Call)

  /** The reports built up to the end of these events. */
  function Builds(events: seq<Event>): set<Report> {
    if events == [] then {}
    else
      var last := events[|events| - 1];
      Builds(events[..|events| - 1]) + (set m | m in last.meanwhile :: m.1)
      + (if last.call.Exporting? && last.call.built.Value? then {last.call.built.value} else {})
  }

  function WorldAfter(files: Session -> Option<Raw>, events: seq<Event>): World {
    World(files, Builds(events))
  }

  ghost predicate Legal(w: World, e: Event) {
    && (forall m :: m in e.meanwhile ==> IsOf(w, m.0) && BuiltFrom(m.0, m.1))
    && match e.call
       case Rendered(view, others) => IsOf(w, view) && Polite(w, others)
       case Preloaded(view, others) => IsOf(w, view) && Polite(w, others)
       case Exporting(view, _, _, built, _, others) =>
         && IsOf(w, view) && Polite(w, others)
         && (built.Value? && view.raw.Some? ==> BuiltFrom(view, built.value))
       case Outside(now) => Coherent(w, now)
  }

  /** Every event is legal once the builds up to and including its own are known. */
  ghost predicate LegalRun(files: Session -> Option<Raw>, events: seq<Event>) {
    forall i :: 0 <= i < |events| ==> Legal(WorldAfter(files, events[..i + 1]), events[i])
  }

  function Step(c: Caches, call: Call, architectures: set<string>, folder: bool): Caches {
    match call
    case Rendered(view, others) => Render(c, view, folder, others).0
    case Preloaded(view, others) => Preload(c, view, architectures, folder, others)
    case Exporting(view, stopped, waits, built, written, others) =>
      Export(c, view, stopped, waits, built, written, folder, others).0
    case Outside(now) => now
  }

  function Run(events: seq<Event>, disk: map<Hash, File>, architectures: set<string>, folder: bool): Caches {
    if events == [] then Caches(Empty(), Empty(), Empty(), Empty(), Empty(), Empty(), disk)
    else
      Step(Run(events[..|events| - 1], disk, architectures, folder), events[|events| - 1].call, architectures, folder)
  }

  lemma ShorterIsLegal(files: Session -> Option<Raw>, events: seq<Event>)
    requires events != [] && LegalRun(files, events)
    ensures LegalRun(files, events[..|events| - 1])
  {
    var earlier := events[..|events| - 1];
    forall i | 0 <= i < |earlier| ensures Legal(WorldAfter(files, earlier[..i + 1]), earlier[i]) {
      assert earlier[..i + 1] == events[..i + 1];
    }
  }

  lemma MoreBuildsStayCoherent(v: World, w: World, c: Caches)
    requires Coherent(v, c) && v.files == w.files && v.builds <= w.builds
    ensures Coherent(w, c)
  {
    assert forall r: Report :: Sound(v, r) ==> Sound(w, r);
  }

  lemma StepIsCoherent(w: World, c: Caches, e: Event, architectures: set<string>, folder: bool)
    requires Coherent(w, c) && Legal(w, e)
    requires e.call.Exporting? && e.call.built.Value? ==> e.call.built.value in w.builds
    ensures Coherent(w, Step(c, e.call, architectures, folder))
  {
    hide Coherent, Render, Preload, Export;
    match e.call {
      case Rendered(view, others) =>
        RenderIsCoherent(w, c, view, folder, others);
      case Preloaded(view, others) =>
        PreloadIsCoherent(w, c, view, architectures, folder, others);
      case Exporting(view, stopped, waits, built, written, others) =>
        ExportIsCoherent(w, c, view, stopped, waits, built, written, folder, others);
      case Outside(now) =>
    }
  }

  /**
   * Over every run, keys name the hash of their file, and every report in memory is of the bytes it is held for and
   * was built by an export of the run or passed the drift test when it was taken from disk.
   */
  lemma {:induction false} EveryRunIsCoherent(
    files: Session -> Option<Raw>, events: seq<Event>, disk: map<Hash, File>, architectures: set<string>, folder: bool)
    requires DiskCoherent(disk) && LegalRun(files, events)
    ensures Coherent(WorldAfter(files, events), Run(events, disk, architectures, folder))
  {
    if events != [] {
      var earlier, e := events[..|events| - 1], events[|events| - 1];
      var before := Run(earlier, disk, architectures, folder);
      assert events[..|events|] == events;
      ShorterIsLegal(files, events);
      assert Legal(WorldAfter(files, events), e);
      assert Builds(earlier) <= Builds(events);
      hide Coherent, Legal, Step;
      EveryRunIsCoherent(files, earlier, disk, architectures, folder);
      MoreBuildsStayCoherent(WorldAfter(files, earlier), WorldAfter(files, events), before);
      StepIsCoherent(WorldAfter(files, events), before, e, architectures, folder);
    }
  }

  /** An export of the run, by this thread or another, built the report from a view. */
  ghost predicate ExportedFrom(events: seq<Event>, view: View, report: Report) {
    exists i :: 0 <= i < |events|
                && ((view, report) in events[i].meanwhile
                    || (events[i].call.Exporting? && events[i].call.view == view
                        && events[i].call.built == Value(report)))
  }

  lemma {:induction false} BuiltIsExported(events: seq<Event>, report: Report) returns (view: View)
    requires report in Builds(events)
    ensures ExportedFrom(events, view, report)
  {
    var n := |events| - 1;
    var last := events[n];
    if report in Builds(events[..n]) {
      view := BuiltIsExported(events[..n], report);
      var i :| 0 <= i < n && ((view, report) in events[..n][i].meanwhile
                              || (events[..n][i].call.Exporting? && events[..n][i].call.view == view
                                  && events[..n][i].call.built == Value(report)));
      assert events[i] == events[..n][i];
    } else if last.call.Exporting? && last.call.built == Value(report) {
      view := last.call.view;
    } else {
      var m :| m in last.meanwhile && m.1 == report;
      view := m.0;
    }
  }

  /**
   * Every report in memory is accounted for: it is of the bytes it is held for, and either an export of the run built
   * it from a view, or it came from disk undrifted from a view of those very bytes.
   */
  lemma HeldReportsAreAccountedFor(
    files: Session -> Option<Raw>, events: seq<Event>, disk: map<Hash, File>, architectures: set<string>, folder: bool,
    key: Key)
    requires DiskCoherent(disk) && LegalRun(files, events)
    requires key in Run(events, disk, architectures, folder).reports.items
    ensures var report := Run(events, disk, architectures, folder).reports.items[key];
            && report.origin == key.hash
            && match report.provenance
               case FromView => exists view :: ExportedFrom(events, view, report)
               case FromDisk(session, counted) =>
                 && files(session).Some? && files(session).value.hash == key.hash
                 && (-8 <= report.numFunctions - counted <= 8
                     || -(counted / 50) <= report.numFunctions - counted <= counted / 50)
  {
    EveryRunIsCoherent(files, events, disk, architectures, folder);
    var c, w := Run(events, disk, architectures, folder), WorldAfter(files, events);
    HeldIsSound(w, c, key);
    hide Run, Builds, ExportedFrom;
    if c.reports.items[key].provenance.FromView? {
      var view := BuiltIsExported(events, c.reports.items[key]);
    }
  }

  // ---------------------------------------------------------------- a miss hides nothing

  ghost predicate Shows(c: Caches, session: Session, key: Key, report: Report) {
    && Peek(c.reportKeys, session) == Some(key)
    && Peek(c.reports, key) == Some(report)
  }

  /** Others may do anything but rebind the session or replace or evict its report. */
  ghost predicate Spares(others: Others, session: Session, key: Key, report: Report) {
    && (forall n, c: Caches :: Peek(c.reports, key) == Some(report) ==> Peek(others(n, c).reports, key) == Some(report))
    && (forall n, c: Caches :: Shows(c, session, key, report) ==> Shows(others(n, c), session, key, report))
  }

  lemma ExportedShows(c: Caches, session: Session, key: Key, report: Report, others: Others)
    requires Peek(c.reports, key) == Some(report) && Spares(others, session, key, report)
    ensures Shows(Exported(c, session, key, others), session, key, report)
  {
    PutHoldsNewest(SessionPolicy(), c.reportKeys, session, key);
    hide Put;
    assert Shows(Bind(c, session, key), session, key, report);
  }

  lemma ExportKeyShows(
    c: Caches, view: View, key: Key, stopped: nat -> bool, waits: nat, built: Built<Report>, written: Written,
    folder: bool, others: Others)
    requires ExportKey(c, view, key, stopped, waits, built, written, folder, others).1.Returned?
    requires Spares(others, view.session, key,
                    ExportKey(c, view, key, stopped, waits, built, written, folder, others).1.value)
    ensures var (after, answer) := ExportKey(c, view, key, stopped, waits, built, written, folder, others);
            Shows(after, view.session, key, answer.value)
  {
    hide Exported, LoadOrBuild, Join;
    var joined := Join(c, key, stopped, waits, others).0;
    if key in joined.reports.items {
      ReadItems(joined.reports, key);
      hide Read;
      ExportedShows(others(22, joined.(reports := Read(joined.reports, key))), view.session, key,
                    joined.reports.items[key], others);
    } else {
      var (now, made) := LoadOrBuild(others(23, joined), view, key.hash, built, written, folder, others);
      PutHoldsNewest(ReportPolicy(), now.reports, key, made.value);
      hide Put;
      ExportedShows(others(24, Hold(now, key, made.value)), view.session, key, made.value, others);
    }
  }

  /** What an export returns it leaves in memory, bound to the file. */
  lemma ExportShows(
    c: Caches, view: View, stopped: nat -> bool, waits: nat, built: Built<Report>, written: Written, folder: bool,
    others: Others)
    requires HasBytes(view) && Export(c, view, stopped, waits, built, written, folder, others).1.Returned?
    requires Spares(others, view.session, Key(RawHash(c, view, others).1, view.functions),
                    Export(c, view, stopped, waits, built, written, folder, others).1.value)
    ensures Shows(Export(c, view, stopped, waits, built, written, folder, others).0, view.session,
                  Key(RawHash(c, view, others).1, view.functions),
                  Export(c, view, stopped, waits, built, written, folder, others).1.value)
  {
    hide RawHash, ExportKey;
    var (now, hash) := RawHash(c, view, others);
    ExportKeyShows(now, view, Key(hash, view.functions), stopped, waits, built, written, folder, others);
  }

  /**
   * Once an export has returned a report, every later render of the file gives that report while its entries are
   * neither evicted nor replaced, whatever misses were remembered before, during or since.
   */
  lemma MissHidesNoExport(
    c: Caches, view: View, stopped: nat -> bool, waits: nat, built: Built<Report>, written: Written, folder: bool,
    others: Others, later: View, since: nat)
    requires HasBytes(view) && Export(c, view, stopped, waits, built, written, folder, others).1.Returned?
    requires Spares(others, view.session, Key(RawHash(c, view, others).1, view.functions),
                    Export(c, view, stopped, waits, built, written, folder, others).1.value)
    requires later.session == view.session
    ensures var (after, answer) := Export(c, view, stopped, waits, built, written, folder, others);
            Render(others(since, after), later, folder, others).1 == Some(answer.value)
  {
    ExportShows(c, view, stopped, waits, built, written, folder, others);
    var (after, answer) := Export(c, view, stopped, waits, built, written, folder, others);
    var key := Key(RawHash(c, view, others).1, view.functions);
    hide Export, RawHash;
    ShownIsRendered(others(since, after), later, folder, others, key, answer.value);
  }

  lemma ShownIsRendered(c: Caches, view: View, folder: bool, others: Others, key: Key, report: Report)
    requires Shows(c, view.session, key, report) && Spares(others, view.session, key, report)
    ensures Render(c, view, folder, others).1 == Some(report)
  {
    ReadItems(c.reportKeys, view.session);
    hide Read, Put;
    assert Shows(c.(reportKeys := Read(c.reportKeys, view.session)), view.session, key, report);
  }
}
