/** diskcache.py: keeping the folder of stored reports within its size and count caps. */
module DiskCache {
  import opened Collections
  import opened Sorting

  const MAX_BYTES := 512 * 1024 * 1024
  const MAX_FILES := 1000
  const STALE_TEMP_SECONDS := 24 * 60 * 60

  datatype Kind = Temp | Report | Other

  /** A directory entry; paths are numbered in their sorting order, and `readable` is whether it can be examined. */
  datatype Entry = Entry(path: nat, kind: Kind, mtime: int, size: nat, readable: bool)

  predicate IsReport(e: Entry) {
    e.readable && e.kind.Report?
  }

  predicate IsStale(e: Entry, now: int) {
    e.readable && e.kind.Temp? && now - e.mtime > STALE_TEMP_SECONDS
  }

  /** Tuples (mtime, size, path) in lexicographic order. */
  predicate EntryLe(a: Entry, b: Entry) {
    if a.mtime != b.mtime then a.mtime < b.mtime
    else if a.size != b.size then a.size < b.size
    else a.path <= b.path
  }

  function Bytes(s: seq<Entry>): nat {
    if s == [] then 0 else s[0].size + Bytes(s[1..])
  }

  datatype Caps = Caps(maxBytes: int, maxFiles: int)
  {
    predicate Allow(bytes: int, count: int) {
      bytes <= maxBytes && count <= maxFiles
    }
  }

  function CapsFrom(maxBytes: Option<int>, maxFiles: Option<int>): Caps {
    Caps(if maxBytes.None? then MAX_BYTES else maxBytes.value, if maxFiles.None? then MAX_FILES else maxFiles.value)
  }

  // ---------------------------------------------------------------- specification

  /** The reports to delete, in order, from reports of this many bytes and this many files. */
  function Victims(reports: seq<Entry>, bytes: int, count: int, keep: Option<nat>, caps: Caps): seq<Entry> {
    if reports == [] || caps.Allow(bytes, count) then []
    else if keep == Some(reports[0].path) then Victims(reports[1..], bytes, count, keep, caps)
    else [reports[0]] + Victims(reports[1..], bytes - reports[0].size, count - 1, keep, caps)
  }

  function Reports(files: seq<Entry>): seq<Entry> {
    Sort(Filter(files, IsReport), EntryLe)
  }

  function VictimsOf(files: seq<Entry>, keep: Option<nat>, caps: Caps): seq<Entry> {
    var reports := Reports(files);
    Victims(reports, Bytes(reports), |reports|, keep, caps)
  }

  function Survives(gone: seq<Entry>, deletable: nat -> bool): Entry -> bool {
    (e: Entry) => !(e in gone && deletable(e.path))
  }

  /** What stays of the files when these are unlinked, as far as they can be. */
  function Left(files: seq<Entry>, gone: seq<Entry>, deletable: nat -> bool): seq<Entry> {
    Filter(files, Survives(gone, deletable))
  }

  function Stale(now: int): Entry -> bool {
    (e: Entry) => IsStale(e, now)
  }

  // ---------------------------------------------------------------- pruning

  class Folder {
    var files: seq<Entry>

    /** Deletes a file; a failure to do so is ignored. */
    method Unlink(e: Entry, deletable: nat -> bool)
      modifies this
      ensures files == Left(old(files), [e], deletable)
    {
      files := Left(files, [e], deletable);
    }

    /** Reads the folder: lists the reports and deletes stale temporary files on the way. */
    method ScanFolder(now: int, deletable: nat -> bool) returns (entries: seq<Entry>)
      modifies this
      ensures entries == Filter(old(files), IsReport)
      ensures files == Left(old(files), Filter(old(files), Stale(now)), deletable)
    {
      var listing := files;
      entries := [];
      LeftNone(files, deletable);
      assert listing[..|listing|] == listing;
      for n := 0 to |listing|
        invariant entries == Filter(listing[..n], IsReport)
        invariant files == Left(listing, Filter(listing[..n], Stale(now)), deletable)
      {
        var e := listing[n];
        FilterStep(listing, n, IsReport);
        FilterStep(listing, n, Stale(now));
        LeftTwice(listing, Filter(listing[..n], Stale(now)), e, deletable);
        hide Filter, Left;
        if e.readable {
          if e.kind.Temp? {
            if now - e.mtime > STALE_TEMP_SECONDS {
              Unlink(e, deletable);
            }
          } else if e.kind.Report? {
            entries := entries + [e];
          }
        }
      }
    }

    /** Deletes reports in the order given, but for the kept one, until the caps are met. */
    method Evict(entries: seq<Entry>, keep: Option<nat>, caps: Caps, deletable: nat -> bool)
      modifies this
      ensures files == Left(old(files), Victims(entries, Bytes(entries), |entries|, keep, caps), deletable)
    {
      var total: int, count: int := Bytes(entries), |entries|;
      ghost var victims, gone := Victims(entries, total, count, keep, caps), [];
      assert entries[0..] == entries && gone + victims == victims;
      LeftNone(files, deletable);
      hide *;
      for n := 0 to |entries|
        invariant gone + Victims(entries[n..], total, count, keep, caps) == victims
        invariant files == Left(old(files), gone, deletable)
      {
        var e := entries[n];
        VictimsStep(entries, n, total, count, keep, caps, gone);
        LeftTwice(old(files), gone, e, deletable);
        if caps.Allow(total, count) {
          break;
        }
        if keep == Some(e.path) {
          continue;
        }
        Unlink(e, deletable);
        gone := gone + [e];
        total := total - e.size;
        count := count - 1;
      }
      assert gone == victims by {
        LastVictims(entries, total, count, keep, caps, gone);
      }
    }

    method Prune(keep: Option<nat>, maxBytes: Option<int>, maxFiles: Option<int>, now: int, deletable: nat -> bool)
      modifies this
      ensures files == Left(old(files),
                            Filter(old(files), Stale(now)) + VictimsOf(old(files), keep, CapsFrom(maxBytes, maxFiles)),
                            deletable)
    {
      var entries := ScanFolder(now, deletable);
      Evict(Sort(entries, EntryLe), keep, CapsFrom(maxBytes, maxFiles), deletable);
      LeftConcat(old(files), Filter(old(files), Stale(now)), VictimsOf(old(files), keep, CapsFrom(maxBytes, maxFiles)),
                 deletable);
    }
  }

  lemma LastVictims(entries: seq<Entry>, bytes: int, count: int, keep: Option<nat>, caps: Caps, gone: seq<Entry>)
    ensures gone + Victims(entries[|entries|..], bytes, count, keep, caps) == gone
  {
  }

  lemma FilterStep<T>(s: seq<T>, n: nat, p: T -> bool)
    requires n < |s|
    ensures Filter(s[..n + 1], p) == (if p(s[n]) then Filter(s[..n], p) + [s[n]] else Filter(s[..n], p))
  {
    assert s[..n + 1] == s[..n] + [s[n]];
    FilterConcat(s[..n], [s[n]], p);
  }

  lemma VictimsStep(
    entries: seq<Entry>, n: nat, bytes: int, count: int, keep: Option<nat>, caps: Caps, gone: seq<Entry>)
    requires n < |entries|
    ensures var now := gone + Victims(entries[n..], bytes, count, keep, caps);
            var e := entries[n];
            now == (if caps.Allow(bytes, count) then gone
                    else if keep == Some(e.path) then gone + Victims(entries[n + 1..], bytes, count, keep, caps)
                    else gone + [e] + Victims(entries[n + 1..], bytes - e.size, count - 1, keep, caps))
  {
    var e, rest := entries[n], entries[n + 1..];
    assert entries[n..][1..] == rest;
    assert gone + [] == gone;
    assert gone + [e] + Victims(rest, bytes - e.size, count - 1, keep, caps)
        == gone + ([e] + Victims(rest, bytes - e.size, count - 1, keep, caps));
  }

  lemma {:induction false} LeftConcat(files: seq<Entry>, a: seq<Entry>, b: seq<Entry>, deletable: nat -> bool)
    ensures Left(Left(files, a, deletable), b, deletable) == Left(files, a + b, deletable)
  {
    if files != [] {
      LeftConcat(files[1..], a, b, deletable);
      var rest := Left(files[1..], a, deletable);
      assert ([files[0]] + rest)[1..] == rest;
    }
  }

  lemma {:induction false} LeftNone(files: seq<Entry>, deletable: nat -> bool)
    ensures Left(files, [], deletable) == files
  {
    if files != [] {
      LeftNone(files[1..], deletable);
    }
  }

  lemma LeftTwice(files: seq<Entry>, gone: seq<Entry>, e: Entry, deletable: nat -> bool)
    ensures Left(Left(files, gone, deletable), [e], deletable) == Left(files, gone + [e], deletable)
  {
    LeftConcat(files, gone, [e], deletable);
  }

  // ---------------------------------------------------------------- what pruning promises

  function NotKept(keep: Option<nat>): Entry -> bool {
    (e: Entry) => keep != Some(e.path)
  }

  /** Victims are the shortest run of the unkept reports, from the front, that brings the rest within the caps. */
  lemma {:induction false} VictimsAreShortestRun(
    reports: seq<Entry>, bytes: int, count: int, keep: Option<nat>, caps: Caps)
    ensures var victims := Victims(reports, bytes, count, keep, caps);
            && victims <= Filter(reports, NotKept(keep))
            && (caps.Allow(bytes - Bytes(victims), count - |victims|) || victims == Filter(reports, NotKept(keep)))
            && (forall n :: 0 <= n < |victims| ==> !caps.Allow(bytes - Bytes(victims[..n]), count - n))
  {
    VictimsUnfold(reports, bytes, count, keep, caps);
    hide *;
    if reports != [] && !caps.Allow(bytes, count) {
      var e, tail := reports[0], reports[1..];
      if keep == Some(e.path) {
        VictimsAreShortestRun(tail, bytes, count, keep, caps);
      } else {
        var rest := Victims(tail, bytes - e.size, count - 1, keep, caps);
        VictimsAreShortestRun(tail, bytes - e.size, count - 1, keep, caps);
        RunExtends(e, rest, bytes, count, caps);
      }
    }
  }

  lemma VictimsUnfold(reports: seq<Entry>, bytes: int, count: int, keep: Option<nat>, caps: Caps)
    ensures Bytes([]) == 0
    ensures var victims, unkept := Victims(reports, bytes, count, keep, caps), Filter(reports, NotKept(keep));
            if reports == [] || caps.Allow(bytes, count) then victims == [] && (reports == [] ==> unkept == [])
            else if keep == Some(reports[0].path) then
              && victims == Victims(reports[1..], bytes, count, keep, caps)
              && unkept == Filter(reports[1..], NotKept(keep))
            else
              && victims == [reports[0]] + Victims(reports[1..], bytes - reports[0].size, count - 1, keep, caps)
              && unkept == [reports[0]] + Filter(reports[1..], NotKept(keep))
  {
  }

  lemma RunExtends(e: Entry, rest: seq<Entry>, bytes: int, count: int, caps: Caps)
    requires !caps.Allow(bytes, count)
    requires forall n :: 0 <= n < |rest| ==> !caps.Allow(bytes - e.size - Bytes(rest[..n]), count - 1 - n)
    ensures Bytes([e] + rest) == e.size + Bytes(rest)
    ensures forall n :: 0 <= n <= |rest| ==> !caps.Allow(bytes - Bytes(([e] + rest)[..n]), count - n)
  {
    var all := [e] + rest;
    assert all[1..] == rest;
    forall n | 0 <= n <= |rest| ensures !caps.Allow(bytes - Bytes(all[..n]), count - n) {
      if n > 0 {
        assert all[..n][1..] == rest[..n - 1];
      }
    }
  }

  lemma {:induction false} BytesConcat(a: seq<Entry>, b: seq<Entry>)
    ensures Bytes(a + b) == Bytes(a) + Bytes(b)
  {
    if a == [] {
      assert a + b == b;
    } else {
      assert (a + b)[1..] == a[1..] + b;
      BytesConcat(a[1..], b);
    }
  }

  lemma {:induction false} BytesIgnoreOrder(s: seq<Entry>, t: seq<Entry>)
    requires multiset(s) == multiset(t)
    ensures Bytes(s) == Bytes(t) && |s| == |t|
    decreases |s|
  {
    assert |s| == |multiset(s)| == |multiset(t)| == |t|;
    if s != [] {
      assert s[0] in multiset(s);
      var i := IndexOf(t, s[0]);
      DropAtElements(s, 0);
      DropAtElements(t, i);
      hide Bytes;
      BytesIgnoreOrder(DropAt(s, 0), DropAt(t, i));
      BytesDropAt(s, 0);
      BytesDropAt(t, i);
    }
  }

  lemma BytesDropAt(s: seq<Entry>, i: nat)
    requires i < |s|
    ensures Bytes(s) == Bytes(DropAt(s, i)) + s[i].size
  {
    var a, x, c := s[..i], s[i], s[i + 1..];
    assert s == a + ([x] + c);
    assert ([x] + c)[1..] == c;
    assert Bytes([x] + c) == x.size + Bytes(c);
    hide Bytes;
    BytesConcat(a, [x] + c);
    BytesConcat(a, c);
  }

  ghost predicate DistinctPaths(files: seq<Entry>) {
    forall i, j :: 0 <= i < j < |files| ==> files[i].path != files[j].path
  }

  lemma {:induction false} DistinctOnce(files: seq<Entry>, e: Entry)
    requires DistinctPaths(files)
    ensures multiset(files)[e] <= 1
  {
    if files != [] {
      DistinctOnce(files[1..], e);
      assert files == [files[0]] + files[1..];
      assert forall i :: 0 <= i < |files| - 1 ==> files[1..][i].path != files[0].path;
      assert files[0] !in files[1..];
    }
  }

  lemma KeyIsTotalPreorder()
    ensures TotalPreorder(EntryLe)
  {
  }

  /** Every deletion succeeds. */
  function Deletes(): nat -> bool {
    (path: nat) => true
  }

  function After(files: seq<Entry>, keep: Option<nat>, caps: Caps, now: int): seq<Entry> {
    Left(files, Filter(files, Stale(now)) + VictimsOf(files, keep, caps), Deletes())
  }

  lemma AfterKeeps(files: seq<Entry>, keep: Option<nat>, caps: Caps, now: int, e: Entry)
    ensures e in After(files, keep, caps, now) <==> e in files && !IsStale(e, now) && e !in VictimsOf(files, keep, caps)
    ensures multiset(Filter(After(files, keep, caps, now), IsReport))[e]
            == (if IsReport(e) && e !in VictimsOf(files, keep, caps) then multiset(files)[e] else 0)
  {
    var stale, victims := Filter(files, Stale(now)), VictimsOf(files, keep, caps);
    FilterKeeps(files, Stale(now));
    FilterKeeps(files, Survives(stale + victims, Deletes()));
    FilterKeeps(After(files, keep, caps, now), IsReport);
    assert e in files <==> e in multiset(files);
    assert e in stale <==> multiset(stale)[e] > 0;
    assert e in After(files, keep, caps, now) <==> multiset(After(files, keep, caps, now))[e] > 0;
    hide VictimsOf;
  }

  function Unkept(files: seq<Entry>, keep: Option<nat>): seq<Entry> {
    Filter(Reports(files), NotKept(keep))
  }

  lemma UnkeptElements(files: seq<Entry>, keep: Option<nat>, e: Entry)
    ensures e in Unkept(files, keep) <==> e in files && IsReport(e) && keep != Some(e.path)
    ensures multiset(Unkept(files, keep))[e] <= multiset(files)[e]
    ensures SortedBy(Unkept(files, keep), EntryLe)
  {
    var sorted := Reports(files);
    KeyIsTotalPreorder();
    SortIsSorted(Filter(files, IsReport), EntryLe);
    UnkeptIsSorted(sorted, keep);
    assert multiset(sorted) == multiset(Filter(files, IsReport));
    hide Sort, Filter, SortedBy, Reports;
    FilterKeeps(files, IsReport);
    FilterKeeps(sorted, NotKept(keep));
    assert e in Unkept(files, keep) <==> multiset(Unkept(files, keep))[e] > 0;
    assert e in files <==> multiset(files)[e] > 0;
  }

  lemma VictimsRun(files: seq<Entry>, keep: Option<nat>, caps: Caps)
    ensures var victims, reports := VictimsOf(files, keep, caps), Filter(files, IsReport);
            && victims <= Unkept(files, keep)
            && (caps.Allow(Bytes(reports) - Bytes(victims), |reports| - |victims|) || victims == Unkept(files, keep))
            && (forall n :: 0 <= n < |victims| ==> !caps.Allow(Bytes(reports) - Bytes(victims[..n]), |reports| - n))
  {
    hide Sort, Victims, Bytes, Filter, EntryLe, IsReport, NotKept, TotalPreorder, SortedBy;
    var sorted, reports := Reports(files), Filter(files, IsReport);
    VictimsAreShortestRun(sorted, Bytes(sorted), |sorted|, keep, caps);
    KeyIsTotalPreorder();
    SortIsSorted(reports, EntryLe);
    BytesIgnoreOrder(sorted, reports);
  }

  lemma VictimsAreReports(files: seq<Entry>, keep: Option<nat>, caps: Caps, e: Entry)
    requires DistinctPaths(files)
    ensures multiset(VictimsOf(files, keep, caps))[e]
            == (if e in VictimsOf(files, keep, caps) then multiset(Filter(files, IsReport))[e] else 0)
    ensures e in VictimsOf(files, keep, caps) ==> IsReport(e) && e in files && keep != Some(e.path)
  {
    hide *;
    var victims, unkept := VictimsOf(files, keep, caps), Unkept(files, keep);
    VictimsRun(files, keep, caps);
    assert unkept == victims + unkept[|victims|..];
    UnkeptElements(files, keep, e);
    FilterKeeps(files, IsReport);
    DistinctOnce(files, e);
    assert multiset(unkept)[e] == multiset(victims)[e] + multiset(unkept[|victims|..])[e];
    assert e in victims <==> multiset(victims)[e] > 0;
    assert e in files <==> multiset(files)[e] > 0;
  }

  lemma ReportsSplit(files: seq<Entry>, keep: Option<nat>, caps: Caps, now: int)
    requires DistinctPaths(files)
    ensures var left := Filter(After(files, keep, caps, now), IsReport);
            multiset(left + VictimsOf(files, keep, caps)) == multiset(Filter(files, IsReport))
  {
    var left, victims := Filter(After(files, keep, caps, now), IsReport), VictimsOf(files, keep, caps);
    hide VictimsOf, After, Filter;
    forall e ensures multiset(left + victims)[e] == multiset(Filter(files, IsReport))[e] {
      AfterKeeps(files, keep, caps, now, e);
      VictimsAreReports(files, keep, caps, e);
      FilterKeeps(files, IsReport);
    }
  }

  /** A report left although it is not kept comes after every victim. */
  lemma LeftIsTail(files: seq<Entry>, keep: Option<nat>, caps: Caps, now: int, e: Entry)
    requires e in Filter(After(files, keep, caps, now), IsReport) && keep != Some(e.path)
    ensures var unkept, gone := Unkept(files, keep), VictimsOf(files, keep, caps);
            gone <= unkept && e in unkept[|gone|..]
  {
    hide *;
    var left, unkept, gone := Filter(After(files, keep, caps, now), IsReport), Unkept(files, keep),
                              VictimsOf(files, keep, caps);
    VictimsRun(files, keep, caps);
    assert multiset(left)[e] > 0;
    AfterKeeps(files, keep, caps, now, e);
    assert e in multiset(files);
    UnkeptElements(files, keep, e);
    assert unkept == gone + unkept[|gone|..];
  }

  /** The reports that go are a shortest run, oldest first, that meets the caps or leaves only the kept one. */
  lemma PruningIsSufficientAndMinimal(files: seq<Entry>, keep: Option<nat>, caps: Caps, now: int)
    returns (gone: seq<Entry>)
    requires DistinctPaths(files)
    ensures var reports, left := Filter(files, IsReport), Filter(After(files, keep, caps, now), IsReport);
            && multiset(left + gone) == multiset(reports)
            && (caps.Allow(Bytes(left), |left|) || forall e :: e in left ==> keep == Some(e.path))
            && (forall n :: 0 <= n < |gone| ==> !caps.Allow(Bytes(reports) - Bytes(gone[..n]), |reports| - n))
            && SortedBy(gone, EntryLe)
            && (forall g, e :: g in gone && e in left && keep != Some(e.path) ==> EntryLe(g, e) && g.mtime <= e.mtime)
  {
    hide *;
    gone := VictimsOf(files, keep, caps);
    var reports, left, unkept := Filter(files, IsReport), Filter(After(files, keep, caps, now), IsReport),
                                 Unkept(files, keep);
    ReportsSplit(files, keep, caps, now);
    BytesIgnoreOrder(left + gone, reports);
    BytesConcat(left, gone);
    VictimsRun(files, keep, caps);
    forall e | e in left && keep != Some(e.path)
      ensures e in unkept[|gone|..]
      ensures forall g :: g in gone ==> EntryLe(g, e) && g.mtime <= e.mtime
    {
      LeftIsTail(files, keep, caps, now, e);
      UnkeptElements(files, keep, e);
      PrefixIsBelowTail(unkept, gone);
      forall g | g in gone ensures g.mtime <= e.mtime {
        EarlierIsOlder(g, e);
      }
    }
    assert SortedBy(gone, EntryLe) by {
      UnkeptElements(files, keep, Entry(0, Other, 0, 0, false));
      PrefixIsSorted(unkept, gone);
    }
  }

  lemma EarlierIsOlder(a: Entry, b: Entry)
    requires EntryLe(a, b)
    ensures a.mtime <= b.mtime
  {
  }

  /** A readable report. */
  function IsReadableReport(): Entry -> bool {
    (e: Entry) => e.readable && e.kind.Report?
  }

  /**
   * With these limits, or without any 512 MiB and a thousand files: the reports that are left meet both, or are the
   * kept one alone; those that go are gone oldest first, then smallest first, and each had to go.
   */
  lemma PruningMeetsTheCaps(
    files: seq<Entry>, keep: Option<nat>, maxBytes: Option<int>, maxFiles: Option<int>, now: int)
    returns (gone: seq<Entry>)
    requires DistinctPaths(files)
    ensures var bytes := if maxBytes.Some? then maxBytes.value else 536_870_912;
            var count := if maxFiles.Some? then maxFiles.value else 1000;
            var reports := Filter(files, IsReadableReport());
            var left := Filter(After(files, keep, CapsFrom(maxBytes, maxFiles), now), IsReadableReport());
            && multiset(left + gone) == multiset(reports)
            && ((Bytes(left) <= bytes && |left| <= count) || forall e :: e in left ==> keep == Some(e.path))
            && (forall n :: 0 <= n < |gone| ==> Bytes(reports) - Bytes(gone[..n]) > bytes || |reports| - n > count)
            && (forall m, n :: 0 <= m < n < |gone| ==> GoesBefore(gone[m], gone[n]))
            && (forall g, e :: g in gone && e in left && keep != Some(e.path) ==> GoesBefore(g, e))
  {
    var caps := CapsFrom(maxBytes, maxFiles);
    var bytes := if maxBytes.Some? then maxBytes.value else 536_870_912;
    var count := if maxFiles.Some? then maxFiles.value else 1000;
    AllowIs(maxBytes, maxFiles);
    OrderIs();
    ReadableReportsAreReports(files);
    ReadableReportsAreReports(After(files, keep, caps, now));
    hide *;
    gone := PruningIsSufficientAndMinimal(files, keep, caps, now);
    SortedIs(gone);
  }

  lemma AllowIs(maxBytes: Option<int>, maxFiles: Option<int>)
    ensures forall bytes, count :: CapsFrom(maxBytes, maxFiles).Allow(bytes, count)
              <==> bytes <= (if maxBytes.Some? then maxBytes.value else 536_870_912)
                   && count <= (if maxFiles.Some? then maxFiles.value else 1000)
  {
  }

  lemma OrderIs()
    ensures forall a, b :: EntryLe(a, b) <==> GoesBefore(a, b)
  {
  }

  lemma SortedIs(s: seq<Entry>)
    requires SortedBy(s, EntryLe)
    ensures forall m, n :: 0 <= m < n < |s| ==> GoesBefore(s[m], s[n])
  {
  }

  lemma ReadableReportsAreReports(files: seq<Entry>)
    ensures Filter(files, IsReadableReport()) == Filter(files, IsReport)
  {
    FilterSame(files, IsReport, IsReadableReport());
  }

  predicate GoesBefore(a: Entry, b: Entry) {
    || a.mtime < b.mtime
    || (a.mtime == b.mtime && (a.size < b.size || (a.size == b.size && a.path <= b.path)))
  }

  lemma PrefixIsSorted(s: seq<Entry>, p: seq<Entry>)
    requires SortedBy(s, EntryLe) && p <= s
    ensures SortedBy(p, EntryLe)
  {
  }

  lemma PrefixIsBelowTail(s: seq<Entry>, p: seq<Entry>)
    requires SortedBy(s, EntryLe) && p <= s
    ensures forall g, e :: g in p && e in s[|p|..] ==> EntryLe(g, e)
  {
    forall g, e | g in p && e in s[|p|..] ensures EntryLe(g, e) {
      var i :| 0 <= i < |p| && p[i] == g;
      var j :| 0 <= j < |s| - |p| && s[|p|..][j] == e;
      assert s[i] == g && s[|p| + j] == e;
    }
  }

  /** Whatever deletions fail: a file stays exactly if it would stay were they to succeed, or cannot be deleted. */
  lemma FailingDeletionsKeepFiles(
    files: seq<Entry>, keep: Option<nat>, caps: Caps, now: int, deletable: nat -> bool, e: Entry)
    ensures e in Left(files, Filter(files, Stale(now)) + VictimsOf(files, keep, caps), deletable)
            <==> e in After(files, keep, caps, now) || (e in files && !deletable(e.path))
  {
    var gone := Filter(files, Stale(now)) + VictimsOf(files, keep, caps);
    FilterKeeps(files, Survives(gone, deletable));
    FilterKeeps(files, Survives(gone, Deletes()));
    var left, after := Left(files, gone, deletable), After(files, keep, caps, now);
    assert e in left <==> multiset(left)[e] > 0;
    assert e in after <==> multiset(after)[e] > 0;
    assert e in files <==> multiset(files)[e] > 0;
    hide VictimsOf;
  }

  /** Everything else stays: the kept file, temporary files of at most a day, and whatever is neither of the two. */
  lemma PruningSparesTheRest(files: seq<Entry>, keep: Option<nat>, caps: Caps, now: int, e: Entry)
    requires DistinctPaths(files) && e in files && (e.readable && e.kind.Report? ==> keep == Some(e.path))
    ensures e in After(files, keep, caps, now) <==> !(e.readable && e.kind.Temp? && now - e.mtime > 86_400)
  {
    AfterKeeps(files, keep, caps, now, e);
    VictimsAreReports(files, keep, caps, e);
    hide After, VictimsOf;
  }

  lemma {:induction false} UnkeptIsSorted(reports: seq<Entry>, keep: Option<nat>)
    requires SortedBy(reports, EntryLe)
    ensures SortedBy(Filter(reports, NotKept(keep)), EntryLe)
  {
    if reports != [] {
      UnkeptIsSorted(reports[1..], keep);
      var rest := Filter(reports[1..], NotKept(keep));
      FilterKeeps(reports[1..], NotKept(keep));
      forall i | 0 <= i < |rest| ensures EntryLe(reports[0], rest[i]) {
        assert rest[i] in multiset(rest);
        assert rest[i] in reports[1..];
      }
    }
  }
}
