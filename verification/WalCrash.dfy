/**
 * What recovery makes of a crash of the write-ahead log (v1/Wal.hpp): the
 * log it restarts with is the old one cut after its last complete frame, in
 * a state from which appending goes on.
 */
module WalCrash {
  import opened WalCodec
  import opened WalLog

  lemma {:induction false} TakeSame(log: seq<Frame>, m: nat)
    requires m <= |log|
    ensures SameUpTo(log, log[..m], m)
  {
  }

  lemma {:induction false} NumberedTake(log: seq<Frame>, m: nat)
    requires Numbered(log) && m <= |log|
    ensures Numbered(log[..m])
  {
  }

  lemma {:induction false} FrameSizes(fs: seq<Frame>)
    ensures |EncodeAll(fs)| >= |fs|
  {
    if fs != [] { FrameSizes(fs[..|fs| - 1]); }
  }

  // a finished file holds frames, all of them synced
  lemma {:induction false} FinishedFull(file: File, next: Path, log: seq<Frame>)
    requires Finished(file, next, log)
    ensures file.path.base < next.base <= |log| && file.synced > 0
  {
    var fs := log[file.path.base..next.base];
    PhaseReads(fs, file.path);
    FrameSizes(fs);
  }

  // the finished files by themselves
  lemma {:induction false} OlderAlone(older: seq<File>, path: Path, log: seq<Frame>)
    requires Numbered(log) && OlderHold(older, path, log) && path.base <= |log|
    requires older == [] ==> path.base == 0
    ensures Recoverable(older, log[..path.base], DurableOf(path.base))
    ensures NewestDone(older, log[..path.base]) && Anchored(older)
    ensures older != [] ==> older[|older| - 1].path.base < path.base && path.id == NextId(older)
  {
    var m, cut := path.base, log[..path.base];
    NumberedTake(log, m);
    if older != [] {
      var n := |older| - 1;
      var file := older[n];
      TakeSame(log, m);
      FinishedFull(file, path, log);
      HoldsSame(file, log, cut, m);
      SameSlice(log, cut, m, file.path.base, m);
      WholeSlice(cut, file.path.base);
      TakeSame(log, file.path.base);
      assert SameUpTo(log, cut, file.path.base) by {
        assert cut[..file.path.base] == log[..file.path.base];
      }
      OlderSame(older[..n], file.path, log, cut);
      AllDurable(older, cut, DurableOf(m));
    }
  }

  // a crash that takes the newest file whole
  lemma {:induction false} VanishRestarts(older: seq<File>, path: Path, log: seq<Frame>, scans: seq<seq<Frame>>)
    requires Numbered(log) && OlderHold(older, path, log) && path.base <= |log|
    requires older == [] ==> path.base == 0
    requires path.id <= path.base
    requires ScansOf(older, scans)
    ensures Restarted(older, log[..path.base], Rebuild(older, scans))
  {
    OlderAlone(older, path, log);
    FinishedReadBack(older, path, log, scans);
    VanishRunning(older, log[..path.base], path, Rebuild(older, scans));
  }

  lemma {:induction false} VanishRunning(older: seq<File>, cut: seq<Frame>, path: Path, r: Memory)
    requires ReadBack(r, older, path.base) && |cut| == path.base && path.id <= path.base
    requires older == [] ==> path.base == 0
    requires NewestDone(older, cut)
    requires older != [] ==> older[|older| - 1].path.base < path.base && path.id == NextId(older)
    ensures Running(older, cut, Settled(r))
  {
    if older != [] {
      var n := |older| - 1;
      assert r.segments == OlderSegments(older[..n], older[n].path.base) + [SegmentOf(older[n].path, path.base)];
    }
  }

  // a crash that leaves no complete frame of the newest file
  lemma {:induction false} EmptyRestarts(older: seq<File>, path: Path, log: seq<Frame>,
                                         scans: seq<seq<Frame>>, disk: seq<File>)
    requires Numbered(log) && OlderHold(older, path, log) && path.base <= |log|
    requires older == [] ==> path.base == 0
    requires path.id <= path.base && ScansOf(older, scans)
    requires disk == older + [File(path, [], 0)]
    ensures Restarted(disk, log[..path.base], RebuildStep(Rebuild(older, scans), |older|, path, []))
  {
    var cut, r := log[..path.base], Rebuild(older, scans);
    OlderAlone(older, path, log);
    FinishedReadBack(older, path, log, scans);
    CreateKeeps(older, cut, DurableOf(path.base), path);
    if older != [] {
      FinishedFull(older[|older| - 1], path, log);
    }
    EmptyRunning(older, cut, path, r, disk);
  }

  lemma {:induction false} EmptyRunning(older: seq<File>, cut: seq<Frame>, path: Path, r: Memory, disk: seq<File>)
    requires ReadBack(r, older, path.base) && |cut| == path.base && path.id <= path.base
    requires older == [] ==> path.base == 0
    requires older != [] ==> path.id == NextId(older)
    requires disk == older + [File(path, [], 0)]
    ensures Running(disk, cut, Settled(r))
  {
    assert disk[..|older|] == older;
    if older != [] {
      assert r.segments != [];
    }
  }

  // a crash that leaves the newest file frames up to m
  lemma {:induction false} PartHolds(file: File, log: seq<Frame>, m: nat)
    requires Numbered(log) && file.path.id <= file.path.base < m <= |log|
    requires PhaseOf(log[file.path.base..|log|], file.path) != Broken
    requires file.data == EncodeAll(log[file.path.base..m]) && file.synced == |file.data|
    ensures Holds(file, log[..m], m) && file.synced > 0
  {
    var b := file.path.base;
    SliceOfTake(log, m, b, m);
    var fs := log[b..|log|];
    PhasePrefix(fs, file.path, m - b);
    assert fs[..m - b] == log[b..m];
    FirstFrame(log, b, m);
  }

  lemma {:induction false} PartRestarts(older: seq<File>, file: File, log: seq<Frame>, m: nat,
                                        scans: seq<seq<Frame>>, disk: seq<File>)
    requires Numbered(log) && OlderHold(older, file.path, log) && ScansOf(older, scans)
    requires file.path.id <= file.path.base < m <= |log|
    requires PhaseOf(log[file.path.base..|log|], file.path) != Broken
    requires file.data == EncodeAll(log[file.path.base..m]) && file.synced == |file.data|
    requires disk == older + [file]
    ensures Restarted(disk, log[..m],
                      RebuildStep(Rebuild(older, scans), |older|, file.path, log[file.path.base..m]))
  {
    var cut, b := log[..m], file.path.base;
    assert disk[..|older|] == older;
    PartHolds(file, log, m);
    assert cut[..b] == log[..b];
    OlderSame(older, file.path, log, cut);
    NumberedTake(log, m);
    AllDurable(disk, cut, DurableOf(m));
    PartRunning(older, file, log, m, Rebuild(older, scans), disk) by {
      FinishedReadBack(older, file.path, log, scans);
      if older != [] { assert Finished(older[|older| - 1], file.path, log); }
    }
  }

  lemma {:induction false} PartRunning(older: seq<File>, file: File, log: seq<Frame>, m: nat,
                                       r: Memory, disk: seq<File>)
    requires Numbered(log) && ReadBack(r, older, file.path.base)
    requires file.path.id <= file.path.base < m <= |log| && Holds(file, log[..m], m)
    requires older != [] ==> file.path.id == older[|older| - 1].path.id + 1
    requires file.synced == |file.data|
    requires disk == older + [file]
    ensures Running(disk, log[..m],
                    Settled(RebuildStep(r, |older|, file.path, log[file.path.base..m])))
  {
    var cut, path := log[..m], file.path;
    var fs := log[path.base..m];
    SliceOfTake(log, m, path.base, m);
    WholeSlice(cut, path.base);
    assert disk[..|older|] == older;
    ReadStretch(r, older, path, log, m, fs);
  }

  // ---------- the crash theorem ----------

  lemma {:induction false} SliceOk(log: seq<Frame>, b: nat, e: nat)
    requires Numbered(log) && b <= e <= |log|
    ensures AllOk(log[b..e])
  {
    forall i | 0 <= i < e - b ensures FrameOk(log[b..e][i]) {
      assert log[b..e][i] == log[b + i];
    }
  }

  // what scanning the cut newest file finds: m is one past the last frame
  lemma {:induction false} CutScan(last: File, log: seq<Frame>, a: File, scan: seq<Frame>) returns (m: nat)
    requires Numbered(log) && Holds(last, log, |log|)
    requires |a.data| <= |last.data| && a.data == last.data[..|a.data|]
    requires Scanned(a.data, scan, |EncodeAll(scan)|)
    ensures m == last.path.base + |scan| <= |log| && scan == log[last.path.base..m]
    ensures Size(log, last.path.base, m) <= |a.data|
    ensures m == |log| || |a.data| < Size(log, last.path.base, m + 1)
  {
    var b := last.path.base;
    var fs := log[b..|log|];
    SliceOk(log, b, |log|);
    ScanCut(fs, |a.data|, scan, |EncodeAll(scan)|);
    m := b + |scan|;
    StretchSize(log, fs, b, m, scan);
    if m < |log| { NextFrameCut(log, fs, b, m, |a.data|); }
  }

  lemma {:induction false} NextFrameCut(log: seq<Frame>, fs: seq<Frame>, b: nat, m: nat, length: nat)
    requires b <= m < |log| && fs == log[b..|log|]
    requires length < |EncodeAll(fs[..m - b + 1])|
    ensures length < Size(log, b, m + 1)
  {
    StretchSize(log, fs, b, m + 1, fs[..m - b + 1]);
  }

  // synced bytes hold at least one frame
  lemma {:induction false} SyncedHoldsFrame(last: File, log: seq<Frame>, length: nat)
    requires Holds(last, log, |log|) && last.synced <= length
    requires last.path.base == |log| || length < Size(log, last.path.base, last.path.base + 1)
    ensures last.synced == 0
  {
    if last.path.base < |log| { assert Size(log, last.path.base, last.path.base) == 0; }
  }

  // frames within the synced bytes survive the cut
  lemma {:induction false} DurableSurvives(b: nat, log: seq<Frame>, length: nat, m: nat, durable: nat)
    requires m <= |log| && durable < |log|
    requires Size(log, b, durable + 1) <= length
    requires m == |log| || length < Size(log, b, m + 1)
    ensures durable < m
  {
    if m <= durable { SizeMonotone(log, b, m + 1, durable + 1); }
  }

  lemma {:induction false} CutOlder(disk: seq<File>, log: seq<Frame>, after: seq<File>,
                                    scans: seq<seq<Frame>>, trimmed: seq<File>)
    requires Numbered(log) && FilesHold(disk, log) && CutOf(disk, after) && Trims(after, scans, trimmed)
    ensures var n := |disk| - 1;
      |trimmed| == n + 1 && trimmed[..n] == disk[..n] == after[..n]
      && ScansOf(disk[..n], scans[..n])
      && Rebuild(after, scans)
         == RebuildStep(Rebuild(disk[..n], scans[..n]), n, disk[n].path, scans[n])
  {
    var n := |disk| - 1;
    assert after[..n] == disk[..n];
    ScansInit(after, scans, n);
    TrimsInit(after, scans, trimmed, n);
    FinishedUntrimmed(disk[..n], disk[n].path, log, scans[..n], trimmed[..n]);
  }

  // the newest file after truncation to what the scan found
  lemma {:induction false} TrimmedNewest(a: File, scan: seq<Frame>)
    requires a.synced == |a.data| && Scanned(a.data, scan, |EncodeAll(scan)|)
    ensures Trim(a, |EncodeAll(scan)|) == File(a.path, EncodeAll(scan), |EncodeAll(scan)|)
  {
    if |EncodeAll(scan)| == |a.data| { assert a.data[..|a.data|] == a.data; }
  }

  lemma {:induction false} CutRestartsAt(disk: seq<File>, log: seq<Frame>, m: nat,
                                         scans: seq<seq<Frame>>, trimmed: seq<File>)
    requires Numbered(log) && FilesHold(disk, log) && disk != []
    requires var b := disk[|disk| - 1].path.base;
      b <= m <= |log| && (|disk| == 1 && m == b ==> b == 0)
    requires ScansOf(disk[..|disk| - 1], scans)
    requires var path := disk[|disk| - 1].path;
      var fs := log[path.base..m];
      trimmed == disk[..|disk| - 1] + [File(path, EncodeAll(fs), |EncodeAll(fs)|)]
    ensures Restarted(trimmed, log[..m],
      RebuildStep(Rebuild(disk[..|disk| - 1], scans), |disk| - 1, disk[|disk| - 1].path,
                  log[disk[|disk| - 1].path.base..m]))
  {
    var n := |disk| - 1;
    var path := disk[n].path;
    var fs := log[path.base..m];
    if m == path.base {
      assert fs == [];
      EmptyRestarts(disk[..n], path, log, scans, trimmed);
    } else {
      PartRestarts(disk[..n], File(path, EncodeAll(fs), |EncodeAll(fs)|), log, m, scans, trimmed);
    }
  }

  // the newest file holds exactly the frames up to m
  ghost predicate CutTo(disk: seq<File>, log: seq<Frame>, trimmed: seq<File>, m: nat)
    requires disk != []
  {
    var path := disk[|disk| - 1].path;
    path.base <= m <= |log|
    && var fs := log[path.base..m];
       trimmed == disk[..|disk| - 1] + [File(path, EncodeAll(fs), |EncodeAll(fs)|)]
  }

  lemma {:induction false} CutFinds(disk: seq<File>, log: seq<Frame>, after: seq<File>,
                                    scan: seq<Frame>, trimmed: seq<File>) returns (m: nat)
    requires Numbered(log) && FilesHold(disk, log) && CutOf(disk, after)
    requires Scanned(after[|disk| - 1].data, scan, |EncodeAll(scan)|)
    requires |trimmed| == |disk| && trimmed[..|disk| - 1] == disk[..|disk| - 1]
    requires trimmed[|disk| - 1] == Trim(after[|disk| - 1], |EncodeAll(scan)|)
    ensures CutTo(disk, log, trimmed, m) && scan == log[disk[|disk| - 1].path.base..m]
    ensures KeptExactly(disk, log, after, m)
    ensures m == disk[|disk| - 1].path.base ==> disk[|disk| - 1].synced == 0
  {
    var n := |disk| - 1;
    m := CutScan(disk[n], log, after[n], scan);
    TrimmedNewest(after[n], scan);
    if m == disk[n].path.base { SyncedHoldsFrame(disk[n], log, |after[n].data|); }
    SameInitLast(trimmed, disk[..n] + [trimmed[n]], n);
  }

  // no complete frame is left and nothing else tells where the numbers stood
  ghost predicate Erased(disk: seq<File>, log: seq<Frame>, after: seq<File>) {
    |disk| == 1 && disk[0].path.base > 0
    && (after == [] || (disk[0].path.base < |log| ==>
                          |after[0].data| < Size(log, disk[0].path.base, disk[0].path.base + 1)))
  }

  lemma {:induction false} CutRestarts(disk: seq<File>, log: seq<Frame>, after: seq<File>,
                                       scans: seq<seq<Frame>>, trimmed: seq<File>) returns (m: nat)
    requires Numbered(log) && FilesHold(disk, log) && !Erased(disk, log, after)
    requires CutOf(disk, after) && Trims(after, scans, trimmed)
    ensures KeptExactly(disk, log, after, m)
    ensures Restarted(trimmed, log[..m], Rebuild(after, scans))
  {
    var n := |disk| - 1;
    CutOlder(disk, log, after, scans, trimmed);
    assert after[n].path == disk[n].path;
    m := CutFinds(disk, log, after, scans[n], trimmed);
    CutRestartsAt(disk, log, m, scans[..n], trimmed);
  }

  lemma {:induction false} NothingRestarts(scans: seq<seq<Frame>>)
    requires scans == []
    ensures Restarted([], [], Rebuild([], scans))
  {
  }

  lemma {:induction false} LostNewestRestarts(disk: seq<File>, log: seq<Frame>, after: seq<File>,
                                              scans: seq<seq<Frame>>, trimmed: seq<File>, m: nat)
    requires Numbered(log) && FilesHold(disk, log) && !Erased(disk, log, after) && disk != []
    requires disk[|disk| - 1].synced == 0 && after == disk[..|disk| - 1] && Trims(after, scans, trimmed)
    requires m == disk[|disk| - 1].path.base
    ensures KeptExactly(disk, log, after, m)
    ensures Restarted(trimmed, log[..m], Rebuild(after, scans))
  {
    var path := disk[|disk| - 1].path;
    FinishedUntrimmed(after, path, log, scans, trimmed);
    VanishRestarts(after, path, log, scans);
  }

  lemma {:induction false} CrashKeepsDurable(disk: seq<File>, log: seq<Frame>, durable: nat,
                                             after: seq<File>, m: nat)
    requires Recoverable(disk, log, durable) && CrashOf(disk, after) && KeptExactly(disk, log, after, m)
    requires durable > 0
    ensures durable < m
  {
    var last := disk[|disk| - 1];
    if durable >= last.path.base {
      SizeMonotone(log, last.path.base, last.path.base, durable + 1);
      assert last.synced > 0;
      DurableSurvives(last.path.base, log, |after[|after| - 1].data|, m, durable);
    }
  }

  // After any crash but an erasing one, recovery restarts with the log cut
  // after its last complete frame; no frame up to the durable one is lost.
  lemma {:induction false} CrashRecovers(disk: seq<File>, log: seq<Frame>, durable: nat, after: seq<File>,
                                         scans: seq<seq<Frame>>, trimmed: seq<File>) returns (m: nat)
    requires Recoverable(disk, log, durable) && !Erased(disk, log, after)
    requires CrashOf(disk, after) && Trims(after, scans, trimmed)
    ensures KeptExactly(disk, log, after, m)
    ensures durable > 0 ==> durable < m
    ensures Restarted(trimmed, log[..m], Rebuild(after, scans))
  {
    if disk == [] {
      m := 0;
      assert log[..m] == [] && trimmed == [];
      NothingRestarts(scans);
    } else if CutOf(disk, after) {
      m := CutRestarts(disk, log, after, scans, trimmed);
    } else {
      m := disk[|disk| - 1].path.base;
      LostNewestRestarts(disk, log, after, scans, trimmed, m);
    }
    if durable > 0 { CrashKeepsDurable(disk, log, durable, after, m); }
  }

  // ---------- pruning and crashes ----------

  ghost predicate AllEmpty(files: seq<File>) {
    forall i :: 0 <= i < |files| ==> files[i].data == []
  }

  // after an erasing crash the restarted log knows nothing and counts from 0
  lemma {:induction false} ErasedRestarts(disk: seq<File>, log: seq<Frame>, durable: nat, after: seq<File>,
                                          scans: seq<seq<Frame>>, trimmed: seq<File>)
    requires Recoverable(disk, log, durable) && Erased(disk, log, after)
    requires CrashOf(disk, after) && Trims(after, scans, trimmed)
    ensures Settled(Rebuild(after, scans)) == Blank && AllEmpty(trimmed) && !Anchored(disk)
  {
    assert disk[..0] == [];
    if after != [] {
      var m := CutScan(disk[0], log, after[0], scans[0]);
      FirstLost(disk[0], log, after[0].data, m);
      assert scans[0] == [];
      assert after[..0] == [] && scans[..0] == [];
    }
  }

  lemma {:induction false} FirstLost(last: File, log: seq<Frame>, data: seq<byte>, m: nat)
    requires last.path.base <= m <= |log| && Size(log, last.path.base, m) <= |data|
    requires Holds(last, log, |log|) && last.synced <= |data|
    requires last.path.base < |log| ==> |data| < Size(log, last.path.base, last.path.base + 1)
    ensures m == last.path.base && last.synced == 0
  {
    var b := last.path.base;
    if b < m { SizeMonotone(log, b, b + 1, m); }
    SyncedHoldsFrame(last, log, |data|);
  }

  ghost predicate RestartsCut(disk: seq<File>, log: seq<Frame>, after: seq<File>, trimmed: seq<File>, r: Memory) {
    exists m: nat :: KeptExactly(disk, log, after, m) && Restarted(trimmed, log[..m], r)
  }

  // a crash restarts with a cut of the log if and only if it did not erase it
  lemma {:induction false} ErasedExactly(disk: seq<File>, log: seq<Frame>, durable: nat, after: seq<File>,
                                         scans: seq<seq<Frame>>, trimmed: seq<File>)
    requires Recoverable(disk, log, durable) && CrashOf(disk, after) && Trims(after, scans, trimmed)
    ensures RestartsCut(disk, log, after, trimmed, Rebuild(after, scans)) <==> !Erased(disk, log, after)
  {
    if Erased(disk, log, after) {
      ErasedRestarts(disk, log, durable, after, scans, trimmed);
      forall m: nat ensures !(KeptExactly(disk, log, after, m) && Restarted(trimmed, log[..m], Rebuild(after, scans))) {
      }
    } else {
      var m := CrashRecovers(disk, log, durable, after, scans, trimmed);
    }
  }

  // every crash restarts with a cut of this log
  ghost predicate SurvivesCrashes(disk: seq<File>, log: seq<Frame>) {
    forall after, scans, trimmed :: CrashOf(disk, after) && Trims(after, scans, trimmed) ==>
      RestartsCut(disk, log, after, trimmed, Rebuild(after, scans))
  }

  // Pruning may leave one file of which no byte was synced.  A crash can then
  // erase all trace of the LSNs given out, and numbering starts at 0 again.
  lemma {:induction false} AnchoredExactly(disk: seq<File>, log: seq<Frame>, durable: nat)
    requires Recoverable(disk, log, durable)
    ensures SurvivesCrashes(disk, log) <==> Anchored(disk)
  {
    if Anchored(disk) {
      forall after, scans, trimmed | CrashOf(disk, after) && Trims(after, scans, trimmed)
        ensures RestartsCut(disk, log, after, trimmed, Rebuild(after, scans))
      {
        AnchoredKeeps(disk, log, durable, after);
        ErasedExactly(disk, log, durable, after, scans, trimmed);
      }
    } else {
      var none: seq<File>, scans: seq<seq<Frame>> := [], [];
      assert disk[..0] == [];
      assert CrashOf(disk, none) && Trims(none, scans, none);
      ErasedExactly(disk, log, durable, none, scans, none);
    }
  }

  lemma {:induction false} AnchoredKeeps(disk: seq<File>, log: seq<Frame>, durable: nat, after: seq<File>)
    requires Recoverable(disk, log, durable) && Anchored(disk) && CrashOf(disk, after)
    ensures !Erased(disk, log, after)
  {
    if |disk| == 1 && disk[0].path.base > 0 {
      var b := disk[0].path.base;
      assert b < |log| && Size(log, b, b) == 0;
    }
  }
}
