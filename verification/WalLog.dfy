/**
 * What the write-ahead log leaves on disk (v1/Wal.hpp).
 *
 * The log is one sequence of frames, frame i carrying LSN i.  The segment
 * files hold consecutive stretches of it; pruning removes files from the
 * front.  A crash keeps of the newest file some prefix that is at least as
 * long as its last fsync.
 */
module WalLog {
  import opened WalCodec

  datatype Path = Path(id: nat, base: nat)

  datatype File = File(path: Path, data: seq<byte>, synced: nat)

  datatype Segment = Segment(id: nat, path: Path, base: nat, last: nat, count: nat)

  // ---------- frames one after the other ----------

  function EncodeAll(fs: seq<Frame>): seq<byte> {
    if fs == [] then [] else EncodeAll(fs[..|fs| - 1]) + Encode(fs[|fs| - 1])
  }

  ghost predicate AllOk(fs: seq<Frame>) { forall i :: 0 <= i < |fs| ==> FrameOk(fs[i]) }

  lemma {:induction false} EncodeSnoc(fs: seq<Frame>, f: Frame)
    ensures EncodeAll(fs + [f]) == EncodeAll(fs) + Encode(f)
  {
    assert (fs + [f])[..|fs|] == fs;
  }

  lemma {:induction false} EncodePrefix(fs: seq<Frame>, k: nat)
    requires k <= |fs|
    ensures |EncodeAll(fs[..k])| <= |EncodeAll(fs)|
    ensures EncodeAll(fs)[..|EncodeAll(fs[..k])|] == EncodeAll(fs[..k])
  {
    if k < |fs| {
      var init := fs[..|fs| - 1];
      EncodePrefix(init, k);
      assert init[..k] == fs[..k];
    } else {
      assert fs[..k] == fs;
    }
  }

  // frame k of a stretch begins where the frames before it end
  lemma {:induction false} FrameAtOwnPlace(fs: seq<Frame>, k: nat)
    requires AllOk(fs) && k < |fs|
    ensures FrameAt(EncodeAll(fs), |EncodeAll(fs[..k])|, fs[k])
    ensures |EncodeAll(fs[..k + 1])| == |EncodeAll(fs[..k])| + |Encode(fs[k])|
  {
    var before, upto := EncodeAll(fs[..k]), EncodeAll(fs[..k + 1]);
    assert fs[..k + 1] == fs[..k] + [fs[k]];
    EncodeSnoc(fs[..k], fs[k]);
    EncodePrefix(fs, k + 1);
    var e := EncodeAll(fs);
    assert e[..|upto|] == before + Encode(fs[k]);
    assert e[|before|..|upto|] == e[..|upto|][|before|..];
  }

  // the bytes that frames b to e - 1 take
  function Size(log: seq<Frame>, b: nat, e: nat): nat
    requires e <= |log|
    decreases e
  {
    if e <= b then 0 else Size(log, b, e - 1) + 32 + |log[e - 1].payload|
  }

  lemma {:induction false} TakeOfSlice<T>(s: seq<T>, b: nat, q: nat, k: nat)
    requires b <= q <= |s| && k <= q - b
    ensures s[b..q][..k] == s[b..b + k]
  {
  }

  lemma {:induction false} SizeIs(log: seq<Frame>, b: nat, e: nat)
    requires b <= e <= |log|
    ensures |EncodeAll(log[b..e])| == Size(log, b, e)
    decreases e
  {
    if b < e {
      SizeIs(log, b, e - 1);
      SliceSnoc(log, b, e);
      EncodeSnoc(log[b..e - 1], log[e - 1]);
    }
  }

  lemma {:induction false} SliceSnoc(log: seq<Frame>, b: nat, e: nat)
    requires b < e <= |log|
    ensures log[b..e] == log[b..e - 1] + [log[e - 1]]
  {
  }

  lemma {:induction false} StretchSize(log: seq<Frame>, fs: seq<Frame>, b: nat, e: nat, part: seq<Frame>)
    requires b <= e <= |log| && fs == log[b..|log|] && part == fs[..e - b]
    ensures part == log[b..e]
    ensures |EncodeAll(part)| == Size(log, b, e)
  {
    TakeOfSlice(log, b, |log|, e - b);
    SizeIs(log, b, e);
  }

  lemma {:induction false} SizeMonotone(log: seq<Frame>, b: nat, p: nat, q: nat)
    requires p <= q <= |log|
    ensures Size(log, b, p) <= Size(log, b, q)
    ensures b <= p < q ==> Size(log, b, p) < Size(log, b, q)
    decreases q
  {
    if p < q { SizeMonotone(log, b, p, q - 1); }
  }

  lemma {:induction false} SizeSame(log: seq<Frame>, log': seq<Frame>, b: nat, e: nat)
    requires e <= |log| && e <= |log'|
    requires forall i :: 0 <= i < e ==> log[i] == log'[i]
    ensures Size(log, b, e) == Size(log', b, e)
    decreases e
  {
    if b < e { SizeSame(log, log', b, e - 1); }
  }

  // ---------- scanning a file ----------

  // the frames a reader finds, and where it stops
  ghost predicate Scanned(data: seq<byte>, fs: seq<Frame>, n: nat) {
    n <= |data| && AllOk(fs) && data[..n] == EncodeAll(fs) && NoFrameAt(data, n)
  }

  lemma {:induction false} ScanMore(data: seq<byte>, fs: seq<Frame>, n: nat, f: Frame, next: nat)
    requires n <= |data| && AllOk(fs) && data[..n] == EncodeAll(fs)
    requires FrameAt(data, n, f) && next == n + |Encode(f)|
    ensures next <= |data| && AllOk(fs + [f]) && data[..next] == EncodeAll(fs + [f])
  {
    EncodeSnoc(fs, f);
    assert data[..next] == data[..n] + data[n..next];
  }

  // a frame at an offset of a prefix is there in the whole
  lemma {:induction false} FrameAtExtends(data: seq<byte>, m: nat, offset: nat, f: Frame)
    requires m <= |data| && FrameAt(data[..m], offset, f)
    ensures FrameAt(data, offset, f)
  {
    assert data[..m][offset..offset + |Encode(f)|] == data[offset..offset + |Encode(f)|];
  }

  lemma {:induction false} FrameAtShrinks(data: seq<byte>, m: nat, offset: nat, f: Frame)
    requires m <= |data| && FrameAt(data, offset, f) && offset + |Encode(f)| <= m
    ensures FrameAt(data[..m], offset, f)
  {
    assert data[..m][offset..offset + |Encode(f)|] == data[offset..offset + |Encode(f)|];
  }

  lemma {:induction false} ScanStep(gs: seq<Frame>, m: nat, fs: seq<Frame>, n: nat, i: nat)
    requires AllOk(gs) && m <= |EncodeAll(gs)|
    requires Scanned(EncodeAll(gs)[..m], fs, n) && i < |fs|
    requires i <= |gs| && fs[..i] == gs[..i]
    ensures i < |gs| && fs[i] == gs[i]
  {
    var all, at := EncodeAll(gs), |EncodeAll(fs[..i])|;
    FrameAtOwnPlace(fs, i);
    FrameAtExtends(all[..m], n, at, fs[i]);
    FrameAtExtends(all, m, at, fs[i]);
    assert gs[..|gs|] == gs;
    assert i < |gs|;
    FrameAtOwnPlace(gs, i);
    FrameUnique(all, at, fs[i], gs[i]);
  }

  lemma {:induction false} ScanAgrees(gs: seq<Frame>, m: nat, fs: seq<Frame>, n: nat, j: nat)
    requires AllOk(gs) && m <= |EncodeAll(gs)|
    requires Scanned(EncodeAll(gs)[..m], fs, n) && j <= |fs|
    ensures j <= |gs| && fs[..j] == gs[..j]
  {
    if j > 0 {
      ScanAgrees(gs, m, fs, n, j - 1);
      ScanStep(gs, m, fs, n, j - 1);
      assert fs[..j] == fs[..j - 1] + [fs[j - 1]] && gs[..j] == gs[..j - 1] + [gs[j - 1]];
    }
  }

  // scanning any prefix of encoded frames finds exactly the complete ones
  lemma {:induction false} ScanCut(gs: seq<Frame>, m: nat, fs: seq<Frame>, n: nat)
    requires AllOk(gs) && m <= |EncodeAll(gs)|
    requires Scanned(EncodeAll(gs)[..m], fs, n)
    ensures |fs| <= |gs| && fs == gs[..|fs|] && n == |EncodeAll(fs)| <= m
    ensures |fs| == |gs| || m < |EncodeAll(gs[..|fs| + 1])|
  {
    ScanAgrees(gs, m, fs, n, |fs|);
    var k := |fs|;
    assert fs[..k] == fs;
    if k < |gs| && m >= |EncodeAll(gs[..k + 1])| {
      FrameAtOwnPlace(gs, k);
      FrameAtShrinks(EncodeAll(gs), m, n, gs[k]);
      assert false;
    }
  }

  // ---------- segment headers ----------

  function LittleEndian(v: nat, n: nat): (r: seq<byte>)
    ensures |r| == n
    decreases n, v
  {
    if n == 0 then [] else [(v % 256) as byte] + LittleEndian(v / 256, n - 1)
  }

  function FromLittleEndian(s: seq<byte>): nat {
    if s == [] then 0 else s[0] as int + 256 * FromLittleEndian(s[1..])
  }

  lemma {:induction false} LittleEndianRead(v: nat, n: nat)
    requires v < Pow256(n)
    ensures FromLittleEndian(LittleEndian(v, n)) == v
    decreases n
  {
    if n > 0 {
      LittleEndianRead(v / 256, n - 1);
      assert LittleEndian(v, n)[1..] == LittleEndian(v / 256, n - 1);
    }
  }

  function Zeros(n: nat): (r: seq<byte>)
    ensures |r| == n
    decreases n
  {
    seq(n, i => 0)
  }

  const HeaderSize: nat := 212

  // the packed segment_header_payload of a little-endian machine
  function HeaderPayload(identity: seq<byte>, id: nat, base: nat): (r: seq<byte>)
    requires |identity| == 64
    ensures |r| == HeaderSize
  {
    identity + LittleEndian(id, 8) + Zeros(128) + LittleEndian(base, 8) + Zeros(4)
  }

  function HeaderId(payload: seq<byte>): nat
    requires |payload| >= HeaderSize
  {
    FromLittleEndian(payload[64..72])
  }

  function HeaderBase(payload: seq<byte>): nat
    requires |payload| >= HeaderSize
  {
    FromLittleEndian(payload[200..208])
  }

  lemma {:induction false} HeaderPayloadRead(identity: seq<byte>, id: nat, base: nat)
    requires |identity| == 64 && id < Long && base < Long
    ensures HeaderId(HeaderPayload(identity, id, base)) == id
    ensures HeaderBase(HeaderPayload(identity, id, base)) == base
  {
    var p := HeaderPayload(identity, id, base);
    Widths();
    assert p[64..72] == LittleEndian(id, 8);
    assert p[200..208] == LittleEndian(base, 8);
    LittleEndianRead(id, 8);
    LittleEndianRead(base, 8);
  }

  predicate IsHeader(f: Frame) { f.kind == SegmentHeader && |f.payload| >= HeaderSize }

  predicate IsSeal(f: Frame) { f.kind == SegmentSeal || f.kind == ShutdownMark }

  // ---------- the invariant of the directory ----------

  ghost predicate Numbered(log: seq<Frame>) {
    |log| < Long && forall i :: 0 <= i < |log| ==> log[i].lsn == i && FrameOk(log[i])
  }

  // how far the stretch of one file has come: its header first, a seal last
  datatype Phase = Fresh | Open | Done | Broken

  predicate HeaderFor(f: Frame, path: Path) {
    IsHeader(f) && HeaderId(f.payload) == path.id && HeaderBase(f.payload) == path.base
  }

  function After(p: Phase, path: Path, f: Frame): Phase {
    match p
    case Fresh => if HeaderFor(f, path) then Open else Broken
    case Open => if IsSeal(f) then Done else if f.kind == SegmentHeader then Broken else Open
    case Done => Broken
    case Broken => Broken
  }

  function PhaseOf(fs: seq<Frame>, path: Path): Phase {
    if fs == [] then Fresh else After(PhaseOf(fs[..|fs| - 1], path), path, fs[|fs| - 1])
  }

  // a file holds the frames from its base up to e
  ghost predicate Holds(file: File, log: seq<Frame>, e: nat) {
    file.path.id <= file.path.base <= e <= |log|
    && file.data == EncodeAll(log[file.path.base..e])
    && PhaseOf(log[file.path.base..e], file.path) != Broken
    && (file.synced == 0
        || (file.path.base < e && |Encode(log[file.path.base])| <= file.synced <= |file.data|))
  }

  // a finished file, followed by another one
  ghost predicate Finished(file: File, next: Path, log: seq<Frame>) {
    Holds(file, log, next.base) && PhaseOf(log[file.path.base..next.base], file.path) == Done
    && file.synced == |file.data| && next.id == file.path.id + 1 && file.path.base < next.base
  }

  ghost predicate OlderHold(files: seq<File>, next: Path, log: seq<Frame>) {
    files == []
    || (var n := |files| - 1;
        Finished(files[n], next, log) && OlderHold(files[..n], files[n].path, log))
  }

  ghost predicate FilesHold(disk: seq<File>, log: seq<Frame>) {
    disk == []
    || (var n := |disk| - 1;
        Holds(disk[n], log, |log|) && OlderHold(disk[..n], disk[n].path, log))
  }

  // nothing at all, or a lone empty file, only before LSN 0
  ghost predicate Rooted(disk: seq<File>, log: seq<Frame>) {
    (disk == [] ==> log == [])
    && (|disk| == 1 && disk[0].path.base == |log| ==> log == [])
  }

  // the frames up to the durable one lie in synced bytes
  ghost predicate DurableHolds(disk: seq<File>, log: seq<Frame>, durable: nat) {
    durable > 0 ==>
      durable < |log| && disk != []
      && var last := disk[|disk| - 1];
         durable >= last.path.base ==>
           Size(log, last.path.base, durable + 1) <= last.synced
  }

  ghost predicate Recoverable(disk: seq<File>, log: seq<Frame>, durable: nat) {
    Numbered(log) && FilesHold(disk, log) && Rooted(disk, log) && DurableHolds(disk, log, durable)
  }

  // ---------- what each disk operation keeps ----------

  predicate SameUpTo(a: seq<Frame>, b: seq<Frame>, e: nat) {
    e <= |a| && e <= |b| && a[..e] == b[..e]
  }

  lemma {:induction false} SliceOfTake<T>(s: seq<T>, m: nat, lo: nat, hi: nat)
    requires lo <= hi <= m <= |s|
    ensures s[..m][lo..hi] == s[lo..hi]
  {
    assert s[..m][..hi] == s[..hi];
    assert s[..m][..hi][lo..] == s[lo..hi];
  }

  lemma {:induction false} SameSlice(a: seq<Frame>, b: seq<Frame>, m: nat, lo: nat, hi: nat)
    requires SameUpTo(a, b, m) && lo <= hi <= m
    ensures a[lo..hi] == b[lo..hi]
  {
    SliceOfTake(a, m, lo, hi);
    SliceOfTake(b, m, lo, hi);
  }

  lemma {:induction false} HoldsSame(file: File, log: seq<Frame>, log': seq<Frame>, e: nat)
    requires Holds(file, log, e) && SameUpTo(log, log', e)
    ensures Holds(file, log', e)
  {
    SameSlice(log, log', e, file.path.base, e);
    if file.path.base < e {
      assert log[..e][file.path.base] == log'[..e][file.path.base];
    }
  }

  // finished files depend on the log only up to the newest file
  lemma {:induction false} OlderSame(files: seq<File>, next: Path, log: seq<Frame>, log': seq<Frame>)
    requires OlderHold(files, next, log) && SameUpTo(log, log', next.base)
    ensures OlderHold(files, next, log')
  {
    if files != [] {
      var n := |files| - 1;
      HoldsSame(files[n], log, log', next.base);
      SameSlice(log, log', next.base, files[n].path.base, next.base);
      assert Finished(files[n], next, log');
      assert log[..files[n].path.base] == log[..next.base][..files[n].path.base];
      assert log'[..files[n].path.base] == log'[..next.base][..files[n].path.base];
      OlderSame(files[..n], files[n].path, log, log');
    }
  }

  function Replaced(disk: seq<File>, file: File): (r: seq<File>)
    requires disk != []
    ensures |r| == |disk| && r[|r| - 1] == file && r[..|r| - 1] == disk[..|disk| - 1]
  {
    disk[..|disk| - 1] + [file]
  }

  lemma {:induction false} NewestReplaced(disk: seq<File>, log: seq<Frame>, file: File, log': seq<Frame>)
    requires disk != [] && FilesHold(disk, log) && file.path == disk[|disk| - 1].path
    requires SameUpTo(log, log', file.path.base) && Holds(file, log', |log'|)
    ensures FilesHold(Replaced(disk, file), log')
  {
    OlderSame(disk[..|disk| - 1], file.path, log, log');
  }

  ghost predicate NewestDone(disk: seq<File>, log: seq<Frame>) {
    disk != [] ==>
      var last := disk[|disk| - 1];
      last.path.base <= |log| && last.synced == |last.data|
      && PhaseOf(log[last.path.base..], last.path) == Done
  }

  function NextId(disk: seq<File>): nat {
    if disk == [] then 0 else disk[|disk| - 1].path.id + 1
  }

  lemma {:induction false} WholeSlice(log: seq<Frame>, b: nat)
    requires b <= |log|
    ensures log[b..] == log[b..|log|]
  {
  }

  lemma {:induction false} CreateKeeps(disk: seq<File>, log: seq<Frame>, durable: nat, path: Path)
    requires Recoverable(disk, log, durable) && NewestDone(disk, log)
    requires path == Path(NextId(disk), |log|) && path.id <= path.base
    ensures Recoverable(disk + [File(path, [], 0)], log, durable)
  {
    var disk' := disk + [File(path, [], 0)];
    assert disk'[..|disk|] == disk;
    assert log[|log|..|log|] == [];
    if disk != [] {
      var last := disk[|disk| - 1];
      WholeSlice(log, last.path.base);
      PhaseReads(log[last.path.base..], last.path);
      assert Finished(last, path, log);
    }
  }

  ghost predicate MayWrite(disk: seq<File>, log: seq<Frame>, f: Frame) {
    disk != [] && f.lsn == |log| && FrameOk(f) && |log| + 1 < Long
    && var path := disk[|disk| - 1].path;
       path.base <= |log| && After(PhaseOf(log[path.base..], path), path, f) != Broken
  }

  function Written(disk: seq<File>, bytes: seq<byte>): (r: seq<File>)
    requires disk != []
  {
    var last := disk[|disk| - 1];
    Replaced(disk, last.(data := last.data + bytes))
  }

  lemma {:induction false} StretchMore(log: seq<Frame>, path: Path, f: Frame)
    requires path.base <= |log|
    ensures (log + [f])[path.base..] == log[path.base..] + [f]
    ensures PhaseOf((log + [f])[path.base..], path) == After(PhaseOf(log[path.base..], path), path, f)
    ensures EncodeAll((log + [f])[path.base..]) == EncodeAll(log[path.base..]) + Encode(f)
  {
    EncodeSnoc(log[path.base..], f);
    assert (log[path.base..] + [f])[..|log| - path.base] == log[path.base..];
  }

  lemma {:induction false} HoldsMore(file: File, log: seq<Frame>, f: Frame)
    requires Holds(file, log, |log|)
    requires After(PhaseOf(log[file.path.base..], file.path), file.path, f) != Broken
    ensures Holds(file.(data := file.data + Encode(f)), log + [f], |log| + 1)
  {
    StretchMore(log, file.path, f);
    WholeSlice(log, file.path.base);
    WholeSlice(log + [f], file.path.base);
  }

  lemma {:induction false} SnocSame(log: seq<Frame>, f: Frame, e: nat)
    requires e <= |log|
    ensures SameUpTo(log, log + [f], e)
  {
  }

  lemma {:induction false} WriteKeepsFiles(disk: seq<File>, log: seq<Frame>, f: Frame)
    requires FilesHold(disk, log) && MayWrite(disk, log, f)
    ensures FilesHold(Written(disk, Encode(f)), log + [f])
  {
    var last := disk[|disk| - 1];
    var file, log' := last.(data := last.data + Encode(f)), log + [f];
    assert Holds(file, log', |log'|) by { HoldsMore(last, log, f); }
    assert SameUpTo(log, log', file.path.base) by { SnocSame(log, f, last.path.base); }
    NewestReplaced(disk, log, file, log');
  }

  lemma {:induction false} DurableStays(disk: seq<File>, log: seq<Frame>, durable: nat, disk': seq<File>, f: Frame)
    requires DurableHolds(disk, log, durable) && disk != [] && |disk'| == |disk|
    requires disk'[|disk| - 1].path == disk[|disk| - 1].path
    requires disk'[|disk| - 1].synced == disk[|disk| - 1].synced
    ensures DurableHolds(disk', log + [f], durable)
  {
    if durable > 0 { SizeSame(log, log + [f], disk[|disk| - 1].path.base, durable + 1); }
  }

  lemma {:induction false} WriteKeeps(disk: seq<File>, log: seq<Frame>, durable: nat, f: Frame)
    requires Recoverable(disk, log, durable) && MayWrite(disk, log, f)
    ensures Recoverable(Written(disk, Encode(f)), log + [f], durable)
  {
    WriteKeepsFiles(disk, log, f);
    DurableStays(disk, log, durable, Written(disk, Encode(f)), f);
  }

  function Flushed(disk: seq<File>): (r: seq<File>)
    requires disk != []
  {
    var last := disk[|disk| - 1];
    Replaced(disk, last.(synced := |last.data|))
  }

  lemma {:induction false} FirstFrame(log: seq<Frame>, b: nat, e: nat)
    requires b < e <= |log|
    ensures |Encode(log[b])| <= |EncodeAll(log[b..e])|
  {
    var fs := log[b..e];
    EncodePrefix(fs, 1);
    assert fs[..1] == [] + [log[b]];
    EncodeSnoc([], log[b]);
  }

  lemma {:induction false} FlushKeepsFiles(disk: seq<File>, log: seq<Frame>)
    requires disk != [] && FilesHold(disk, log)
    ensures FilesHold(Flushed(disk), log)
  {
    var last := disk[|disk| - 1];
    var b := last.path.base;
    if b < |log| { FirstFrame(log, b, |log|); }
    NewestReplaced(disk, log, last.(synced := |last.data|), log);
  }

  // once the newest file is synced, every frame is durable
  lemma {:induction false} AllDurable(disk: seq<File>, log: seq<Frame>, durable: nat)
    requires disk != [] && FilesHold(disk, log) && (durable > 0 ==> durable < |log|)
    requires disk[|disk| - 1].synced == |disk[|disk| - 1].data|
    ensures DurableHolds(disk, log, durable)
  {
    if durable > 0 {
      var b := disk[|disk| - 1].path.base;
      SizeIs(log, b, |log|);
      SizeMonotone(log, b, durable + 1, |log|);
    }
  }

  lemma {:induction false} FlushKeeps(disk: seq<File>, log: seq<Frame>, before: nat, durable: nat)
    requires disk != [] && Recoverable(disk, log, before) && (durable > 0 ==> durable < |log|)
    ensures Recoverable(Flushed(disk), log, durable)
  {
    FlushKeepsFiles(disk, log);
    AllDurable(Flushed(disk), log, durable);
  }

  lemma {:induction false} OlderTail(files: seq<File>, next: Path, log: seq<Frame>)
    requires files != [] && OlderHold(files, next, log)
    ensures OlderHold(files[1..], next, log)
  {
    var n := |files| - 1;
    if n > 0 {
      OlderTail(files[..n], files[n].path, log);
      assert files[1..][..n - 1] == files[..n][1..];
    }
  }

  lemma {:induction false} RemoveKeeps(disk: seq<File>, log: seq<Frame>, durable: nat)
    requires |disk| >= 2 && Recoverable(disk, log, durable)
    requires disk[1].path.base < |log|
    ensures Recoverable(disk[1..], log, durable)
  {
    var n := |disk| - 1;
    OlderTail(disk[..n], disk[n].path, log);
    assert disk[1..][..n - 1] == disk[..n][1..];
  }

  // ---------- crashes ----------

  // the newest file survives up to some length past its last fsync; what
  // survives is then on the medium
  ghost predicate CutOf(disk: seq<File>, after: seq<File>) {
    disk != [] && after != [] && after == Replaced(disk, after[|after| - 1])
    && var last, a := disk[|disk| - 1], after[|after| - 1];
       a.path == last.path && last.synced <= |a.data| <= |last.data|
       && a.data == last.data[..|a.data|] && a.synced == |a.data|
  }

  // a file never synced may also vanish
  ghost predicate CrashOf(disk: seq<File>, after: seq<File>) {
    if disk == [] then after == [] else
    (disk[|disk| - 1].synced == 0 && after == disk[..|disk| - 1]) || CutOf(disk, after)
  }

  // some frame outlives every crash, or numbering starts at 0 anyway
  predicate Anchored(disk: seq<File>) {
    |disk| != 1 || disk[0].path.base == 0 || disk[0].synced > 0
  }

  // ---------- what lives in memory ----------

  function SegmentOf(path: Path, e: nat): Segment
    requires e > 0 && path.base <= e
  {
    Segment(path.id, path, path.base, e - 1, e - path.base)
  }

  // one entry for every finished file
  function OlderSegments(files: seq<File>, e: nat): seq<Segment> {
    if files == [] then [] else
    var n := |files| - 1;
    var p := files[n].path;
    OlderSegments(files[..n], p.base)
    + [if e > 0 && p.base <= e then SegmentOf(p, e) else Segment(p.id, p, p.base, 0, 0)]
  }

  // and one for the newest file once it holds frames
  function SegmentsOf(disk: seq<File>, top: nat): seq<Segment> {
    if disk == [] then [] else
    var n := |disk| - 1;
    var p := disk[n].path;
    OlderSegments(disk[..n], p.base) + if p.base < top then [SegmentOf(p, top)] else []
  }

  datatype Memory = Memory(segments: seq<Segment>, next: nat, segmentId: nat,
                           fd: int, space: nat, base: nat)

  // a file is open for appending
  ghost predicate Writing(disk: seq<File>, log: seq<Frame>, v: Memory) {
    v.fd == |disk| - 1 && disk != []
    && var path := disk[|disk| - 1].path;
       path.base < |log| && v.segmentId == path.id && v.base == path.base
       && v.space == |log| - path.base && PhaseOf(log[path.base..], path) == Open
  }

  ghost predicate EmptyNewest(disk: seq<File>, top: nat) {
    disk != [] && disk[|disk| - 1].path.base == top
  }

  // the next append begins a file, or fills the empty one a crash left
  ghost predicate Idle(disk: seq<File>, log: seq<Frame>, v: Memory) {
    v.fd == -1 && v.space == 0 && v.base == |log| && v.segmentId <= |log|
    && if EmptyNewest(disk, |log|)
       then disk[|disk| - 1].path.id == v.segmentId
       else NewestDone(disk, log) && v.segmentId == NextId(disk)
  }

  ghost predicate Running(disk: seq<File>, log: seq<Frame>, v: Memory) {
    v.next == |log| && v.segments == SegmentsOf(disk, v.next)
    && (if v.fd < 0 then Idle(disk, log, v) else Writing(disk, log, v))
  }

  // ---------- recovery, file by file ----------

  datatype Head = NoHead | Head(id: nat, base: nat)

  function LastHead(fs: seq<Frame>): Head {
    if fs == [] then NoHead else
    var f := fs[|fs| - 1];
    if IsHeader(f) then Head(HeaderId(f.payload), HeaderBase(f.payload)) else LastHead(fs[..|fs| - 1])
  }

  predicate HasSeal(fs: seq<Frame>) {
    fs != [] && (IsSeal(fs[|fs| - 1]) || HasSeal(fs[..|fs| - 1]))
  }

  // std::max(next, lsn + 1) over 64-bit numbers
  function NextAfter(next: nat, fs: seq<Frame>): nat {
    if fs == [] then next else
    var n, l := NextAfter(next, fs[..|fs| - 1]), (fs[|fs| - 1].lsn + 1) % Long;
    if n < l then l else n
  }

  const Blank: Memory := Memory([], 0, 0, -1, 0, 0)

  function RebuildStep(r: Memory, j: nat, path: Path, fs: seq<Frame>): Memory {
    var n := NextAfter(r.next, fs);
    match LastHead(fs)
    case NoHead => r.(next := n)
    case Head(id, base) =>
      var seg := Segment(id, path, base, if fs == [] then 0 else fs[|fs| - 1].lsn, |fs|);
      var top := if r.segmentId < id then id else r.segmentId;
      var s := r.(segments := r.segments + [seg], next := n, segmentId := top);
      if HasSeal(fs) then s else s.(fd := j, space := |fs|, base := base)
  }

  function Rebuild(files: seq<File>, scans: seq<seq<Frame>>): Memory
    requires |files| == |scans|
  {
    if files == [] then Blank else
    var j := |files| - 1;
    RebuildStep(Rebuild(files[..j], scans[..j]), j, files[j].path, scans[j])
  }

  // with no segment to reopen, the next file starts at the next LSN
  function Settled(r: Memory): Memory {
    if r.fd < 0 && r.segments != [] then r.(segmentId := r.segmentId + 1, base := r.next) else r
  }

  // what truncating to the first n bytes leaves
  function Trim(file: File, n: nat): File
    requires n <= |file.data|
  {
    if n < |file.data| then File(file.path, file.data[..n], n) else file
  }

  // the phase says what a scan of the stretch reports
  lemma {:induction false} PhaseReads(fs: seq<Frame>, path: Path)
    requires PhaseOf(fs, path) != Broken
    ensures fs == [] <==> PhaseOf(fs, path) == Fresh
    ensures LastHead(fs) == if fs == [] then NoHead else Head(path.id, path.base)
    ensures HasSeal(fs) <==> PhaseOf(fs, path) == Done
  {
    if fs != [] { PhaseReads(fs[..|fs| - 1], path); }
  }

  lemma {:induction false} PhasePrefix(fs: seq<Frame>, path: Path, k: nat)
    requires PhaseOf(fs, path) != Broken && k <= |fs|
    ensures PhaseOf(fs[..k], path) != Broken
    ensures k < |fs| ==> PhaseOf(fs[..k], path) != Done
  {
    if k < |fs| {
      var init := fs[..|fs| - 1];
      PhasePrefix(init, path, k);
      assert init[..k] == fs[..k];
      if k == |init| { assert init[..k] == init; }
    } else {
      assert fs[..k] == fs;
    }
  }

  lemma {:induction false} NumberedNext(log: seq<Frame>, n: nat, a: nat, b: nat)
    requires Numbered(log) && a <= b <= |log| && n <= a
    ensures NextAfter(n, log[a..b]) == if a < b then b else n
    decreases b
  {
    if a < b {
      var fs := log[a..b];
      assert fs[..|fs| - 1] == log[a..b - 1];
      NumberedNext(log, n, a, b - 1);
    }
  }

  // ---------- what recovery makes of a crash ----------

  // what a scan finds in each file
  ghost predicate ScansOf(files: seq<File>, scans: seq<seq<Frame>>) {
    |scans| == |files|
    && forall j :: 0 <= j < |files| ==> Scanned(files[j].data, scans[j], |EncodeAll(scans[j])|)
  }

  ghost predicate Trims(files: seq<File>, scans: seq<seq<Frame>>, trimmed: seq<File>) {
    ScansOf(files, scans) && |trimmed| == |files|
    && forall j :: 0 <= j < |files| ==> trimmed[j] == Trim(files[j], |EncodeAll(scans[j])|)
  }

  function DurableOf(next: nat): nat { if next > 0 then next - 1 else 0 }

  // the state a restarted log runs in
  ghost predicate Restarted(disk: seq<File>, log: seq<Frame>, r: Memory) {
    Recoverable(disk, log, DurableOf(|log|)) && Running(disk, log, Settled(r)) && Anchored(disk)
  }

  // the frames before the newest file, and of it exactly the complete ones
  ghost predicate KeptExactly(disk: seq<File>, log: seq<Frame>, after: seq<File>, m: nat) {
    m <= |log|
    && (disk == [] ==> m == 0)
    && (disk != [] ==>
         var b := disk[|disk| - 1].path.base;
         b <= m
         && (|after| < |disk| ==> m == b)
         && (|after| == |disk| ==>
              var length := |after[|disk| - 1].data|;
              Size(log, b, m) <= length && (m == |log| || length < Size(log, b, m + 1))))
  }

  lemma {:induction false} WholeScan(file: File, fs: seq<Frame>, gs: seq<Frame>)
    requires AllOk(fs) && file.data == EncodeAll(fs)
    requires Scanned(file.data, gs, |EncodeAll(gs)|)
    ensures gs == fs
  {
    assert file.data[..|file.data|] == file.data;
    ScanCut(fs, |file.data|, gs, |EncodeAll(gs)|);
    if |gs| < |fs| { EncodePrefix(fs, |gs| + 1); }
  }

  // the memory after reading finished files that end at e
  ghost predicate ReadBack(r: Memory, files: seq<File>, e: nat) {
    r.fd == -1 && r.space == 0 && r.base == 0 && r.segments == OlderSegments(files, e)
    && (files != [] ==> r.next == e && r.segmentId == files[|files| - 1].path.id)
    && (files == [] ==> r.next == 0 && r.segmentId == 0)
  }

  // what one more file with frames up to e adds to the memory
  ghost predicate ReadOne(s: Memory, files: seq<File>, path: Path, e: nat, done: bool) {
    path.base < e
    && s.segments == OlderSegments(files, path.base) + [SegmentOf(path, e)]
    && s.next == e && s.segmentId == path.id
    && (if done then s.fd == -1 && s.space == 0 && s.base == 0
        else s.fd == |files| && s.space == e - path.base && s.base == path.base)
  }

  lemma {:induction false} ReadStep(r: Memory, files: seq<File>, path: Path, e: nat, fs: seq<Frame>, s: Memory)
    requires s == RebuildStep(r, |files|, path, fs)
    requires ReadBack(r, files, path.base) && path.base < e
    requires LastHead(fs) == Head(path.id, path.base) && NextAfter(r.next, fs) == e
    requires |fs| == e - path.base && fs[|fs| - 1].lsn == e - 1
    requires files != [] ==> path.id == files[|files| - 1].path.id + 1
    ensures ReadOne(s, files, path, e, HasSeal(fs))
  {
  }

  // reading one stretch with frames in it
  lemma {:induction false} ReadStretch(r: Memory, files: seq<File>, path: Path, log: seq<Frame>, e: nat, fs: seq<Frame>)
    requires Numbered(log) && ReadBack(r, files, path.base)
    requires path.base < e <= |log| && fs == log[path.base..e]
    requires PhaseOf(fs, path) != Broken
    requires files != [] ==> path.id == files[|files| - 1].path.id + 1
    ensures ReadOne(RebuildStep(r, |files|, path, fs), files, path, e, PhaseOf(fs, path) == Done)
  {
    assert LastHead(fs) == Head(path.id, path.base) && (HasSeal(fs) <==> PhaseOf(fs, path) == Done) by {
      PhaseReads(fs, path);
    }
    assert NextAfter(r.next, fs) == e by { NumberedNext(log, r.next, path.base, e); }
    assert fs[|fs| - 1] == log[e - 1];
    ReadStep(r, files, path, e, fs, RebuildStep(r, |files|, path, fs));
  }

  lemma {:induction false} FinishedStep(r: Memory, files: seq<File>, n: nat, next: Path,
                                        log: seq<Frame>, scan: seq<Frame>)
    requires Numbered(log) && |files| == n + 1 && OlderHold(files, next, log)
    requires ReadBack(r, files[..n], files[n].path.base)
    requires Scanned(files[n].data, scan, |EncodeAll(scan)|)
    ensures ReadBack(RebuildStep(r, n, files[n].path, scan), files, next.base)
  {
    var path := files[n].path;
    var fs := log[path.base..next.base];
    WholeScan(files[n], fs, scan);
    PhaseReads(fs, path);
    if n > 0 { assert Finished(files[n - 1], path, log); }
    ReadStretch(r, files[..n], path, log, next.base, fs);
  }

  lemma {:induction false} ScansInit(files: seq<File>, scans: seq<seq<Frame>>, n: nat)
    requires ScansOf(files, scans) && n <= |files|
    ensures ScansOf(files[..n], scans[..n])
  {
  }

  // finished files read back as they are
  lemma {:induction false} FinishedReadBack(files: seq<File>, next: Path, log: seq<Frame>,
                                            scans: seq<seq<Frame>>)
    requires Numbered(log) && OlderHold(files, next, log)
    requires ScansOf(files, scans)
    ensures ReadBack(Rebuild(files, scans), files, next.base)
  {
    if files != [] {
      var n := |files| - 1;
      ScansInit(files, scans, n);
      FinishedReadBack(files[..n], files[n].path, log, scans[..n]);
      FinishedStep(Rebuild(files[..n], scans[..n]), files, n, next, log, scans[n]);
    }
  }

  lemma {:induction false} TrimsInit(files: seq<File>, scans: seq<seq<Frame>>, trimmed: seq<File>, n: nat)
    requires Trims(files, scans, trimmed) && n <= |files|
    ensures Trims(files[..n], scans[..n], trimmed[..n])
  {
  }

  lemma {:induction false} SameInitLast<T>(a: seq<T>, b: seq<T>, n: nat)
    requires |a| == |b| == n + 1 && a[..n] == b[..n] && a[n] == b[n]
    ensures a == b
  {
    assert a == a[..n] + [a[n]] && b == b[..n] + [b[n]];
  }

  lemma {:induction false} UntrimmedOne(file: File, next: Path, log: seq<Frame>, scan: seq<Frame>)
    requires Numbered(log) && Finished(file, next, log)
    requires Scanned(file.data, scan, |EncodeAll(scan)|)
    ensures Trim(file, |EncodeAll(scan)|) == file
  {
    WholeScan(file, log[file.path.base..next.base], scan);
  }

  lemma {:induction false} FinishedUntrimmed(files: seq<File>, next: Path, log: seq<Frame>,
                                             scans: seq<seq<Frame>>, trimmed: seq<File>)
    requires Numbered(log) && OlderHold(files, next, log)
    requires Trims(files, scans, trimmed)
    ensures trimmed == files
  {
    if files != [] {
      var n := |files| - 1;
      TrimsInit(files, scans, trimmed, n);
      FinishedUntrimmed(files[..n], files[n].path, log, scans[..n], trimmed[..n]);
      UntrimmedOne(files[n], next, log, scans[n]);
      SameInitLast(trimmed, files, n);
    }
  }
}
