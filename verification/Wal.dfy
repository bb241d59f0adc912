/**
 * The write-ahead log as an object (v1/Wal.hpp).  Each method is one step
 * under the log's mutex.  `log` is the sequence of frames given out so far,
 * `images` the directory contents the current operation passed through: the
 * moments at which a crash may strike it.
 */
module WalModel {
  import Crc
  import opened WalCodec
  import opened WalLog
  import opened WalBytes
  import opened WalCrash
  import opened WalSteps
  import opened Options

  // what recovery notes about one file
  datatype Scan = Scan(valid: nat, head: Head, last: nat, count: nat, closed: bool, next: nat)

  ghost predicate Notes(s: Scan, fs: seq<Frame>, next0: nat) {
    s.valid == |EncodeAll(fs)| && s.head == LastHead(fs) && s.count == |fs|
    && s.closed == HasSeal(fs) && s.next == NextAfter(next0, fs)
    && (fs != [] ==> s.last == fs[|fs| - 1].lsn)
  }

  function Note(s: Scan, f: Frame, valid: nat): Scan {
    var lsn1 := (f.lsn + 1) % Long;
    Scan(valid,
         if IsHeader(f) then Head(HeaderId(f.payload), HeaderBase(f.payload)) else s.head,
         f.lsn, s.count + 1, s.closed || IsSeal(f),
         if s.next < lsn1 then lsn1 else s.next)
  }

  lemma {:induction false} NoteMore(s: Scan, fs: seq<Frame>, next0: nat, f: Frame, valid: nat)
    requires Notes(s, fs, next0) && valid == |EncodeAll(fs + [f])|
    ensures Notes(Note(s, f, valid), fs + [f], next0)
  {
    assert (fs + [f])[..|fs|] == fs;
  }

  // decode frames from the front of a file until one is refused
  method ScanFile(table: array<bv32>, data: seq<byte>, next0: nat) returns (s: Scan, ghost fs: seq<Frame>)
    requires Crc.IsTable(table[..])
    ensures Notes(s, fs, next0) && Scanned(data, fs, s.valid)
  {
    s := Scan(0, NoHead, 0, 0, false, next0);
    fs := [];
    while true
      invariant Notes(s, fs, next0) && AllOk(fs) && s.valid <= |data| && data[..s.valid] == EncodeAll(fs)
      decreases |data| - s.valid
    {
      var d := DecodeFrame(table, data, s.valid);
      if d.Bad? { return; }
      ScanMore(data, fs, s.valid, d.frame, d.next);
      NoteMore(s, fs, next0, d.frame, d.next);
      s := Note(s, d.frame, d.next);
      fs := fs + [d.frame];
    }
  }

  lemma {:induction false} NoteStep(r: Memory, j: nat, path: Path, s: Scan, fs: seq<Frame>)
    requires Notes(s, fs, r.next)
    ensures RebuildStep(r, j, path, fs)
      == if s.head == NoHead then r.(next := s.next) else
         var seg := Segment(s.head.id, path, s.head.base, s.last, s.count);
         var v := r.(segments := r.segments + [seg], next := s.next,
                     segmentId := if r.segmentId < s.head.id then s.head.id else r.segmentId);
         if s.closed then v else v.(fd := j, space := s.count, base := s.head.base)
  {
  }

  // truncate every file to the frames it really holds, list the segments,
  // reopen the one that is not sealed
  method Recover(table: array<bv32>, files: seq<File>)
    returns (disk: seq<File>, v: Memory, ghost scans: seq<seq<Frame>>)
    requires Crc.IsTable(table[..])
    ensures Trims(files, scans, disk) && v == Settled(Rebuild(files, scans))
  {
    disk, v, scans := [], Memory([], 0, 0, -1, 0, 0), [];
    for j := 0 to |files|
      invariant |scans| == j && |disk| == j && v == Rebuild(files[..j], scans)
      invariant Trims(files[..j], scans, disk)
    {
      var path := files[j].path;
      var s, fs := ScanFile(table, files[j].data, v.next);
      NoteStep(v, j, path, s, fs);
      RebuildMore(files, scans, j, fs);
      TrimMore(files, scans, disk, j, fs);
      disk := disk + [if s.valid < |files[j].data| then File(path, files[j].data[..s.valid], s.valid) else files[j]];
      if s.head == NoHead {
        v := v.(next := s.next);
      } else {
        v := v.(segments := v.segments + [Segment(s.head.id, path, s.head.base, s.last, s.count)],
                next := s.next,
                segmentId := if v.segmentId < s.head.id then s.head.id else v.segmentId);
        if !s.closed { v := v.(fd := j, space := s.count, base := s.head.base); }
      }
      scans := scans + [fs];
    }
    assert files[..|files|] == files;
    if v.fd < 0 && v.segments != [] { v := v.(segmentId := v.segmentId + 1, base := v.next); }
  }

  lemma {:induction false} RebuildMore(files: seq<File>, scans: seq<seq<Frame>>, j: nat, fs: seq<Frame>)
    requires j < |files| && |scans| == j
    ensures Rebuild(files[..j + 1], scans + [fs])
         == RebuildStep(Rebuild(files[..j], scans), j, files[j].path, fs)
  {
    assert files[..j + 1][..j] == files[..j] && (scans + [fs])[..j] == scans;
  }

  lemma {:induction false} TrimMore(files: seq<File>, scans: seq<seq<Frame>>, disk: seq<File>, j: nat, fs: seq<Frame>)
    requires j < |files| && Trims(files[..j], scans, disk)
    requires Scanned(files[j].data, fs, |EncodeAll(fs)|)
    ensures Trims(files[..j + 1], scans + [fs], disk + [Trim(files[j], |EncodeAll(fs)|)])
  {
    var a, b := files[..j + 1], scans + [fs];
    forall i | 0 <= i < j + 1 ensures Scanned(a[i].data, b[i], |EncodeAll(b[i])|) {
      if i < j { assert a[i] == files[..j][i] && b[i] == scans[i]; }
    }
    var c := disk + [Trim(files[j], |EncodeAll(fs)|)];
    forall i | 0 <= i < j + 1 ensures c[i] == Trim(a[i], |EncodeAll(b[i])|) {
      if i < j { assert a[i] == files[..j][i] && b[i] == scans[i] && c[i] == disk[i]; }
    }
  }

  // a crash image of a log, that a restart may find
  ghost predicate CrashImage(im: Image, files: seq<File>) {
    Recoverable(im.disk, im.log, im.durable) && CrashOf(im.disk, files)
  }

  lemma {:induction false} Restarts(im: Image, files: seq<File>, scans: seq<seq<Frame>>, s: State) returns (m: nat)
    requires CrashImage(im, files) && !Erased(im.disk, im.log, files)
    requires Trims(files, scans, s.disk) && s.mem == Settled(Rebuild(files, scans))
    requires !s.shut && s.durable == DurableOf(s.mem.next)
    ensures m <= |im.log| && ValidState(s.(log := im.log[..m])) && Anchored(s.disk)
    ensures KeptExactly(im.disk, im.log, files, m) && (im.durable > 0 ==> im.durable < m)
  {
    m := CrashRecovers(im.disk, im.log, im.durable, files, scans, s.disk);
  }

  // what the log restarts with
  ghost predicate Resumed(log: seq<Frame>, im: Image, files: seq<File>) {
    log <= im.log && KeptExactly(im.disk, im.log, files, |log|)
    && (im.durable > 0 ==> im.durable < |log|)
  }

  lemma {:induction false} ResumedTake(im: Image, files: seq<File>, m: nat)
    requires m <= |im.log| && KeptExactly(im.disk, im.log, files, m) && (im.durable > 0 ==> im.durable < m)
    ensures Resumed(im.log[..m], im, files)
  {
  }

  // a restart resumes the log, or starts from nothing when it was erased
  ghost predicate RestartedFrom(im: Image, files: seq<File>, s: State) {
    CrashImage(im, files) ==>
      if Erased(im.disk, im.log, files) then AllEmpty(s.disk) && s.mem == Blank && s.log == []
      else ValidState(s) && Anchored(s.disk) && Resumed(s.log, im, files)
  }

  lemma {:induction false} RestartLog(im: Image, files: seq<File>, scans: seq<seq<Frame>>, s: State)
    returns (log: seq<Frame>)
    requires Trims(files, scans, s.disk) && s.mem == Settled(Rebuild(files, scans))
    requires !s.shut && s.durable == DurableOf(s.mem.next)
    ensures RestartedFrom(im, files, s.(log := log))
  {
    log := [];
    if CrashImage(im, files) {
      if Erased(im.disk, im.log, files) {
        ErasedRestarts(im.disk, im.log, im.durable, files, scans, s.disk);
      } else {
        var m := Restarts(im, files, scans, s);
        ResumedTake(im, files, m);
        log := im.log[..m];
      }
    }
  }

  // the least of the pins and the next LSN
  ghost predicate LeastPin(readers: map<int, nat>, next: nat, m: nat) {
    m <= next && (forall id :: id in readers ==> m <= readers[id])
    && (m == next || exists id :: id in readers && readers[id] == m)
  }

  class Wal {
    const maxSeg: nat
    const identity: seq<byte>
    const table: array<bv32>
    var disk: seq<File>
    var fd: int
    var nextLsn: nat
    var durableLsn: nat
    var space: nat
    var base: nat
    var segmentId: nat
    var shutDown: bool
    var segments: seq<Segment>
    var readers: map<int, nat>
    var images: seq<Image>
    ghost var log: seq<Frame>

    ghost function Abs(): State
      reads this`disk, this`log, this`durableLsn, this`segments, this`nextLsn, this`segmentId, this`fd, this`space
      reads this`base, this`shutDown, this`images
    {
      State(disk, log, durableLsn, Memory(segments, nextLsn, segmentId, fd, space, base), shutDown, images)
    }

    ghost predicate Equipped()
      reads table
    {
      |identity| == 64 && Crc.IsTable(table[..])
    }

    ghost predicate Valid()
      reads this`disk, this`log, this`durableLsn, this`segments, this`nextLsn, this`segmentId, this`fd, this`space
      reads this`base, this`shutDown, this`images
      reads table
    {
      Equipped() && ValidState(Abs())
    }

    // one encoded frame goes to the open file, nothing is synced
    method WriteFrame(f: Frame)
      requires Equipped() && FrameOk(f) && fd == |disk| - 1 >= 0
      modifies this`disk, this`log, this`images
      ensures Abs() == WriteTo(old(Abs()), f)
    {
      var bytes := EncodeFrame(table, f);
      var file := disk[fd].(data := disk[fd].data + bytes);
      UpdateLast(disk, file);
      disk := disk[fd := file];
      log := log + [f];
      images := images + [Image(disk, log, durableLsn)];
    }

    // fsync of the open file
    method Flush(durable: nat)
      requires fd == |disk| - 1 >= 0
      modifies this`disk, this`durableLsn, this`images
      ensures Abs() == FlushTo(old(Abs()), durable)
    {
      var file := disk[fd].(synced := |disk[fd].data|);
      UpdateLast(disk, file);
      disk := disk[fd := file];
      durableLsn := durable;
      images := images + [Image(disk, log, durableLsn)];
    }

    method FindFile(path: Path) returns (k: nat)
      ensures Finds(disk, path, k)
    {
      k := 0;
      while k < |disk| && disk[k].path != path
        invariant 0 <= k <= |disk|
        invariant forall j :: 0 <= j < k ==> disk[j].path != path
      {
        k := k + 1;
      }
    }

    method OpenAt(path: Path, k: nat)
      requires k <= |disk|
      modifies this`disk, this`fd, this`images
      ensures disk == OpenedAt(old(disk), path, k) && fd == k
      ensures images == old(images) + [Image(disk, log, durableLsn)]
    {
      if k == |disk| { disk := disk + [File(path, [], 0)]; }
      fd := k;
      images := images + [Image(disk, log, durableLsn)];
    }

    // open(O_CREAT | O_APPEND) under the name of the next segment
    method OpenFile()
      requires Valid() && !shutDown && fd < 0 && nextLsn + 1 < Long
      modifies this`disk, this`fd, this`images
      ensures Abs() == OpenTo(old(Abs())) && fd == |disk| - 1 >= 0
    {
      var path := Path(segmentId, base);
      var k := FindFile(path);
      FindsOpening(Abs(), path, k);
      OpenAt(path, k);
    }

    // a new segment begins with its header
    method WriteHeader(version: Half)
      requires Equipped() && fd == |disk| - 1 >= 0
      requires nextLsn + 1 < Long && segmentId < Long && base < Long
      modifies this`disk, this`images, this`log, this`segments, this`nextLsn, this`space
      ensures Abs() == HeaderTo(old(Abs()), version, identity)
    {
      WriteFrame(HeaderFrame(nextLsn, version, identity, segmentId, base));
      segments := segments + [Segment(segmentId, Path(segmentId, base), nextLsn, nextLsn, 1)];
      nextLsn := nextLsn + 1;
      space := space + 1;
    }

    method WriteRow(payload: seq<byte>, version: Half)
      requires Equipped() && fd == |disk| - 1 >= 0 && segments != []
      requires nextLsn + 1 < Long && |payload| < Long
      modifies this`disk, this`images, this`log, this`segments, this`nextLsn, this`space
      ensures Abs() == AddRow(old(Abs()), version, payload)
    {
      WriteFrame(RowFrame(nextLsn, version, payload));
      NoteFrame();
      nextLsn := nextLsn + 1;
      space := space + 1;
    }

    // a full segment is sealed, synced and closed
    method Seal(version: Half)
      requires Equipped() && fd == |disk| - 1 >= 0 && segments != [] && nextLsn + 1 < Long
      modifies this`disk, this`fd, this`images, this`log, this`segments, this`nextLsn, this`space
      modifies this`base, this`segmentId, this`durableLsn
      ensures Abs() == SealSegment(old(Abs()), version)
    {
      WriteFrame(SealFrame(nextLsn, version, segmentId, space));
      NoteFrame();
      Flush(nextLsn);
      LeaveSegment();
    }

    method NoteFrame()
      requires segments != []
      modifies this`segments
      ensures segments == Bumped(old(segments), nextLsn)
    {
      var n := |segments| - 1;
      segments := segments[n := segments[n].(last := nextLsn, count := segments[n].count + 1)];
    }

    method LeaveSegment()
      modifies this`fd, this`nextLsn, this`space, this`base, this`segmentId
      ensures fd == -1 && nextLsn == old(nextLsn) + 1 == base && space == 0 && segmentId == old(segmentId) + 1
    {
      base := nextLsn + 1;
      space := 0;
      fd := -1;
      segmentId := segmentId + 1;
      nextLsn := nextLsn + 1;
    }

    method OpenSegment(version: Half)
      requires Valid() && !shutDown && fd < 0 && nextLsn + 1 < Long
      modifies this`disk, this`fd, this`images, this`log, this`segments, this`nextLsn, this`space
      ensures Abs() == BeginSegment(old(Abs()), version, identity)
    {
      IdleBounds(Abs());
      OpenFile();
      WriteHeader(version);
    }

    // after this the row can be written
    method EnsureOpen(noise: Noise, ghost log0: seq<Frame>, ghost durable0: nat)
      requires Valid() && !shutDown && nextLsn + 2 < Long && Ongoing(Abs(), log0, durable0)
      modifies this`disk, this`fd, this`images, this`log, this`segments, this`nextLsn, this`space
      ensures Valid() && fd >= 0 && Ongoing(Abs(), log0, durable0) && nextLsn <= old(nextLsn) + 1
      ensures Start(disk, nextLsn) == old(Start(disk, nextLsn))
      ensures ToRowLogged(old(Abs()), Abs(), HeaderPart(old(Abs()).mem, noise, identity))
      ensures Abs() == if old(fd) >= 0 then old(Abs()) else BeginSegment(old(Abs()), noise.header, identity)
    {
      ghost var s := Abs();
      ToRowKeeps(s, noise, identity, log0, durable0);
      ToRowBound(s, noise, identity);
      if fd < 0 { IdleBounds(s); }
      ToRowLogs(s, noise, identity);
      ToRowStart(s, noise, identity);
      if fd < 0 { OpenSegment(noise.header); }
      assert Abs() == ToRow(s, noise, identity);
    }

    // the row, and the seal once the segment is full
    method FinishAppend(payload: seq<byte>, noise: Noise, ghost log0: seq<Frame>, ghost durable0: nat)
      requires Valid() && !shutDown && fd >= 0 && nextLsn + 2 < Long && |payload| < Long
      requires Ongoing(Abs(), log0, durable0)
      modifies this`disk, this`fd, this`images, this`log, this`segments, this`nextLsn, this`space
      modifies this`base, this`segmentId, this`durableLsn
      ensures Valid() && Ongoing(Abs(), log0, durable0)
      ensures FinishLogged(old(Abs()), Abs(),
        RowPart(old(nextLsn), old(segmentId), old(space), maxSeg, noise, payload))
      ensures fd < 0 <==> old(space) + 1 >= maxSeg
      ensures old(disk) != [] && old(segments) != [] && Abs() == FinishRow(old(Abs()), maxSeg, noise, payload)
      ensures Start(disk, nextLsn) == old(Start(disk, nextLsn))
    {
      ghost var s := Abs();
      OpenFileListed(s);
      FinishKeeps(s, maxSeg, noise, payload, log0, durable0);
      FinishLogs(s, maxSeg, noise, payload);
      FinishStart(s, maxSeg, noise, payload);
      WriteRow(payload, noise.row);
      if space >= maxSeg { Seal(noise.seal); }
      assert Abs() == FinishRow(s, maxSeg, noise, payload);
    }

    method Mark()
      requires Valid()
      modifies this`images
      ensures Valid() && Ongoing(Abs(), log, durableLsn) && Abs() == Begun(old(Abs()))
    {
      images := [Image(disk, log, durableLsn)];
      assert ValidState(Abs());
      BegunOngoing(Abs());
    }

    method AppendMarked(payload: seq<byte>, noise: Noise)
      requires Valid() && !shutDown && nextLsn + 3 < Long && |payload| < Long
      requires Ongoing(Abs(), log, durableLsn)
      modifies this`disk, this`fd, this`images, this`log, this`segments, this`nextLsn, this`space
      modifies this`base, this`segmentId, this`durableLsn
      ensures Valid() && Ongoing(Abs(), old(log), old(durableLsn))
      ensures FinishLogged(old(Abs()), Abs(),
        AppendedFrames(old(Abs()).mem, maxSeg, identity, noise, payload))
      ensures OpenListed(old(Abs())) && Abs() == AppendTo(old(Abs()), maxSeg, identity, noise, payload)
      ensures Start(disk, nextLsn) == old(Start(disk, nextLsn))
      ensures fd < 0 <==> old(space) + (if old(fd) < 0 then 2 else 1) >= maxSeg
    {
      ghost var s := Abs();
      EnsureOpen(noise, s.log, s.durable);
      ghost var o := Abs();
      FinishAppend(payload, noise, s.log, s.durable);
      AppendDone(s, o, Abs(), maxSeg, identity, noise, payload);
    }

    method AppendRow(payload: seq<byte>, noise: Noise) returns (ghost l: nat)
      requires Valid() && !shutDown && nextLsn + 3 < Long && |payload| < Long
      requires Ongoing(Abs(), log, durableLsn)
      modifies this`disk, this`fd, this`images, this`log, this`segments, this`nextLsn, this`space
      modifies this`base, this`segmentId, this`durableLsn
      ensures Valid() && Ongoing(Abs(), old(log), old(durableLsn))
      ensures OpenListed(old(Abs())) && Abs() == AppendTo(old(Abs()), maxSeg, identity, noise, payload)
      ensures Start(disk, nextLsn) == old(Start(disk, nextLsn))
      ensures fd < 0 <==> old(space) + (if old(fd) < 0 then 2 else 1) >= maxSeg
      ensures durableLsn == if fd < 0 then nextLsn - 1 else old(durableLsn)
      ensures nextLsn == |log| && OnlyRow(log, old(nextLsn), l, payload)
      ensures old(nextLsn) == |old(log)| && RowAdded(old(log), log, l, old(fd) < 0, fd < 0, identity, old(segmentId),
        old(space) + (if old(fd) < 0 then 2 else 1), noise, payload)
    {
      ghost var s := Abs();
      AppendMarked(payload, noise);
      l := AppendedRow(s, log, maxSeg, identity, noise, payload);
    }

    // Refused after shutdown.  Else exactly one row is added, at LSN l and
    // with the payload; before it a header if no segment was open, behind it
    // a seal if the segment is full, and then everything is durable.  Every
    // disk state on the way can be recovered.
    method Append(payload: seq<byte>, noise: Noise) returns (ok: bool, ghost l: nat)
      requires Valid() && nextLsn + 3 < Long && |payload| < Long
      modifies this`disk, this`fd, this`images, this`log, this`segments, this`nextLsn, this`space
      modifies this`base, this`segmentId, this`durableLsn
      ensures Valid() && Ongoing(Abs(), old(log), old(durableLsn))
      ensures (ok <==> !old(shutDown)) && old(nextLsn) <= nextLsn
      ensures Start(disk, nextLsn) == old(Start(disk, nextLsn))
      ensures OpenListed(old(Abs())) && Abs() == AppendOp(old(Abs()), maxSeg, identity, noise, payload)
      ensures ok ==> nextLsn == |log| && OnlyRow(log, old(nextLsn), l, payload)
      ensures ok ==> old(nextLsn) == |old(log)| && RowAdded(old(log), log, l, old(fd) < 0, fd < 0, identity,
        old(segmentId), old(space) + (if old(fd) < 0 then 2 else 1), noise, payload)
      ensures ok ==> (fd < 0 <==> old(space) + (if old(fd) < 0 then 2 else 1) >= maxSeg)
      ensures ok ==> durableLsn == if fd < 0 then nextLsn - 1 else old(durableLsn)
      ensures !ok ==> disk == old(disk) && log == old(log) && durableLsn == old(durableLsn)
    {
      ValidListed(Abs());
      Mark();
      if shutDown { return false, 0; }
      ok := true;
      l := AppendRow(payload, noise);
    }

    // what is appended can be read
    method AppendAndRead(payload: seq<byte>, noise: Noise) returns (ok: bool, r: Option<Frame>, ghost l: nat)
      requires Valid() && nextLsn + 3 < Long && |payload| < Long
      modifies this`disk, this`fd, this`images, this`log, this`segments, this`nextLsn, this`space
      modifies this`base, this`segmentId, this`durableLsn
      ensures Valid() && (ok <==> !old(shutDown))
      ensures ok ==> old(nextLsn) <= l < nextLsn && r.Some? && r.value.lsn == l && r.value.kind == 5
                     && r.value.payload == payload
    {
      var idle := fd < 0;
      var next := nextLsn;
      StartBelowNext(Abs());
      ok, l := Append(payload, noise);
      r := None;
      if ok { r := ReadRecordAtLsn(if idle then next + 1 else next); }
    }

    method SyncMarked()
      requires Valid() && Ongoing(Abs(), log, durableLsn)
      modifies this`disk, this`durableLsn, this`images
      ensures Abs() == SyncTo(old(Abs()))
      ensures old(fd) >= 0 ==> old(disk) != []
    {
      if fd >= 0 {
        OpenFileListed(Abs());
        Flush(if nextLsn > 0 then nextLsn - 1 else 0);
      }
    }

    // everything written so far is durable
    method Sync()
      requires Valid()
      modifies this`disk, this`durableLsn, this`images
      ensures Valid() && log == old(log) && Ongoing(Abs(), old(log), old(durableLsn))
      ensures fd >= 0 ==> durableLsn == (if nextLsn > 0 then nextLsn - 1 else 0) && Anchored(disk)
      ensures fd < 0 ==> disk == old(disk) && durableLsn == old(durableLsn)
      ensures (fd >= 0 ==> old(disk) != []) && Abs() == SyncTo(Begun(old(Abs())))
      ensures Start(disk, nextLsn) == old(Start(disk, nextLsn))
    {
      Mark();
      SyncKeeps(Abs(), log, durableLsn);
      if fd >= 0 { FlushToStart(Abs(), DurableOf(nextLsn), Abs().mem); }
      SyncMarked();
    }

    method ShutdownMarked(version: Half, timestamp: nat)
      requires Valid() && nextLsn + 1 < Long
      requires fd >= 0 ==> !shutDown && disk != []
      modifies this`disk, this`fd, this`images, this`log, this`shutDown, this`durableLsn
      ensures Abs() == ShutTo(old(Abs()), version, identity, timestamp)
    {
      if shutDown { return; }
      shutDown := true;
      if fd >= 0 {
        OpenFileListed(old(Abs()));
        WriteFrame(ShutdownFrame(nextLsn, version, identity, timestamp));
        Flush(durableLsn);
        fd := -1;
      }
    }

    // the mark of an orderly end, synced; further appends are refused
    method Shutdown(version: Half, timestamp: nat)
      requires Valid() && nextLsn + 1 < Long
      modifies this`disk, this`fd, this`images, this`log, this`shutDown, this`durableLsn
      ensures Valid() && shutDown && Ongoing(Abs(), old(log), old(durableLsn))
      ensures old(shutDown) || old(fd) < 0 ==> log == old(log) && disk == old(disk)
      ensures !old(shutDown) && old(fd) >= 0 ==>
        old(nextLsn) == |old(log)| && |log| == |old(log)| + 1 && old(log) <= log
        && (timestamp < Long ==> MarkIs(log[old(nextLsn)], old(nextLsn), version, identity, timestamp))
      ensures durableLsn == old(durableLsn) && nextLsn == old(nextLsn) && fd == -1
      ensures (old(fd) >= 0 ==> old(disk) != []) && Abs() == ShutTo(Begun(old(Abs())), version, identity, timestamp)
      ensures Start(disk, nextLsn) == old(Start(disk, nextLsn))
    {
      Mark();
      ghost var s := Abs();
      ShutKeeps(s, version, identity, timestamp, s.log, s.durable);
      ShutDone(s, version, identity, timestamp);
      ShutdownMarked(version, timestamp);
      if !s.shut && s.mem.fd >= 0 { MarkAdded(s, Abs(), version, identity, timestamp); }
    }

    // decode from the front of a file until the LSN turns up
    method ReadInFile(data: seq<byte>, lsn: nat, ghost b: nat, ghost fs: seq<Frame>) returns (r: Option<Frame>)
      requires Equipped() && data == EncodeAll(fs) && AllOk(fs)
      requires forall k :: 0 <= k < |fs| ==> fs[k].lsn == b + k
      requires b <= lsn < b + |fs|
      ensures r == Some(fs[lsn - b])
    {
      var offset := 0;
      ghost var k := 0;
      while true
        invariant k <= lsn - b && offset == |EncodeAll(fs[..k])| <= |data|
        decreases lsn - b - k
      {
        FrameAtOwnPlace(fs, k);
        var d := DecodeFrame(table, data, offset);
        if d.Good? {
          FrameUnique(data, offset, d.frame, fs[k]);
          if d.frame.lsn == lsn { return Some(d.frame); }
          offset := d.next;
          k := k + 1;
          EncodePrefix(fs, k);
        } else {
          assert false;
          return None;
        }
      }
    }

    // the first entry that spans the LSN, or the end of the list
    method FindSegment(lsn: nat) returns (i: nat)
      requires Valid()
      ensures i <= |segments|
      ensures i < |segments| ==> Spans(segments[i], lsn)
      ensures i == |segments| ==> !(Start(disk, nextLsn) <= lsn < nextLsn)
    {
      i := 0;
      while i < |segments| && !Spans(segments[i], lsn)
        invariant 0 <= i <= |segments| && Passing(Abs(), lsn, i)
      {
        PassOne(Abs(), lsn, i);
        i := i + 1;
      }
      if i == |segments| { PassAll(Abs(), lsn); }
    }

    method ReadSegment(i: nat, lsn: nat) returns (r: Option<Frame>)
      requires Valid() && i < |segments| && Spans(segments[i], lsn)
      ensures Start(disk, nextLsn) <= lsn < nextLsn <= |log| && r == Some(log[lsn])
    {
      var k := FindFile(segments[i].path);
      ghost var fs := SpanHolds(Abs(), i, lsn);
      FindsSelf(Abs(), i, k);
      r := ReadInFile(disk[k].data, lsn, disk[i].path.base, fs);
    }

    // exactly the LSNs from the oldest kept segment on can be read
    method ReadRecordAtLsn(lsn: nat) returns (r: Option<Frame>)
      requires Valid()
      ensures Valid() && nextLsn <= |log|
      ensures r == if Start(disk, nextLsn) <= lsn < nextLsn then Some(log[lsn]) else None
    {
      NewestBelowNext(Abs());
      var i := FindSegment(lsn);
      if i == |segments| { return None; }
      r := ReadSegment(i, lsn);
    }

    // ---------- readers and pruning ----------

    method RegisterReader(id: int, lsn: nat)
      modifies this`readers
      ensures readers == old(readers)[id := lsn]
    {
      readers := readers[id := lsn];
    }

    method UnregisterReader(id: int)
      modifies this`readers
      ensures readers == old(readers) - {id}
    {
      readers := readers - {id};
    }

    method UpdateReaderLsn(id: int, lsn: nat)
      modifies this`readers
      ensures readers == old(readers)[id := lsn]
    {
      readers := readers[id := lsn];
    }

    // the least pin, or the next LSN when it is less
    method GetMinRetentionLsn() returns (m: nat)
      ensures LeastPin(readers, nextLsn, m)
    {
      m := nextLsn;
      while exists id :: id in readers && readers[id] < m
        invariant m <= nextLsn
        invariant m == nextLsn || exists id :: id in readers && readers[id] == m
        decreases m
      {
        var id :| id in readers && readers[id] < m;
        m := readers[id];
      }
    }

    method Unlink(k: nat, i: nat)
      requires k < |disk| && i < |segments|
      modifies this`disk, this`segments, this`fd, this`images
      ensures disk == old(disk)[..k] + old(disk)[k + 1..]
      ensures segments == old(segments)[..i] + old(segments)[i + 1..]
      ensures k == 0 ==> disk == old(disk)[1..]
      ensures i == 0 ==> segments == old(segments)[1..]
      ensures fd == (if old(fd) >= 0 then old(fd) - 1 else old(fd))
      ensures images == old(images) + [Image(disk, log, durableLsn)]
    {
      disk := disk[..k] + disk[k + 1..];
      segments := segments[..i] + segments[i + 1..];
      if fd >= 0 { fd := fd - 1; }
      images := images + [Image(disk, log, durableLsn)];
    }

    // the file of the oldest entry goes, and the entry
    method RemoveSegment(i: nat)
      requires Valid() && i == 0 && |segments| > 1
      modifies this`disk, this`segments, this`fd, this`images
      ensures old(disk) != [] && Abs() == RemoveOldest(old(Abs()))
    {
      var k := FindFile(segments[i].path);
      OldestListed(Abs());
      FindsSelf(Abs(), 0, k);
      Unlink(k, i);
    }

    ghost predicate Pruned(disk0: seq<File>, segments0: seq<Segment>, k: nat, min: nat)
      reads this
    {
      k <= |segments0| && k <= |disk0| && segments == segments0[k..] && disk == disk0[k..]
      && (forall j :: 0 <= j < k ==> segments0[j].last < min)
      && (segments0 != [] ==> segments != [])
      && Start(disk0, nextLsn) <= Start(disk, nextLsn)
      && (k > 0 ==> Start(disk, nextLsn) <= min)
    }

    // Oldest segments go as long as they end below every pin and one stays.
    method ExecutePruneProcess() returns (ghost k: nat, min: nat)
      requires Valid()
      modifies this`disk, this`segments, this`fd, this`images
      ensures Valid() && Ongoing(Abs(), log, durableLsn)
      ensures LeastPin(readers, nextLsn, min) && Pruned(old(disk), old(segments), k, min)
      ensures Abs() == PruneTo(Begun(old(Abs())), min)
      ensures |segments| > 1 ==> segments[0].last >= min
      ensures fd < 0 <==> old(fd) < 0
    {
      Mark();
      min := GetMinRetentionLsn();
      k := PruneBelow(min);
    }

    // the walk over the list: only its first entry is ever removed
    method PruneBelow(min: nat) returns (ghost k: nat)
      requires Valid() && Ongoing(Abs(), log, durableLsn)
      modifies this`disk, this`segments, this`fd, this`images
      ensures Valid() && Ongoing(Abs(), log, durableLsn)
      ensures Pruned(old(disk), old(segments), k, min) && Abs() == PruneTo(old(Abs()), min)
      ensures |segments| > 1 ==> segments[0].last >= min
      ensures fd < 0 <==> old(fd) < 0
    {
      k := 0;
      var i := 0;
      while i < |segments|
        invariant Valid() && Ongoing(Abs(), log, durableLsn)
        invariant i <= |segments| && Pruned(old(disk), old(segments), k, min)
        invariant PruneTo(Abs(), min) == PruneTo(old(Abs()), min)
        invariant i > 0 && |segments| > 1 ==> segments[0].last >= min
        invariant fd < 0 <==> old(fd) < 0
        decreases 2 * |segments| - i
      {
        var goes := Goes(i, min);
        if goes {
          PruneOne(i, old(disk), old(segments), k, min);
          k := k + 1;
        } else {
          i := i + 1;
        }
      }
    }

    method Goes(i: nat, min: nat) returns (goes: bool)
      requires Valid() && i < |segments| && (i > 0 && |segments| > 1 ==> segments[0].last >= min)
      ensures goes <==> segments[i].last < min && |segments| > 1
      ensures goes ==> i == 0
    {
      goes := segments[i].last < min && |segments| > 1;
      if i > 0 && |segments| > 1 { LastsGrow(Abs(), 0, i); }
    }

    method PruneOne(i: nat, ghost disk0: seq<File>, ghost segments0: seq<Segment>, ghost k: nat, ghost min: nat)
      requires Valid() && Ongoing(Abs(), log, durableLsn) && i == 0 && |segments| > 1 && segments[0].last < min
      requires Pruned(disk0, segments0, k, min)
      modifies this`disk, this`segments, this`fd, this`images
      ensures Valid() && Ongoing(Abs(), log, durableLsn) && Pruned(disk0, segments0, k + 1, min)
      ensures PruneTo(Abs(), min) == PruneTo(old(Abs()), min)
      ensures |segments| == |old(segments)| - 1
      ensures fd < 0 <==> old(fd) < 0
    {
      ghost var s := Abs();
      OldestListed(s);
      RemoveOldestKeeps(s, log, durableLsn);
      RemoveSegment(i);
    }

    // ---------- restart ----------

    // A log opened over the directory a crash left goes on with exactly the
    // complete frames, none of the durable ones lost, unless the crash erased
    // it: then it starts from nothing.  An empty directory is the crash image
    // of the empty log.
    constructor (identity: seq<byte>, maxSeg: nat, files: seq<File>, ghost im: Image)
      requires |identity| == 64
      ensures this.identity == identity && this.maxSeg == maxSeg && readers == map[] && !shutDown
      ensures exists scans :: Trims(files, scans, disk) && Abs().mem == Settled(Rebuild(files, scans))
      ensures durableLsn == DurableOf(nextLsn)
      ensures Equipped() && RestartedFrom(im, files, Abs())
      ensures fresh(table) && images == []
    {
      this.identity, this.maxSeg := identity, maxSeg;
      readers, shutDown, images, log := map[], false, [], [];
      var t := Crc.MakeTable();
      table := t;
      var d, v; ghost var scans;
      d, v, scans := Recover(t, files);
      disk, segments, nextLsn, segmentId, fd, space, base :=
        d, v.segments, v.next, v.segmentId, v.fd, v.space, v.base;
      durableLsn := if v.next > 0 then v.next - 1 else 0;
      new;
      log := RestartLog(im, files, scans, Abs());
      assert Trims(files, scans, disk) && Abs().mem == Settled(Rebuild(files, scans));
    }

    // An empty file that no segment lists is as good as absent: opening its
    // name finds it empty, and recovery and pruning pass it over.
    method ForgetEmptyFiles()
      requires Equipped() && AllEmpty(disk) && Abs().mem == Blank && log == [] && durableLsn == 0 && !shutDown
      modifies this`disk
      ensures Valid() && Abs() == old(Abs()).(disk := [])
    {
      disk := [];
    }
  }
}
