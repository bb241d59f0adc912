/**
 * The steps of the write-ahead log on values (v1/Wal.hpp): what each public
 * operation does to the directory, the memory and the log, and the invariant
 * every step keeps.  Wal.dfy proves its methods against these.
 */
module WalSteps {
  import opened WalCodec
  import opened WalLog
  import opened WalBytes
  import opened WalCrash

  type Half = x: nat | x < 0x1_0000

  // RECORD_HEADER_SIZE of the default configuration
  const RecordHeaderSize: nat := 28

  datatype Image = Image(disk: seq<File>, ghost log: seq<Frame>, durable: nat)

  // the version field is never initialised: any 16-bit number may appear
  datatype Noise = Noise(header: Half, row: Half, seal: Half)

  function HeaderFrame(lsn: nat, version: Half, identity: seq<byte>, id: nat, base: nat): Frame
    requires |identity| == 64
  {
    Frame(lsn, version, SegmentHeader, RecordHeaderSize, HeaderPayload(identity, id, base))
  }

  function RowFrame(lsn: nat, version: Half, payload: seq<byte>): Frame {
    Frame(lsn, version, Row, RecordHeaderSize, payload)
  }

  function SealFrame(lsn: nat, version: Half, id: nat, records: nat): Frame {
    Frame(lsn, version, SegmentSeal, RecordHeaderSize,
          LittleEndian(id, 8) + LittleEndian(lsn, 8) + LittleEndian(records, 8))
  }

  function ShutdownFrame(lsn: nat, version: Half, identity: seq<byte>, timestamp: nat): Frame {
    Frame(lsn, version, ShutdownMark, RecordHeaderSize,
          identity + LittleEndian(timestamp, 8) + LittleEndian(lsn, 8))
  }

  // every image is recoverable and extends what was durable before
  ghost predicate Passed(images: seq<Image>, log: seq<Frame>, durable: nat) {
    forall i :: 0 <= i < |images| ==>
      Recoverable(images[i].disk, images[i].log, images[i].durable)
      && log <= images[i].log && durable <= images[i].durable
  }

  lemma {:induction false} PassedMore(images: seq<Image>, log: seq<Frame>, durable: nat, im: Image)
    requires Passed(images, log, durable)
    requires Recoverable(im.disk, im.log, im.durable) && log <= im.log && durable <= im.durable
    ensures Passed(images + [im], log, durable)
  {
  }

  lemma {:induction false} UpdateLast<T>(s: seq<T>, x: T)
    requires s != []
    ensures s[|s| - 1 := x] == s[..|s| - 1] + [x]
  {
  }

  // ---------- what the steps do to the memory ----------

  function Bumped(segments: seq<Segment>, lsn: nat): seq<Segment>
    requires segments != []
  {
    var n := |segments| - 1;
    segments[n := segments[n].(last := lsn, count := segments[n].count + 1)]
  }

  lemma {:induction false} SegmentsGrow(disk: seq<File>, disk': seq<File>, top: nat)
    requires disk != [] && disk[|disk| - 1].path.base < top
    requires |disk'| == |disk| && disk'[..|disk| - 1] == disk[..|disk| - 1]
    requires disk'[|disk| - 1].path == disk[|disk| - 1].path
    ensures SegmentsOf(disk, top) != []
    ensures SegmentsOf(disk', top + 1) == Bumped(SegmentsOf(disk, top), top)
  {
    var n := |disk| - 1;
    var p := disk[n].path;
    var older := OlderSegments(disk[..n], p.base);
    var segments := SegmentsOf(disk, top);
    assert segments == older + [SegmentOf(p, top)];
    UpdateLast(segments, SegmentOf(p, top + 1));
    assert segments[..|segments| - 1] == older;
  }

  // the file an append opens: a new one, or the empty one a crash left
  ghost predicate Opened(disk: seq<File>, log: seq<Frame>, v: Memory, dir: seq<File>) {
    if EmptyNewest(disk, |log|) then dir == disk
    else dir == disk + [File(Path(v.segmentId, v.base), [], 0)]
  }

  lemma {:induction false} OpenKeeps(disk: seq<File>, log: seq<Frame>, durable: nat, v: Memory, dir: seq<File>)
    requires Recoverable(disk, log, durable) && Running(disk, log, v) && v.fd < 0
    requires Opened(disk, log, v, dir)
    ensures Recoverable(dir, log, durable) && dir != []
    ensures dir[|dir| - 1].path == Path(v.segmentId, |log|)
    ensures SegmentsOf(dir, |log|) == v.segments
  {
    if !EmptyNewest(disk, |log|) {
      var path := Path(v.segmentId, v.base);
      CreateKeeps(disk, log, durable, path);
      assert dir[..|disk|] == disk;
      if disk != [] {
        var n := |disk| - 1;
        DoneNonempty(disk[n].path, log);
        assert v.segments == OlderSegments(disk[..n], disk[n].path.base) + [SegmentOf(disk[n].path, |log|)];
      }
    }
  }

  lemma {:induction false} DoneNonempty(path: Path, log: seq<Frame>)
    requires path.base <= |log| && PhaseOf(log[path.base..], path) == Done
    ensures path.base < |log|
  {
    PhaseReads(log[path.base..], path);
  }

  lemma {:induction false} OlderBelow(files: seq<File>, next: Path, log: seq<Frame>, j: nat)
    requires OlderHold(files, next, log) && j < |files|
    ensures files[j].path.base < next.base
  {
    var n := |files| - 1;
    if j < n { OlderBelow(files[..n], files[n].path, log, j); }
  }

  // a name with the next LSN as base is new, or that of the empty newest file
  lemma {:induction false} NameIsNew(disk: seq<File>, log: seq<Frame>, j: nat)
    requires FilesHold(disk, log) && j < |disk| && disk[j].path.base == |log|
    ensures j == |disk| - 1
  {
    if j < |disk| - 1 { OlderBelow(disk[..|disk| - 1], disk[|disk| - 1].path, log, j); }
  }

  // the segment header may be written to the opened file
  lemma {:induction false} HeaderFits(dir: seq<File>, log: seq<Frame>, version: Half,
                                      identity: seq<byte>, id: nat)
    requires |identity| == 64 && dir != [] && |log| + 1 < Long && id <= |log|
    requires dir[|dir| - 1].path == Path(id, |log|)
    ensures MayWrite(dir, log, HeaderFrame(|log|, version, identity, id, |log|))
  {
    HeaderPayloadRead(identity, id, |log|);
    assert log[|log|..] == [];
  }

  lemma {:induction false} HeaderStep(dir: seq<File>, log: seq<Frame>, v: Memory, f: Frame, disk': seq<File>)
    requires dir != [] && MayWrite(dir, log, f)
    requires dir[|dir| - 1].path == Path(v.segmentId, |log|)
    requires v.segments == SegmentsOf(dir, |log|) && v.next == |log| && v.space == 0 && v.base == |log|
    requires disk' == Written(dir, Encode(f))
    ensures var path := Path(v.segmentId, |log|);
      Running(disk', log + [f],
        Memory(v.segments + [Segment(v.segmentId, path, |log|, |log|, 1)], |log| + 1,
               v.segmentId, |dir| - 1, 1, v.base))
  {
    var n := |dir| - 1;
    var path := dir[n].path;
    StretchMore(log, path, f);
    assert log[path.base..] == [];
    assert disk'[..n] == dir[..n];
    assert v.segments == OlderSegments(dir[..n], path.base);
  }

  // a row or a seal goes to the open file
  lemma {:induction false} FrameFits(disk: seq<File>, log: seq<Frame>, v: Memory, f: Frame)
    requires Running(disk, log, v) && v.fd >= 0 && |log| + 1 < Long
    requires f.lsn == |log| && FrameOk(f) && f.kind != SegmentHeader
    ensures MayWrite(disk, log, f)
  {
  }

  lemma {:induction false} RowStep(disk: seq<File>, log: seq<Frame>, v: Memory, f: Frame, disk': seq<File>)
    requires Running(disk, log, v) && v.fd >= 0 && MayWrite(disk, log, f) && f.kind == Row
    requires disk' == Written(disk, Encode(f))
    ensures v.segments != []
    ensures Running(disk', log + [f],
      Memory(Bumped(v.segments, |log|), |log| + 1, v.segmentId, v.fd, v.space + 1, v.base))
  {
    var path := disk[|disk| - 1].path;
    StretchMore(log, path, f);
    SegmentsGrow(disk, disk', |log|);
  }

  lemma {:induction false} SealStep(disk: seq<File>, log: seq<Frame>, v: Memory, f: Frame, disk': seq<File>)
    requires Running(disk, log, v) && v.fd >= 0 && MayWrite(disk, log, f) && IsSeal(f)
    requires disk' == Flushed(Written(disk, Encode(f))) && v.segmentId < |log|
    ensures v.segments != []
    ensures Running(disk', log + [f],
      Memory(Bumped(v.segments, |log|), |log| + 1, v.segmentId + 1, -1, 0, |log| + 1))
  {
    var path := disk[|disk| - 1].path;
    StretchMore(log, path, f);
    SegmentsGrow(disk, disk', |log|);
  }

  // ---------- the whole state ----------

  datatype State = State(disk: seq<File>, ghost log: seq<Frame>, durable: nat, mem: Memory,
                         shut: bool, images: seq<Image>)

  // after shutdown nothing is written, and the final mark is not listed
  ghost predicate Stopped(disk: seq<File>, log: seq<Frame>, v: Memory) {
    v.fd == -1 && v.next <= |log| <= v.next + 1 && v.segments == SegmentsOf(disk, v.next)
    && (|log| > v.next ==> disk != [] && disk[|disk| - 1].path.base < v.next)
  }

  ghost predicate ValidState(s: State) {
    Recoverable(s.disk, s.log, s.durable)
    && (s.durable > 0 ==> s.durable < s.mem.next)
    && if s.shut then Stopped(s.disk, s.log, s.mem) else Running(s.disk, s.log, s.mem)
  }

  // a frame goes to the open file, nothing is synced
  ghost function WriteTo(s: State, f: Frame): State
    requires s.disk != []
  {
    var d, l := Written(s.disk, Encode(f)), s.log + [f];
    s.(disk := d, log := l, images := s.images + [Image(d, l, s.durable)])
  }

  ghost function FlushTo(s: State, durable: nat): State
    requires s.disk != []
  {
    var d := Flushed(s.disk);
    s.(disk := d, durable := durable, images := s.images + [Image(d, s.log, durable)])
  }

  function Opening(disk: seq<File>, path: Path): (r: seq<File>)
    ensures r != []
  {
    if disk != [] && disk[|disk| - 1].path == path then disk else disk + [File(path, [], 0)]
  }

  ghost function OpenTo(s: State): State {
    var d := Opening(s.disk, Path(s.mem.segmentId, s.mem.base));
    s.(disk := d, mem := s.mem.(fd := |d| - 1), images := s.images + [Image(d, s.log, s.durable)])
  }

  function HeaderMemory(v: Memory): Memory {
    v.(segments := v.segments + [Segment(v.segmentId, Path(v.segmentId, v.base), v.next, v.next, 1)],
       next := v.next + 1, space := v.space + 1)
  }

  // the header of a new segment
  ghost function HeaderTo(s: State, version: Half, identity: seq<byte>): (r: State)
    requires |identity| == 64 && s.disk != []
    ensures r.disk != [] && r.mem.segments != []
  {
    var f := HeaderFrame(s.mem.next, version, identity, s.mem.segmentId, s.mem.base);
    WriteTo(s, f).(mem := HeaderMemory(s.mem))
  }

  ghost function BeginSegment(s: State, version: Half, identity: seq<byte>): (r: State)
    requires |identity| == 64
    ensures r.disk != [] && r.mem.segments != []
  {
    HeaderTo(OpenTo(s), version, identity)
  }

  function RowMemory(v: Memory): Memory
    requires v.segments != []
  {
    v.(segments := Bumped(v.segments, v.next), next := v.next + 1, space := v.space + 1)
  }

  ghost function AddRow(s: State, version: Half, payload: seq<byte>): (r: State)
    requires s.disk != [] && s.mem.segments != []
    ensures r.disk != [] && r.mem.segments != []
  {
    WriteTo(s, RowFrame(s.mem.next, version, payload)).(mem := RowMemory(s.mem))
  }

  function SealMemory(v: Memory): Memory
    requires v.segments != []
  {
    Memory(Bumped(v.segments, v.next), v.next + 1, v.segmentId + 1, -1, 0, v.next + 1)
  }

  // a full segment is sealed, synced and closed
  ghost function SealSegment(s: State, version: Half): State
    requires s.disk != [] && s.mem.segments != []
  {
    var w := WriteTo(s, SealFrame(s.mem.next, version, s.mem.segmentId, s.mem.space));
    FlushTo(w, s.mem.next).(mem := SealMemory(s.mem))
  }

  // ---------- every step keeps the invariant ----------

  ghost predicate Ready(s: State) { ValidState(s) && !s.shut && s.mem.next + 1 < Long }

  ghost predicate Ongoing(s: State, log0: seq<Frame>, durable0: nat) {
    s.images != [] && Passed(s.images, log0, durable0) && log0 <= s.log && durable0 <= s.durable
    && Behind(s.images, s.log)
  }

  // no image is ahead of the log
  ghost predicate Behind(images: seq<Image>, log: seq<Frame>) {
    forall i :: 0 <= i < |images| ==> images[i].log <= log
  }

  // one more change, with its image
  lemma {:induction false} NotedOngoing(s: State, r: State, log0: seq<Frame>, durable0: nat)
    requires Ongoing(s, log0, durable0) && r.images == s.images + [Image(r.disk, r.log, r.durable)]
    requires s.log <= r.log && s.durable <= r.durable && Recoverable(r.disk, r.log, r.durable)
    ensures Ongoing(r, log0, durable0)
  {
    PassedMore(s.images, log0, durable0, Image(r.disk, r.log, r.durable));
  }

  lemma {:induction false} WriteOngoing(s: State, f: Frame, log0: seq<Frame>, durable0: nat)
    requires s.disk != [] && Ongoing(s, log0, durable0)
    requires Recoverable(Written(s.disk, Encode(f)), s.log + [f], s.durable)
    ensures Ongoing(WriteTo(s, f), log0, durable0)
  {
    NotedOngoing(s, WriteTo(s, f), log0, durable0);
  }

  lemma {:induction false} OpeningIs(s: State)
    requires Ready(s) && s.mem.fd < 0
    ensures Opened(s.disk, s.log, s.mem, Opening(s.disk, Path(s.mem.segmentId, s.mem.base)))
  {
    if !EmptyNewest(s.disk, |s.log|) && s.disk != [] {
      DoneNonempty(s.disk[|s.disk| - 1].path, s.log);
    }
  }

  lemma {:induction false} BeginKeeps(s: State, version: Half, identity: seq<byte>)
    requires |identity| == 64 && Ready(s) && s.mem.fd < 0
    ensures ValidState(BeginSegment(s, version, identity))
    ensures Recoverable(OpenTo(s).disk, s.log, s.durable)
  {
    var d := OpenTo(s).disk;
    var f := HeaderFrame(s.mem.next, version, identity, s.mem.segmentId, s.mem.base);
    OpeningIs(s);
    OpenKeeps(s.disk, s.log, s.durable, s.mem, d);
    HeaderFits(d, s.log, version, identity, s.mem.segmentId);
    WriteKeeps(d, s.log, s.durable, f);
    HeaderStep(d, s.log, s.mem, f, Written(d, Encode(f)));
  }

  lemma {:induction false} BeginOngoing(s: State, version: Half, identity: seq<byte>,
                                        log0: seq<Frame>, durable0: nat)
    requires |identity| == 64 && Ready(s) && s.mem.fd < 0 && Ongoing(s, log0, durable0)
    ensures Ongoing(BeginSegment(s, version, identity), log0, durable0)
  {
    BeginKeeps(s, version, identity);
    var o := OpenTo(s);
    NotedOngoing(s, o, log0, durable0);
    WriteOngoing(o, HeaderFrame(s.mem.next, version, identity, s.mem.segmentId, s.mem.base), log0, durable0);
  }

  lemma {:induction false} RowKeeps(s: State, version: Half, payload: seq<byte>)
    requires Ready(s) && s.mem.fd >= 0 && |payload| < Long
    ensures s.disk != [] && s.mem.segments != [] && ValidState(AddRow(s, version, payload))
  {
    var f := RowFrame(s.mem.next, version, payload);
    FrameFits(s.disk, s.log, s.mem, f);
    WriteKeeps(s.disk, s.log, s.durable, f);
    RowStep(s.disk, s.log, s.mem, f, Written(s.disk, Encode(f)));
  }

  lemma {:induction false} RowOngoing(s: State, version: Half, payload: seq<byte>,
                                      log0: seq<Frame>, durable0: nat)
    requires Ready(s) && s.mem.fd >= 0 && |payload| < Long && Ongoing(s, log0, durable0)
    ensures s.disk != [] && s.mem.segments != []
    ensures Ongoing(AddRow(s, version, payload), log0, durable0)
  {
    RowKeeps(s, version, payload);
    WriteOngoing(s, RowFrame(s.mem.next, version, payload), log0, durable0);
  }

  lemma {:induction false} SealKeeps(s: State, version: Half)
    requires Ready(s) && s.mem.fd >= 0
    ensures s.disk != [] && s.mem.segments != [] && ValidState(SealSegment(s, version))
    ensures var w := WriteTo(s, SealFrame(s.mem.next, version, s.mem.segmentId, s.mem.space));
      Recoverable(w.disk, w.log, w.durable)
    ensures s.durable <= s.mem.next
  {
    var f := SealFrame(s.mem.next, version, s.mem.segmentId, s.mem.space);
    FrameFits(s.disk, s.log, s.mem, f);
    WriteKeeps(s.disk, s.log, s.durable, f);
    var d := Written(s.disk, Encode(f));
    FlushKeeps(d, s.log + [f], s.durable, s.mem.next);
    SealRuns(s, f);
  }

  lemma {:induction false} SealRuns(s: State, f: Frame)
    requires Ready(s) && s.mem.fd >= 0 && s.disk != [] && MayWrite(s.disk, s.log, f) && IsSeal(f)
    ensures s.mem.segments != []
    ensures Running(Flushed(Written(s.disk, Encode(f))), s.log + [f],
      Memory(Bumped(s.mem.segments, |s.log|), |s.log| + 1, s.mem.segmentId + 1, -1, 0, |s.log| + 1))
  {
    SealStep(s.disk, s.log, s.mem, f, Flushed(Written(s.disk, Encode(f))));
  }

  lemma {:induction false} SealOngoing(s: State, version: Half, log0: seq<Frame>, durable0: nat)
    requires Ready(s) && s.mem.fd >= 0 && Ongoing(s, log0, durable0)
    ensures s.disk != [] && s.mem.segments != []
    ensures Ongoing(SealSegment(s, version), log0, durable0)
  {
    SealKeeps(s, version);
    var f := SealFrame(s.mem.next, version, s.mem.segmentId, s.mem.space);
    WriteOngoing(s, f, log0, durable0);
    var w := WriteTo(s, f);
    NotedOngoing(w, SealSegment(s, version), log0, durable0);
  }

  // ---------- append ----------

  lemma {:induction false} BegunOngoing(s: State)
    requires ValidState(s) && s.images == [Image(s.disk, s.log, s.durable)]
    ensures Ongoing(s, s.log, s.durable)
  {
  }

  ghost function ToRow(s: State, noise: Noise, identity: seq<byte>): (r: State)
    requires |identity| == 64
    requires s.mem.fd >= 0 ==> s.disk != [] && s.mem.segments != []
    ensures r.disk != [] && r.mem.segments != []
  {
    if s.mem.fd < 0 then BeginSegment(s, noise.header, identity) else s
  }

  ghost function FinishRow(o: State, maxSeg: nat, noise: Noise, payload: seq<byte>): State
    requires o.disk != [] && o.mem.segments != []
  {
    var r := AddRow(o, noise.row, payload);
    if r.mem.space >= maxSeg then SealSegment(r, noise.seal) else r
  }

  // the frames one append adds: a header when it begins a segment, the row,
  // a seal when the segment is full
  ghost function HeaderPart(v: Memory, noise: Noise, identity: seq<byte>): seq<Frame>
    requires |identity| == 64
  {
    if v.fd < 0 then [HeaderFrame(v.next, noise.header, identity, v.segmentId, v.next)] else []
  }

  ghost function RowPart(lsn: nat, id: nat, space: nat, maxSeg: nat, noise: Noise, payload: seq<byte>): seq<Frame> {
    [RowFrame(lsn, noise.row, payload)]
    + if space + 1 >= maxSeg then [SealFrame(lsn + 1, noise.seal, id, space + 1)] else []
  }

  ghost function AppendedFrames(v: Memory, maxSeg: nat, identity: seq<byte>, noise: Noise,
                                payload: seq<byte>): seq<Frame>
    requires |identity| == 64
  {
    var h := HeaderPart(v, noise, identity);
    h + RowPart(v.next + |h|, v.segmentId, v.space + |h|, maxSeg, noise, payload)
  }

  // The frames of one append, field by field: at LSN l a row with the
  // payload; before it a header if a segment is opened, behind it a seal if
  // the segment is full.
  ghost predicate RowAdded(log0: seq<Frame>, log: seq<Frame>, l: nat, opens: bool, full: bool, identity: seq<byte>,
                           id: nat, records: nat, noise: Noise, payload: seq<byte>)
  {
    log0 <= log && l == |log0| + (if opens then 1 else 0) && |log| == l + (if full then 2 else 1)
    && log[l].lsn == l && log[l].kind == 5 && log[l].version == noise.row && log[l].headerLength == 28
    && log[l].payload == payload
    && (opens ==> HeaderIs(log[l - 1], l - 1, noise.header, identity, id, l - 1))
    && (full ==> SealIs(log[l + 1], l + 1, noise.seal, id, records))
  }

  lemma {:induction false} AppendedRow(s: State, log: seq<Frame>, maxSeg: nat, identity: seq<byte>, noise: Noise,
                                       payload: seq<byte>) returns (l: nat)
    requires |identity| == 64 && ValidState(s) && !s.shut && s.mem.next + 3 < Long
    requires log == s.log + AppendedFrames(s.mem, maxSeg, identity, noise, payload)
    ensures s.mem.next == |s.log| && OnlyRow(log, s.mem.next, l, payload)
    ensures var records := s.mem.space + (if s.mem.fd < 0 then 2 else 1);
      RowAdded(s.log, log, l, s.mem.fd < 0, records >= maxSeg, identity, s.mem.segmentId, records, noise, payload)
  {
    IdBelow(s);
    l := RowFound(s.log, s.mem, log, maxSeg, identity, noise, payload);
  }

  lemma {:induction false} RowFound(log0: seq<Frame>, v: Memory, log: seq<Frame>, maxSeg: nat, identity: seq<byte>,
                                    noise: Noise, payload: seq<byte>) returns (l: nat)
    requires |identity| == 64 && v.next == |log0| && v.next + 3 < Long
    requires v.segmentId <= v.next && v.space <= v.next
    requires log == log0 + AppendedFrames(v, maxSeg, identity, noise, payload)
    ensures OnlyRow(log, v.next, l, payload)
    ensures var records := v.space + (if v.fd < 0 then 2 else 1);
      RowAdded(log0, log, l, v.fd < 0, records >= maxSeg, identity, v.segmentId, records, noise, payload)
  {
    l := v.next + (if v.fd < 0 then 1 else 0);
    var records := v.space + (if v.fd < 0 then 2 else 1);
    AddedRow(log0, v, log, maxSeg, identity, noise, payload);
    RowAmong(log0, v.next, log, l, v.fd < 0, records >= maxSeg, identity, v.segmentId, records, noise, payload);
  }

  lemma {:induction false} AddedRow(log0: seq<Frame>, v: Memory, log: seq<Frame>, maxSeg: nat, identity: seq<byte>,
                                    noise: Noise, payload: seq<byte>)
    requires |identity| == 64 && v.next == |log0| && v.next + 3 < Long
    requires v.segmentId <= v.next && v.space <= v.next
    requires log == log0 + AppendedFrames(v, maxSeg, identity, noise, payload)
    ensures var l, records := v.next + (if v.fd < 0 then 1 else 0), v.space + (if v.fd < 0 then 2 else 1);
      RowAdded(log0, log, l, v.fd < 0, records >= maxSeg, identity, v.segmentId, records, noise, payload)
  {
    var h, full := if v.fd < 0 then 1 else 0, v.space + (if v.fd < 0 then 2 else 1) >= maxSeg;
    var l := v.next + h;
    FramesAre(v, maxSeg, identity, noise, payload, h, full);
    var fs := AppendedFrames(v, maxSeg, identity, noise, payload);
    assert log[l] == fs[h];
    if v.fd < 0 {
      assert log[l - 1] == fs[0];
      HeaderFrameIs(l - 1, noise.header, identity, v.segmentId, l - 1);
    }
    if full {
      assert log[l + 1] == fs[h + 1];
      SealFrameIs(l + 1, noise.seal, v.segmentId, v.space + h + 1);
    }
  }

  lemma {:induction false} FramesAre(v: Memory, maxSeg: nat, identity: seq<byte>, noise: Noise, payload: seq<byte>,
                                     h: nat, full: bool)
    requires |identity| == 64 && h == (if v.fd < 0 then 1 else 0) && (full <==> v.space + h + 1 >= maxSeg)
    ensures var fs := AppendedFrames(v, maxSeg, identity, noise, payload);
      |fs| == h + (if full then 2 else 1) && fs[h] == RowFrame(v.next + h, noise.row, payload)
      && (v.fd < 0 ==> fs[0] == HeaderFrame(v.next, noise.header, identity, v.segmentId, v.next))
      && (full ==> fs[h + 1] == SealFrame(v.next + h + 1, noise.seal, v.segmentId, v.space + h + 1))
  {
  }

  lemma {:induction false} HeaderFrameIs(lsn: nat, version: Half, identity: seq<byte>, id: nat, base: nat)
    requires |identity| == 64 && id < Long && base < Long
    ensures HeaderIs(HeaderFrame(lsn, version, identity, id, base), lsn, version, identity, id, base)
  {
    HeaderPayloadIs(HeaderFrame(lsn, version, identity, id, base), identity, id, base);
  }

  lemma {:induction false} SealFrameIs(lsn: nat, version: Half, id: nat, records: nat)
    requires id < Long && lsn < Long && records < Long
    ensures SealIs(SealFrame(lsn, version, id, records), lsn, version, id, records)
  {
    SealPayloadIs(SealFrame(lsn, version, id, records), id, records);
  }

  // of the frames from that LSN on the row at l, with this payload, is the
  // only one; 5 is the record type of rows
  ghost predicate OnlyRow(log: seq<Frame>, from: nat, l: nat, payload: seq<byte>) {
    from <= l < |log| && log[l].lsn == l && log[l].kind == 5 && log[l].payload == payload
    && forall x :: from <= x < |log| && x != l ==> log[x].kind != 5
  }

  lemma {:induction false} RowAmong(log0: seq<Frame>, from: nat, log: seq<Frame>, l: nat, opens: bool, full: bool,
                                    identity: seq<byte>, id: nat, records: nat, noise: Noise, payload: seq<byte>)
    requires from == |log0| && RowAdded(log0, log, l, opens, full, identity, id, records, noise, payload)
    ensures OnlyRow(log, from, l, payload)
  {
  }

  lemma {:induction false} IdBelow(s: State)
    requires ValidState(s) && !s.shut
    ensures s.mem.next == |s.log| && s.mem.segmentId <= |s.log| && s.mem.space <= |s.log|
  {
  }

  lemma {:induction false} OpenFileListed(s: State)
    requires ValidState(s) && s.mem.fd >= 0
    ensures !s.shut && s.disk != [] && s.mem.segments != [] && s.mem.fd == |s.disk| - 1
  {
  }

  // an operation notes the directory it found first
  ghost function Begun(s: State): State { s.(images := [Image(s.disk, s.log, s.durable)]) }

  // an open file is in the directory and in the list
  ghost predicate OpenListed(s: State) { s.mem.fd >= 0 ==> s.disk != [] && s.mem.segments != [] }

  // the state an append leads to
  ghost function AppendTo(s: State, maxSeg: nat, identity: seq<byte>, noise: Noise, payload: seq<byte>): State
    requires |identity| == 64 && OpenListed(s)
  {
    if s.mem.fd >= 0 then FinishRow(s, maxSeg, noise, payload)
    else FinishRow(BeginSegment(s, noise.header, identity), maxSeg, noise, payload)
  }

  // appending is refused after shutdown
  ghost function AppendOp(s: State, maxSeg: nat, identity: seq<byte>, noise: Noise, payload: seq<byte>): State
    requires |identity| == 64 && OpenListed(s)
  {
    if s.shut then Begun(s) else AppendTo(Begun(s), maxSeg, identity, noise, payload)
  }

  lemma {:induction false} ValidListed(s: State)
    requires ValidState(s)
    ensures OpenListed(s)
  {
    if s.mem.fd >= 0 { OpenFileListed(s); }
  }

  lemma {:induction false} IdleBounds(s: State)
    requires ValidState(s) && !s.shut && s.mem.fd < 0
    ensures s.mem.base == s.mem.next && s.mem.segmentId <= s.mem.next
  {
  }

  lemma {:induction false} ToRowKeeps(s: State, noise: Noise, identity: seq<byte>,
                                      log0: seq<Frame>, durable0: nat)
    requires |identity| == 64 && Ready(s) && s.mem.next + 2 < Long && Ongoing(s, log0, durable0)
    ensures s.mem.fd >= 0 ==> s.disk != [] && s.mem.segments != []
    ensures var r := ToRow(s, noise, identity); Ready(r) && r.mem.fd >= 0 && Ongoing(r, log0, durable0)
  {
    if s.mem.fd < 0 {
      BeginKeeps(s, noise.header, identity);
      BeginOngoing(s, noise.header, identity, log0, durable0);
    } else {
      OpenFileListed(s);
    }
  }

  lemma {:induction false} ToRowBound(s: State, noise: Noise, identity: seq<byte>)
    requires |identity| == 64
    requires s.mem.fd >= 0 ==> s.disk != [] && s.mem.segments != []
    ensures ToRow(s, noise, identity).mem.next <= s.mem.next + 1
  {
  }

  lemma {:induction false} FinishKeeps(o: State, maxSeg: nat, noise: Noise, payload: seq<byte>,
                                       log0: seq<Frame>, durable0: nat)
    requires Ready(o) && o.mem.fd >= 0 && o.mem.next + 2 < Long && |payload| < Long
    requires Ongoing(o, log0, durable0)
    ensures o.disk != [] && o.mem.segments != []
    ensures var r := FinishRow(o, maxSeg, noise, payload);
      ValidState(r) && !r.shut && Ongoing(r, log0, durable0)
  {
    RowKeeps(o, noise.row, payload);
    RowOngoing(o, noise.row, payload, log0, durable0);
    var r := AddRow(o, noise.row, payload);
    assert Ready(r) && r.mem.fd >= 0;
    if r.mem.space >= maxSeg {
      SealKeeps(r, noise.seal);
      SealOngoing(r, noise.seal, log0, durable0);
    }
  }

  lemma {:induction false} ToRowLogs(s: State, noise: Noise, identity: seq<byte>)
    requires |identity| == 64 && (s.mem.fd < 0 ==> s.mem.base == s.mem.next)
    requires s.mem.fd >= 0 ==> s.disk != [] && s.mem.segments != []
    ensures var o := ToRow(s, noise, identity);
      ToRowLogged(s, o, HeaderPart(s.mem, noise, identity))
  {
  }

  lemma {:induction false} FinishLogs(o: State, maxSeg: nat, noise: Noise, payload: seq<byte>)
    requires o.disk != [] && o.mem.segments != [] && o.mem.fd >= 0
    ensures var r := FinishRow(o, maxSeg, noise, payload);
      FinishLogged(o, r, RowPart(o.mem.next, o.mem.segmentId, o.mem.space, maxSeg, noise, payload))
      && (r.mem.fd < 0 <==> o.mem.space + 1 >= maxSeg)
  {
  }

  lemma {:induction false} AppendJoin(s: State, o: State, r: State, h: seq<Frame>, p: seq<Frame>)
    requires ToRowLogged(s, o, h) && FinishLogged(o, r, p)
    ensures FinishLogged(s, r, h + p)
  {
    Regroup(s.log, h, p);
  }

  // opening and finishing together add exactly these frames
  lemma {:induction false} AppendDone(s: State, o: State, r: State, maxSeg: nat, identity: seq<byte>,
                                      noise: Noise, payload: seq<byte>)
    requires |identity| == 64 && ToRowLogged(s, o, HeaderPart(s.mem, noise, identity))
    requires FinishLogged(o, r, RowPart(o.mem.next, o.mem.segmentId, o.mem.space, maxSeg, noise, payload))
    ensures FinishLogged(s, r, AppendedFrames(s.mem, maxSeg, identity, noise, payload))
  {
    AppendJoin(s, o, r, HeaderPart(s.mem, noise, identity),
      RowPart(o.mem.next, o.mem.segmentId, o.mem.space, maxSeg, noise, payload));
  }

  ghost predicate ToRowLogged(s: State, o: State, h: seq<Frame>) {
    o.log == s.log + h && o.mem.next == s.mem.next + |h| && o.mem.space == s.mem.space + |h|
    && o.mem.segmentId == s.mem.segmentId && o.durable == s.durable && o.mem.fd >= 0
  }

  ghost predicate FinishLogged(o: State, r: State, added: seq<Frame>) {
    r.log == o.log + added && r.mem.next == o.mem.next + |added|
    && r.durable == (if r.mem.fd < 0 then r.mem.next - 1 else o.durable)
  }

  lemma {:induction false} Regroup<T>(a: seq<T>, b: seq<T>, c: seq<T>)
    ensures (a + b) + c == a + (b + c)
  {
  }

  // ---------- sync and shutdown ----------

  ghost function SyncTo(s: State): State
    requires s.mem.fd >= 0 ==> s.disk != []
  {
    if s.mem.fd < 0 then s else FlushTo(s, DurableOf(s.mem.next))
  }

  lemma {:induction false} SyncKeeps(s: State, log0: seq<Frame>, durable0: nat)
    requires ValidState(s) && Ongoing(s, log0, durable0)
    ensures s.mem.fd >= 0 ==> s.disk != []
    ensures ValidState(SyncTo(s)) && Ongoing(SyncTo(s), log0, durable0)
    ensures s.mem.fd >= 0 ==> Anchored(SyncTo(s).disk)
  {
    if s.mem.fd >= 0 {
      var d, n := Flushed(s.disk), DurableOf(s.mem.next);
      FlushKeeps(s.disk, s.log, s.durable, n);
      NotedOngoing(s, SyncTo(s), log0, durable0);
      FlushedAnchored(s.disk, s.log);
    }
  }

  lemma {:induction false} FlushedAnchored(disk: seq<File>, log: seq<Frame>)
    requires disk != [] && FilesHold(disk, log) && disk[|disk| - 1].path.base < |log|
    ensures Anchored(Flushed(disk))
  {
    var b := disk[|disk| - 1].path.base;
    FirstFrame(log, b, |log|);
  }

  ghost function ShutTo(s: State, version: Half, identity: seq<byte>, timestamp: nat): State
    requires s.mem.fd >= 0 ==> s.disk != []
  {
    if s.shut then s
    else if s.mem.fd < 0 then s.(shut := true)
    else
      var w := WriteTo(s, ShutdownFrame(s.mem.next, version, identity, timestamp));
      FlushTo(w, s.durable).(mem := s.mem.(fd := -1), shut := true)
  }

  lemma {:induction false} ShutKeeps(s: State, version: Half, identity: seq<byte>, timestamp: nat,
                                     log0: seq<Frame>, durable0: nat)
    requires |identity| == 64 && ValidState(s) && s.mem.next + 1 < Long && Ongoing(s, log0, durable0)
    ensures s.mem.fd >= 0 ==> s.disk != [] && !s.shut
    ensures var r := ShutTo(s, version, identity, timestamp);
      ValidState(r) && r.shut && Ongoing(r, log0, durable0)
  {
    if !s.shut && s.mem.fd >= 0 {
      var f := ShutdownFrame(s.mem.next, version, identity, timestamp);
      FrameFits(s.disk, s.log, s.mem, f);
      WriteKeeps(s.disk, s.log, s.durable, f);
      WriteOngoing(s, f, log0, durable0);
      var w := WriteTo(s, f);
      FlushKeeps(w.disk, w.log, w.durable, w.durable);
      NotedOngoing(w, ShutTo(s, version, identity, timestamp), log0, durable0);
      SegmentsStay(s.disk, Flushed(w.disk), s.mem.next);
    }
  }

  lemma {:induction false} SegmentsStay(disk: seq<File>, disk': seq<File>, top: nat)
    requires disk != [] && |disk'| == |disk| && disk'[..|disk| - 1] == disk[..|disk| - 1]
    requires disk'[|disk| - 1].path == disk[|disk| - 1].path
    ensures SegmentsOf(disk', top) == SegmentsOf(disk, top)
  {
  }

  // ---------- pruning ----------

  // the oldest segment goes, on disk and in the list
  ghost function RemoveOldest(s: State): State
    requires s.disk != [] && s.mem.segments != []
  {
    var d := s.disk[1..];
    var v := s.mem.(segments := s.mem.segments[1..], fd := if s.mem.fd < 0 then s.mem.fd else s.mem.fd - 1);
    s.(disk := d, mem := v, images := s.images + [Image(d, s.log, s.durable)])
  }

  // oldest segments go while they end below min and one stays
  ghost function PruneTo(s: State, min: nat): State
    decreases |s.mem.segments|
  {
    if |s.mem.segments| > 1 && s.disk != [] && s.mem.segments[0].last < min then PruneTo(RemoveOldest(s), min) else s
  }

  lemma {:induction false} OlderSegmentsTail(files: seq<File>, e: nat)
    requires files != []
    ensures |OlderSegments(files, e)| == |files|
    ensures OlderSegments(files[1..], e) == OlderSegments(files, e)[1..]
  {
    var n := |files| - 1;
    if n > 0 {
      OlderSegmentsTail(files[..n], files[n].path.base);
      assert files[1..][..n - 1] == files[..n][1..];
    }
  }

  lemma {:induction false} SegmentsTail(disk: seq<File>, top: nat)
    requires |SegmentsOf(disk, top)| > 1
    ensures |disk| > 1 && (|disk| == 2 ==> disk[1].path.base < top)
    ensures SegmentsOf(disk[1..], top) == SegmentsOf(disk, top)[1..]
  {
    var n := |disk| - 1;
    if n > 0 {
      OlderSegmentsTail(disk[..n], disk[n].path.base);
      assert disk[1..][..n - 1] == disk[..n][1..];
    }
  }

  lemma {:induction false} RemoveOldestKeeps(s: State, log0: seq<Frame>, durable0: nat)
    requires ValidState(s) && |s.mem.segments| > 1 && Ongoing(s, log0, durable0)
    ensures s.disk != [] && ValidState(RemoveOldest(s)) && Ongoing(RemoveOldest(s), log0, durable0)
  {
    var n := |s.disk| - 1;
    SegmentsTail(s.disk, s.mem.next);
    if n > 1 { OlderBelow(s.disk[..n], s.disk[n].path, s.log, 1); }
    RemoveKeeps(s.disk, s.log, s.durable);
    assert s.disk[1..][n - 1] == s.disk[n];
    RemovedRuns(s);
    NotedOngoing(s, RemoveOldest(s), log0, durable0);
  }

  lemma {:induction false} RemovedRuns(s: State)
    requires |s.disk| > 1 && s.mem.segments != []
    requires SegmentsOf(s.disk[1..], s.mem.next) == s.mem.segments[1..]
    requires if s.shut then Stopped(s.disk, s.log, s.mem) else Running(s.disk, s.log, s.mem)
    ensures var r := RemoveOldest(s); if r.shut then Stopped(r.disk, r.log, r.mem) else Running(r.disk, r.log, r.mem)
  {
    var n := |s.disk| - 1;
    assert s.disk[1..][n - 1] == s.disk[n];
  }

  // ---------- what the list says about the files ----------

  function EndOf(disk: seq<File>, i: nat, top: nat): nat
    requires i < |disk|
  {
    if i + 1 < |disk| then disk[i + 1].path.base else top
  }

  // entry i lists file i, whose frames begin at its base
  ghost predicate Listed(disk: seq<File>, log: seq<Frame>, top: nat, seg: Segment, i: nat) {
    i < |disk|
    && var p, e := disk[i].path, EndOf(disk, i, top);
       p.base < e <= |log| && seg == SegmentOf(p, e)
       && Holds(disk[i], log, EndOf(disk, i, |log|))
  }

  lemma {:induction false} OlderListed(files: seq<File>, next: Path, log: seq<Frame>, i: nat)
    requires OlderHold(files, next, log) && i < |files|
    ensures |OlderSegments(files, next.base)| == |files|
    ensures var p, e := files[i].path, EndOf(files, i, next.base);
      p.base < e && OlderSegments(files, next.base)[i] == SegmentOf(p, e) && Holds(files[i], log, e)
  {
    var e := EndOf(files, i, next.base);
    OlderHolds(files, next, log, i, e);
    OlderEntry(files, next.base, i, e);
  }

  lemma {:induction false} OlderHolds(files: seq<File>, next: Path, log: seq<Frame>, i: nat, e: nat)
    requires OlderHold(files, next, log) && i < |files| && e == EndOf(files, i, next.base)
    ensures files[i].path.base < e && Holds(files[i], log, e)
  {
    var n := |files| - 1;
    if i < n {
      OlderHolds(files[..n], files[n].path, log, i, e);
      assert files[i] == files[..n][i];
    }
  }

  lemma {:induction false} OlderEntry(files: seq<File>, top: nat, i: nat, e: nat)
    requires i < |files| && e == EndOf(files, i, top) && files[i].path.base < e
    ensures |OlderSegments(files, top)| == |files| && OlderSegments(files, top)[i] == SegmentOf(files[i].path, e)
  {
    OlderSegmentsTail(files, top);
    var n := |files| - 1;
    if i < n { OlderEntry(files[..n], files[n].path.base, i, e); }
  }

  lemma {:induction false} AllListed(disk: seq<File>, log: seq<Frame>, top: nat, i: nat)
    requires FilesHold(disk, log) && top <= |log| && i < |SegmentsOf(disk, top)|
    ensures Listed(disk, log, top, SegmentsOf(disk, top)[i], i)
  {
    var n := |disk| - 1;
    if n > 0 { OlderSegmentsTail(disk[..n], disk[n].path.base); }
    if i < n { FrontListed(disk, log, top, i, disk[..n]); }
  }

  lemma {:induction false} FrontListed(disk: seq<File>, log: seq<Frame>, top: nat, i: nat, older: seq<File>)
    requires FilesHold(disk, log) && top <= |log| && i < |disk| - 1 && older == disk[..|disk| - 1]
    requires i < |SegmentsOf(disk, top)|
    ensures Listed(disk, log, top, SegmentsOf(disk, top)[i], i)
  {
    var n := |disk| - 1;
    OlderListed(older, disk[n].path, log, i);
    assert EndOf(older, i, disk[n].path.base) == EndOf(disk, i, top) == EndOf(disk, i, |log|);
  }

  lemma {:induction false} ListLength(disk: seq<File>, top: nat)
    ensures |SegmentsOf(disk, top)|
         == if disk == [] then 0 else if disk[|disk| - 1].path.base < top then |disk| else |disk| - 1
  {
    if |disk| > 1 { OlderSegmentsTail(disk[..|disk| - 1], disk[|disk| - 1].path.base); }
  }

  // names do not repeat
  lemma {:induction false} BasesGrow(disk: seq<File>, log: seq<Frame>, i: nat, j: nat)
    requires FilesHold(disk, log) && i < j < |disk|
    ensures disk[i].path.base < disk[j].path.base
    decreases j
  {
    NextHigher(disk, log, j - 1);
    if i < j - 1 { BasesGrow(disk, log, i, j - 1); }
  }

  lemma {:induction false} NextHigher(disk: seq<File>, log: seq<Frame>, i: nat)
    requires FilesHold(disk, log) && i + 1 < |disk|
    ensures disk[i].path.base < disk[i + 1].path.base
  {
    var n := |disk| - 1;
    OlderHolds(disk[..n], disk[n].path, log, i, disk[i + 1].path.base);
  }

  // k is the place of the file of that name, or the end of the directory
  ghost predicate Finds(disk: seq<File>, path: Path, k: nat) {
    k <= |disk|
    && (k < |disk| ==> disk[k].path == path)
    && (k == |disk| ==> forall j :: 0 <= j < |disk| ==> disk[j].path != path)
  }

  function OpenedAt(disk: seq<File>, path: Path, k: nat): seq<File> {
    if k < |disk| then disk else disk + [File(path, [], 0)]
  }

  // looking the next segment's name up finds the file to reopen, or none
  lemma {:induction false} FindsOpening(s: State, path: Path, k: nat)
    requires Ready(s) && s.mem.fd < 0 && path == Path(s.mem.segmentId, s.mem.base)
    requires Finds(s.disk, path, k)
    ensures OpenedAt(s.disk, path, k) == Opening(s.disk, path) && k == |Opening(s.disk, path)| - 1
  {
    if k < |s.disk| { NameIsNew(s.disk, s.log, k); }
  }

  // ---------- looking an LSN up ----------

  function Start(disk: seq<File>, top: nat): nat {
    if disk == [] then top else disk[0].path.base
  }

  predicate Spans(seg: Segment, lsn: nat) { seg.base <= lsn <= seg.last }

  // an LSN past the entries before i is not before entry i
  lemma {:induction false} NextSpan(disk: seq<File>, log: seq<Frame>, top: nat, i: nat, lsn: nat)
    requires FilesHold(disk, log) && top <= |log| && i < |SegmentsOf(disk, top)|
    requires Start(disk, top) <= lsn
    requires i > 0 ==> SegmentsOf(disk, top)[i - 1].last < lsn
    ensures SegmentsOf(disk, top)[i].base <= lsn
  {
    AllListed(disk, log, top, i);
    if i > 0 { AllListed(disk, log, top, i - 1); }
  }

  lemma {:induction false} LastSpan(disk: seq<File>, log: seq<Frame>, top: nat)
    requires FilesHold(disk, log) && top <= |log|
    requires disk != [] ==> disk[|disk| - 1].path.base <= top
    ensures var segs := SegmentsOf(disk, top);
      if segs != [] then 0 < top && segs[|segs| - 1].last == top - 1 else Start(disk, top) == top
  {
    var segs := SegmentsOf(disk, top);
    ListLength(disk, top);
    if segs != [] { AllListed(disk, log, top, |segs| - 1); }
  }

  lemma {:induction false} NewestBelowNext(s: State)
    requires ValidState(s)
    ensures s.disk != [] ==> s.disk[|s.disk| - 1].path.base <= s.mem.next
    ensures s.mem.next <= |s.log| && s.mem.segments == SegmentsOf(s.disk, s.mem.next)
  {
  }

  // the frames of file i are a stretch of the log
  ghost predicate StretchOf(s: State, i: nat, b: nat, fs: seq<Frame>) {
    i < |s.disk| && b == s.disk[i].path.base && b + |fs| <= |s.log|
    && fs == s.log[b..b + |fs|] && s.disk[i].data == EncodeAll(fs) && AllOk(fs)
    && forall k :: 0 <= k < |fs| ==> fs[k].lsn == b + k
  }

  lemma {:induction false} StretchLsns(log: seq<Frame>, b: nat, e: nat)
    requires Numbered(log) && b <= e <= |log|
    ensures AllOk(log[b..e]) && forall k :: 0 <= k < e - b ==> log[b..e][k].lsn == b + k
  {
    forall k | 0 <= k < e - b ensures log[b..e][k].lsn == b + k && FrameOk(log[b..e][k]) {
      assert log[b..e][k] == log[b + k];
    }
  }

  lemma {:induction false} SpanBounds(disk: seq<File>, log: seq<Frame>, top: nat, i: nat, lsn: nat)
    requires FilesHold(disk, log) && top <= |log| && i < |SegmentsOf(disk, top)|
    requires disk != [] ==> disk[|disk| - 1].path.base <= top
    requires Spans(SegmentsOf(disk, top)[i], lsn)
    ensures i < |disk| && SegmentsOf(disk, top)[i].path == disk[i].path
    ensures disk[i].path.base <= lsn < EndOf(disk, i, |log|)
    ensures Holds(disk[i], log, EndOf(disk, i, |log|))
    ensures Start(disk, top) <= lsn < top
  {
    AllListed(disk, log, top, i);
    BasesRise(disk, log);
    EndBelow(disk, top, i);
  }

  ghost predicate Rising(disk: seq<File>) {
    forall i, j :: 0 <= i < j < |disk| ==> disk[i].path.base < disk[j].path.base
  }

  lemma {:induction false} BasesRise(disk: seq<File>, log: seq<Frame>)
    requires FilesHold(disk, log)
    ensures Rising(disk)
  {
    forall i, j | 0 <= i < j < |disk| ensures disk[i].path.base < disk[j].path.base { BasesGrow(disk, log, i, j); }
  }

  lemma {:induction false} EndBelow(disk: seq<File>, top: nat, i: nat)
    requires Rising(disk) && i < |disk| && disk[|disk| - 1].path.base <= top
    ensures Start(disk, top) <= disk[i].path.base && EndOf(disk, i, top) <= top
  {
  }

  // an entry that spans an LSN leads to the file that holds it
  lemma {:induction false} SpanHolds(s: State, i: nat, lsn: nat) returns (fs: seq<Frame>)
    requires ValidState(s) && i < |s.mem.segments| && Spans(s.mem.segments[i], lsn)
    ensures i < |s.disk| && s.mem.segments[i].path == s.disk[i].path
    ensures StretchOf(s, i, s.disk[i].path.base, fs)
    ensures s.disk[i].path.base <= lsn < s.disk[i].path.base + |fs|
    ensures Start(s.disk, s.mem.next) <= lsn < s.mem.next <= |s.log|
    ensures fs[lsn - s.disk[i].path.base] == s.log[lsn]
  {
    NewestBelowNext(s);
    SpanBounds(s.disk, s.log, s.mem.next, i, lsn);
    fs := s.log[s.disk[i].path.base..EndOf(s.disk, i, |s.log|)];
    MakeStretch(s, i, EndOf(s.disk, i, |s.log|), fs, lsn);
  }

  lemma {:induction false} MakeStretch(s: State, i: nat, e: nat, fs: seq<Frame>, lsn: nat)
    requires Numbered(s.log) && i < |s.disk| && Holds(s.disk[i], s.log, e)
    requires fs == s.log[s.disk[i].path.base..e] && s.disk[i].path.base <= lsn < e
    ensures StretchOf(s, i, s.disk[i].path.base, fs)
    ensures s.disk[i].path.base + |fs| == e && fs[lsn - s.disk[i].path.base] == s.log[lsn]
  {
    StretchLsns(s.log, s.disk[i].path.base, e);
  }

  lemma {:induction false} FindsSelf(s: State, i: nat, k: nat)
    requires ValidState(s) && i < |s.disk| && Finds(s.disk, s.disk[i].path, k)
    ensures k == i
  {
    if k < i { BasesGrow(s.disk, s.log, k, i); }
    if i < k < |s.disk| { BasesGrow(s.disk, s.log, i, k); }
  }

  // the entries before i end below an LSN the log still has
  ghost predicate Passing(s: State, lsn: nat, i: nat) {
    i <= |s.mem.segments| && (Start(s.disk, s.mem.next) <= lsn && i > 0 ==> s.mem.segments[i - 1].last < lsn)
  }

  lemma {:induction false} PassOne(s: State, lsn: nat, i: nat)
    requires ValidState(s) && Passing(s, lsn, i) && i < |s.mem.segments| && !Spans(s.mem.segments[i], lsn)
    ensures Passing(s, lsn, i + 1)
  {
    NewestBelowNext(s);
    if Start(s.disk, s.mem.next) <= lsn { NextSpan(s.disk, s.log, s.mem.next, i, lsn); }
  }

  lemma {:induction false} PassAll(s: State, lsn: nat)
    requires ValidState(s) && Passing(s, lsn, |s.mem.segments|)
    ensures !(Start(s.disk, s.mem.next) <= lsn < s.mem.next)
  {
    NewestBelowNext(s);
    LastSpan(s.disk, s.log, s.mem.next);
  }

  lemma {:induction false} ListedGrow(disk: seq<File>, log: seq<Frame>, top: nat, a: Segment, b: Segment, i: nat,
                                      j: nat)
    requires FilesHold(disk, log) && Listed(disk, log, top, a, i) && Listed(disk, log, top, b, j) && i < j
    ensures a.last < b.last
  {
    if i + 1 < j { BasesGrow(disk, log, i + 1, j); }
  }

  lemma {:induction false} ListGrows(disk: seq<File>, log: seq<Frame>, top: nat, i: nat, j: nat)
    requires FilesHold(disk, log) && top <= |log| && i < j < |SegmentsOf(disk, top)|
    ensures SegmentsOf(disk, top)[i].last < SegmentsOf(disk, top)[j].last
  {
    var list := SegmentsOf(disk, top);
    AllListed(disk, log, top, i);
    AllListed(disk, log, top, j);
    ListedGrow(disk, log, top, list[i], list[j], i, j);
  }

  lemma {:induction false} LastsGrow(s: State, i: nat, j: nat)
    requires ValidState(s) && i < j < |s.mem.segments|
    ensures s.mem.segments[i].last < s.mem.segments[j].last
  {
    NewestBelowNext(s);
    ListGrows(s.disk, s.log, s.mem.next, i, j);
  }

  // an entry names its file, the LSNs in it and how many they are
  lemma {:induction false} EntryIs(s: State, i: nat)
    requires ValidState(s) && i < |s.mem.segments|
    ensures i < |s.disk| && 0 < (if i + 1 < |s.disk| then s.disk[i + 1].path.base else s.mem.next)
    ensures var seg, p := s.mem.segments[i], s.disk[i].path;
      seg.path == p && seg.id == p.id && seg.base == p.base
      && seg.last == (if i + 1 < |s.disk| then s.disk[i + 1].path.base else s.mem.next) - 1
      && seg.count == seg.last - seg.base + 1
  {
    NewestBelowNext(s);
    AllListed(s.disk, s.log, s.mem.next, i);
  }

  // the oldest entry, its file, and where the next one starts
  lemma {:induction false} OldestListed(s: State)
    requires ValidState(s) && |s.mem.segments| > 1
    ensures |s.disk| > 1 && s.mem.segments[0].path == s.disk[0].path
    ensures Start(s.disk[1..], s.mem.next) == s.mem.segments[0].last + 1
    ensures Start(s.disk, s.mem.next) <= s.mem.segments[0].last
  {
    NewestBelowNext(s);
    AllListed(s.disk, s.log, s.mem.next, 0);
    SegmentsTail(s.disk, s.mem.next);
  }

  lemma {:induction false} StartBelowNext(s: State)
    requires ValidState(s)
    ensures Start(s.disk, s.mem.next) <= s.mem.next
  {
    NewestBelowNext(s);
    FirstBelow(s.disk, s.log);
  }

  lemma {:induction false} FirstBelow(disk: seq<File>, log: seq<Frame>)
    requires FilesHold(disk, log)
    ensures disk != [] ==> disk[0].path.base <= disk[|disk| - 1].path.base
  {
    if |disk| > 1 { BasesGrow(disk, log, 0, |disk| - 1); }
  }

  // ---------- appending leaves the oldest LSN alone ----------

  function StartOf(s: State): nat { Start(s.disk, s.mem.next) }

  lemma {:induction false} WrittenStart(disk: seq<File>, file: File, top: nat, top': nat)
    requires disk != [] && file.path == disk[|disk| - 1].path
    ensures Start(Replaced(disk, file), top') == Start(disk, top)
  {
  }

  lemma {:induction false} ToRowStart(s: State, noise: Noise, identity: seq<byte>)
    requires |identity| == 64 && (s.mem.fd < 0 ==> s.mem.base == s.mem.next)
    requires s.mem.fd >= 0 ==> s.disk != [] && s.mem.segments != []
    ensures StartOf(ToRow(s, noise, identity)) == StartOf(s)
  {
    if s.mem.fd < 0 {
      var o := OpenTo(s);
      var f := HeaderFrame(s.mem.next, noise.header, identity, s.mem.segmentId, s.mem.base);
      var last := o.disk[|o.disk| - 1];
      WrittenStart(o.disk, last.(data := last.data + Encode(f)), s.mem.next, s.mem.next + 1);
    }
  }

  lemma {:induction false} WriteToStart(s: State, f: Frame, v: Memory)
    requires s.disk != []
    ensures StartOf(WriteTo(s, f).(mem := v)) == StartOf(s) && WriteTo(s, f).disk != []
  {
    var last := s.disk[|s.disk| - 1];
    WrittenStart(s.disk, last.(data := last.data + Encode(f)), s.mem.next, v.next);
  }

  lemma {:induction false} FlushToStart(s: State, durable: nat, v: Memory)
    requires s.disk != []
    ensures StartOf(FlushTo(s, durable).(mem := v)) == StartOf(s)
  {
    var last := s.disk[|s.disk| - 1];
    WrittenStart(s.disk, last.(synced := |last.data|), s.mem.next, v.next);
  }

  lemma {:induction false} FinishStart(o: State, maxSeg: nat, noise: Noise, payload: seq<byte>)
    requires o.disk != [] && o.mem.segments != []
    ensures StartOf(FinishRow(o, maxSeg, noise, payload)) == StartOf(o)
  {
    WriteToStart(o, RowFrame(o.mem.next, noise.row, payload), RowMemory(o.mem));
    var r := AddRow(o, noise.row, payload);
    if r.mem.space >= maxSeg {
      var f := SealFrame(r.mem.next, noise.seal, r.mem.segmentId, r.mem.space);
      WriteToStart(r, f, r.mem);
      FlushToStart(WriteTo(r, f), r.mem.next, SealMemory(r.mem));
    }
  }

  lemma {:induction false} ShutStart(s: State, version: Half, identity: seq<byte>, timestamp: nat)
    requires s.mem.fd >= 0 ==> s.disk != []
    ensures StartOf(ShutTo(s, version, identity, timestamp)) == StartOf(s)
  {
    if !s.shut && s.mem.fd >= 0 {
      var f := ShutdownFrame(s.mem.next, version, identity, timestamp);
      WriteToStart(s, f, s.mem);
      FlushToStart(WriteTo(s, f), s.durable, s.mem.(fd := -1));
    }
  }

  // the mark a shutdown leaves when a segment is open
  ghost function ShutdownPart(v: Memory, version: Half, identity: seq<byte>, timestamp: nat): seq<Frame> {
    if v.fd < 0 then [] else [ShutdownFrame(v.next, version, identity, timestamp)]
  }

  lemma {:induction false} MarkAdded(s: State, r: State, version: Half, identity: seq<byte>, timestamp: nat)
    requires |identity| == 64 && s.mem.fd >= 0 && s.mem.next == |s.log| && s.mem.next + 1 < Long
    requires r.log == s.log + ShutdownPart(s.mem, version, identity, timestamp)
    ensures |r.log| == |s.log| + 1 && s.log <= r.log
    ensures timestamp < Long ==> MarkIs(r.log[s.mem.next], s.mem.next, version, identity, timestamp)
  {
    var f := r.log[s.mem.next];
    assert f == ShutdownFrame(s.mem.next, version, identity, timestamp);
    if timestamp < Long { MarkPayloadIs(f, identity, timestamp); }
  }

  lemma {:induction false} ShutDone(s: State, version: Half, identity: seq<byte>, timestamp: nat)
    requires s.mem.fd >= 0 ==> s.disk != [] && !s.shut
    ensures var r := ShutTo(s, version, identity, timestamp);
      r.log == s.log + ShutdownPart(s.mem, version, identity, timestamp) && StartOf(r) == StartOf(s)
  {
    ShutStart(s, version, identity, timestamp);
  }
}
