/**
 * Whole runs of the write-ahead log (v1/Wal.hpp): any sequence of operations
 * and crashes.
 */
module WalRuns {
  import opened WalCodec
  import opened WalLog
  import opened WalCrash
  import opened WalSteps
  import opened WalModel

  datatype Op =
    | Append(payload: seq<byte>, noise: Noise)
    | Sync
    | Shutdown(version: Half, timestamp: nat)
    | Prune

  // a crash strikes at one of the moments an operation passes through and
  // leaves some length of the newest file, or none of it
  datatype Event = Do(op: Op) | Crash(op: Op, moment: nat, keep: nat, lose: bool)

  function CutDisk(disk: seq<File>, keep: nat, lose: bool): seq<File> {
    if disk == [] then [] else
    var last := disk[|disk| - 1];
    if lose && last.synced == 0 then disk[..|disk| - 1] else
    var n := if keep < last.synced then last.synced else if |last.data| < keep then |last.data| else keep;
    if last.synced <= |last.data|
    then Replaced(disk, File(last.path, last.data[..n], n))
    else disk
  }

  lemma {:induction false} CutDiskCrashes(disk: seq<File>, log: seq<Frame>, durable: nat, keep: nat, lose: bool)
    requires Recoverable(disk, log, durable)
    ensures CrashOf(disk, CutDisk(disk, keep, lose))
  {
  }

  // every crash is one of these
  lemma {:induction false} EveryCrash(disk: seq<File>, after: seq<File>) returns (keep: nat, lose: bool)
    requires CrashOf(disk, after)
    ensures after == CutDisk(disk, keep, lose)
  {
    keep, lose := 0, disk != [] && disk[|disk| - 1].synced == 0 && after == disk[..|disk| - 1];
    if disk != [] && !lose { keep := |after[|after| - 1].data|; }
  }

  ghost predicate OpOk(op: Op) { op.Append? ==> |op.payload| < Long }

  // ---------- one operation ----------

  // What an operation makes of a state; pruning spares what min and later
  // LSNs need.  64-bit LSNs do not run out.
  ghost function OpTo(s: State, op: Op, maxSeg: nat, identity: seq<byte>, min: nat): State
    requires |identity| == 64 && OpenListed(s)
  {
    match op
    case Append(payload, noise) =>
      if s.mem.next + 3 >= Long then Begun(s) else AppendOp(s, maxSeg, identity, noise, payload)
    case Sync => if s.mem.fd < 0 then Begun(s) else SyncTo(Begun(s))
    case Shutdown(version, timestamp) =>
      if s.mem.next + 1 >= Long then Begun(s) else ShutTo(Begun(s), version, identity, timestamp)
    case Prune => PruneTo(Begun(s), min)
  }

  // the operation, sparing what the least pin and later LSNs need
  ghost predicate DidOp(s: State, op: Op, readers: map<int, nat>, maxSeg: nat, identity: seq<byte>, r: State)
    requires |identity| == 64 && OpenListed(s)
  {
    forall min: nat {:trigger LeastPin(readers, s.mem.next, min)} ::
      LeastPin(readers, s.mem.next, min) ==> r == OpTo(s, op, maxSeg, identity, min)
  }

  lemma {:induction false} OnlyMin(s: State, op: Op, readers: map<int, nat>, maxSeg: nat, identity: seq<byte>,
                                   r: State, min: nat)
    requires |identity| == 64 && OpenListed(s) && r == OpTo(s, op, maxSeg, identity, min)
    requires op.Prune? ==> LeastPin(readers, s.mem.next, min)
    ensures DidOp(s, op, readers, maxSeg, identity, r)
  {
    forall m: nat | LeastPin(readers, s.mem.next, m) ensures r == OpTo(s, op, maxSeg, identity, m) {
      if op.Prune? { OneLeast(readers, s.mem.next, min, m); } else { MinUnused(s, op, maxSeg, identity, min, m); }
    }
  }

  lemma {:induction false} OneLeast(readers: map<int, nat>, next: nat, a: nat, b: nat)
    requires LeastPin(readers, next, a) && LeastPin(readers, next, b)
    ensures a == b
  {
  }

  lemma {:induction false} MinUnused(s: State, op: Op, maxSeg: nat, identity: seq<byte>, a: nat, b: nat)
    requires |identity| == 64 && OpenListed(s) && !op.Prune?
    ensures OpTo(s, op, maxSeg, identity, a) == OpTo(s, op, maxSeg, identity, b)
  {
  }

  // the log is valid, and so was every state since it stood at log0
  ghost predicate Sound(w: Wal, log0: seq<Frame>, durable0: nat)
    reads w, w.table
  {
    w.Valid() && Ongoing(w.Abs(), log0, durable0)
  }

  ghost predicate Stepped(w: Wal, next0: nat, readers0: map<int, nat>)
    reads w
  {
    next0 <= w.nextLsn && w.readers == readers0
  }

  // what a pin protected is still there
  ghost predicate PinsKept(w: Wal, start0: nat)
    reads w
  {
    forall id :: id in w.readers && start0 <= w.readers[id] ==> Start(w.disk, w.nextLsn) <= w.readers[id]
  }

  lemma {:induction false} AppendIs(s: State, payload: seq<byte>, noise: Noise, maxSeg: nat, identity: seq<byte>)
    requires |identity| == 64 && OpenListed(s) && s.mem.next + 3 < Long
    ensures OpTo(s, Append(payload, noise), maxSeg, identity, 0) == AppendOp(s, maxSeg, identity, noise, payload)
  {
  }

  method AppendPlain(w: Wal, payload: seq<byte>, noise: Noise)
    requires w.Valid() && w.nextLsn + 3 < Long && |payload| < Long
    modifies w
    ensures Sound(w, old(w.log), old(w.durableLsn)) && Stepped(w, old(w.nextLsn), old(w.readers))
    ensures OpenListed(old(w.Abs())) && w.Abs() == AppendOp(old(w.Abs()), w.maxSeg, w.identity, noise, payload)
    ensures Start(w.disk, w.nextLsn) == old(Start(w.disk, w.nextLsn))
  {
    var ok;
    ghost var l;
    ok, l := w.Append(payload, noise);
  }

  method AppendOnce(w: Wal, payload: seq<byte>, noise: Noise)
    requires w.Valid() && w.nextLsn + 3 < Long && |payload| < Long
    modifies w
    ensures Sound(w, old(w.log), old(w.durableLsn)) && Stepped(w, old(w.nextLsn), old(w.readers))
    ensures OpenListed(old(w.Abs())) && w.Abs() == OpTo(old(w.Abs()), Append(payload, noise), w.maxSeg, w.identity, 0)
    ensures Start(w.disk, w.nextLsn) == old(Start(w.disk, w.nextLsn))
  {
    ghost var s := w.Abs();
    AppendPlain(w, payload, noise);
    AppendIs(s, payload, noise, w.maxSeg, w.identity);
  }

  method StepAppend(w: Wal, payload: seq<byte>, noise: Noise)
    requires w.Valid() && |payload| < Long
    modifies w
    ensures Sound(w, old(w.log), old(w.durableLsn)) && Stepped(w, old(w.nextLsn), old(w.readers))
    ensures OpenListed(old(w.Abs())) && w.Abs() == OpTo(old(w.Abs()), Append(payload, noise), w.maxSeg, w.identity, 0)
    ensures Start(w.disk, w.nextLsn) == old(Start(w.disk, w.nextLsn))
  {
    if w.nextLsn + 3 < Long { AppendOnce(w, payload, noise); } else { w.Mark(); }
  }

  lemma {:induction false} ShutdownIs(s: State, version: Half, timestamp: nat, maxSeg: nat, identity: seq<byte>)
    requires |identity| == 64 && OpenListed(s) && s.mem.next + 1 < Long
    ensures s.mem.fd >= 0 ==> s.disk != []
    ensures OpTo(s, Shutdown(version, timestamp), maxSeg, identity, 0) == ShutTo(Begun(s), version, identity, timestamp)
  {
  }

  method ShutdownOnce(w: Wal, version: Half, timestamp: nat)
    requires w.Valid() && w.nextLsn + 1 < Long
    modifies w
    ensures Sound(w, old(w.log), old(w.durableLsn)) && Stepped(w, old(w.nextLsn), old(w.readers))
    ensures OpenListed(old(w.Abs()))
    ensures w.Abs() == OpTo(old(w.Abs()), Shutdown(version, timestamp), w.maxSeg, w.identity, 0)
    ensures Start(w.disk, w.nextLsn) == old(Start(w.disk, w.nextLsn))
  {
    ghost var s := w.Abs();
    ShutdownIs(s, version, timestamp, w.maxSeg, w.identity);
    w.Shutdown(version, timestamp);
  }

  method StepShutdown(w: Wal, version: Half, timestamp: nat)
    requires w.Valid()
    modifies w
    ensures Sound(w, old(w.log), old(w.durableLsn)) && Stepped(w, old(w.nextLsn), old(w.readers))
    ensures OpenListed(old(w.Abs()))
    ensures w.Abs() == OpTo(old(w.Abs()), Shutdown(version, timestamp), w.maxSeg, w.identity, 0)
    ensures Start(w.disk, w.nextLsn) == old(Start(w.disk, w.nextLsn))
  {
    if w.nextLsn + 1 < Long { ShutdownOnce(w, version, timestamp); } else { w.Mark(); }
  }

  method SyncPlain(w: Wal)
    requires w.Valid()
    modifies w
    ensures Sound(w, old(w.log), old(w.durableLsn)) && Stepped(w, old(w.nextLsn), old(w.readers))
    ensures OpenListed(old(w.Abs())) && w.Abs() == SyncTo(Begun(old(w.Abs())))
    ensures Start(w.disk, w.nextLsn) == old(Start(w.disk, w.nextLsn))
  {
    ValidListed(w.Abs());
    w.Sync();
  }

  method StepSync(w: Wal)
    requires w.Valid()
    modifies w
    ensures Sound(w, old(w.log), old(w.durableLsn)) && Stepped(w, old(w.nextLsn), old(w.readers))
    ensures OpenListed(old(w.Abs())) && w.Abs() == OpTo(old(w.Abs()), Sync, w.maxSeg, w.identity, 0)
    ensures Start(w.disk, w.nextLsn) == old(Start(w.disk, w.nextLsn))
  {
    ghost var s := w.Abs();
    SyncPlain(w);
    SyncIs(s, w.maxSeg, w.identity);
  }

  lemma {:induction false} SyncIs(s: State, maxSeg: nat, identity: seq<byte>)
    requires |identity| == 64 && OpenListed(s)
    ensures OpTo(s, Sync, maxSeg, identity, 0) == if s.mem.fd < 0 then Begun(s) else SyncTo(Begun(s))
  {
  }

  method PruneOnce(w: Wal) returns (min: nat)
    requires w.Valid()
    modifies w`disk, w`segments, w`fd, w`images
    ensures Sound(w, w.log, w.durableLsn) && LeastPin(w.readers, w.nextLsn, min)
    ensures w.Abs() == PruneTo(Begun(old(w.Abs())), min)
    ensures PinsKept(w, old(Start(w.disk, w.nextLsn))) && old(Start(w.disk, w.nextLsn)) <= Start(w.disk, w.nextLsn)
  {
    ghost var disk, k := w.disk, 0;
    k, min := w.ExecutePruneProcess();
    assert k == 0 ==> disk[0..] == disk;
    PinsStay(w, old(Start(w.disk, w.nextLsn)), k, min);
  }

  method StepPrune(w: Wal) returns (min: nat)
    requires w.Valid()
    modifies w`disk, w`segments, w`fd, w`images
    ensures Sound(w, old(w.log), old(w.durableLsn)) && Stepped(w, old(w.nextLsn), old(w.readers))
    ensures LeastPin(w.readers, w.nextLsn, min) && w.nextLsn == old(w.nextLsn)
    ensures OpenListed(old(w.Abs())) && w.Abs() == OpTo(old(w.Abs()), Prune, w.maxSeg, w.identity, min)
    ensures PinsKept(w, old(Start(w.disk, w.nextLsn))) && old(Start(w.disk, w.nextLsn)) <= Start(w.disk, w.nextLsn)
  {
    ghost var s := w.Abs();
    ValidListed(s);
    min := PruneOnce(w);
    PruneIs(s, w.maxSeg, w.identity, min);
  }

  lemma {:induction false} PruneIs(s: State, maxSeg: nat, identity: seq<byte>, min: nat)
    requires |identity| == 64 && OpenListed(s)
    ensures OpTo(s, Prune, maxSeg, identity, min) == PruneTo(Begun(s), min)
  {
  }

  lemma {:induction false} PinsStay(w: Wal, start0: nat, k: nat, min: nat)
    requires LeastPin(w.readers, w.nextLsn, min) && start0 <= Start(w.disk, w.nextLsn)
    requires k > 0 ==> Start(w.disk, w.nextLsn) <= min
    requires k == 0 ==> Start(w.disk, w.nextLsn) == start0
    ensures PinsKept(w, start0)
  {
  }

  method Step(w: Wal, op: Op)
    requires w.Valid() && OpOk(op)
    modifies w
    ensures Sound(w, old(w.log), old(w.durableLsn)) && Stepped(w, old(w.nextLsn), old(w.readers))
    ensures OpenListed(old(w.Abs())) && DidOp(old(w.Abs()), op, w.readers, w.maxSeg, w.identity, w.Abs())
    ensures PinsKept(w, old(Start(w.disk, w.nextLsn))) && old(Start(w.disk, w.nextLsn)) <= Start(w.disk, w.nextLsn)
  {
    var min := StepOne(w, op);
    OnlyMin(old(w.Abs()), op, w.readers, w.maxSeg, w.identity, w.Abs(), min);
  }

  method StepOne(w: Wal, op: Op) returns (min: nat)
    requires w.Valid() && OpOk(op)
    modifies w
    ensures Sound(w, old(w.log), old(w.durableLsn)) && Stepped(w, old(w.nextLsn), old(w.readers))
    ensures OpenListed(old(w.Abs())) && w.Abs() == OpTo(old(w.Abs()), op, w.maxSeg, w.identity, min)
    ensures op.Prune? ==> LeastPin(w.readers, w.nextLsn, min) && w.nextLsn == old(w.nextLsn)
    ensures PinsKept(w, old(Start(w.disk, w.nextLsn))) && old(Start(w.disk, w.nextLsn)) <= Start(w.disk, w.nextLsn)
  {
    min := 0;
    match op
    case Append(payload, noise) => StepAppend(w, payload, noise);
    case Sync => StepSync(w);
    case Shutdown(version, timestamp) => StepShutdown(w, version, timestamp);
    case Prune => min := StepPrune(w);
  }

  // ---------- one event ----------

  // the state after the operation; the image and the files a crash struck
  // at; the state in the end
  datatype Turn = Turn(after: State, im: Image, files: seq<File>, now: State)

  const Empty: State := State([], [], 0, Blank, false, [])

  // the state a restarted log is in
  ghost predicate StartsFrom(im: Image, files: seq<File>, r: State) {
    if Erased(im.disk, im.log, files) then r == Empty
    else
      ValidState(r) && !r.shut && r.images == [] && Resumed(r.log, im, files) && r.durable == DurableOf(r.mem.next)
      && exists scans :: Trims(files, scans, r.disk) && r.mem == Settled(Rebuild(files, scans))
  }

  // an operation, and the crash at one of its moments
  ghost predicate TurnOf(s: State, e: Event, t: Turn, maxSeg: nat, identity: seq<byte>)
    requires |identity| == 64
  {
    OpenListed(s) && DidOp(s, e.op, map[], maxSeg, identity, t.after)
    && ValidState(t.after) && Ongoing(t.after, s.log, s.durable)
    && match e
       case Do(_) => t.now == t.after
       case Crash(_, moment, keep, lose) =>
         t.im == t.after.images[moment % |t.after.images|] && t.files == CutDisk(t.im.disk, keep, lose)
         && CrashImage(t.im, t.files) && StartsFrom(t.im, t.files, t.now)
  }

  ghost predicate Wipes(e: Event, t: Turn) {
    e.Crash? && Erased(t.im.disk, t.im.log, t.files)
  }

  // a file that begins behind LSN 0 in a log without LSNs is what an erasing
  // crash left
  ghost predicate Stray(s: State) { s.mem.next == 0 && s.disk != [] && s.disk[0].path.base > 0 }

  lemma {:induction false} StrayErased(im: Image, files: seq<File>, s: State)
    requires CrashImage(im, files) && RestartedFrom(im, files, s) && !s.shut
    ensures Stray(s) ==> Erased(im.disk, im.log, files)
  {
  }

  lemma {:induction false} ErasedStray(im: Image, files: seq<File>, scans: seq<seq<Frame>>, s: State)
    requires CrashImage(im, files) && Erased(im.disk, im.log, files) && RestartedFrom(im, files, s)
    requires Trims(files, scans, s.disk)
    ensures s.disk == [] || Stray(s)
  {
  }

  // what opening the files leads to
  ghost predicate Opened(im: Image, files: seq<File>, s: State) {
    RestartedFrom(im, files, s) && s.durable == DurableOf(s.mem.next) && !s.shut && s.images == []
    && exists scans :: Trims(files, scans, s.disk) && s.mem == Settled(Rebuild(files, scans))
  }

  lemma {:induction false} StartsValid(im: Image, files: seq<File>, s: State)
    requires CrashImage(im, files) && Opened(im, files, s) && !Stray(s)
    ensures ValidState(s) && StartsFrom(im, files, s)
  {
    Started(im, files, s);
  }

  lemma {:induction false} Started(im: Image, files: seq<File>, s: State)
    requires CrashImage(im, files) && Opened(im, files, s)
    ensures Stray(s) ==> AllEmpty(s.disk) && s.mem == Blank && s.log == [] && s.durable == 0
    ensures StartsFrom(im, files, if Stray(s) then s.(disk := []) else s)
  {
    var scans :| Trims(files, scans, s.disk) && s.mem == Settled(Rebuild(files, scans));
    StrayErased(im, files, s);
    if Erased(im.disk, im.log, files) { ErasedStray(im, files, scans, s); }
  }

  method Open(identity: seq<byte>, maxSeg: nat, files: seq<File>, ghost im: Image) returns (r: Wal)
    requires |identity| == 64
    ensures fresh(r) && fresh(r.table) && r.Equipped() && r.identity == identity && r.maxSeg == maxSeg
    ensures r.readers == map[]
    ensures Opened(im, files, r.Abs())
  {
    r := new Wal(identity, maxSeg, files, im);
  }

  method Reopen(identity: seq<byte>, maxSeg: nat, files: seq<File>, ghost im: Image) returns (r: Wal)
    requires |identity| == 64 && CrashImage(im, files)
    ensures fresh(r) && r.Valid() && r.identity == identity && r.maxSeg == maxSeg && r.readers == map[]
    ensures StartsFrom(im, files, r.Abs())
  {
    r := Open(identity, maxSeg, files, im);
    var stray := r.nextLsn == 0 && r.disk != [] && r.disk[0].path.base > 0;
    if stray { ForgetStray(r, im, files); } else { StartsValid(im, files, r.Abs()); }
  }

  method ForgetStray(r: Wal, ghost im: Image, ghost files: seq<File>)
    requires CrashImage(im, files) && r.Equipped() && Opened(im, files, r.Abs()) && Stray(r.Abs())
    modifies r`disk
    ensures r.Valid() && StartsFrom(im, files, r.Abs())
  {
    Started(im, files, r.Abs());
    r.ForgetEmptyFiles();
  }

  // the restart after a crash: whatever survived is opened again
  method CrashAndRestart(w: Wal, moment: nat, keep: nat, lose: bool)
    returns (r: Wal, ghost im: Image, ghost files: seq<File>)
    requires w.Valid() && w.images != [] && Passed(w.images, [], 0)
    ensures fresh(r) && r.Valid() && r.identity == w.identity && r.maxSeg == w.maxSeg && r.readers == map[]
    ensures im == w.images[moment % |w.images|] && files == CutDisk(im.disk, keep, lose)
    ensures CrashImage(im, files) && StartsFrom(im, files, r.Abs())
  {
    var image := w.images[moment % |w.images|];
    var left := CutDisk(image.disk, keep, lose);
    im, files := image, left;
    CutDiskCrashes(im.disk, im.log, im.durable, keep, lose);
    r := Reopen(w.identity, w.maxSeg, left, im);
  }

  // ---------- whole runs ----------

  function StateBefore(trace: seq<Turn>, i: nat): State
    requires i <= |trace|
  {
    if i == 0 then Empty else trace[i - 1].now
  }

  // every event happened, and led from each state to the next
  ghost predicate History(events: seq<Event>, trace: seq<Turn>, maxSeg: nat, identity: seq<byte>)
    requires |identity| == 64
  {
    |trace| == |events| && forall i :: 0 <= i < |events| ==> Happened(events, trace, maxSeg, identity, i)
  }

  ghost predicate Happened(events: seq<Event>, trace: seq<Turn>, maxSeg: nat, identity: seq<byte>, i: nat)
    requires |identity| == 64 && i < |events| && i < |trace|
  {
    TurnOf(StateBefore(trace, i), events[i], trace[i], maxSeg, identity)
  }

  lemma {:induction false} HistoryMore(events: seq<Event>, trace: seq<Turn>, maxSeg: nat, identity: seq<byte>,
                                       i: nat, t: Turn)
    requires |identity| == 64 && i < |events| && History(events[..i], trace, maxSeg, identity)
    requires TurnOf(StateBefore(trace, i), events[i], t, maxSeg, identity)
    ensures History(events[..i + 1], trace + [t], maxSeg, identity)
  {
    var es, ts := events[..i + 1], trace + [t];
    forall x | 0 <= x < i + 1 ensures Happened(es, ts, maxSeg, identity, x) {
      if x < i { HappenedStill(events, trace, maxSeg, identity, i, t, x); }
    }
  }

  lemma {:induction false} HappenedStill(events: seq<Event>, trace: seq<Turn>, maxSeg: nat, identity: seq<byte>,
                                         i: nat, t: Turn, x: nat)
    requires |identity| == 64 && x < i < |events| && |trace| == i
    requires Happened(events[..i], trace, maxSeg, identity, x)
    ensures Happened(events[..i + 1], trace + [t], maxSeg, identity, x)
  {
    assert StateBefore(trace + [t], x) == StateBefore(trace, x);
  }

  method OneEvent(w: Wal, e: Event) returns (r: Wal, ghost t: Turn)
    requires w.Valid() && OpOk(e.op) && w.readers == map[]
    modifies w
    ensures r.Valid() && (r == w || fresh(r)) && r.identity == w.identity && r.maxSeg == w.maxSeg && r.readers == map[]
    ensures TurnOf(old(w.Abs()), e, t, w.maxSeg, w.identity) && t.now == r.Abs()
  {
    Step(w, e.op);
    r := w;
    t := Turn(w.Abs(), Image([], [], 0), [], w.Abs());
    if e.Crash? {
      ghost var im, files;
      PassedEver(w.Abs());
      r, im, files := CrashAndRestart(w, e.moment, e.keep, e.lose);
      t := Turn(w.Abs(), im, files, r.Abs());
    }
  }

  lemma {:induction false} PassedEver(s: State)
    requires s.images != [] && exists log, durable :: Passed(s.images, log, durable)
    ensures Passed(s.images, [], 0)
  {
  }

  // Any run of operations and crashes, from an empty directory: each event
  // makes of the state before it what the operation does, and a crash is
  // struck at the chosen moment and restarted from exactly what it left.
  method Run(identity: seq<byte>, maxSeg: nat, events: seq<Event>) returns (w: Wal, ghost trace: seq<Turn>)
    requires |identity| == 64 && forall i :: 0 <= i < |events| ==> OpOk(events[i].op)
    ensures fresh(w) && w.Valid() && w.identity == identity && w.maxSeg == maxSeg && w.readers == map[]
    ensures History(events, trace, maxSeg, identity) && w.Abs() == StateBefore(trace, |events|)
  {
    w := Reopen(identity, maxSeg, [], Image([], [], 0));
    StartsEmpty(w.Abs());
    trace := [];
    for n := 0 to |events|
      invariant fresh(w) && w.Valid() && w.identity == identity && w.maxSeg == maxSeg && w.readers == map[]
      invariant History(events[..n], trace, maxSeg, identity) && |trace| == n && w.Abs() == StateBefore(trace, n)
    {
      w, trace := GoOn(w, events, trace, maxSeg, identity, n);
    }
    assert events[..|events|] == events;
  }

  // one event more
  method GoOn(w: Wal, events: seq<Event>, ghost trace: seq<Turn>, ghost maxSeg: nat, ghost identity: seq<byte>, n: nat)
    returns (r: Wal, ghost more: seq<Turn>)
    requires w.Valid() && w.identity == identity && w.maxSeg == maxSeg && w.readers == map[]
    requires |identity| == 64 && n < |events| && OpOk(events[n].op)
    requires History(events[..n], trace, maxSeg, identity) && w.Abs() == StateBefore(trace, n)
    modifies w
    ensures r.Valid() && (r == w || fresh(r)) && r.identity == identity && r.maxSeg == maxSeg && r.readers == map[]
    ensures History(events[..n + 1], more, maxSeg, identity) && |more| == n + 1 && r.Abs() == StateBefore(more, n + 1)
    ensures StateBefore(more, n) == StateBefore(trace, n)
  {
    ghost var t;
    r, t := OneEvent(w, events[n]);
    HistoryMore(events, trace, maxSeg, identity, n, t);
    more := trace + [t];
  }

  lemma {:induction false} StartsEmpty(s: State)
    requires StartsFrom(Image([], [], 0), [], s)
    ensures s == Empty
  {
  }

  lemma {:induction false} RunStatesValid(events: seq<Event>, trace: seq<Turn>, maxSeg: nat, identity: seq<byte>,
                                          i: nat)
    requires |identity| == 64 && History(events, trace, maxSeg, identity) && i <= |trace|
    ensures ValidState(StateBefore(trace, i))
  {
    if i > 0 { assert Happened(events, trace, maxSeg, identity, i - 1); }
  }

  // ---------- what runs keep ----------

  function DurableCount(durable: nat): nat { if durable > 0 then durable + 1 else 0 }

  // the frames whose durability is announced
  ghost function Promise(s: State): seq<Frame>
    requires ValidState(s)
  {
    s.log[..DurableCount(s.durable)]
  }

  ghost predicate Kept(promise: seq<Frame>, s: State) {
    promise <= s.log && |promise| <= DurableCount(s.durable)
  }

  // no event but an erasing crash breaks a promise
  lemma {:induction false} TurnKeeps(s: State, e: Event, t: Turn, maxSeg: nat, identity: seq<byte>, promise: seq<Frame>)
    requires |identity| == 64 && TurnOf(s, e, t, maxSeg, identity) && Kept(promise, s) && !Wipes(e, t)
    ensures Kept(promise, t.now)
  {
    if e.Crash? { CrashKeeps(s.log, s.durable, t.im, t.files, t.now, promise); }
  }

  lemma {:induction false} CrashKeeps(log0: seq<Frame>, durable0: nat, im: Image, files: seq<File>, s: State,
                                      promise: seq<Frame>)
    requires log0 <= im.log && durable0 <= im.durable && CrashImage(im, files) && StartsFrom(im, files, s)
    requires !Erased(im.disk, im.log, files)
    requires promise <= log0 && |promise| <= DurableCount(durable0)
    ensures Kept(promise, s)
  {
  }

  lemma {:induction false} NextKeeps(events: seq<Event>, trace: seq<Turn>, maxSeg: nat, identity: seq<byte>, k: nat,
                                     promise: seq<Frame>)
    requires |identity| == 64 && History(events, trace, maxSeg, identity) && k < |trace|
    requires Kept(promise, StateBefore(trace, k)) && !Wipes(events[k], trace[k])
    ensures Kept(promise, StateBefore(trace, k + 1))
  {
    assert Happened(events, trace, maxSeg, identity, k);
    TurnKeeps(StateBefore(trace, k), events[k], trace[k], maxSeg, identity, promise);
  }

  lemma {:induction false} RunKeeps(events: seq<Event>, trace: seq<Turn>, maxSeg: nat, identity: seq<byte>,
                                    i: nat, j: nat, promise: seq<Frame>)
    requires |identity| == 64 && History(events, trace, maxSeg, identity) && i <= j <= |trace|
    requires Kept(promise, StateBefore(trace, i))
    requires forall k :: i <= k < j ==> !Wipes(events[k], trace[k])
    ensures Kept(promise, StateBefore(trace, j))
    decreases j
  {
    if i < j {
      RunKeeps(events, trace, maxSeg, identity, i, j - 1, promise);
      NextKeeps(events, trace, maxSeg, identity, j - 1, promise);
    }
  }

  // What was announced durable after an event is in the log after every later
  // one, unless a crash in between erased the log.
  lemma {:induction false} RunKeepsPromises(events: seq<Event>, trace: seq<Turn>, maxSeg: nat, identity: seq<byte>,
                                            i: nat, j: nat)
    requires |identity| == 64 && History(events, trace, maxSeg, identity) && i <= j <= |trace|
    requires forall k :: i <= k < j ==> !Wipes(events[k], trace[k])
    ensures ValidState(StateBefore(trace, i)) && Kept(Promise(StateBefore(trace, i)), StateBefore(trace, j))
  {
    RunStatesValid(events, trace, maxSeg, identity, i);
    RunKeeps(events, trace, maxSeg, identity, i, j, Promise(StateBefore(trace, i)));
  }

  // an erasing crash strikes only an unanchored directory, and numbering
  // starts again
  lemma {:induction false} WipeStartsAgain(events: seq<Event>, trace: seq<Turn>, maxSeg: nat, identity: seq<byte>,
                                           i: nat)
    requires |identity| == 64 && History(events, trace, maxSeg, identity) && i < |trace| && Wipes(events[i], trace[i])
    ensures !Anchored(trace[i].im.disk) && trace[i].now == Empty
  {
    assert Happened(events, trace, maxSeg, identity, i);
    if Anchored(trace[i].im.disk) {
      AnchoredKeeps(trace[i].im.disk, trace[i].im.log, trace[i].im.durable, trace[i].files);
    }
  }

  // ---------- how a directory comes to be unanchored ----------

  ghost predicate NewestUnsynced(s: State, base: nat) {
    s.disk != [] && s.disk[|s.disk| - 1].synced == 0 && s.disk[|s.disk| - 1].path.base == base
  }

  // a row that begins a segment and does not fill it is not synced
  lemma {:induction false} RowUnsynced(s: State, maxSeg: nat, identity: seq<byte>, noise: Noise, payload: seq<byte>)
    requires |identity| == 64 && ValidState(s) && !s.shut && s.mem.fd < 0 && maxSeg > 2
    ensures var r := AppendOp(s, maxSeg, identity, noise, payload);
      r.mem.fd >= 0 && r.mem.space == 2 && r.durable == s.durable && NewestUnsynced(r, |s.log|)
  {
    var b := Begun(s);
    var path := Path(s.mem.segmentId, s.mem.base);
    assert NewestUnsynced(OpenTo(b), |s.log|) by {
      if EmptyNewest(s.disk, |s.log|) { assert Holds(s.disk[|s.disk| - 1], s.log, |s.log|); }
      if s.disk != [] && s.disk[|s.disk| - 1].path == path { assert EmptyNewest(s.disk, |s.log|); }
    }
    WriteUnsynced(OpenTo(b), HeaderFrame(b.mem.next, noise.header, identity, b.mem.segmentId, b.mem.base), |s.log|);
    WriteUnsynced(BeginSegment(b, noise.header, identity), RowFrame(s.mem.next + 1, noise.row, payload), |s.log|);
  }

  lemma {:induction false} WriteUnsynced(s: State, f: Frame, base: nat)
    requires NewestUnsynced(s, base)
    ensures NewestUnsynced(WriteTo(s, f), base)
  {
  }

  // the second row of a segment of three frames fills it
  lemma {:induction false} RowFills(s: State, identity: seq<byte>, noise: Noise, payload: seq<byte>)
    requires |identity| == 64 && ValidState(s) && !s.shut && s.mem.fd >= 0 && s.mem.space == 2
    ensures var r := AppendOp(s, 3, identity, noise, payload);
      r.mem.fd < 0 && r.durable == s.mem.next + 1 && r.mem.next == s.mem.next + 2 && !r.shut
  {
    OpenFileListed(Begun(s));
  }

  // ---------- pruning everything that was synced ----------

  // the open file is listed, and every listed LSN is below the next one
  ghost predicate AllBelow(s: State) {
    |s.mem.segments| == |s.disk| > 0 && s.mem.fd == |s.disk| - 1
    && forall i :: 0 <= i < |s.mem.segments| ==> s.mem.segments[i].last < s.mem.next
  }

  lemma {:induction false} OpenAllBelow(s: State)
    requires ValidState(s) && s.mem.fd >= 0
    ensures AllBelow(s)
  {
    OpenFileListed(s);
    NewestBelowNext(s);
    ListLength(s.disk, s.mem.next);
    var n := |s.mem.segments| - 1;
    forall i | 0 <= i < |s.mem.segments| ensures s.mem.segments[i].last < s.mem.next {
      if i < n { LastsGrow(s, i, n); }
    }
  }

  ghost predicate Noted(s: State) {
    s.images != [] && s.images[|s.images| - 1] == Image(s.disk, s.log, s.durable)
  }

  // Pruning without readers leaves the newest file only; each removal is a
  // moment of its own.
  lemma {:induction false} PrunedAll(s: State)
    requires AllBelow(s) && Noted(s)
    ensures var r := PruneTo(s, s.mem.next);
      Noted(r) && r.disk == [s.disk[|s.disk| - 1]] && r.log == s.log && r.durable == s.durable
      && |r.images| == |s.images| + |s.disk| - 1
    decreases |s.mem.segments|
  {
    if |s.mem.segments| > 1 {
      var d := s.disk[1..];
      assert d[|d| - 1] == s.disk[|s.disk| - 1];
      PrunedAll(RemoveOldest(s));
    }
  }

  // a crash may erase this log, though LSNs were announced durable
  ghost predicate MayBeErased(s: State) {
    s.durable > 0 && !Anchored(s.disk) && CrashOf(s.disk, []) && Erased(s.disk, s.log, [])
  }

  lemma {:induction false} NoPins(next: nat)
    ensures LeastPin(map[], next, next)
  {
  }

  lemma {:induction false} PruneDid(s: State, maxSeg: nat, identity: seq<byte>, r: State)
    requires |identity| == 64 && OpenListed(s) && DidOp(s, Prune, map[], maxSeg, identity, r)
    ensures r == PruneTo(Begun(s), s.mem.next)
  {
    NoPins(s.mem.next);
  }

  lemma {:induction false} RowDid(s: State, payload: seq<byte>, noise: Noise, maxSeg: nat, identity: seq<byte>,
                                  r: State)
    requires |identity| == 64 && OpenListed(s) && s.mem.next + 3 < Long
    requires DidOp(s, Append(payload, noise), map[], maxSeg, identity, r)
    ensures r == AppendOp(s, maxSeg, identity, noise, payload)
  {
    NoPins(s.mem.next);
  }

  // the open file was never synced, and begins behind LSN 0
  ghost predicate Dangling(s: State) {
    s.mem.fd >= 0 && s.durable > 0 && exists base: nat :: base > 0 && NewestUnsynced(s, base)
  }

  // an append that begins a segment and does not fill it leaves such a file
  lemma {:induction false} RowDangles(s: State, payload: seq<byte>, noise: Noise, maxSeg: nat, identity: seq<byte>,
                                      a: State)
    requires |identity| == 64 && ValidState(s) && !s.shut && s.mem.fd < 0 && s.durable > 0 && maxSeg > 2
    requires s.mem.next + 3 < Long && OpenListed(s)
    requires DidOp(s, Append(payload, noise), map[], maxSeg, identity, a)
    ensures Dangling(a) && a.durable == s.durable
  {
    RowDid(s, payload, noise, maxSeg, identity, a);
    RowUnsynced(s, maxSeg, identity, noise, payload);
    assert |s.log| > 0;
  }

  // a prune without readers then keeps that file only
  lemma {:induction false} PrunedUnanchored(a: State, maxSeg: nat, identity: seq<byte>, p: State)
    requires |identity| == 64 && AllBelow(a) && Dangling(a) && OpenListed(a)
    requires DidOp(a, Prune, map[], maxSeg, identity, p)
    ensures MayBeErased(p) && Noted(p) && |p.images| == |a.disk| && p.durable == a.durable
  {
    PruneDid(a, maxSeg, identity, p);
    PrunedAll(Begun(a));
    assert p.disk[..0] == [];
  }

  // such a log at work
  method LeaveUnanchored(w: Wal, payload: seq<byte>, noise: Noise) returns (ghost a: State)
    requires w.Valid() && !w.shutDown && w.fd < 0 && w.readers == map[] && w.maxSeg > 2
    requires w.nextLsn + 3 < Long && |payload| < Long && w.durableLsn > 0
    modifies w
    ensures OpenListed(old(w.Abs())) && OpenListed(a)
    ensures DidOp(old(w.Abs()), Append(payload, noise), map[], w.maxSeg, w.identity, a)
    ensures DidOp(a, Prune, map[], w.maxSeg, w.identity, w.Abs())
    ensures w.Valid() && MayBeErased(w.Abs())
  {
    ghost var s := w.Abs();
    Step(w, Append(payload, noise));
    a := w.Abs();
    RowDangles(s, payload, noise, w.maxSeg, w.identity, a);
    OpenAllBelow(a);
    Step(w, Prune);
    PrunedUnanchored(a, w.maxSeg, w.identity, w.Abs());
  }

  // ---------- a run that loses its numbering ----------

  // after a row, and after the second row, in segments of three frames
  ghost predicate OneRow(s: State) {
    ValidState(s) && !s.shut && s.mem.fd >= 0 && s.mem.space == 2 && s.mem.next == 2
  }

  ghost predicate TwoRows(s: State) {
    ValidState(s) && !s.shut && s.mem.fd < 0 && s.durable == 3 && s.mem.next == 4
  }

  lemma {:induction false} FirstRow(identity: seq<byte>, noise: Noise, payload: seq<byte>, r: State)
    requires |identity| == 64 && ValidState(r)
    requires DidOp(Empty, Append(payload, noise), map[], 3, identity, r)
    ensures OneRow(r)
  {
    RowDid(Empty, payload, noise, 3, identity, r);
    RowUnsynced(Empty, 3, identity, noise, payload);
  }

  lemma {:induction false} SecondRow(s: State, identity: seq<byte>, noise: Noise, payload: seq<byte>, r: State)
    requires |identity| == 64 && OneRow(s) && OpenListed(s) && ValidState(r)
    requires DidOp(s, Append(payload, noise), map[], 3, identity, r)
    ensures TwoRows(r)
  {
    RowDid(s, payload, noise, 3, identity, r);
    RowFills(s, identity, noise, payload);
  }

  // what a row made of the state before it
  ghost predicate RowTurn(s: State, payload: seq<byte>, noise: Noise, identity: seq<byte>, r: State)
    requires |identity| == 64
  {
    OpenListed(s) && ValidState(r) && DidOp(s, Append(payload, noise), map[], 3, identity, r)
  }

  lemma {:induction false} RowHappened(events: seq<Event>, trace: seq<Turn>, identity: seq<byte>, i: nat,
                                       payload: seq<byte>, noise: Noise)
    requires |identity| == 64 && History(events, trace, 3, identity) && i < |trace|
    requires events[i] == Do(Append(payload, noise))
    ensures RowTurn(StateBefore(trace, i), payload, noise, identity, StateBefore(trace, i + 1))
  {
    assert Happened(events, trace, 3, identity, i);
  }

  lemma {:induction false} ThreeRows(identity: seq<byte>, payload: seq<byte>, noise: Noise, a: State, b: State,
                                     c: State)
    requires |identity| == 64 && RowTurn(Empty, payload, noise, identity, a)
    requires RowTurn(a, payload, noise, identity, b) && RowTurn(b, payload, noise, identity, c)
    ensures c.durable == 3 && Dangling(c) && AllBelow(c)
  {
    FirstRow(identity, noise, payload, a);
    SecondRow(a, identity, noise, payload, b);
    RowDangles(b, payload, noise, 3, identity, c);
    OpenAllBelow(c);
  }

  // the crash strikes after the last removal and leaves nothing
  lemma {:induction false} LastWipes(s: State, identity: seq<byte>, after: State)
    requires |identity| == 64 && Dangling(s) && AllBelow(s) && OpenListed(s)
    requires DidOp(s, Prune, map[], 3, identity, after)
    ensures |after.images| == |s.disk| > 0
    ensures var im := after.images[(|s.disk| - 1) % |s.disk|];
      Erased(im.disk, im.log, []) && CutDisk(im.disk, 0, true) == []
  {
    PrunedUnanchored(s, 3, identity, after);
    LastOf(|s.disk|);
    Vanishes(after);
  }

  lemma {:induction false} LastOf(n: nat)
    requires n > 0
    ensures (n - 1) % n == n - 1
  {
  }

  lemma {:induction false} Vanishes(s: State)
    requires MayBeErased(s)
    ensures CutDisk(s.disk, 0, true) == []
  {
    assert s.disk[..0] == [];
  }

  lemma {:induction false} FromNothing(im: Image, files: seq<File>, now: State)
    requires StartsFrom(im, files, now) && files == [] && Erased(im.disk, im.log, [])
    ensures now == Empty
  {
  }

  // what a crash made of the state before it
  ghost predicate CrashTurn(s: State, op: Op, moment: nat, keep: nat, lose: bool, t: Turn, identity: seq<byte>)
    requires |identity| == 64
  {
    OpenListed(s) && DidOp(s, op, map[], 3, identity, t.after) && t.after.images != []
    && t.im == t.after.images[moment % |t.after.images|] && t.files == CutDisk(t.im.disk, keep, lose)
    && StartsFrom(t.im, t.files, t.now)
  }

  lemma {:induction false} CrashHappened(events: seq<Event>, trace: seq<Turn>, identity: seq<byte>, i: nat)
    requires |identity| == 64 && History(events, trace, 3, identity) && i < |trace| && events[i].Crash?
    ensures CrashTurn(StateBefore(trace, i), events[i].op, events[i].moment, events[i].keep, events[i].lose, trace[i],
                      identity)
  {
    assert Happened(events, trace, 3, identity, i);
  }

  function ThreeTimes(payload: seq<byte>, noise: Noise): seq<Event> {
    seq(3, i => Do(Append(payload, noise)))
  }

  // three rows, then a crash behind a prune
  function Fatal(payload: seq<byte>, noise: Noise, moment: nat): seq<Event> {
    ThreeTimes(payload, noise) + [Crash(Prune, moment, 0, true)]
  }

  lemma {:induction false} FatalParts(payload: seq<byte>, noise: Noise, moment: nat)
    ensures var es := Fatal(payload, noise, moment);
      es[..3] == ThreeTimes(payload, noise) && es[..4] == es
  {
  }

  lemma {:induction false} FatalWipes(events: seq<Event>, trace: seq<Turn>, identity: seq<byte>, payload: seq<byte>,
                                      noise: Noise, moment: nat)
    requires |identity| == 64 && History(events, trace, 3, identity) && events == Fatal(payload, noise, moment)
    requires moment + 1 == |StateBefore(trace, 3).disk| || StateBefore(trace, 3).disk == []
    ensures StateBefore(trace, 3).durable == 3 && Wipes(events[3], trace[3]) && StateBefore(trace, 4) == Empty
  {
    RowHappened(events, trace, identity, 0, payload, noise);
    RowHappened(events, trace, identity, 1, payload, noise);
    RowHappened(events, trace, identity, 2, payload, noise);
    var s, t := StateBefore(trace, 3), trace[3];
    ThreeRows(identity, payload, noise, StateBefore(trace, 1), StateBefore(trace, 2), s);
    CrashHappened(events, trace, identity, 3);
    LastWipes(s, identity, t.after);
    FromNothing(t.im, t.files, t.now);
  }

  // In segments of three frames a log that announced durable LSNs restarts
  // at 0.
  method LoseNumbering(identity: seq<byte>, payload: seq<byte>, noise: Noise)
    returns (w: Wal, moment: nat, ghost trace: seq<Turn>)
    requires |identity| == 64 && |payload| < Long
    ensures History(Fatal(payload, noise, moment), trace, 3, identity)
    ensures fresh(w) && w.Valid() && w.Abs() == StateBefore(trace, 4) == Empty
    ensures StateBefore(trace, 3).durable == 3 && Wipes(Fatal(payload, noise, moment)[3], trace[3])
  {
    w, trace := Run(identity, 3, ThreeTimes(payload, noise));
    moment := if w.disk == [] then 0 else |w.disk| - 1;
    var events := Fatal(payload, noise, moment);
    FatalParts(payload, noise, moment);
    w, trace := GoOn(w, events, trace, 3, identity, 3);
    FatalWipes(events, trace, identity, payload, noise, moment);
  }
}
