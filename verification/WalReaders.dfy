/**
 * Readers of the write-ahead log (v1/Wal.hpp) among writers and pruning, and
 * the iterator that follows the tail.
 */
module WalReaders {
  import opened WalCodec
  import opened WalLog
  import opened WalCrash
  import opened WalSteps
  import opened WalModel
  import opened WalRuns
  import opened Options

  // ---------- a reader among writers and pruning ----------

  datatype Turn =
    | Write(op: Op)
    | OtherPins(other: int, lsn: nat)
    | OtherLeaves(other: int)
    | Read
    | MovePin

  // the log and its pins at one moment
  datatype Moment = Moment(state: State, readers: map<int, nat>)

  ghost function Now(w: Wal): Moment
    reads w
  {
    Moment(w.Abs(), w.readers)
  }

  ghost predicate TurnOk(t: Turn, id: int) {
    match t
    case Write(op) => OpOk(op)
    case OtherPins(other, _) => other != id
    case OtherLeaves(other) => other != id
    case _ => true
  }

  // what a turn of anyone makes of the log and its pins; the reader is at pos
  ghost predicate TurnStep(m: Moment, t: Turn, id: int, pos: nat, maxSeg: nat, identity: seq<byte>, r: Moment) {
    exists at: nat :: at == pos && StepAt(m, t, id, at, maxSeg, identity, r)
  }

  ghost predicate StepAt(m: Moment, t: Turn, id: int, pos: nat, maxSeg: nat, identity: seq<byte>, r: Moment) {
    match t
    case Write(op) =>
      |identity| == 64 && OpenListed(m.state) && DidOp(m.state, op, m.readers, maxSeg, identity, r.state)
      && r.readers == m.readers
    case OtherPins(other, lsn) => r == m.(readers := m.readers[other := lsn])
    case OtherLeaves(other) => r == m.(readers := m.readers - {other})
    case Read => r == m
    case MovePin => r == m.(readers := m.readers[id := pos])
  }

  // how many frames a turn gives the reader at LSN at
  ghost function Gift(m: Moment, t: Turn, at: nat): nat {
    if t.Read? && at < m.state.mem.next then 1 else 0
  }

  // how many frames the turns give a reader that gets one with every read it
  // makes while its position is behind the end of the log
  ghost function Gain(turns: seq<Turn>, moments: seq<Moment>, start: nat): nat
    requires |moments| == |turns| + 1
    decreases |turns|
  {
    if turns == [] then 0
    else
      var n := |turns| - 1;
      var g := Gain(turns[..n], moments[..n + 1], start);
      g + Gift(moments[n], turns[n], start + g)
  }

  // the moments before and after every turn
  ghost predicate Took(turns: seq<Turn>, moments: seq<Moment>, id: int, start: nat, maxSeg: nat, identity: seq<byte>)
    decreases |turns|
  {
    |moments| == |turns| + 1
    && (turns != [] ==>
          var n := |turns| - 1;
          Took(turns[..n], moments[..n + 1], id, start, maxSeg, identity)
          && TurnStep(moments[n], turns[n], id, start + Gain(turns[..n], moments[..n + 1], start), maxSeg, identity,
                      moments[n + 1]))
  }

  lemma {:induction false} TookMore(turns: seq<Turn>, moments: seq<Moment>, id: int, start: nat, maxSeg: nat,
                                    identity: seq<byte>, g: nat, last: Moment, t: Turn, m: Moment, g': nat)
    requires Took(turns, moments, id, start, maxSeg, identity) && g == Gain(turns, moments, start)
    requires moments[|turns|] == last && TurnStep(last, t, id, start + g, maxSeg, identity, m)
    requires g' == g + Gift(last, t, start + g)
    ensures Took(turns + [t], moments + [m], id, start, maxSeg, identity)
    ensures g' == Gain(turns + [t], moments + [m], start)
  {
    assert (turns + [t])[..|turns|] == turns && (moments + [m])[..|turns| + 1] == moments;
  }

  // the reader's pin is at most its position and no pruned LSN is ahead of it
  ghost predicate Following(disk: seq<File>, next: nat, readers: map<int, nat>, id: int, current: nat) {
    id in readers && Start(disk, next) <= readers[id] <= current <= next
  }

  // got is what the reader has, from its start on, every LSN once
  ghost predicate Has(log: seq<Frame>, start: nat, got: seq<Frame>) {
    start + |got| <= |log| && got == log[start..start + |got|]
  }

  ghost predicate TrackingAt(m: Moment, id: int, start: nat, got: seq<Frame>) {
    Following(m.state.disk, m.state.mem.next, m.readers, id, start + |got|) && Has(m.state.log, start, got)
  }

  ghost predicate Standing(w: Wal, id: int, start: nat, got: seq<Frame>)
    reads w, w.table
  {
    w.Valid() && TrackingAt(Now(w), id, start, got)
  }

  // pins other than the reader's do not matter to it, and its own may move up
  lemma {:induction false} PinsMoved(m: Moment, id: int, start: nat, got: seq<Frame>, r: Moment)
    requires TrackingAt(m, id, start, got) && r.state == m.state
    requires id in r.readers && m.readers[id] <= r.readers[id] <= start + |got|
    ensures TrackingAt(r, id, start, got)
  {
  }

  lemma {:induction false} HasStill(a: seq<Frame>, b: seq<Frame>, start: nat, got: seq<Frame>)
    requires a <= b && Has(a, start, got)
    ensures Has(b, start, got)
  {
  }

  lemma {:induction false} HasMore(log: seq<Frame>, start: nat, got: seq<Frame>, f: Frame)
    requires Has(log, start, got) && start + |got| < |log| && f == log[start + |got|]
    ensures Has(log, start, got + [f])
  {
  }

  method OthersTurn(w: Wal, op: Op, id: int, start: nat, ghost got: seq<Frame>)
    requires Standing(w, id, start, got) && OpOk(op)
    modifies w
    ensures Standing(w, id, start, got) && w.readers == old(w.readers)
    ensures OpenListed(old(w.Abs())) && DidOp(old(w.Abs()), op, w.readers, w.maxSeg, w.identity, w.Abs())
  {
    ghost var log0 := w.log;
    Step(w, op);
    assert log0 <= w.log;
    HasStill(log0, w.log, start, got);
  }

  method PinTurn(w: Wal, id: int, t: Turn, start: nat, ghost got: seq<Frame>)
    requires Standing(w, id, start, got) && (t.OtherPins? || t.OtherLeaves?) && TurnOk(t, id)
    modifies w`readers
    ensures Standing(w, id, start, got) && w.Abs() == old(w.Abs())
    ensures w.readers == if t.OtherPins? then old(w.readers)[t.other := t.lsn] else old(w.readers) - {t.other}
  {
    ghost var m := Now(w);
    match t {
      case OtherPins(other, lsn) => w.RegisterReader(other, lsn);
      case OtherLeaves(other) => w.UnregisterReader(other);
    }
    PinsMoved(m, id, start, got, Now(w));
  }

  method MoveTurn(w: Wal, id: int, start: nat, ghost got: seq<Frame>, at: nat)
    requires Standing(w, id, start, got) && at == start + |got|
    modifies w`readers
    ensures Standing(w, id, start, got) && w.Abs() == old(w.Abs())
    ensures w.readers == old(w.readers)[id := at]
  {
    ghost var m := Now(w);
    w.UpdateReaderLsn(id, at);
    PinsMoved(m, id, start, got, Now(w));
  }

  // what a read at the reader's position returns is what it lacks
  lemma {:induction false} ReadStep(m: Moment, id: int, start: nat, got: seq<Frame>, at: nat, r: Option<Frame>)
    requires TrackingAt(m, id, start, got) && m.state.mem.next <= |m.state.log| && at == start + |got|
    requires r == if Start(m.state.disk, m.state.mem.next) <= at < m.state.mem.next then Some(m.state.log[at]) else None
    ensures r.Some? <==> at < m.state.mem.next
    ensures TrackingAt(m, id, start, if r.Some? then got + [r.value] else got)
  {
    if r.Some? { HasMore(m.state.log, start, got, r.value); }
  }

  method ReadTurn(w: Wal, id: int, start: nat, got: seq<Frame>, at: nat) returns (more: seq<Frame>)
    requires w.Valid() && TrackingAt(Now(w), id, start, got) && at == start + |got|
    ensures TrackingAt(Now(w), id, start, more)
    ensures |more| == |got| + if at < w.nextLsn then 1 else 0
  {
    var r := w.ReadRecordAtLsn(at);
    ReadStep(Now(w), id, start, got, at, r);
    more := if r.Some? then got + [r.value] else got;
  }

  method TakeOne(w: Wal, t: Turn, id: int, start: nat, got: seq<Frame>, at: nat) returns (more: seq<Frame>)
    requires Standing(w, id, start, got) && TurnOk(t, id) && at == start + |got|
    modifies w
    ensures Standing(w, id, start, more)
    ensures StepAt(old(Now(w)), t, id, at, w.maxSeg, w.identity, Now(w))
    ensures |more| == |got| + if t.Read? && at < old(w.nextLsn) then 1 else 0
  {
    more := got;
    match t {
      case Write(op) => OthersTurn(w, op, id, start, got);
      case Read => more := ReadTurn(w, id, start, got, at);
      case MovePin => MoveTurn(w, id, start, got, at);
      case _ => PinTurn(w, id, t, start, got);
    }
  }

  // the reader is at a place where it has everything from its start on
  ghost predicate Tracking(w: Wal, id: int, start: nat, got: seq<Frame>)
    reads w, w.table
  {
    exists at: nat :: at == start + |got| && StandingAt(w, id, start, got, at)
  }

  ghost predicate StandingAt(w: Wal, id: int, start: nat, got: seq<Frame>, at: nat)
    reads w, w.table
  {
    Standing(w, id, start, got)
  }

  method TakeTurn(w: Wal, t: Turn, id: int, start: nat, got: seq<Frame>) returns (more: seq<Frame>)
    requires Tracking(w, id, start, got) && TurnOk(t, id)
    modifies w
    ensures Tracking(w, id, start, more)
    ensures TurnStep(old(Now(w)), t, id, start + |got|, w.maxSeg, w.identity, Now(w))
    ensures |more| == |got| + Gift(old(Now(w)), t, start + |got|)
  {
    var at := start + |got|;
    more := TakeOne(w, t, id, start, got, at);
    assert StepAt(old(Now(w)), t, id, at, w.maxSeg, w.identity, Now(w));
    assert StandingAt(w, id, start, more, start + |more|);
  }

  // the turns so far led to the last moment and gave g frames
  ghost predicate Recorded(done: seq<Turn>, moments: seq<Moment>, id: int, start: nat, maxSeg: nat, identity: seq<byte>,
                           g: nat, last: Moment)
  {
    exists n: nat :: n == |done| && RecordedAt(done, moments, id, start, maxSeg, identity, g, last, n)
  }

  ghost predicate RecordedAt(done: seq<Turn>, moments: seq<Moment>, id: int, start: nat, maxSeg: nat,
                             identity: seq<byte>, g: nat, last: Moment, n: nat)
  {
    n == |done| && Took(done, moments, id, start, maxSeg, identity) && moments[n] == last
    && g == Gain(done, moments, start)
  }

  lemma {:induction false} RecordMore(done: seq<Turn>, moments: seq<Moment>, id: int, start: nat, maxSeg: nat,
                                      identity: seq<byte>, g: nat, last: Moment, t: Turn, now: Moment, g': nat)
    requires Recorded(done, moments, id, start, maxSeg, identity, g, last)
    requires TurnStep(last, t, id, start + g, maxSeg, identity, now)
    requires g' == g + Gift(last, t, start + g)
    ensures Recorded(done + [t], moments + [now], id, start, maxSeg, identity, g', now)
  {
    TookMore(done, moments, id, start, maxSeg, identity, g, last, t, now, g');
    assert RecordedAt(done + [t], moments + [now], id, start, maxSeg, identity, g', now, |done| + 1);
  }

  lemma {:induction false} NothingYet(id: int, start: nat, maxSeg: nat, identity: seq<byte>, first: Moment)
    ensures Recorded([], [first], id, start, maxSeg, identity, 0, first)
  {
    assert RecordedAt([], [first], id, start, maxSeg, identity, 0, first, 0);
  }

  // what holds between the turns: moments leads from first to now
  ghost predicate Along(w: Wal, id: int, start: nat, got: seq<Frame>, done: seq<Turn>, moments: seq<Moment>,
                        first: Moment)
    reads w, w.table
  {
    Tracking(w, id, start, got) && Recorded(done, moments, id, start, w.maxSeg, w.identity, |got|, Now(w))
    && moments != [] && moments[0] == first
  }

  method FollowTurn(w: Wal, id: int, start: nat, got: seq<Frame>, t: Turn, ghost done: seq<Turn>,
                    ghost moments: seq<Moment>, ghost first: Moment)
    returns (more: seq<Frame>, ghost moments': seq<Moment>)
    requires TurnOk(t, id) && Along(w, id, start, got, done, moments, first)
    modifies w
    ensures Along(w, id, start, more, done + [t], moments', first)
  {
    ghost var last := Now(w);
    more := TakeTurn(w, t, id, start, got);
    moments' := moments + [Now(w)];
    RecordMore(done, moments, id, start, w.maxSeg, w.identity, |got|, last, t, Now(w), |more|);
  }

  method StartReading(w: Wal, id: int, start: nat)
    requires w.Valid() && Start(w.disk, w.nextLsn) <= start <= w.nextLsn
    modifies w`readers
    ensures Tracking(w, id, start, []) && Now(w) == Moment(old(w.Abs()), old(w.readers)[id := start])
  {
    w.RegisterReader(id, start);
    NewestBelowNext(w.Abs());
    assert w.log[start..start] == [];
    assert StandingAt(w, id, start, [], start);
  }

  method Begin(w: Wal, id: int, start: nat, turns: seq<Turn>) returns (ghost first: Moment, ghost moments: seq<Moment>)
    requires w.Valid() && Start(w.disk, w.nextLsn) <= start <= w.nextLsn
    modifies w`readers
    ensures Along(w, id, start, [], turns[..0], moments, first)
    ensures first == Moment(old(w.Abs()), old(w.readers)[id := start])
  {
    StartReading(w, id, start);
    first := Now(w);
    moments := [first];
    NothingYet(id, start, w.maxSeg, w.identity, first);
  }

  // The reader's turns interleave with everything else.  It reads at its
  // position, steps on, and moves its pin in a turn of its own.  It gets
  // every LSN from its start on once and in order, and one with every read
  // made while there was one to get.
  method Follow(w: Wal, id: int, start: nat, turns: seq<Turn>) returns (got: seq<Frame>, ghost moments: seq<Moment>)
    requires w.Valid() && Start(w.disk, w.nextLsn) <= start <= w.nextLsn
    requires forall i :: 0 <= i < |turns| ==> TurnOk(turns[i], id)
    modifies w
    ensures Tracking(w, id, start, got)
    ensures Recorded(turns, moments, id, start, w.maxSeg, w.identity, |got|, Now(w))
    ensures moments != [] && moments[0] == Moment(old(w.Abs()), old(w.readers)[id := start])
  {
    ghost var first;
    first, moments := Begin(w, id, start, turns);
    got := [];
    for i := 0 to |turns|
      invariant Along(w, id, start, got, turns[..i], moments, first)
    {
      got, moments := FollowTurn(w, id, start, got, turns[i], turns[..i], moments, first);
      assert turns[..i + 1] == turns[..i] + [turns[i]];
    }
    assert turns[..|turns|] == turns;
  }

  // what the reader has when it stops
  lemma {:induction false} Followed(w: Wal, id: int, start: nat, turns: seq<Turn>, moments: seq<Moment>,
                                    got: seq<Frame>)
    requires Tracking(w, id, start, got) && Recorded(turns, moments, id, start, w.maxSeg, w.identity, |got|, Now(w))
    ensures w.Valid() && Has(w.log, start, got) && start + |got| <= w.nextLsn
    ensures Took(turns, moments, id, start, w.maxSeg, w.identity) && moments[|turns|] == Now(w)
    ensures |got| == Gain(turns, moments, start)
  {
  }

  // enough reads in a row, and the reader has everything
  lemma {:induction false} ReadsCatchUp(turns: seq<Turn>, moments: seq<Moment>, id: int, start: nat, maxSeg: nat,
                                        identity: seq<byte>, k: nat)
    requires Took(turns, moments, id, start, maxSeg, identity) && k <= |turns|
    requires forall i :: |turns| - k <= i < |turns| ==> turns[i].Read?
    requires var n := |turns| - k;
      0 <= moments[n].state.mem.next - (start + Gain(turns[..n], moments[..n + 1], start)) <= k
    ensures start + Gain(turns, moments, start) == moments[|turns|].state.mem.next
    decreases k
  {
    var n := |turns| - k;
    var g := Gain(turns[..n], moments[..n + 1], start);
    ReadsGain(turns, moments, id, start, maxSeg, identity, k);
  }

  // k reads in a row give what there is, at most k frames
  lemma {:induction false} ReadsGain(turns: seq<Turn>, moments: seq<Moment>, id: int, start: nat, maxSeg: nat,
                                     identity: seq<byte>, k: nat)
    requires Took(turns, moments, id, start, maxSeg, identity) && k <= |turns|
    requires forall i :: |turns| - k <= i < |turns| ==> turns[i].Read?
    requires var n := |turns| - k; start + Gain(turns[..n], moments[..n + 1], start) <= moments[n].state.mem.next
    ensures var n := |turns| - k;
      var g := Gain(turns[..n], moments[..n + 1], start);
      var behind := moments[n].state.mem.next - (start + g);
      moments[|turns|] == moments[n]
      && Gain(turns, moments, start) == g + if behind < k then behind else k
    decreases k
  {
    if k == 0 {
      assert turns[..|turns|] == turns && moments[..|turns| + 1] == moments;
    } else {
      var m := |turns| - 1;
      var n := |turns| - k;
      assert turns[..m][..n] == turns[..n] && moments[..m + 1][..n + 1] == moments[..n + 1];
      ReadsGain(turns[..m], moments[..m + 1], id, start, maxSeg, identity, k - 1);
      assert moments[..m + 1][m] == moments[m] && moments[..m + 1][n] == moments[n];
      LastRead(turns, moments, id, start, maxSeg, identity);
    }
  }

  lemma {:induction false} LastRead(turns: seq<Turn>, moments: seq<Moment>, id: int, start: nat, maxSeg: nat,
                                    identity: seq<byte>)
    requires Took(turns, moments, id, start, maxSeg, identity) && turns != [] && turns[|turns| - 1].Read?
    ensures var m := |turns| - 1;
      var g := Gain(turns[..m], moments[..m + 1], start);
      moments[m + 1] == moments[m]
      && Gain(turns, moments, start) == g + if start + g < moments[m].state.mem.next then 1 else 0
  {
  }

  // ---------- the iterator ----------

  // other threads' turns while the iterator waits
  ghost predicate OthersOk(ts: seq<Turn>, id: int) {
    forall i :: 0 <= i < |ts| ==> !ts[i].Read? && !ts[i].MovePin? && TurnOk(ts[i], id)
  }

  // what a wait leaves: the pin where it was, a log that has only grown, and
  // every LSN the pin protected
  ghost predicate Waited(w: Wal, id: int, at: nat, start0: nat, log0: seq<Frame>)
    reads w, w.table
  {
    w.Valid() && id in w.readers && w.readers[id] == at && log0 <= w.log
    && start0 <= Start(w.disk, w.nextLsn) && (start0 <= at ==> Start(w.disk, w.nextLsn) <= at)
  }

  // no file begins past the next LSN
  method OtherTurn(w: Wal, t: Turn, id: int, ghost at: nat, ghost start0: nat, ghost log0: seq<Frame>)
    requires Waited(w, id, at, start0, log0) && TurnOk(t, id) && !t.Read? && !t.MovePin?
    modifies w
    ensures Waited(w, id, at, start0, log0)
  {
    match t {
      case Write(op) => Step(w, op);
      case OtherPins(other, lsn) => w.RegisterReader(other, lsn);
      case OtherLeaves(other) => w.UnregisterReader(other);
    }
  }

  method Wait(w: Wal, ts: seq<Turn>, id: int, ghost at: nat, ghost start0: nat, ghost log0: seq<Frame>)
    requires Waited(w, id, at, start0, log0) && OthersOk(ts, id)
    modifies w
    ensures Waited(w, id, at, start0, log0)
  {
    for i := 0 to |ts|
      invariant Waited(w, id, at, start0, log0)
    {
      OtherTurn(w, ts[i], id, at, start0, log0);
    }
  }

  // A reader with its position, which is where its pin is.
  class WalIterator {
    const id: int
    const wal: Wal
    var current: nat

    constructor (id: int, wal: Wal, start: nat)
      modifies wal`readers
      ensures this.id == id && this.wal == wal && current == start && Pinned()
      ensures wal.readers == old(wal.readers)[id := start]
    {
      this.id, this.wal, current := id, wal, start;
      new;
      wal.RegisterReader(id, start);
    }

    ghost predicate Pinned()
      reads this`current, wal`readers
    {
      id in wal.readers && wal.readers[id] == current
    }

    method Take(at: nat) returns (r: Option<Frame>)
      requires wal.Valid() && Pinned() && at == current
      modifies this`current, wal`readers
      ensures wal.Valid() && Pinned() && wal.nextLsn <= |wal.log|
      ensures r == if Start(wal.disk, wal.nextLsn) <= at < wal.nextLsn then Some(wal.log[at]) else None
      ensures current == if r.Some? then at + 1 else at
      ensures r.None? ==> wal.readers == old(wal.readers)
    {
      r := wal.ReadRecordAtLsn(at);
      if r.Some? {
        current := at + 1;
        wal.UpdateReaderLsn(id, current);
      }
    }

    // One wait for each of others, the turns of other threads while it lasts.
    // Without it ended, the iterator is still waiting.
    method Next(follow: bool, others: seq<seq<Turn>>) returns (r: Option<Frame>, ended: bool)
      requires wal.Valid() && Pinned() && forall k :: 0 <= k < |others| ==> OthersOk(others[k], id)
      modifies this`current, wal
      ensures wal.Valid() && Pinned() && wal.nextLsn <= |wal.log| && old(wal.log) <= wal.log
      ensures r.Some? ==> ended && old(current) < wal.nextLsn && r.value == wal.log[old(current)]
      ensures current == if r.Some? then old(current) + 1 else old(current)
      ensures ended && follow && r.None? ==> wal.nextLsn <= current
      ensures follow && old(current) < old(Start(wal.disk, wal.nextLsn)) ==> !ended
      ensures !follow || others != [] ==> (ended <==> !follow || old(Start(wal.disk, wal.nextLsn)) <= old(current))
      ensures !follow ==> wal.Abs() == old(wal.Abs())
      ensures !follow ==> (r.Some? <==> old(Start(wal.disk, wal.nextLsn)) <= old(current) < old(wal.nextLsn))
      ensures old(Start(wal.disk, wal.nextLsn)) <= old(current) < old(wal.nextLsn) ==> r.Some?
    {
      ghost var start0, log0 := Start(wal.disk, wal.nextLsn), wal.log;
      r := Take(current);
      ended := r.Some? || !follow;
      if !ended {
        assert WaitingAt(current, start0, log0);
        r, ended := WaitForIt(others, current, start0, log0);
      }
    }

    // the loop, after a read that returned nothing
    method WaitForIt(others: seq<seq<Turn>>, at: nat, ghost start0: nat, ghost log0: seq<Frame>)
      returns (r: Option<Frame>, ended: bool)
      requires Waiting(at, start0, log0) && forall k :: 0 <= k < |others| ==> OthersOk(others[k], id)
      modifies this`current, wal
      ensures if ended then Caught(r, at, start0, log0) else r == None && Waiting(at, start0, log0)
      ensures others != [] ==> (ended <==> start0 <= at)
      ensures ended ==> start0 <= at
    {
      r, ended := None, false;
      for k := 0 to |others|
        invariant Waiting(at, start0, log0) && r == None && !ended
        invariant k > 0 ==> at < start0
      {
        r, ended := WaitAndTake(others[k], at, start0, log0);
        if ended { return; }
      }
    }

    // still waiting for LSN at
    ghost predicate Waiting(at: nat, start0: nat, log0: seq<Frame>)
      reads this`current, wal, wal.table
    {
      exists here: nat :: here == at && WaitingAt(here, start0, log0)
    }

    ghost predicate WaitingAt(at: nat, start0: nat, log0: seq<Frame>)
      reads this`current, wal, wal.table
    {
      Waited(wal, id, at, start0, log0) && at == current && wal.nextLsn <= |wal.log|
    }

    // what the wait for LSN at came to
    ghost predicate Caught(r: Option<Frame>, at: nat, start0: nat, log0: seq<Frame>)
      reads this`current, wal, wal.table
    {
      exists here: nat :: here == at && CaughtAt(r, here, log0)
    }

    ghost predicate CaughtAt(r: Option<Frame>, at: nat, log0: seq<Frame>)
      reads this`current, wal, wal.table
    {
      wal.Valid() && Pinned() && wal.nextLsn <= |wal.log| && log0 <= wal.log
      && match r
         case Some(f) => current == at + 1 && at < wal.nextLsn && f == wal.log[at]
         case None => current == at && wal.nextLsn <= at
    }

    // one turn of the loop, from the wait on
    method WaitAndTake(ts: seq<Turn>, at: nat, ghost start0: nat, ghost log0: seq<Frame>)
      returns (r: Option<Frame>, ended: bool)
      requires Waiting(at, start0, log0) && OthersOk(ts, id)
      modifies this`current, wal
      ensures if ended then Caught(r, at, start0, log0) else r == None && Waiting(at, start0, log0)
      ensures ended <==> start0 <= at
    {
      Wait(wal, ts, id, at, start0, log0);
      StartBelowNext(wal.Abs());
      NewestBelowNext(wal.Abs());
      r, ended := None, true;
      if wal.nextLsn > at {
        r := Take(at);
        ended := r.Some?;
      }
      assert if ended then CaughtAt(r, at, log0) else WaitingAt(at, start0, log0);
    }
  }

  // An iterator opened where its LSN is already pruned, as one with the
  // default start 0 is after the first prune, follows for ever.
  method FollowPruned(w: Wal, id: int, others: seq<seq<Turn>>)
    returns (it: WalIterator, r: Option<Frame>, ended: bool)
    requires w.Valid() && 0 < Start(w.disk, w.nextLsn) && forall k :: 0 <= k < |others| ==> OthersOk(others[k], id)
    modifies w
    ensures fresh(it) && it.wal == w && it.id == id && it.current == 0 && it.Pinned()
    ensures w.Valid() && old(w.log) <= w.log && r == None && !ended
  {
    it := new WalIterator(id, w, 0);
    r, ended := it.Next(true, others);
  }
}
