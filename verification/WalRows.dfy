/**
 * The rows of a whole run of the write-ahead log (v1/Wal.hpp): the payloads
 * that its row records carry are those of the accepted appends, in order, as
 * far as the crashes leave them.
 */
module WalRows {
  import opened WalCodec
  import opened WalLog
  import opened WalCrash
  import opened WalSteps
  import opened WalModel
  import opened WalRuns

  // the payloads of the rows of a log, in order; 5 is the record type of rows
  ghost function Payloads(log: seq<Frame>): (r: seq<seq<byte>>) {
    if log == [] then [] else
    var f := log[|log| - 1];
    Payloads(log[..|log| - 1]) + if f.kind == 5 then [f.payload] else []
  }

  lemma {:induction false} PayloadsPrefix(log: seq<Frame>, n: nat)
    requires n <= |log|
    ensures Payloads(log[..n]) <= Payloads(log)
  {
    if n < |log| {
      var m := |log| - 1;
      PayloadsPrefix(log[..m], n);
      assert log[..m][..n] == log[..n];
    } else {
      assert log[..n] == log;
    }
  }

  // one row among frames of other types
  lemma {:induction false} PayloadsOneRow(a: seq<Frame>, b: seq<Frame>, l: nat, payload: seq<byte>)
    requires a <= b && OnlyRow(b, |a|, l, payload)
    ensures Payloads(b) == Payloads(a) + [payload]
  {
    var m := |b| - 1;
    assert a <= b[..m];
    if l == m { PayloadsNoRow(a, b[..m]); } else { PayloadsOneRow(a, b[..m], l, payload); }
  }

  lemma {:induction false} PayloadsNoRow(a: seq<Frame>, b: seq<Frame>)
    requires a <= b && forall x :: |a| <= x < |b| ==> b[x].kind != 5
    ensures Payloads(b) == Payloads(a)
  {
    if |a| < |b| {
      assert a <= b[..|b| - 1];
      PayloadsNoRow(a, b[..|b| - 1]);
    } else {
      assert a == b;
    }
  }

  // ---------- one operation ----------

  // an append is refused after shutdown, and LSNs have 64 bits
  predicate Accepts(s: State, op: Op) { op.Append? && !s.shut && s.mem.next + 3 < Long }

  // the rows with that of an accepted append
  function Given(rows: seq<seq<byte>>, s: State, op: Op): seq<seq<byte>> {
    if Accepts(s, op) then rows + [op.payload] else rows
  }

  lemma {:induction false} AppendRows(s: State, payload: seq<byte>, noise: Noise, maxSeg: nat, identity: seq<byte>)
    requires |identity| == 64 && ValidState(s) && OpenListed(s) && !s.shut && s.mem.next + 3 < Long
    ensures Payloads(AppendTo(s, maxSeg, identity, noise, payload).log) == Payloads(s.log) + [payload]
  {
    var r := AppendTo(s, maxSeg, identity, noise, payload);
    AppendLogs(s, maxSeg, identity, noise, payload);
    var l := AppendedRow(s, r.log, maxSeg, identity, noise, payload);
    PayloadsOneRow(s.log, r.log, l, payload);
  }

  lemma {:induction false} AppendLogs(s: State, maxSeg: nat, identity: seq<byte>, noise: Noise, payload: seq<byte>)
    requires |identity| == 64 && ValidState(s) && OpenListed(s) && !s.shut
    ensures AppendTo(s, maxSeg, identity, noise, payload).log
         == s.log + AppendedFrames(s.mem, maxSeg, identity, noise, payload)
  {
    if s.mem.fd < 0 { IdleBounds(s); }
    var o := ToRow(s, noise, identity);
    ToRowLogs(s, noise, identity);
    FinishLogs(o, maxSeg, noise, payload);
    AppendDone(s, o, FinishRow(o, maxSeg, noise, payload), maxSeg, identity, noise, payload);
  }

  lemma {:induction false} ShutRows(s: State, version: Half, timestamp: nat, identity: seq<byte>)
    requires |identity| == 64 && ValidState(s) && OpenListed(s) && s.mem.next + 1 < Long
    ensures Payloads(ShutTo(s, version, identity, timestamp).log) == Payloads(s.log)
  {
    ShutDone(s, version, identity, timestamp);
    PayloadsNoRow(s.log, s.log + ShutdownPart(s.mem, version, identity, timestamp));
  }

  lemma {:induction false} PruneLeaves(s: State, min: nat)
    ensures PruneTo(s, min).log == s.log && PruneTo(s, min).shut == s.shut
    decreases |s.mem.segments|
  {
    if |s.mem.segments| > 1 && s.disk != [] && s.mem.segments[0].last < min { PruneLeaves(RemoveOldest(s), min); }
  }

  lemma {:induction false} AcceptedRow(s: State, payload: seq<byte>, noise: Noise, maxSeg: nat, identity: seq<byte>)
    requires |identity| == 64 && ValidState(s) && OpenListed(s) && !s.shut && s.mem.next + 3 < Long
    ensures var r := AppendTo(Begun(s), maxSeg, identity, noise, payload);
      Payloads(r.log) == Payloads(s.log) + [payload] && !r.shut
  {
    AppendRows(Begun(s), payload, noise, maxSeg, identity);
  }

  lemma {:induction false} OpRows(s: State, op: Op, maxSeg: nat, identity: seq<byte>, min: nat, r: State)
    requires |identity| == 64 && ValidState(s) && OpenListed(s) && r == OpTo(s, op, maxSeg, identity, min)
    ensures Payloads(r.log) == Given(Payloads(s.log), s, op)
    ensures r.shut <==> s.shut || (op.Shutdown? && s.mem.next + 1 < Long)
  {
    var b := Begun(s);
    match op
    case Append(payload, noise) =>
      if Accepts(s, op) { AcceptedRow(s, payload, noise, maxSeg, identity); }
    case Sync =>
    case Shutdown(version, timestamp) =>
      if s.mem.next + 1 < Long { ShutRows(b, version, timestamp, identity); }
    case Prune => PruneLeaves(b, min);
  }

  // ---------- one event ----------

  // What an event makes of the rows: an accepted append adds its payload, a
  // crash leaves a beginning that holds every durable row, and an erasing
  // crash leaves none.
  lemma {:induction false} TurnRows(s: State, e: Event, t: Turn, maxSeg: nat, identity: seq<byte>)
    requires |identity| == 64 && ValidState(s) && TurnOf(s, e, t, maxSeg, identity)
    ensures var given := Given(Payloads(s.log), s, e.op);
      if e.Do? then
        Payloads(t.now.log) == given && (t.now.shut <==> s.shut || (e.op.Shutdown? && s.mem.next + 1 < Long))
      else
        !t.now.shut && Payloads(t.now.log) <= given
        && if Wipes(e, t) then t.now.log == [] else Payloads(Promise(s)) <= Payloads(t.now.log)
  {
    NoPins(s.mem.next);
    assert t.after == OpTo(s, e.op, maxSeg, identity, s.mem.next);
    OpRows(s, e.op, maxSeg, identity, s.mem.next, t.after);
    if e.Crash? {
      CrashLeaves(s, e, t, maxSeg, identity);
      Cut(t.now.log, t.after.log);
      if !Wipes(e, t) {
        TurnKeeps(s, e, t, maxSeg, identity, Promise(s));
        Cut(Promise(s), t.now.log);
      }
    }
  }

  lemma {:induction false} Cut(a: seq<Frame>, b: seq<Frame>)
    requires a <= b
    ensures Payloads(a) <= Payloads(b)
  {
    PayloadsPrefix(b, |a|);
    assert b[..|a|] == a;
  }

  // a restarted log is a beginning of the log the crash struck at
  lemma {:induction false} CrashLeaves(s: State, e: Event, t: Turn, maxSeg: nat, identity: seq<byte>)
    requires |identity| == 64 && TurnOf(s, e, t, maxSeg, identity) && e.Crash?
    ensures t.now.log <= t.after.log && !t.now.shut && (Wipes(e, t) ==> t.now.log == [])
  {
    var i := e.moment % |t.after.images|;
    assert t.after.images[i].log <= t.after.log;
  }

  // ---------- whole runs ----------

  // the payloads a run was given and has not lost: each accepted append adds
  // one at the end, each crash cuts the sequence
  ghost function Told(events: seq<Event>, trace: seq<Turn>, n: nat): seq<seq<byte>>
    requires n <= |events| && n <= |trace|
  {
    if n == 0 then [] else
    var e := events[n - 1];
    var given := Given(Told(events, trace, n - 1), StateBefore(trace, n - 1), e.op);
    if e.Do? then given else Front(given, |Payloads(trace[n - 1].now.log)|)
  }

  function Front<T>(s: seq<T>, n: nat): seq<T> { if n <= |s| then s[..n] else s }

  // The rows in the log are at every moment of a run exactly the payloads
  // given to accepted appends, in their order, as far as no crash cut them.
  lemma {:induction false} RunRows(events: seq<Event>, trace: seq<Turn>, maxSeg: nat, identity: seq<byte>, n: nat)
    requires |identity| == 64 && History(events, trace, maxSeg, identity) && n <= |trace|
    ensures Payloads(StateBefore(trace, n).log) == Told(events, trace, n)
  {
    if n > 0 {
      RunRows(events, trace, maxSeg, identity, n - 1);
      NextRows(events, trace, maxSeg, identity, n - 1, n);
    }
  }

  lemma {:induction false} NextRows(events: seq<Event>, trace: seq<Turn>, maxSeg: nat, identity: seq<byte>, i: nat,
                                    n: nat)
    requires |identity| == 64 && History(events, trace, maxSeg, identity) && n == i + 1 <= |trace|
    requires Payloads(StateBefore(trace, i).log) == Told(events, trace, i)
    ensures Payloads(StateBefore(trace, n).log) == Told(events, trace, n)
  {
    RowsOfTurn(events, trace, maxSeg, identity, i);
    NextTold(events, trace, i);
  }

  lemma {:induction false} NextTold(events: seq<Event>, trace: seq<Turn>, i: nat)
    requires i < |events| && i < |trace| && Payloads(StateBefore(trace, i).log) == Told(events, trace, i)
    requires var given := Given(Payloads(StateBefore(trace, i).log), StateBefore(trace, i), events[i].op);
      var now := Payloads(StateBefore(trace, i + 1).log);
      if events[i].Do? then now == given else now <= given
    ensures Payloads(StateBefore(trace, i + 1).log) == Told(events, trace, i + 1)
  {
    ToldMore(events, trace, i);
  }

  lemma {:induction false} ToldMore(events: seq<Event>, trace: seq<Turn>, i: nat)
    requires i < |events| && i < |trace|
    ensures var given := Given(Told(events, trace, i), StateBefore(trace, i), events[i].op);
      Told(events, trace, i + 1)
      == if events[i].Do? then given else Front(given, |Payloads(StateBefore(trace, i + 1).log)|)
  {
  }

  // each crash cuts less than the durable rows, or erases everything
  lemma {:induction false} RowsOfTurn(events: seq<Event>, trace: seq<Turn>, maxSeg: nat, identity: seq<byte>, i: nat)
    requires |identity| == 64 && History(events, trace, maxSeg, identity) && i < |trace|
    ensures var s, now := StateBefore(trace, i), StateBefore(trace, i + 1);
      var given := Given(Payloads(s.log), s, events[i].op);
      if events[i].Do? then Payloads(now.log) == given
      else
        Payloads(now.log) <= given
        && if Wipes(events[i], trace[i]) then now.log == []
           else ValidState(s) && Payloads(Promise(s)) <= Payloads(now.log)
  {
    RunStatesValid(events, trace, maxSeg, identity, i);
    assert Happened(events, trace, maxSeg, identity, i);
    TurnRows(StateBefore(trace, i), events[i], trace[i], maxSeg, identity);
  }
}
