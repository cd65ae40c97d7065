/** Delivery from the audit outbox (reference/polls/pollmodule/service.go, FlushAudit): at
    least one attempt per entry, one effect in the audit log. The runs are those of PollRuns:
    any number of flushers, mutations, failures and crashes interleaved. */
module AuditDelivery {
  import opened Instants
  import opened Options
  import opened PollEntities
  import opened PollRuns
  import opened PollStore
  import Svc = PollService
  import Text

  predicate Enqueued(outbox: seq<OutboxRow>, e: AuditEntry) {
    exists i :: 0 <= i < |outbox| && outbox[i].entry == e
  }

  ghost predicate DeliverySound(s: System) {
    && UniqueEvents(s.t.outbox)
    && (forall i, j | 0 <= i < j < |s.log| :: s.log[i].eventID != s.log[j].eventID)
    && (forall i | 0 <= i < |s.log| :: Enqueued(s.t.outbox, s.log[i]))
    && (forall i | 0 <= i < |s.t.outbox| :: RowLogged(s.t.outbox[i], s.log))
    && (forall f | f in s.flushers :: FlusherSound(s, s.flushers[f]))
  }

  predicate RowLogged(row: OutboxRow, log: seq<AuditEntry>) {
    Pending(row) || InLog(log, row.entry.eventID)
  }

  predicate FlusherSound(s: System, flusher: Flusher) {
    && (forall i | 0 <= i < |flusher.batch| :: Enqueued(s.t.outbox, flusher.batch[i]))
    && (flusher.Marking? && flusher.batch != [] ==> InLog(s.log, flusher.batch[0].eventID))
  }

  /** Rows are only ever added, and a row only ever becomes delivered. */
  ghost predicate Extends(a: seq<OutboxRow>, b: seq<OutboxRow>) {
    |a| <= |b| && forall i | 0 <= i < |a| :: b[i].entry == a[i].entry && (!Pending(a[i]) ==> b[i] == a[i])
  }

  lemma ExtendedEntries(a: seq<OutboxRow>, b: seq<OutboxRow>, e: AuditEntry)
    requires Extends(a, b) && Enqueued(a, e)
    ensures Enqueued(b, e)
  {
    var i :| 0 <= i < |a| && a[i].entry == e;
    assert b[i].entry == e;
  }

  lemma LogGrows(log: seq<AuditEntry>, e: AuditEntry, eventID: string)
    requires InLog(log, eventID)
    ensures InLog(log + [e], eventID)
  {
    var i :| 0 <= i < |log| && log[i].eventID == eventID;
    assert (log + [e])[i].eventID == eventID;
  }

  /** What one step does to the outbox, the log and the flushers. */
  lemma ManageExtends(s: System, m: Management)
    requires TablesSound(s) && DeliverySound(s)
    ensures DeliverySound(Next(s, Manage(m))) && Extends(s.t.outbox, Next(s, Manage(m)).t.outbox)
  {
    var s' := Next(s, Manage(m));
    var c := ManagementChanges(s.t, m);
    assert s'.log == s.log && s'.flushers == s.flushers && Applied(s.t, s'.t, c);
    hide Next;
    OutboxGrown(s.t.outbox, s'.t.outbox);
    SoundAfterGrowth(s, s');
  }

  lemma OutboxGrown(a: seq<OutboxRow>, b: seq<OutboxRow>)
    requires UniqueEvents(a)
    requires b == a || (|b| == |a| + 1 && b[..|a|] == a && Pending(b[|a|]) && !EventKnown(a, b[|a|].entry.eventID))
    ensures Extends(a, b) && UniqueEvents(b) && forall i | |a| <= i < |b| :: Pending(b[i])
  {
    forall i | 0 <= i < |a|
      ensures b[i] == a[i]
    {
      assert b[..|a|][i] == a[i] || b == a;
    }
  }

  lemma SoundAfterGrowth(s: System, s': System)
    requires DeliverySound(s) && s'.log == s.log && s'.flushers == s.flushers
    requires Extends(s.t.outbox, s'.t.outbox) && UniqueEvents(s'.t.outbox)
    requires forall i | 0 <= i < |s'.t.outbox| :: RowLogged(s'.t.outbox[i], s.log)
    ensures DeliverySound(s')
  {
    forall i | 0 <= i < |s'.log|
      ensures Enqueued(s'.t.outbox, s'.log[i])
    {
      ExtendedEntries(s.t.outbox, s'.t.outbox, s.log[i]);
    }
    forall f | f in s'.flushers
      ensures FlusherSound(s', s'.flushers[f])
    {
      FlusherKept(s, s', s.flushers[f]);
    }
  }

  lemma FlusherKept(s: System, s': System, flusher: Flusher)
    requires FlusherSound(s, flusher) && Extends(s.t.outbox, s'.t.outbox)
    requires s.log == s'.log || (s'.log != [] && s'.log == s.log + [s'.log[|s'.log| - 1]])
    ensures FlusherSound(s', flusher)
  {
    forall i | 0 <= i < |flusher.batch|
      ensures Enqueued(s'.t.outbox, flusher.batch[i])
    {
      ExtendedEntries(s.t.outbox, s'.t.outbox, flusher.batch[i]);
    }
    if flusher.Marking? && flusher.batch != [] && s.log != s'.log {
      LogGrows(s.log, s'.log[|s'.log| - 1], flusher.batch[0].eventID);
    }
  }

  lemma FetchKeepsSound(s: System, f: nat, batch: seq<AuditEntry>)
    requires DeliverySound(s) && Enabled(s, Fetch(f, batch))
    ensures DeliverySound(Next(s, Fetch(f, batch)))
  {
    PendingFromOutbox(s.t.outbox);
    var s' := Next(s, Fetch(f, batch));
    forall i | 0 <= i < |batch|
      ensures Enqueued(s.t.outbox, batch[i])
    {
      var j :| 0 <= j < |PendingEntries(s.t.outbox)| && PendingEntries(s.t.outbox)[j] == batch[i];
      var k :| 0 <= k < |s.t.outbox| && QueuedAt(s.t.outbox, PendingEntries(s.t.outbox)[j], k);
      assert s.t.outbox[k].entry == batch[i];
    }
    forall g | g in s'.flushers
      ensures FlusherSound(s', s'.flushers[g])
    {
      assert g != f ==> FlusherSound(s, s.flushers[g]);
    }
  }

  lemma RecordKeepsSound(s: System, f: nat, a: Answer)
    requires DeliverySound(s) && Enabled(s, Record(f, a))
    ensures DeliverySound(Next(s, Record(f, a))) && Next(s, Record(f, a)).t == s.t
  {
    var s' := Next(s, Record(f, a));
    var e := s.flushers[f].batch[0];
    assert FlusherSound(s, s.flushers[f]);
    assert a.stored ==> s'.log == s.log + [e] && s'.log[|s.log|] == e;
    forall i | 0 <= i < |s'.log|
      ensures Enqueued(s'.t.outbox, s'.log[i])
    {
      assert i < |s.log| ==> s'.log[i] == s.log[i];
    }
    forall i | 0 <= i < |s.t.outbox|
      ensures RowLogged(s'.t.outbox[i], s'.log)
    {
      assert RowLogged(s.t.outbox[i], s.log);
      if a.stored && !Pending(s.t.outbox[i]) {
        LogGrows(s.log, e, s.t.outbox[i].entry.eventID);
      }
    }
    if TakenAsDelivered(a) && a.stored {
      assert s'.log[|s.log|].eventID == e.eventID;
    }
    forall g | g in s'.flushers
      ensures FlusherSound(s', s'.flushers[g])
    {
      assert g in s.flushers && FlusherSound(s, s.flushers[g]);
      if g != f {
        FlusherKept(s, s', s.flushers[g]);
      }
    }
  }

  lemma MarkExtends(outbox: seq<OutboxRow>, eventID: string, now: Time, log: seq<AuditEntry>)
    requires UniqueEvents(outbox) && InLog(log, eventID)
    requires forall i | 0 <= i < |outbox| :: RowLogged(outbox[i], log)
    ensures var marked := MarkDelivered(outbox, eventID, now);
            && Extends(outbox, marked) && UniqueEvents(marked)
            && forall i | 0 <= i < |marked| :: RowLogged(marked[i], log)
  {
    var marked := MarkDelivered(outbox, eventID, now);
    forall i | 0 <= i < |marked|
      ensures RowLogged(marked[i], log)
    {
      assert RowLogged(outbox[i], log);
    }
  }

  lemma SoundAfterMark(s: System, s': System, f: nat)
    requires DeliverySound(s) && Flushing(s, f) && s'.log == s.log
    requires Extends(s.t.outbox, s'.t.outbox) && UniqueEvents(s'.t.outbox)
    requires forall i | 0 <= i < |s'.t.outbox| :: RowLogged(s'.t.outbox[i], s.log)
    requires s'.flushers == s.flushers - {f} || s'.flushers == s.flushers[f := Recording(s.flushers[f].batch[1..])]
    ensures DeliverySound(s')
  {
    forall i | 0 <= i < |s'.log|
      ensures Enqueued(s'.t.outbox, s'.log[i])
    {
      ExtendedEntries(s.t.outbox, s'.t.outbox, s.log[i]);
    }
    forall g | g in s'.flushers
      ensures FlusherSound(s', s'.flushers[g])
    {
      FlusherKept(s, s', s.flushers[g]);
      if g == f {
        var batch := s.flushers[f].batch;
        assert forall i | 0 <= i < |batch[1..]| :: batch[1..][i] == batch[i + 1];
      }
    }
  }

  lemma MarkKeepsDelivery(s: System, f: nat, now: Time, fails: bool)
    requires DeliverySound(s) && Enabled(s, Mark(f, now, fails))
    ensures DeliverySound(Next(s, Mark(f, now, fails))) && Extends(s.t.outbox, Next(s, Mark(f, now, fails)).t.outbox)
  {
    var s' := Next(s, Mark(f, now, fails));
    MarkOnlyMarks(s, f, now, fails);
    assert FlusherSound(s, s.flushers[f]);
    assert s'.flushers == s.flushers - {f} || s'.flushers == s.flushers[f := Recording(s.flushers[f].batch[1..])];
    MarkExtends(s.t.outbox, s.flushers[f].batch[0].eventID, now, s.log);
    hide Next, MarkDelivered, FlusherSound;
    SoundAfterMark(s, s', f);
  }

  lemma StepKeepsDelivery(s: System, step: Step)
    requires TablesSound(s) && DeliverySound(s) && Enabled(s, step)
    ensures DeliverySound(Next(s, step)) && Extends(s.t.outbox, Next(s, step).t.outbox)
  {
    match step
    case Manage(m) => ManageExtends(s, m);
    case Fetch(f, batch) => FetchKeepsSound(s, f, batch);
    case Record(f, a) => RecordKeepsSound(s, f, a);
    case Mark(f, now, fails) => MarkKeepsDelivery(s, f, now, fails);
    case Snapshot(_, _) =>
      SoundAfterGrowth(s, Next(s, step));
    case SaveVote(_, _) =>
      assert Next(s, step).t.outbox == s.t.outbox;
      SoundAfterGrowth(s, Next(s, step));
    case Stop(f) =>
      forall g | g in Next(s, step).flushers
        ensures FlusherSound(Next(s, step), s.flushers[g])
      {
        assert FlusherSound(s, s.flushers[g]);
      }
  }

  lemma {:induction false} RunKeepsDelivery(s: System, steps: seq<Step>)
    requires TablesSound(s) && DeliverySound(s) && Possible(s, steps)
    ensures DeliverySound(Run(s, steps)) && Extends(s.t.outbox, Run(s, steps).t.outbox)
    decreases |steps|
  {
    if steps != [] {
      var before := steps[..|steps| - 1];
      RunKeepsDelivery(s, before);
      RunKeepsSound(s, before);
      StepKeepsDelivery(Run(s, before), steps[|steps| - 1]);
    }
  }

  /** Each event is in the audit log at most once, the log holds nothing the outbox did not,
      and whatever is marked delivered is in the log as it was enqueued. */
  lemma ExactlyOnceEffect(steps: seq<Step>)
    requires Possible(START, steps)
    ensures var s := Run(START, steps);
            && (forall i, j | 0 <= i < j < |s.log| :: s.log[i].eventID != s.log[j].eventID)
            && (forall i | 0 <= i < |s.log| :: Enqueued(s.t.outbox, s.log[i]))
            && (forall i | 0 <= i < |s.t.outbox| && !Pending(s.t.outbox[i]) :: s.t.outbox[i].entry in s.log)
  {
    RunKeepsDelivery(START, steps);
    var s := Run(START, steps);
    hide Run;
    forall i | 0 <= i < |s.t.outbox| && !Pending(s.t.outbox[i])
      ensures s.t.outbox[i].entry in s.log
    {
      assert RowLogged(s.t.outbox[i], s.log);
      var j :| 0 <= j < |s.log| && s.log[j].eventID == s.t.outbox[i].entry.eventID;
      assert Enqueued(s.t.outbox, s.log[j]);
      var k :| 0 <= k < |s.t.outbox| && s.t.outbox[k].entry == s.log[j];
      assert k == i;
    }
  }

  /** Nothing is lost: an enqueued entry stays where it is, pending or delivered, for ever,
      and a delivered one stays delivered. */
  lemma NothingPendingIsLost(past: seq<Step>, steps: seq<Step>)
    requires Possible(START, past) && Possible(Run(START, past), steps)
    ensures Extends(Run(START, past).t.outbox, Run(Run(START, past), steps).t.outbox)
  {
    RunKeepsDelivery(START, past);
    RunKeepsSound(START, past);
    RunKeepsDelivery(Run(START, past), steps);
  }

  /** Why the contract of the audit service matters: an entry marked after an answer that was
      taken as delivered is in the log exactly when the service stored it or held it. */
  lemma MarkedIsLoggedIfHonest(s: System, f: nat, a: Answer, now: Time)
    requires Flushing(s, f) && s.flushers[f].Recording? && TakenAsDelivered(a)
    requires PendingEvent(s.t.outbox, s.flushers[f].batch[0].eventID)
    ensures var id := s.flushers[f].batch[0].eventID;
            var s' := Next(Next(s, Record(f, a)), Mark(f, now, false));
            && !PendingEvent(s'.t.outbox, id)
            && (InLog(s'.log, id) <==> a.stored || InLog(s.log, id))
  {
    var e := s.flushers[f].batch[0];
    var s1 := Next(s, Record(f, a));
    var s' := Next(s1, Mark(f, now, false));
    assert s'.t.outbox == MarkDelivered(s.t.outbox, e.eventID, now) && s'.log == s1.log;
    assert s1.log == if a.stored then s.log + [e] else s.log;
    if InLog(s.log, e.eventID) {
      LogGrows(s.log, e, e.eventID);
    } else if a.stored {
      assert s1.log[|s.log|].eventID == e.eventID;
    }
  }

  // ---- draining the outbox --------------------------------------------------------------

  ghost function PendingIDs(outbox: seq<OutboxRow>): set<string> {
    set i | 0 <= i < |outbox| && Pending(outbox[i]) :: outbox[i].entry.eventID
  }

  ghost function IDs(batch: seq<AuditEntry>): set<string> {
    set i | 0 <= i < |batch| :: batch[i].eventID
  }

  lemma {:induction false} DistinctIDs(batch: seq<AuditEntry>)
    requires forall i, j | 0 <= i < j < |batch| :: batch[i].eventID != batch[j].eventID
    ensures |IDs(batch)| == |batch|
  {
    if batch != [] {
      var n := |batch| - 1;
      DistinctIDs(batch[..n]);
      assert IDs(batch) == IDs(batch[..n]) + {batch[n].eventID};
    }
  }

  lemma PendingCount(outbox: seq<OutboxRow>)
    requires UniqueEvents(outbox)
    ensures |PendingIDs(outbox)| == |PendingEntries(outbox)| && IDs(PendingEntries(outbox)) == PendingIDs(outbox)
  {
    PendingIsQueued(outbox);
    var pending := PendingEntries(outbox);
    DistinctIDs(pending);
    hide PendingEntries;
    forall i | 0 <= i < |pending|
      ensures pending[i].eventID in PendingIDs(outbox)
    {
      var k :| 0 <= k < |outbox| && QueuedAt(outbox, pending[i], k);
    }
    forall k | 0 <= k < |outbox| && Pending(outbox[k])
      ensures outbox[k].entry.eventID in IDs(pending)
    {
      PendingListed(outbox, k);
      var i :| 0 <= i < |pending| && pending[i] == outbox[k].entry;
    }
    assert IDs(pending) == PendingIDs(outbox);
  }

  /** A batch delivered and marked, entry by entry. */
  function MarkAll(outbox: seq<OutboxRow>, batch: seq<AuditEntry>, now: Time): seq<OutboxRow>
    decreases |batch|
  {
    if batch == [] then outbox
    else MarkDelivered(MarkAll(outbox, batch[..|batch| - 1], now), batch[|batch| - 1].eventID, now)
  }

  lemma {:induction false} MarkAllPending(outbox: seq<OutboxRow>, batch: seq<AuditEntry>, now: Time)
    requires UniqueEvents(outbox)
    ensures UniqueEvents(MarkAll(outbox, batch, now))
    ensures PendingIDs(MarkAll(outbox, batch, now)) == PendingIDs(outbox) - IDs(batch)
    decreases |batch|
  {
    if batch != [] {
      var n := |batch| - 1;
      var before := MarkAll(outbox, batch[..n], now);
      var after := MarkDelivered(before, batch[n].eventID, now);
      MarkAllPending(outbox, batch[..n], now);
      assert IDs(batch) == IDs(batch[..n]) + {batch[n].eventID};
      MarkedPending(before, batch[n].eventID, now);
    }
  }

  lemma MarkedPending(outbox: seq<OutboxRow>, eventID: string, now: Time)
    requires UniqueEvents(outbox)
    ensures var after := MarkDelivered(outbox, eventID, now);
            UniqueEvents(after) && PendingIDs(after) == PendingIDs(outbox) - {eventID}
  {
    var after := MarkDelivered(outbox, eventID, now);
    forall id | id in PendingIDs(outbox) - {eventID}
      ensures id in PendingIDs(after)
    {
      var i :| 0 <= i < |outbox| && Pending(outbox[i]) && outbox[i].entry.eventID == id;
      assert after[i] == outbox[i];
    }
  }

  predicate FlushedWith(a: seq<OutboxRow>, b: seq<OutboxRow>, batch: seq<AuditEntry>, now: Time) {
    b == MarkAll(a, batch, now)
  }

  /** A flush that met no failure and no other flusher. */
  ghost predicate FlushedOnce(a: seq<OutboxRow>, b: seq<OutboxRow>) {
    exists batch: seq<AuditEntry>, now: Time :: IsBatch(a, batch, AUDIT_FLUSH_BATCH_SIZE)
        && FlushedWith(a, b, batch, now)
  }

  lemma FlushTakesABatch(a: seq<OutboxRow>, b: seq<OutboxRow>)
    requires UniqueEvents(a) && FlushedOnce(a, b)
    ensures UniqueEvents(b)
    ensures |PendingEntries(b)| == |PendingEntries(a)| - Smaller(AUDIT_FLUSH_BATCH_SIZE, |PendingEntries(a)|)
  {
    var batch: seq<AuditEntry>, now: Time :| IsBatch(a, batch, AUDIT_FLUSH_BATCH_SIZE) && FlushedWith(a, b, batch, now);
    MarkAllPending(a, batch, now);
    PendingCount(a);
    PendingCount(b);
    DistinctIDs(batch);
    forall i | 0 <= i < |batch|
      ensures batch[i].eventID in PendingIDs(a)
    {
      var j :| 0 <= j < |PendingEntries(a)| && PendingEntries(a)[j] == batch[i];
    }
    assert IDs(batch) <= PendingIDs(a);
  }

  /** n pending entries need exactly n / 100 flushes, rounded up: after k failure-free,
      uncontended flushes n - 100 k of them are left, and none once 100 k reaches n. */
  lemma {:induction false} OutboxDrains(trace: seq<seq<OutboxRow>>)
    requires trace != [] && UniqueEvents(trace[0])
    requires forall i | 0 < i < |trace| :: FlushedOnce(trace[i - 1], trace[i])
    ensures var n, done := |PendingEntries(trace[0])|, AUDIT_FLUSH_BATCH_SIZE * (|trace| - 1);
            |PendingEntries(trace[|trace| - 1])| == if done < n then n - done else 0
    ensures UniqueEvents(trace[|trace| - 1])
    decreases |trace|
  {
    var k := |trace| - 1;
    if 0 < k {
      OutboxDrains(trace[..k]);
      assert trace[..k][k - 1] == trace[k - 1];
      FlushTakesABatch(trace[k - 1], trace[k]);
    }
  }

  /** Flusher f has taken a batch and delivered its first n entries. */
  predicate HalfFlushed(s: System, s': System, f: nat, batch: seq<AuditEntry>, n: nat, now: Time)
    requires n <= |batch|
  {
    && s'.flushers == s.flushers[f := Recording(batch[n..])]
    && s'.t == s.t.(outbox := MarkAll(s.t.outbox, batch[..n], now)) && s'.casting == s.casting
  }

  lemma RecordNext(s: System, f: nat, batch: seq<AuditEntry>) returns (a: Answer)
    requires batch != [] && f in s.flushers && s.flushers[f] == Recording(batch)
    ensures Enabled(s, Record(f, a))
    ensures Next(s, Record(f, a)) == s.(flushers := s.flushers[f := Marking(batch)], log := Next(s, Record(f, a)).log)
  {
    UniqueMentioned();
    a := if InLog(s.log, batch[0].eventID) then Answer(false, Some("unique")) else Answer(true, None);
  }

  lemma MarkNext(s: System, f: nat, batch: seq<AuditEntry>, now: Time)
    requires batch != [] && f in s.flushers && s.flushers[f] == Marking(batch)
              && PendingEvent(s.t.outbox, batch[0].eventID)
    ensures Enabled(s, Mark(f, now, false))
    ensures Next(s, Mark(f, now, false))
         == s.(flushers := s.flushers[f := Recording(batch[1..])],
             t := s.t.(outbox := MarkDelivered(s.t.outbox, batch[0].eventID, now)))
  {
  }

  lemma DeliverNext(s: System, mid: System, f: nat, batch: seq<AuditEntry>, n: nat, now: Time) returns (a: Answer)
    requires UniqueEvents(s.t.outbox) && IsBatch(s.t.outbox, batch, AUDIT_FLUSH_BATCH_SIZE) && n < |batch|
    requires HalfFlushed(s, mid, f, batch, n, now)
    ensures Enabled(mid, Record(f, a)) && Enabled(Next(mid, Record(f, a)), Mark(f, now, false))
    ensures HalfFlushed(s, Next(Next(mid, Record(f, a)), Mark(f, now, false)), f, batch, n + 1, now)
  {
    hide IsBatch, MarkAll, MarkDelivered, PendingEvent, Next, Enabled;
    assert batch[n..][0] == batch[n] && batch[n..][1..] == batch[n + 1..];
    a := RecordNext(mid, f, batch[n..]);
    var s1 := Next(mid, Record(f, a));
    StillPending(s.t.outbox, batch, n, now);
    MarkNext(s1, f, batch[n..], now);
    MarkAllNext(s.t.outbox, batch, n, now);
  }

  lemma {:induction false} FlushSteps(s: System, f: nat, batch: seq<AuditEntry>, n: nat, now: Time)
    returns (steps: seq<Step>)
    requires UniqueEvents(s.t.outbox) && f !in s.flushers && IsBatch(s.t.outbox, batch, AUDIT_FLUSH_BATCH_SIZE)
              && n <= |batch|
    ensures Possible(s, steps) && HalfFlushed(s, Run(s, steps), f, batch, n, now)
    decreases n
  {
    if n == 0 {
      RunSnoc(s, [], Fetch(f, batch));
      steps := [] + [Fetch(f, batch)];
      assert batch[0..] == batch && batch[..0] == [];
      assert Possible(s, []) && Run(s, []) == s;
    } else {
      hide Possible, Run, Next, Enabled, IsBatch;
      var before := FlushSteps(s, f, batch, n - 1, now);
      var a := DeliverNext(s, Run(s, before), f, batch, n - 1, now);
      RunSnoc(s, before, Record(f, a));
      RunSnoc(s, before + [Record(f, a)], Mark(f, now, false));
      steps := before + [Record(f, a)] + [Mark(f, now, false)];
    }
  }

  /** Such a flush is a possible run of the system, ending with the whole batch marked. */
  lemma FlushIsARun(s: System, f: nat, batch: seq<AuditEntry>, now: Time) returns (steps: seq<Step>)
    requires UniqueEvents(s.t.outbox) && f !in s.flushers && IsBatch(s.t.outbox, batch, AUDIT_FLUSH_BATCH_SIZE)
    ensures Possible(s, steps) && FlushedOnce(s.t.outbox, Run(s, steps).t.outbox)
    ensures Run(s, steps).flushers == s.flushers && Run(s, steps).t.polls == s.t.polls
              && Run(s, steps).t.votes == s.t.votes
  {
    var before := FlushSteps(s, f, batch, |batch|, now);
    assert batch[..|batch|] == batch;
    steps := before + [Stop(f)];
    RunSnoc(s, before, Stop(f));
    hide Run, Possible, IsBatch, MarkAll;
    assert FlushedWith(s.t.outbox, Run(s, steps).t.outbox, batch, now);
    assert Run(s, steps).flushers == s.flushers;
  }

  // ---- one flush, as the service runs it ------------------------------------------------

  /** The audit service's table, as the service's contract describes it. */
  class AuditLog {
    var events: seq<AuditEntry>

    constructor ()
      ensures events == []
    {
      events := [];
    }

    method Record(e: AuditEntry, available: bool) returns (a: Answer)
      modifies this
      ensures Honest(old(events), e, a) && (TakenAsDelivered(a) <==> available)
      ensures events == if a.stored then old(events) + [e] else old(events)
    {
      if !available {
        return Answer(false, Some("down"));
      }
      var held := false;
      for i := 0 to |events|
        invariant events == old(events)
        invariant held <==> InLog(events[..i], e.eventID)
      {
        if events[i].eventID == e.eventID {
          held := true;
          assert events[..i + 1][i] == events[i];
        } else if held {
          var j :| 0 <= j < i && events[..i][j].eventID == e.eventID;
          assert events[..i + 1][j] == events[..i][j];
        }
      }
      assert events[..|events|] == events;
      if held {
        UniqueMentioned();
        return Answer(false, Some("unique"));
      }
      events := events + [e];
      return Answer(true, None);
    }
  }

  lemma UniqueMentioned()
    ensures Text.Contains(Text.ToLower("unique"), "unique")
  {
    assert Text.ToLower("unique") == "unique";
    assert Text.OccursAt("unique", "unique", 0);
  }

  function Least(a: nat, b: nat, c: nat): nat {
    Smaller(Smaller(a, b), c)
  }

  /** FlushAudit, while no other flusher runs: the query may fail, the audit service may be
      absent or go down after outage records, and the store may fail from mark number
      markOutage on. Exactly the entries before the first failure are delivered and marked. */
  method FlushAudit(store: Store, audit: AuditLog?, now: Clock, queryFails: bool, outage: nat, markOutage: nat)
    returns (ok: bool, ghost batch: seq<AuditEntry>, delivered: nat)
    requires UniqueEvents(store.outbox)
    modifies store`outbox, if audit == null then {} else {audit}
    ensures audit == null || queryFails ==> batch == [] && (ok <==> audit == null)
    ensures audit != null && !queryFails ==>
              && IsBatch(old(store.outbox), batch, AUDIT_FLUSH_BATCH_SIZE)
              && delivered == Least(outage, markOutage, |batch|) && (ok <==> delivered == |batch|)
    ensures delivered <= |batch| && store.outbox == MarkAll(old(store.outbox), batch[..delivered], now)
    ensures audit != null ==> AllLogged(audit.events, batch[..delivered]) && old(audit.events) <= audit.events
  {
    hide UniqueEvents, IsBatch, MarkAll, MarkDelivered, AllLogged, Honest, PendingEvent, TakenAsDelivered;
    ghost var outbox := store.outbox;
    delivered := 0;
    batch := [];
    NothingDelivered(outbox, now);
    assert batch[..0] == [];
    if audit == null {
      return true, [], 0;
    }
    NothingLogged(audit.events);
    if queryFails {
      return false, [], 0;
    }
    var entries := store.PendingAudit(AUDIT_FLUSH_BATCH_SIZE);
    batch := entries;
    assert entries[..0] == [];
    while delivered < |entries|
      invariant delivered <= |entries| && delivered <= outage && delivered <= markOutage
      invariant store.outbox == MarkAll(outbox, entries[..delivered], now)
      invariant AllLogged(audit.events, entries[..delivered]) && old(audit.events) <= audit.events
    {
      hide *;
      var entry := entries[delivered];
      ghost var log := audit.events;
      var answer := audit.Record(entry, delivered < outage);
      AnswerLogged(log, audit.events, entries, delivered, answer);
      var taken := TakenAsDelivered(answer);
      if !taken {
        return false, entries, delivered;
      }
      StillPending(outbox, entries, delivered, now);
      var marked := store.MarkAuditDelivered(entry.eventID, now, markOutage <= delivered);
      if marked.Failed? {
        return false, entries, delivered;
      }
      MarkAllNext(outbox, entries, delivered, now);
      delivered := delivered + 1;
    }
    assert entries[..delivered] == entries;
    return true, entries, delivered;
  }

  // ---- a management call as its caller sees it ------------------------------------------

  /** Each management call flushes the outbox once its own transaction has committed, and
      answers the same whether the flush succeeds or not. */
  method ManageAndFlush(service: Svc.Service, audit: AuditLog?, m: Management,
                        flushAt: Clock, queryFails: bool, outage: nat, markOutage: nat)
    returns (outcome: Outcome, ghost batch: seq<AuditEntry>, delivered: nat)
    requires UniqueEvents(service.store.outbox) && ZERO_TIME < m.now
              && (m.CreateCall? || m.UpdateCall? ==> ZERO_TIME < m.wall)
    modifies service.store, if audit == null then {} else {audit}
    ensures outcome == Managed(old(service.store.Contents()), m).1
    ensures delivered <= |batch|
    ensures var t := Managed(old(service.store.Contents()), m).0;
            && UniqueEvents(t.outbox)
            && service.store.Contents() == t.(outbox := MarkAll(t.outbox, batch[..delivered], flushAt))
            && (outcome != Done ==> batch == [])
            && (outcome == Done && audit != null && !queryFails ==>
                  && IsBatch(t.outbox, batch, AUDIT_FLUSH_BATCH_SIZE)
                  && delivered == Least(outage, markOutage, |batch|))
    ensures audit != null ==> AllLogged(audit.events, batch[..delivered]) && old(audit.events) <= audit.events
  {
    ghost var before := service.store.Contents();
    match m {
      case CreateCall(p, freshID, eventID, wall, now, fails) =>
        outcome := service.CreatePoll(p, freshID, eventID, wall, now, fails);
      case UpdateCall(a, id, input, eventID, wall, now, fails) =>
        outcome := service.UpdatePoll(a, id, input, eventID, wall, now, fails);
      case TransitionCall(a, id, target, eventID, now, fails) =>
        outcome := service.TransitionPoll(a, id, target, eventID, now, fails);
      case DeleteCall(a, id, eventID, now, fails) =>
        outcome := service.DeletePoll(a, id, eventID, now, fails);
    }
    ghost var t := service.store.Contents();
    assert (t, outcome) == Managed(before, m);
    hide Managed, UniqueEvents, IsBatch, MarkAll, AllLogged;
    ManagedEvents(before, m);
    NothingDelivered(t.outbox, flushAt);
    batch, delivered := [], 0;
    assert batch[..0] == [];
    if outcome == Done {
      var _, flushed, n := FlushAudit(service.store, audit, flushAt, queryFails, outage, markOutage);
      batch, delivered := flushed, n;
    } else if audit != null {
      NothingLogged(audit.events);
    }
  }

  lemma OutboxGrows(t: Tables, m: Management)
    ensures var outbox := Managed(t, m).0.outbox;
            || outbox == t.outbox
            || (|outbox| == |t.outbox| + 1 && outbox[..|t.outbox|] == t.outbox && Pending(outbox[|t.outbox|])
                && !EventKnown(t.outbox, outbox[|t.outbox|].entry.eventID))
  {
    hide Accepted, Normalized, Authorized, Svc.Visible, ValidTransition, EventKnown, SlugTaken, WithoutVotes;
  }

  lemma ManagedEvents(t: Tables, m: Management)
    requires UniqueEvents(t.outbox)
    ensures UniqueEvents(Managed(t, m).0.outbox)
  {
    OutboxGrows(t, m);
    hide Managed;
    OutboxGrown(t.outbox, Managed(t, m).0.outbox);
  }

  predicate AllLogged(log: seq<AuditEntry>, batch: seq<AuditEntry>) {
    forall i | 0 <= i < |batch| :: InLog(log, batch[i].eventID)
  }

  lemma NothingDelivered(outbox: seq<OutboxRow>, now: Time)
    ensures MarkAll(outbox, [], now) == outbox
  {
  }

  lemma NothingLogged(log: seq<AuditEntry>)
    ensures AllLogged(log, [])
  {
  }

  lemma AnswerLogged(log: seq<AuditEntry>, log': seq<AuditEntry>, batch: seq<AuditEntry>, n: nat, a: Answer)
    requires n < |batch| && AllLogged(log, batch[..n]) && Honest(log, batch[n], a)
    requires log' == if a.stored then log + [batch[n]] else log
    ensures log <= log' && AllLogged(log', batch[..n])
    ensures TakenAsDelivered(a) ==> AllLogged(log', batch[..n + 1])
  {
    forall i | 0 <= i < n
      ensures InLog(log', batch[i].eventID)
    {
      assert batch[..n][i] == batch[i];
      LogGrows(log, batch[n], batch[i].eventID);
    }
    if TakenAsDelivered(a) {
      if a.stored {
        assert log'[|log|].eventID == batch[n].eventID;
      }
      assert InLog(log', batch[n].eventID);
    }
  }

  lemma MarkAllNext(outbox: seq<OutboxRow>, batch: seq<AuditEntry>, n: nat, now: Time)
    requires n < |batch|
    ensures MarkAll(outbox, batch[..n + 1], now)
              == MarkDelivered(MarkAll(outbox, batch[..n], now), batch[n].eventID, now)
  {
    assert batch[..n + 1][..n] == batch[..n];
  }

  lemma BatchPending(outbox: seq<OutboxRow>, batch: seq<AuditEntry>, n: nat)
    requires UniqueEvents(outbox) && IsBatch(outbox, batch, AUDIT_FLUSH_BATCH_SIZE) && n < |batch|
    ensures batch[n].eventID in PendingIDs(outbox) && batch[n].eventID !in IDs(batch[..n])
  {
    PendingCount(outbox);
    hide PendingIDs, PendingEntries, UniqueEvents;
    var j :| 0 <= j < |PendingEntries(outbox)| && PendingEntries(outbox)[j] == batch[n];
    assert batch[n].eventID in IDs(PendingEntries(outbox));
  }

  lemma PendingKnown(outbox: seq<OutboxRow>, eventID: string)
    requires eventID in PendingIDs(outbox)
    ensures PendingEvent(outbox, eventID)
  {
  }

  /** The next entry of a batch is still pending after the earlier ones were marked. */
  lemma StillPending(outbox: seq<OutboxRow>, batch: seq<AuditEntry>, n: nat, now: Time)
    requires UniqueEvents(outbox) && IsBatch(outbox, batch, AUDIT_FLUSH_BATCH_SIZE) && n < |batch|
    ensures PendingEvent(MarkAll(outbox, batch[..n], now), batch[n].eventID)
  {
    hide *;
    BatchPending(outbox, batch, n);
    MarkAllPending(outbox, batch[..n], now);
    PendingKnown(MarkAll(outbox, batch[..n], now), batch[n].eventID);
  }

  // ---- reading an answer ----------------------------------------------------------------

  lemma LowerPart(s: string, i: nat, n: nat)
    requires i + n <= |s|
    ensures Text.ToLower(s)[i..i + n] == Text.ToLower(s[i..i + n])
  {
  }

  /** At position i the text says "unique", in any mixture of upper and lower case. */
  predicate MentionsUnique(s: string, i: nat) {
    i + 6 <= |s| && Text.EqualFold(s[i..i + 6], "unique")
  }

  lemma MentionIsOccurrence(s: string, i: nat)
    ensures MentionsUnique(s, i) <==> Text.OccursAt(Text.ToLower(s), "unique", i)
  {
    assert Text.ToLower("unique") == "unique" && |"unique"| == 6 && |Text.ToLower(s)| == |s|;
    if i + 6 <= |s| {
      LowerPart(s, i, 6);
    }
  }

  /** Row i of an outbox still waits for its event to be delivered. */
  predicate Waits(outbox: seq<OutboxRow>, eventID: string, i: int) {
    0 <= i < |outbox| && outbox[i].entry.eventID == eventID && outbox[i].deliveredAt == None
  }

  /** What a mark does among concurrent flushes: the flush goes on, with the next entry, exactly
      when the database works and nobody marked the entry before; then the waiting row carries
      the time, and nothing else in the tables changes. */
  lemma MarkDecides(s: System, f: nat, now: Time, fails: bool)
    requires Enabled(s, Mark(f, now, fails))
    ensures var s', e, rows := Next(s, Mark(f, now, fails)), s.flushers[f].batch[0].eventID, s.t.outbox;
            && (f in s'.flushers <==> !fails && exists i :: Waits(rows, e, i))
            && (f in s'.flushers ==> s'.flushers[f] == Recording(s.flushers[f].batch[1..]))
            && (forall g | g != f :: g in s'.flushers <==> g in s.flushers)
            && (forall g | g in s.flushers && g != f :: s'.flushers[g] == s.flushers[g])
            && s'.t.polls == s.t.polls && s'.t.votes == s.t.votes && s'.log == s.log && s'.casting == s.casting
            && |s'.t.outbox| == |rows|
            && (forall i | 0 <= i < |rows| ::
                  s'.t.outbox[i] == if Waits(rows, e, i) && !fails then rows[i].(deliveredAt := Some(now)) else rows[i])
  {
    var e := s.flushers[f].batch[0].eventID;
    if PendingEvent(s.t.outbox, e) {
      var i :| 0 <= i < |s.t.outbox| && s.t.outbox[i].entry.eventID == e && Pending(s.t.outbox[i]);
      assert Waits(s.t.outbox, e, i);
    }
  }

  /** What an answer of the audit service does to a flush: it goes on to the mark exactly when
      the answer counts as delivered, and the log has one entry more exactly when it was stored. */
  lemma AnswerDecides(s: System, f: nat, a: Answer)
    requires Enabled(s, Record(f, a))
    ensures var s', batch := Next(s, Record(f, a)), s.flushers[f].batch;
            && (f in s'.flushers <==> TakenAsDelivered(a))
            && (f in s'.flushers ==> s'.flushers[f] == Marking(batch))
            && (forall g | g != f :: g in s'.flushers <==> g in s.flushers)
            && (forall g | g in s.flushers && g != f :: s'.flushers[g] == s.flushers[g])
            && s'.t == s.t && s'.casting == s.casting
            && s'.log == s.log + if a.stored then [batch[0]] else []
  {
    hide TakenAsDelivered, Honest;
  }

  /** An answer counts as delivered exactly when there is no error, or its text mentions
      "unique" somewhere. */
  lemma DeliveredMeans(a: Answer)
    ensures TakenAsDelivered(a) <==> a.error.None? || exists i: nat :: MentionsUnique(a.error.value, i)
  {
    if a.error.Some? {
      var s := a.error.value;
      forall i: nat ensures MentionsUnique(s, i) <==> Text.OccursAt(Text.ToLower(s), "unique", i) {
        MentionIsOccurrence(s, i);
      }
      hide MentionsUnique;
      if i: nat :| MentionsUnique(s, i) {
        assert i <= |Text.ToLower(s)|;
      }
    }
  }
}
