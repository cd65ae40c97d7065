/** What whole runs of the login throttle guarantee, however calls for different
    identifiers interleave: rate bounds, agreement with an unbounded throttle, lock
    persistence and the accounting of reservations. */
module LoginRuns {
  import opened Instants
  import opened FixedWindows
  import opened LoginPolicy
  import Sets

  datatype Call =
    | AllowLogin(key: Key, now: Clock)
    | RecordFailure(key: Key, now: Clock)
    | RecordSuccess(key: Key)

  function After(l: Limits, t: Table, c: Call): Table {
    match c
    case AllowLogin(k, now) => Allow(l, t, k, now).0
    case RecordFailure(k, now) => Failure(l, t, k, now)
    case RecordSuccess(k) => Success(l, t, k)
  }

  function Run(l: Limits, t: Table, calls: seq<Call>): Table
    decreases |calls|
  {
    if calls == [] then t else Run(l, After(l, t, calls[0]), calls[1..])
  }

  predicate Admits(l: Limits, t: Table, c: Call, k: Key) {
    c.AllowLogin? && c.key == k && Allow(l, t, k, c.now).1 == Admitted
  }

  /** How many calls of the run admit an attempt for k. */
  function Admissions(l: Limits, t: Table, calls: seq<Call>, k: Key): nat
    decreases |calls|
  {
    if calls == [] then 0
    else (if Admits(l, t, calls[0], k) then 1 else 0) + Admissions(l, After(l, t, calls[0]), calls[1..], k)
  }

  /** The clock readings, taken in lock order, never go back and lie in [from, until]. */
  predicate Clocked(calls: seq<Call>, from: Time, until: Time) {
    calls == [] ||
    if calls[0].RecordSuccess? then Clocked(calls[1..], from, until)
    else from <= calls[0].now <= until && Clocked(calls[1..], calls[0].now, until)
  }

  predicate NeverSucceeds(calls: seq<Call>, k: Key) {
    RecordSuccess(k) !in calls
  }

  /** A call for another identifier leaves the entry of k alone, or prunes it expired. */
  lemma OtherCall(l: Limits, t: Table, c: Call, k: Key)
    requires c.key != k
    ensures k in After(l, t, c).attempts ==> k in t.attempts && After(l, t, c).attempts[k] == t.attempts[k]
    ensures k in t.attempts && k !in After(l, t, c).attempts ==> !c.RecordSuccess? && Expired(l, t.attempts[k], c.now)
  {
  }

  // ---- capacity -------------------------------------------------------------------------

  lemma RemovalShrinks(m: Attempts, k: Key)
    ensures |m - {k}| <= |m|
  {
    Sets.SubsetSmaller((m - {k}).Keys, m.Keys);
  }

  lemma RoomSmaller(l: Limits, m: Attempts, now: Time)
    ensures |WithRoom(l, m, now)| <= |m|
  {
    PrunedSmaller(l, m, now);
    hide Pruned;
  }

  lemma AdditionGrows(m: Attempts, k: Key, e: Entry)
    ensures |m[k := e]| <= |m| + 1
  {
    assert m[k := e].Keys == m.Keys + {k};
  }

  lemma UpdateKeepsSize(m: Attempts, k: Key, e: Entry)
    requires k in m
    ensures |m[k := e]| == |m|
  {
    assert m[k := e].Keys == m.Keys;
  }

  /** The table a new entry leaves: emptied of k, perhaps pruned, perhaps with k again. */
  lemma GateKeepsCapacity(l: Limits, m: Attempts, k: Key, e: Entry, now: Time)
    requires |m| <= l.trackedLimit
    ensures |m - {k}| <= l.trackedLimit
    ensures var room := WithRoom(l, m - {k}, now);
            |room| <= l.trackedLimit && (|room| < l.trackedLimit ==> |room[k := e]| <= l.trackedLimit)
  {
    hide WithRoom;
    RemovalShrinks(m, k);
    RoomSmaller(l, m - {k}, now);
    AdditionGrows(WithRoom(l, m - {k}, now), k, e);
  }

  lemma AllowKeepsCapacity(l: Limits, t: Table, k: Key, now: Time)
    requires l.Sound() && |t.attempts| <= l.trackedLimit
    ensures |Allow(l, t, k, now).0.attempts| <= l.trackedLimit
  {
    hide WithRoom, WindowOver;
    var m := Allow(l, t, k, now).0.attempts;
    if k in t.attempts && (now < t.attempts[k].lockedUntil || !WindowOver(l, t.attempts[k], now)) {
      UpdateKeepsSize(t.attempts, k, t.attempts[k].(lockedUntil := now + l.lockout));
      UpdateKeepsSize(t.attempts, k, t.attempts[k].(pending := t.attempts[k].pending + 1));
    } else {
      var room, e := WithRoom(l, t.attempts - {k}, now), Entry(0, 1, now, ZERO_TIME);
      GateKeepsCapacity(l, t.attempts, k, e, now);
      assert m == t.attempts - {k} || m == room || (|room| < l.trackedLimit && m == room[k := e]);
      hide Allow;
    }
  }

  lemma FailureKeepsCapacity(l: Limits, t: Table, k: Key, now: Time)
    requires l.Sound() && |t.attempts| <= l.trackedLimit
    ensures |Failure(l, t, k, now).attempts| <= l.trackedLimit
  {
    hide WithRoom, AfterFailure, FailureResets;
    GateKeepsCapacity(l, t.attempts, k, AfterFailure(l, NO_ENTRY.(windowStarted := now), now), now);
    if k in t.attempts {
      UpdateKeepsSize(t.attempts, k, AfterFailure(l, t.attempts[k], now));
    }
  }

  lemma SuccessKeepsCapacity(l: Limits, t: Table, k: Key)
    requires l.Sound() && |t.attempts| <= l.trackedLimit
    ensures |Success(l, t, k).attempts| <= l.trackedLimit
  {
    Sets.SubsetSmaller((t.attempts - {k}).Keys, t.attempts.Keys);
  }

  /** No run ever tracks more than trackedLimit identifiers. */
  lemma {:induction false} TrackedIsCapped(l: Limits, t: Table, calls: seq<Call>)
    requires l.Sound() && |t.attempts| <= l.trackedLimit
    ensures |Run(l, t, calls).attempts| <= l.trackedLimit
    decreases |calls|
  {
    if calls != [] {
      match calls[0] {
        case AllowLogin(k, now) => AllowKeepsCapacity(l, t, k, now);
        case RecordFailure(k, now) => FailureKeepsCapacity(l, t, k, now);
        case RecordSuccess(k) => SuccessKeepsCapacity(l, t, k);
      }
      TrackedIsCapped(l, After(l, t, calls[0]), calls[1..]);
    }
  }

  // ---- the bound on one epoch, under any clock ------------------------------------------

  /** The call discards the entry k holds: its window or lock ran out, or pruning took it. */
  predicate Resets(l: Limits, t: Table, c: Call, k: Key) {
    k in t.attempts &&
    ( k !in After(l, t, c).attempts
      || (c.key == k && c.AllowLogin? && t.attempts[k].lockedUntil <= c.now && WindowOver(l, t.attempts[k], c.now))
      || (c.key == k && c.RecordFailure? && FailureResets(l, t.attempts[k], c.now)))
  }

  predicate OneEpoch(l: Limits, t: Table, calls: seq<Call>, k: Key)
    decreases |calls|
  {
    calls == [] || (!Resets(l, t, calls[0], k) && OneEpoch(l, After(l, t, calls[0]), calls[1..], k))
  }

  /** Attempts the entry of k may still admit before the limit is reached. */
  function Budget(l: Limits, t: Table, k: Key): nat {
    if k !in t.attempts then l.failureLimit
    else
      var used := t.attempts[k].failures + t.attempts[k].pending;
      if used < l.failureLimit then l.failureLimit - used else 0
  }

  lemma BudgetSpent(l: Limits, t: Table, c: Call, k: Key)
    requires l.Sound() && !Resets(l, t, c, k) && c != RecordSuccess(k)
    ensures (if Admits(l, t, c, k) then 1 else 0) + Budget(l, After(l, t, c), k) <= Budget(l, t, k)
  {
    if c.key != k {
      hide After;
      OtherCall(l, t, c, k);
    } else {
      hide Pruned;
    }
  }

  /** Between two resets of its entry, and without a success, an identifier is admitted at
      most as often as its budget allows: never more than failureLimit times. */
  lemma {:induction false} EpochBound(l: Limits, t: Table, calls: seq<Call>, k: Key)
    requires l.Sound() && NeverSucceeds(calls, k) && OneEpoch(l, t, calls, k)
    ensures Admissions(l, t, calls, k) <= Budget(l, t, k) <= l.failureLimit
    decreases |calls|
  {
    if calls != [] {
      assert calls[0] in calls;
      BudgetSpent(l, t, calls[0], k);
      EpochBound(l, After(l, t, calls[0]), calls[1..], k);
    }
  }

  // ---- the bound on a time span, under a nondecreasing clock ----------------------------

  /** What holds of every entry once the clock has reached now. */
  ghost predicate Timely(l: Limits, t: Table, now: Time) {
    forall k :: TimelyAt(l, t, k, now)
  }

  predicate TimelyAt(l: Limits, t: Table, k: Key, now: Time) {
    k in t.attempts ==>
      var e := t.attempts[k];
      && e.windowStarted <= now
      && (e.lockedUntil == ZERO_TIME || e.windowStarted + l.lockout <= e.lockedUntil <= now + l.lockout)
  }

  function Later(c: Call, now: Time): Time {
    if c.RecordSuccess? then now else c.now
  }

  lemma TimelyKeptAt(l: Limits, t: Table, c: Call, k: Key, now: Time)
    requires l.Sound() && TimelyAt(l, t, k, now) && now <= Later(c, now)
    ensures TimelyAt(l, After(l, t, c), k, Later(c, now))
  {
    if c.key != k {
      OtherCall(l, t, c, k);
      hide After;
    } else {
      hide WithRoom;
    }
  }

  lemma TimelyKept(l: Limits, t: Table, c: Call, now: Time)
    requires l.Sound() && Timely(l, t, now) && now <= Later(c, now)
    ensures Timely(l, After(l, t, c), Later(c, now))
  {
    forall k
      ensures TimelyAt(l, After(l, t, c), k, Later(c, now))
    {
      TimelyKeptAt(l, t, c, k, now);
    }
  }

  lemma {:induction false} TimelyRun(l: Limits, t: Table, calls: seq<Call>, from: Time, until: Time)
    requires l.Sound() && Timely(l, t, from) && Clocked(calls, from, until) && from <= until
    ensures Timely(l, Run(l, t, calls), until)
    decreases |calls|
  {
    if calls == [] {
      forall k
        ensures TimelyAt(l, t, k, until)
      {
        assert TimelyAt(l, t, k, from);
      }
    } else {
      TimelyKept(l, t, calls[0], from);
      TimelyRun(l, After(l, t, calls[0]), calls[1..], Later(calls[0], from), until);
    }
  }

  /** The earliest instant at which another window can start for k. */
  function NextStart(l: Limits, t: Table, k: Key, now: Time): Time {
    if k in t.attempts then Max(now, t.attempts[k].windowStarted + l.failureWindow) else now
  }

  /** Admissions still possible for k up to the instant until: the rest of its present
      window, and failureLimit for each window that can start later. */
  function Allowance(l: Limits, t: Table, k: Key, now: Time, until: Time): nat
    requires l.Sound()
  {
    (if k in t.attempts then Budget(l, t, k) else 0)
    + l.failureLimit * Windows(NextStart(l, t, k, now), until, l.failureWindow)
  }

  /** The call starts a window for k. */
  predicate Starts(l: Limits, t: Table, c: Call, k: Key) {
    c.key == k && k in After(l, t, c).attempts && (k !in t.attempts || Resets(l, t, c, k))
  }

  /** A window starts at the call's instant, never before it is due. */
  lemma StartsWhenDue(l: Limits, t: Table, c: Call, k: Key, now: Time)
    requires l.Sound() && TimelyAt(l, t, k, now) && now <= Later(c, now) && c != RecordSuccess(k)
    requires Starts(l, t, c, k)
    ensures k in After(l, t, c).attempts && After(l, t, c).attempts[k].windowStarted == Later(c, now)
    ensures NextStart(l, t, k, now) <= Later(c, now)
    ensures (if Admits(l, t, c, k) then 1 else 0) + Budget(l, After(l, t, c), k) <= l.failureLimit
  {
  }

  /** Any other call spends from the budget and never brings the next start forward. */
  lemma StartsMoveOn(l: Limits, t: Table, c: Call, k: Key, now: Time)
    requires l.Sound() && TimelyAt(l, t, k, now) && now <= Later(c, now) && c != RecordSuccess(k)
    requires !Starts(l, t, c, k)
    ensures NextStart(l, t, k, now) <= NextStart(l, After(l, t, c), k, Later(c, now))
    ensures k in After(l, t, c).attempts ==>
              && k in t.attempts
              && (if Admits(l, t, c, k) then 1 else 0) + Budget(l, After(l, t, c), k) <= Budget(l, t, k)
    ensures k !in After(l, t, c).attempts ==> !Admits(l, t, c, k)
  {
    if c.key != k {
      hide After;
      OtherCall(l, t, c, k);
    }
  }

  lemma AllowanceSpent(l: Limits, t: Table, c: Call, k: Key, now: Time, until: Time)
    requires l.Sound() && TimelyAt(l, t, k, now) && now <= Later(c, now) <= until && c != RecordSuccess(k)
    ensures (if Admits(l, t, c, k) then 1 else 0) + Allowance(l, After(l, t, c), k, Later(c, now), until)
         <= Allowance(l, t, k, now, until)
  {
    hide After, Admits, Budget, Starts;
    var t', then_, w := After(l, t, c), Later(c, now), l.failureWindow;
    if Starts(l, t, c, k) {
      StartsWhenDue(l, t, c, k, now);
      NewWindowFits(l.failureLimit, NextStart(l, t, k, now), then_, until, w);
    } else {
      StartsMoveOn(l, t, c, k, now);
      var a, b := NextStart(l, t, k, now), NextStart(l, t', k, then_);
      WindowsFall(a, b, until, w);
      ScaleMonotone(l.failureLimit, Windows(b, until, w), Windows(a, until, w));
    }
  }

  lemma {:induction false} AllowanceBounds(l: Limits, t: Table, calls: seq<Call>, k: Key, now: Time, until: Time)
    requires l.Sound() && Timely(l, t, now) && now <= until
    requires Clocked(calls, now, until) && NeverSucceeds(calls, k)
    ensures Admissions(l, t, calls, k) <= Allowance(l, t, k, now, until)
    decreases |calls|
  {
    if calls != [] {
      assert calls[0] in calls;
      var then_ := Later(calls[0], now);
      AllowanceSpent(l, t, calls[0], k, now, until);
      TimelyKept(l, t, calls[0], now);
      AllowanceBounds(l, After(l, t, calls[0]), calls[1..], k, then_, until);
    }
  }

  lemma AllowanceAtMost(l: Limits, t: Table, k: Key, from: Time, span: nat)
    requires l.Sound()
    ensures Allowance(l, t, k, from, from + span) <= l.failureLimit * (span / l.failureWindow + 2)
  {
    WindowsInSpan(l.failureLimit, from, NextStart(l, t, k, from), span, l.failureWindow);
  }

  /** In every reachable state, a stretch of calls within a time span, with no success for
      k, admits k at most failureLimit times for each window that fits, plus two. */
  lemma RateBound(l: Limits, past: seq<Call>, calls: seq<Call>, k: Key, from: Time, span: nat)
    requires l.Sound() && Clocked(past, ZERO_TIME, from) && Clocked(calls, from, from + span)
    requires NeverSucceeds(calls, k)
    ensures Admissions(l, Run(l, EMPTY_TABLE, past), calls, k) <= l.failureLimit * (span / l.failureWindow + 2)
  {
    var t, w := Run(l, EMPTY_TABLE, past), l.failureWindow;
    TimelyRun(l, EMPTY_TABLE, past, ZERO_TIME, from);
    AllowanceBounds(l, t, calls, k, from, from + span);
    AllowanceAtMost(l, t, k, from, span);
  }

  /** With the starter's constants no stretch of one hour sees more than 30 attempts for one
      identifier, as long as none of them succeeds. */
  lemma StarterHour(past: seq<Call>, calls: seq<Call>, k: Key, from: Time)
    requires Clocked(past, ZERO_TIME, from) && Clocked(calls, from, from + 3600 * SECOND)
    requires NeverSucceeds(calls, k)
    ensures Admissions(STARTER_LIMITS, Run(STARTER_LIMITS, EMPTY_TABLE, past), calls, k) <= 30
  {
    hide Admissions, Run, Clocked;
    RateBound(STARTER_LIMITS, past, calls, k, from, 3600 * SECOND);
  }

  // ---- agreement with an unbounded throttle ---------------------------------------------

  /** The entry the unbounded throttle works on: it has no capacity and never prunes. */
  function Live(l: Limits, m: Attempts, k: Key, now: Time): Entry {
    if k in m && !Expired(l, m[k], now) then m[k] else NO_ENTRY.(windowStarted := now)
  }

  function ReferenceAllow(l: Limits, m: Attempts, k: Key, now: Time): (Attempts, Decision) {
    var e := Live(l, m, k, now);
    if now < e.lockedUntil then (m, Locked)
    else if l.failureLimit <= e.failures + e.pending then (m[k := e.(lockedUntil := now + l.lockout)], Locked)
    else (m[k := e.(pending := e.pending + 1)], Admitted)
  }

  function ReferenceFailure(l: Limits, m: Attempts, k: Key, now: Time): Attempts {
    var e := if k in m && !FailureResets(l, m[k], now) then m[k] else NO_ENTRY.(windowStarted := now);
    m[k := AfterFailure(l, e, now)]
  }

  function ReferenceSuccess(m: Attempts, k: Key): Attempts {
    if k !in m then m
    else if m[k].pending <= 1 then m - {k}
    else m[k := m[k].(pending := m[k].pending - 1, failures := 0, lockedUntil := ZERO_TIME)]
  }

  /** The bounded table holds entries of the unbounded one, and lacks only expired ones. */
  ghost predicate Tracks(l: Limits, t: Table, m: Attempts, now: Time) {
    forall k :: TracksAt(l, t, m, k, now)
  }

  predicate TracksAt(l: Limits, t: Table, m: Attempts, k: Key, now: Time) {
    && (k in t.attempts ==> k in m && m[k] == t.attempts[k])
    && (k in m ==> k in t.attempts || Expired(l, m[k], now))
  }

  lemma AllowAgreesAt(l: Limits, t: Table, m: Attempts, k: Key, x: Key, before: Time, now: Time)
    requires l.Sound() && TracksAt(l, t, m, k, before) && TracksAt(l, t, m, x, before) && before <= now
    ensures var (t', d) := Allow(l, t, k, now); var (m', d') := ReferenceAllow(l, m, k, now);
            if d == Saturated then TracksAt(l, t', m, x, now) else d == d' && TracksAt(l, t', m', x, now)
  {
  }

  lemma AllowAgrees(l: Limits, t: Table, m: Attempts, k: Key, before: Time, now: Time)
    requires l.Sound() && Tracks(l, t, m, before) && before <= now
    ensures var (t', d) := Allow(l, t, k, now); var (m', d') := ReferenceAllow(l, m, k, now);
            if d == Saturated then Tracks(l, t', m, now) else d == d' && Tracks(l, t', m', now)
  {
    hide Allow, ReferenceAllow;
    var t', d := Allow(l, t, k, now).0, Allow(l, t, k, now).1;
    var m' := if d == Saturated then m else ReferenceAllow(l, m, k, now).0;
    forall x
      ensures TracksAt(l, t', m', x, now)
    {
      AllowAgreesAt(l, t, m, k, x, before, now);
    }
    assert TracksAt(l, t, m, k, before);
    AllowAgreesAt(l, t, m, k, k, before, now);
  }

  lemma FailureAgreesAt(l: Limits, t: Table, m: Attempts, k: Key, x: Key, before: Time, now: Time)
    requires l.Sound() && TracksAt(l, t, m, k, before) && TracksAt(l, t, m, x, before) && before <= now
    requires x != k || !FailureDropped(l, t, k, now)
    ensures TracksAt(l, Failure(l, t, k, now), ReferenceFailure(l, m, k, now), x, now)
  {
  }

  /** A recorded failure keeps the two in step exactly when it is not dropped. */
  lemma FailureAgrees(l: Limits, t: Table, m: Attempts, k: Key, before: Time, now: Time)
    requires l.Sound() && Tracks(l, t, m, before) && before <= now
    ensures Tracks(l, Failure(l, t, k, now), ReferenceFailure(l, m, k, now), now) <==> !FailureDropped(l, t, k, now)
  {
    if FailureDropped(l, t, k, now) {
      assert !TracksAt(l, Failure(l, t, k, now), ReferenceFailure(l, m, k, now), k, now);
    } else {
      forall x
        ensures TracksAt(l, Failure(l, t, k, now), ReferenceFailure(l, m, k, now), x, now)
      {
        FailureAgreesAt(l, t, m, k, x, before, now);
      }
    }
  }

  lemma SuccessAgrees(l: Limits, t: Table, m: Attempts, k: Key, now: Time)
    requires l.Sound() && Tracks(l, t, m, now)
    ensures Tracks(l, Success(l, t, k), ReferenceSuccess(m, k), now)
  {
    forall x
      ensures TracksAt(l, Success(l, t, k), ReferenceSuccess(m, k), x, now)
    {
      assert TracksAt(l, t, m, k, now) && TracksAt(l, t, m, x, now);
    }
  }

  predicate NeverDrops(l: Limits, t: Table, calls: seq<Call>)
    decreases |calls|
  {
    calls == [] ||
    (!(calls[0].RecordFailure? && FailureDropped(l, t, calls[0].key, calls[0].now))
     && NeverDrops(l, After(l, t, calls[0]), calls[1..]))
  }

  /** Every decision of the run is the unbounded throttle's, a saturated refusal being a
      step at which the unbounded throttle does nothing. */
  predicate Simulates(l: Limits, t: Table, m: Attempts, calls: seq<Call>)
    decreases |calls|
  {
    calls == [] ||
    var t', rest := After(l, t, calls[0]), calls[1..];
    match calls[0]
    case AllowLogin(k, now) =>
      if Allow(l, t, k, now).1 == Saturated then Simulates(l, t', m, rest)
      else
        && Allow(l, t, k, now).1 == ReferenceAllow(l, m, k, now).1
        && Simulates(l, t', ReferenceAllow(l, m, k, now).0, rest)
    case RecordFailure(k, now) => Simulates(l, t', ReferenceFailure(l, m, k, now), rest)
    case RecordSuccess(k) => Simulates(l, t', ReferenceSuccess(m, k), rest)
  }

  lemma {:induction false} RunSimulates(l: Limits, t: Table, m: Attempts, calls: seq<Call>, from: Time, until: Time)
    requires l.Sound() && Tracks(l, t, m, from)
    requires Clocked(calls, from, until) && NeverDrops(l, t, calls)
    ensures Simulates(l, t, m, calls)
    decreases |calls|
  {
    if calls != [] {
      var t', rest := After(l, t, calls[0]), calls[1..];
      match calls[0]
      case AllowLogin(k, now) =>
        AllowAgrees(l, t, m, k, from, now);
        var m' := if Allow(l, t, k, now).1 == Saturated then m else ReferenceAllow(l, m, k, now).0;
        RunSimulates(l, t', m', rest, now, until);
      case RecordFailure(k, now) =>
        FailureAgrees(l, t, m, k, from, now);
        RunSimulates(l, t', ReferenceFailure(l, m, k, now), rest, now, until);
      case RecordSuccess(k) =>
        SuccessAgrees(l, t, m, k, from);
        RunSimulates(l, t', ReferenceSuccess(m, k), rest, from, until);
    }
  }

  /** From an empty table, the bounded throttle decides as the unbounded one does. */
  lemma BoundedRefinesUnbounded(l: Limits, calls: seq<Call>, until: Time)
    requires l.Sound() && Clocked(calls, ZERO_TIME, until) && NeverDrops(l, EMPTY_TABLE, calls)
    ensures Simulates(l, EMPTY_TABLE, map[], calls)
  {
    RunSimulates(l, EMPTY_TABLE, map[], calls, ZERO_TIME, until);
  }

  // ---- locks ----------------------------------------------------------------------------

  predicate LockedThrough(t: Table, k: Key, end: Time, windowStarted: Time) {
    k in t.attempts && end <= t.attempts[k].lockedUntil && t.attempts[k].windowStarted == windowStarted
  }

  /** No success for k, and no failure for k once the window it is locked in is over. */
  predicate LeavesLock(l: Limits, calls: seq<Call>, k: Key, windowStarted: Time) {
    forall c | c in calls && c.key == k ::
      c.AllowLogin? || (c.RecordFailure? && c.now < windowStarted + l.failureWindow)
  }

  lemma LockKeptOnce(l: Limits, t: Table, c: Call, k: Key, end: Time, started: Time, from: Time)
    requires l.Sound() && TimelyAt(l, t, k, from) && LockedThrough(t, k, end, started)
    requires end <= from + l.lockout && from <= Later(c, from) < end && LeavesLock(l, [c], k, started)
    ensures LockedThrough(After(l, t, c), k, end, started)
  {
    assert c in [c];
  }

  lemma {:induction false} LockKept(l: Limits, t: Table, calls: seq<Call>, k: Key, end: Time, started: Time,
          from: Time, until: Time)
    requires l.Sound() && Timely(l, t, from) && LockedThrough(t, k, end, started)
    requires end <= from + l.lockout && from <= until < end
    requires Clocked(calls, from, until) && LeavesLock(l, calls, k, started)
    ensures LockedThrough(Run(l, t, calls), k, end, started)
    decreases |calls|
  {
    if calls != [] {
      assert calls[0] in calls;
      assert TimelyAt(l, t, k, from);
      LockKeptOnce(l, t, calls[0], k, end, started, from);
      TimelyKept(l, t, calls[0], from);
      LockKept(l, After(l, t, calls[0]), calls[1..], k, end, started, Later(calls[0], from), until);
    }
  }

  /** Once locked until an instant, an identifier is refused at every earlier one. */
  lemma LockPersists(l: Limits, past: seq<Call>, calls: seq<Call>, k: Key, from: Time, now: Clock)
    requires l.Sound() && Clocked(past, ZERO_TIME, from) && from <= now && Clocked(calls, from, now)
    requires var t := Run(l, EMPTY_TABLE, past);
             k in t.attempts && now < t.attempts[k].lockedUntil && LeavesLock(l, calls, k, t.attempts[k].windowStarted)
    ensures Allow(l, Run(l, Run(l, EMPTY_TABLE, past), calls), k, now).1 == Locked
  {
    var t := Run(l, EMPTY_TABLE, past);
    TimelyRun(l, EMPTY_TABLE, past, ZERO_TIME, from);
    assert TimelyAt(l, t, k, from);
    LockKept(l, t, calls, k, t.attempts[k].lockedUntil, t.attempts[k].windowStarted, from, now);
  }

  /** A failure recorded during a lock keeps the identifier locked exactly when the window
      is still open, or a single failure locks anyway. */
  lemma FailureKeepsLock(l: Limits, t: Table, k: Key, before: Time, now: Clock)
    requires l.Sound() && TimelyAt(l, t, k, before) && before <= now
    requires k in t.attempts && now < t.attempts[k].lockedUntil && |t.attempts| <= l.trackedLimit
    ensures Allow(l, Failure(l, t, k, now), k, now).1 == Locked
       <==> !WindowOver(l, t.attempts[k], now) || l.failureLimit == 1
  {
    assert (t.attempts - {k}).Keys == t.attempts.Keys - {k};
    assert |t.attempts - {k}| < l.trackedLimit;
    hide Pruned;
  }

  // ---- reservations ---------------------------------------------------------------------

  /** Each admitted attempt is followed by exactly one Record call: inFlight holds those
      whose call is still to come. */
  predicate Protocol(l: Limits, t: Table, inFlight: multiset<Key>, calls: seq<Call>)
    decreases |calls|
  {
    calls == [] ||
    ((calls[0].AllowLogin? || calls[0].key in inFlight)
     && Protocol(l, After(l, t, calls[0]), InFlightAfter(l, t, inFlight, calls[0]), calls[1..]))
  }

  function InFlightAfter(l: Limits, t: Table, inFlight: multiset<Key>, c: Call): multiset<Key> {
    if !c.AllowLogin? then inFlight - multiset{c.key}
    else if Admits(l, t, c, c.key) then inFlight + multiset{c.key}
    else inFlight
  }

  function InFlight(l: Limits, t: Table, inFlight: multiset<Key>, calls: seq<Call>): multiset<Key>
    decreases |calls|
  {
    if calls == [] then inFlight
    else InFlight(l, After(l, t, calls[0]), InFlightAfter(l, t, inFlight, calls[0]), calls[1..])
  }

  ghost predicate Reserved(l: Limits, t: Table, inFlight: multiset<Key>) {
    forall k :: ReservedAt(l, t, inFlight, k)
  }

  predicate ReservedAt(l: Limits, t: Table, inFlight: multiset<Key>, k: Key) {
    Pending(t, k) <= inFlight[k] && Pending(t, k) <= l.failureLimit
  }

  function Pending(t: Table, k: Key): nat {
    if k in t.attempts then t.attempts[k].pending else 0
  }

  lemma PendingAfterAllow(l: Limits, t: Table, k: Key, now: Time, x: Key)
    requires l.Sound()
    ensures var (t', d) := Allow(l, t, k, now);
            if x == k && d == Admitted then Pending(t', x) <= Pending(t, x) + 1 && Pending(t', x) <= l.failureLimit
            else Pending(t', x) <= Pending(t, x)
  {
  }

  lemma PendingAfterFailure(l: Limits, t: Table, k: Key, now: Time, x: Key)
    ensures Pending(Failure(l, t, k, now), x) <= Pending(t, x)
    ensures x == k && 0 < Pending(t, x) ==> Pending(Failure(l, t, k, now), x) < Pending(t, x)
  {
  }

  lemma PendingAfterSuccess(l: Limits, t: Table, k: Key, x: Key)
    ensures Pending(Success(l, t, k), x) <= Pending(t, x)
    ensures x == k && 0 < Pending(t, x) ==> Pending(Success(l, t, k), x) < Pending(t, x)
  {
  }

  lemma ReservedKeptAt(l: Limits, t: Table, inFlight: multiset<Key>, c: Call, k: Key)
    requires l.Sound() && ReservedAt(l, t, inFlight, k) && (c.AllowLogin? || c.key in inFlight)
    ensures ReservedAt(l, After(l, t, c), InFlightAfter(l, t, inFlight, c), k)
  {
    hide Allow, Failure, Success, Pending;
    match c
    case AllowLogin(k', now) => PendingAfterAllow(l, t, k', now, k);
    case RecordFailure(k', now) => PendingAfterFailure(l, t, k', now, k);
    case RecordSuccess(k') => PendingAfterSuccess(l, t, k', k);
  }

  lemma ReservedKept(l: Limits, t: Table, inFlight: multiset<Key>, c: Call)
    requires l.Sound() && Reserved(l, t, inFlight) && (c.AllowLogin? || c.key in inFlight)
    ensures Reserved(l, After(l, t, c), InFlightAfter(l, t, inFlight, c))
  {
    forall k
      ensures ReservedAt(l, After(l, t, c), InFlightAfter(l, t, inFlight, c), k)
    {
      ReservedKeptAt(l, t, inFlight, c, k);
    }
  }

  lemma {:induction false} ReservationsKept(l: Limits, t: Table, inFlight: multiset<Key>, calls: seq<Call>)
    requires l.Sound() && Reserved(l, t, inFlight) && Protocol(l, t, inFlight, calls)
    ensures Reserved(l, Run(l, t, calls), InFlight(l, t, inFlight, calls))
    decreases |calls|
  {
    if calls != [] {
      ReservedKept(l, t, inFlight, calls[0]);
      ReservationsKept(l, After(l, t, calls[0]), InFlightAfter(l, t, inFlight, calls[0]), calls[1..]);
    }
  }

  /** No reservation outlives its attempt: at quiescence every pending count is zero. */
  lemma NoReservationLeaks(l: Limits, calls: seq<Call>, k: Key)
    requires l.Sound() && Protocol(l, EMPTY_TABLE, multiset{}, calls)
    requires k in Run(l, EMPTY_TABLE, calls).attempts
    ensures var pending := Run(l, EMPTY_TABLE, calls).attempts[k].pending;
            && pending <= InFlight(l, EMPTY_TABLE, multiset{}, calls)[k] && pending <= l.failureLimit
            && (InFlight(l, EMPTY_TABLE, multiset{}, calls) == multiset{} ==> pending == 0)
  {
    ReservationsKept(l, EMPTY_TABLE, multiset{}, calls);
    assert ReservedAt(l, Run(l, EMPTY_TABLE, calls), InFlight(l, EMPTY_TABLE, multiset{}, calls), k);
  }

  /** Right after a success on a tracked key the next attempt is admitted, unless the entry
      was kept for other attempts, its window is over, and saturation still holds. */
  lemma AdmittedAfterSuccess(l: Limits, t: Table, inFlight: multiset<Key>, k: Key, now: Clock)
    requires l.Sound() && ReservedAt(l, t, inFlight, k) && |t.attempts| <= l.trackedLimit && k in t.attempts
    ensures Allow(l, Success(l, t, k), k, now).1 ==
            if 2 <= t.attempts[k].pending && WindowOver(l, t.attempts[k], now)
               && |t.attempts| == l.trackedLimit && now < t.saturatedUntil
            then Saturated else Admitted
  {
    var t' := Success(l, t, k);
    assert |t.attempts - {k}| == |t.attempts| - 1 by {
      assert (t.attempts - {k}).Keys == t.attempts.Keys - {k};
    }
    if k in t'.attempts {
      assert t'.attempts.Keys == t.attempts.Keys;
      assert (t'.attempts - {k}).Keys == t.attempts.Keys - {k};
    } else {
      assert t'.attempts - {k} == t'.attempts;
    }
  }

  // ---- runs, call by call ---------------------------------------------------------------

  lemma {:induction false} RunSnoc(l: Limits, t: Table, inFlight: multiset<Key>, calls: seq<Call>, c: Call)
    ensures Run(l, t, calls + [c]) == After(l, Run(l, t, calls), c)
    ensures var f := InFlight(l, t, inFlight, calls);
            && InFlight(l, t, inFlight, calls + [c]) == InFlightAfter(l, Run(l, t, calls), f, c)
            && (Protocol(l, t, inFlight, calls + [c])
                <==> Protocol(l, t, inFlight, calls) && (c.AllowLogin? || c.key in f))
    decreases |calls|
  {
    hide After, InFlightAfter;
    if calls == [] {
      assert [] + [c] == [c];
    } else {
      assert (calls + [c])[1..] == calls[1..] + [c];
      RunSnoc(l, After(l, t, calls[0]), InFlightAfter(l, t, inFlight, calls[0]), calls[1..], c);
    }
  }

  lemma {:induction false} ClockedSnoc(calls: seq<Call>, c: Call, from: Time, until: Time)
    requires Clocked(calls, from, until) && from <= until <= Later(c, until)
    ensures Clocked(calls + [c], from, Later(c, until))
    decreases |calls|
  {
    if calls == [] {
      assert [] + [c] == [c];
    } else {
      assert (calls + [c])[1..] == calls[1..] + [c];
      ClockedSnoc(calls[1..], c, Later(calls[0], from), until);
    }
  }

  /** A possible history: it keeps the protocol, its clock has reached now without going back,
      and it leaves this table and these attempts in flight. */
  predicate Leads(l: Limits, calls: seq<Call>, now: Time, t: Table, inFlight: multiset<Key>) {
    && Protocol(l, EMPTY_TABLE, multiset{}, calls) && Clocked(calls, ZERO_TIME, now)
    && Run(l, EMPTY_TABLE, calls) == t && InFlight(l, EMPTY_TABLE, multiset{}, calls) == inFlight
  }

  lemma NoCalls(l: Limits)
    ensures Leads(l, [], ZERO_TIME, EMPTY_TABLE, multiset{})
  {
  }

  lemma OneMore(l: Limits, calls: seq<Call>, c: Call, now: Time, t: Table, inFlight: multiset<Key>)
    returns (longer: seq<Call>)
    requires Leads(l, calls, now, t, inFlight) && now <= Later(c, now) && (c.AllowLogin? || c.key in inFlight)
    ensures longer == calls + [c] && Leads(l, longer, Later(c, now), After(l, t, c), InFlightAfter(l, t, inFlight, c))
  {
    hide After, InFlightAfter, Run, InFlight, Protocol;
    longer := calls + [c];
    RunSnoc(l, EMPTY_TABLE, multiset{}, calls, c);
    ClockedSnoc(calls, c, ZERO_TIME, now);
  }

  // ---- the lockout itself ---------------------------------------------------------------

  /** n attempts at one instant, each of which fails. */
  function FailedAttempts(k: Key, now: Clock, n: nat): seq<Call> {
    if n == 0 then [] else FailedAttempts(k, now, n - 1) + [AllowLogin(k, now)] + [RecordFailure(k, now)]
  }

  function FailedTable(l: Limits, k: Key, now: Clock, n: nat): Table {
    if n == 0 then EMPTY_TABLE
    else Table(map[k := Entry(n, 0, now, if n == l.failureLimit then now + l.lockout else ZERO_TIME)], ZERO_TIME)
  }

  lemma FailedStep(l: Limits, k: Key, now: Clock, n: nat)
    requires l.Sound() && n < l.failureLimit
    ensures Failure(l, Allow(l, FailedTable(l, k, now, n), k, now).0, k, now) == FailedTable(l, k, now, n + 1)
  {
    assert EMPTY_TABLE.attempts - {k} == map[];
    hide WithRoom;
  }

  lemma {:induction false} FailedRun(l: Limits, k: Key, now: Clock, n: nat)
    requires l.Sound() && n <= l.failureLimit
    ensures Run(l, EMPTY_TABLE, FailedAttempts(k, now, n)) == FailedTable(l, k, now, n)
    decreases n
  {
    if 0 < n {
      hide Allow, Failure, Run, FailedTable;
      var before := FailedAttempts(k, now, n - 1);
      FailedRun(l, k, now, n - 1);
      FailedStep(l, k, now, n - 1);
      RunSnoc(l, EMPTY_TABLE, multiset{}, before, AllowLogin(k, now));
      RunSnoc(l, EMPTY_TABLE, multiset{}, before + [AllowLogin(k, now)], RecordFailure(k, now));
    } else {
      assert FailedAttempts(k, now, 0) == [];
    }
  }

  lemma LocksExactlyAt(l: Limits, k: Key, now: Clock, n: nat, later: Clock)
    requires l.Sound() && n <= l.failureLimit && now <= later
    ensures Allow(l, FailedTable(l, k, now, n), k, later).1
         == if n == l.failureLimit && later < now + l.lockout then Locked else Admitted
  {
    assert FailedTable(l, k, now, n).attempts - {k} == map[];
  }

  /** With the starter's constants it is the fifth failure that locks, for fifteen minutes to
      the nanosecond. */
  lemma StarterLocks(k: Key, now: Clock, n: nat, later: Clock)
    requires n <= 5 && now <= later
    ensures Allow(STARTER_LIMITS, Run(STARTER_LIMITS, EMPTY_TABLE, FailedAttempts(k, now, n)), k, later).1
         == if n == 5 && later < now + 900_000_000_000 then Locked else Admitted
  {
    FailedRun(STARTER_LIMITS, k, now, n);
    LocksExactlyAt(STARTER_LIMITS, k, now, n, later);
    hide Run, Allow;
  }
}
