/** Where the promises of the login throttle end: for each condition that LoginRuns.dfy
    attaches to a promise, a run from the empty table that keeps the protocol, with a clock
    that never goes back, and that fails. */
module LoginExceptions {
  import opened Instants
  import opened LoginPolicy
  import opened LoginRuns

  lemma FirstCall(l: Limits, t: Table, k: Key, now: Clock)
    requires k !in t.attempts && |t.attempts| < l.trackedLimit && t.saturatedUntil <= now
    ensures Allow(l, t, k, now) == (t.(attempts := t.attempts[k := Entry(0, 1, now, ZERO_TIME)]), Admitted)
  {
    assert t.attempts - {k} == t.attempts;
  }

  lemma NextCall(l: Limits, t: Table, k: Key, now: Clock)
    requires k in t.attempts && t.attempts[k].lockedUntil <= now && !WindowOver(l, t.attempts[k], now)
    ensures var e := t.attempts[k];
            Allow(l, t, k, now) ==
              if l.failureLimit <= e.failures + e.pending then
                (t.(attempts := t.attempts[k := e.(lockedUntil := now + l.lockout)]), Locked)
              else (t.(attempts := t.attempts[k := e.(pending := e.pending + 1)]), Admitted)
  {
  }

  lemma LateFailure(l: Limits, t: Table, k: Key, now: Clock)
    requires 1 < l.failureLimit && k in t.attempts && WindowOver(l, t.attempts[k], now)
              && |t.attempts| <= l.trackedLimit
    ensures Failure(l, t, k, now) == t.(attempts := (t.attempts - {k})[k := Entry(1, 0, now, ZERO_TIME)])
  {
    assert (t.attempts - {k}).Keys == t.attempts.Keys - {k};
  }

  /** A lock is lost: with two attempts in flight a third locks the identifier at 10, and the
      failure of one of the two at 11 opens a new window. */
  lemma LockIsLost(k: Key) returns (calls: seq<Call>, t: Table, inFlight: multiset<Key>)
    ensures var l := Limits(2, 10, 10, 4);
            && Leads(l, calls, 10, t, inFlight) && k in inFlight
            && Allow(l, t, k, 11).1 == Locked && Allow(l, Failure(l, t, k, 11), k, 11).1 == Admitted
  {
    var l := Limits(2, 10, 10, 4);
    var e := Entry(0, 1, 1, ZERO_TIME);
    var t1 := Table(EMPTY_TABLE.attempts[k := e], ZERO_TIME);
    var t2 := t1.(attempts := t1.attempts[k := e.(pending := 2)]);
    t := t2.(attempts := t2.attempts[k := e.(pending := 2, lockedUntil := 20)]);
    hide Leads, Allow, Failure, Run, Protocol, InFlight, Clocked;
    NoCalls(l);
    FirstCall(l, EMPTY_TABLE, k, 1);
    calls := OneMore(l, [], AllowLogin(k, 1), 0, EMPTY_TABLE, multiset{});
    NextCall(l, t1, k, 1);
    calls := OneMore(l, calls, AllowLogin(k, 1), 1, t1, multiset{} + multiset{k});
    NextCall(l, t2, k, 10);
    inFlight := multiset{} + multiset{k} + multiset{k};
    calls := OneMore(l, calls, AllowLogin(k, 10), 1, t2, inFlight);
    LateFailure(l, t, k, 11);
    NextCall(l, Failure(l, t, k, 11), k, 11);
  }

  lemma FullCall(l: Limits, t: Table, k: Key, now: Clock)
    requires k !in t.attempts && t.saturatedUntil <= now && |t.attempts| == l.trackedLimit
    requires forall x | x in t.attempts :: !Expired(l, t.attempts[x], now)
    ensures Allow(l, t, k, now) == (Table(t.attempts, now + l.failureWindow), Saturated)
  {
    assert t.attempts - {k} == t.attempts;
    assert Pruned(l, t.attempts, now) == t.attempts;
  }

  const SMALL := Limits(3, 10, 10, 2)

  function TwoTracked(k: Key, j: Key, saturatedUntil: Time): Table {
    Table(map[k := Entry(0, 2, 1, ZERO_TIME), j := Entry(0, 1, 5, ZERO_TIME)], saturatedUntil)
  }

  lemma OneTracked(k: Key) returns (calls: seq<Call>)
    ensures Leads(SMALL, calls, 1, Table(map[k := Entry(0, 2, 1, ZERO_TIME)], ZERO_TIME),
              multiset{} + multiset{k} + multiset{k})
  {
    var e := Entry(0, 1, 1, ZERO_TIME);
    var t1 := Table(EMPTY_TABLE.attempts[k := e], ZERO_TIME);
    hide Leads, Run, Protocol, InFlight, Clocked, Allow;
    NoCalls(SMALL);
    FirstCall(SMALL, EMPTY_TABLE, k, 1);
    calls := OneMore(SMALL, [], AllowLogin(k, 1), 0, EMPTY_TABLE, multiset{});
    NextCall(SMALL, t1, k, 1);
    calls := OneMore(SMALL, calls, AllowLogin(k, 1), 1, t1, multiset{} + multiset{k});
    assert t1.attempts[k := e.(pending := 2)] == map[k := e.(pending := 2)];
  }

  /** Two attempts for k and one for j are in flight, and the table is full. */
  lemma TableFills(k: Key, j: Key) returns (calls: seq<Call>)
    requires k != j
    ensures Leads(SMALL, calls, 5, TwoTracked(k, j, ZERO_TIME), multiset{} + multiset{k} + multiset{k} + multiset{j})
  {
    var t := Table(map[k := Entry(0, 2, 1, ZERO_TIME)], ZERO_TIME);
    var inFlight := multiset{} + multiset{k} + multiset{k};
    hide Leads, Run, Protocol, InFlight, Clocked, Allow;
    calls := OneTracked(k);
    FirstCall(SMALL, t, j, 5);
    calls := OneMore(SMALL, calls, AllowLogin(j, 5), 1, t, inFlight);
    assert t.attempts[j := Entry(0, 1, 5, ZERO_TIME)] == TwoTracked(k, j, ZERO_TIME).attempts;
  }

  lemma TwoTrackedFacts(k: Key, j: Key, saturatedUntil: Time)
    requires k != j
    ensures var t := TwoTracked(k, j, saturatedUntil);
            && |t.attempts| == SMALL.trackedLimit && t.attempts[k] == Entry(0, 2, 1, ZERO_TIME)
            && (forall x | x in t.attempts :: !Expired(SMALL, t.attempts[x], 6))
            && WindowOver(SMALL, t.attempts[k], 12)
  {
    assert TwoTracked(k, j, saturatedUntil).attempts.Keys == {k, j};
  }

  /** An attempt right after a success is refused: another attempt keeps the entry past its
      window, a third identifier found the table full, and that mark still stands. */
  lemma SuccessIsRefused(k: Key, j: Key, x: Key) returns (calls: seq<Call>, t: Table, inFlight: multiset<Key>)
    requires k != j && k != x && j != x
    ensures Leads(SMALL, calls, 6, t, inFlight) && k in inFlight
              && Allow(SMALL, Success(SMALL, t, k), k, 12).1 == Saturated
  {
    inFlight := multiset{} + multiset{k} + multiset{k} + multiset{j};
    var full := TwoTracked(k, j, ZERO_TIME);
    t := TwoTracked(k, j, 16);
    TwoTrackedFacts(k, j, ZERO_TIME);
    TwoTrackedFacts(k, j, 16);
    FullCall(SMALL, full, x, 6);
    assert ReservedAt(SMALL, t, inFlight, k);
    assert InFlightAfter(SMALL, full, inFlight, AllowLogin(x, 6)) == inFlight;
    AdmittedAfterSuccess(SMALL, t, inFlight, k, 12);
    hide Leads, Allow, Success, InFlightAfter;
    calls := TableFills(k, j);
    calls := OneMore(SMALL, calls, AllowLogin(x, 6), 5, full, inFlight);
  }

  lemma PruningCall(l: Limits, k: Key, j: Key, now: Clock, e: Entry)
    requires k != j && l.trackedLimit == 1 && Expired(l, e, now)
    ensures Allow(l, Table(map[k := e], ZERO_TIME), j, now)
         == (Table(map[j := Entry(0, 1, now, ZERO_TIME)], ZERO_TIME), Admitted)
  {
    assert map[k := e] - {j} == map[k := e];
    assert Pruned(l, map[k := e], now) == map[];
  }

  lemma DroppedCall(l: Limits, k: Key, j: Key, now: Clock, e: Entry)
    requires k != j && l.trackedLimit == 1 && !Expired(l, e, now)
    ensures FailureDropped(l, Table(map[j := e], ZERO_TIME), k, now)
    ensures Failure(l, Table(map[j := e], ZERO_TIME), k, now) == Table(map[j := e], now + l.failureWindow)
  {
    assert map[j := e] - {k} == map[j := e];
    assert Pruned(l, map[j := e], now) == map[j := e];
  }

  const TINY := Limits(1, 10, 10, 1)

  function DroppingCalls(k: Key, j: Key): seq<Call> {
    [AllowLogin(k, 1), AllowLogin(j, 12), RecordFailure(k, 13), RecordSuccess(j), AllowLogin(k, 14)]
  }

  /** A failure is dropped: its entry was pruned for another identifier, which fills the
      table. Once there is room again, the identifier is admitted where the unbounded
      throttle has it locked. */
  lemma FailureIsDropped(k: Key, j: Key)
    requires k != j
    ensures var calls := DroppingCalls(k, j);
            && TINY.Sound() && Clocked(calls, ZERO_TIME, 14) && Protocol(TINY, EMPTY_TABLE, multiset{}, calls)
            && !Simulates(TINY, EMPTY_TABLE, map[], calls)
  {
    var calls := DroppingCalls(k, j);
    var ek, ej := Entry(0, 1, 1, ZERO_TIME), Entry(0, 1, 12, ZERO_TIME);
    var t1, t2, t3 := Table(map[k := ek], ZERO_TIME), Table(map[j := ej], ZERO_TIME), Table(map[j := ej], 23);
    FirstCall(TINY, EMPTY_TABLE, k, 1);
    PruningCall(TINY, k, j, 12, ek);
    DroppedCall(TINY, k, j, 13, ej);
    assert Success(TINY, t3, j) == EMPTY_TABLE;
    FirstCall(TINY, EMPTY_TABLE, k, 14);
    DroppingProtocol(k, j, t1, t2, t3);
    DroppingDisagrees(k, j, t1, t2, t3);
  }

  lemma DroppingProtocol(k: Key, j: Key, t1: Table, t2: Table, t3: Table)
    requires k != j && Allow(TINY, EMPTY_TABLE, k, 1) == (t1, Admitted) && Allow(TINY, t1, j, 12) == (t2, Admitted)
    requires Failure(TINY, t2, k, 13) == t3 && Success(TINY, t3, j) == EMPTY_TABLE
    ensures var calls := DroppingCalls(k, j);
            Clocked(calls, ZERO_TIME, 14) && Protocol(TINY, EMPTY_TABLE, multiset{}, calls)
  {
    var calls := DroppingCalls(k, j);
    hide Allow, Failure, Success;
    var f1, f2 := multiset{} + multiset{k}, multiset{} + multiset{k} + multiset{j};
    assert calls[4..][1..] == [];
    assert calls[3..][1..] == calls[4..] && calls[2..][1..] == calls[3..] && calls[1..][1..] == calls[2..];
    assert Clocked(calls[4..], 13, 14);
    assert Clocked(calls[3..], 13, 14);
    assert Clocked(calls[2..], 12, 14);
    assert Clocked(calls[1..], 1, 14);
    assert Protocol(TINY, EMPTY_TABLE, f2 - multiset{k} - multiset{j}, calls[4..]);
    assert Protocol(TINY, t3, f2 - multiset{k}, calls[3..]);
    assert Protocol(TINY, t2, f2, calls[2..]);
    assert Protocol(TINY, t1, f1, calls[1..]);
  }

  function ReferenceAfter(l: Limits, m: Attempts, c: Call): Attempts {
    match c
    case AllowLogin(k, now) => ReferenceAllow(l, m, k, now).0
    case RecordFailure(k, now) => ReferenceFailure(l, m, k, now)
    case RecordSuccess(k) => ReferenceSuccess(m, k)
  }

  lemma DisagreesLater(l: Limits, t: Table, m: Attempts, calls: seq<Call>)
    requires calls != [] && !(calls[0].AllowLogin? && Allow(l, t, calls[0].key, calls[0].now).1 == Saturated)
    requires !Simulates(l, After(l, t, calls[0]), ReferenceAfter(l, m, calls[0]), calls[1..])
    ensures !Simulates(l, t, m, calls)
  {
    hide Allow, Failure, Success, ReferenceAllow, ReferenceFailure, ReferenceSuccess;
  }

  lemma ReferenceLocks(k: Key, j: Key)
    requires k != j
    ensures var m2 := ReferenceAllow(TINY, ReferenceAllow(TINY, map[], k, 1).0, j, 12).0;
            ReferenceAllow(TINY, ReferenceSuccess(ReferenceFailure(TINY, m2, k, 13), j), k, 14).1 == Locked
  {
    var m1 := ReferenceAllow(TINY, map[], k, 1).0;
    var m2 := ReferenceAllow(TINY, m1, j, 12).0;
    assert m1[k].windowStarted == 1 && m2[k] == m1[k];
    assert ReferenceFailure(TINY, m2, k, 13)[k] == Entry(1, 0, 13, 23);
  }

  lemma DroppingDisagrees(k: Key, j: Key, t1: Table, t2: Table, t3: Table)
    requires k != j && Allow(TINY, EMPTY_TABLE, k, 1) == (t1, Admitted) && Allow(TINY, t1, j, 12) == (t2, Admitted)
    requires Failure(TINY, t2, k, 13) == t3 && Success(TINY, t3, j) == EMPTY_TABLE
    requires Allow(TINY, EMPTY_TABLE, k, 14).1 == Admitted
    ensures !Simulates(TINY, EMPTY_TABLE, map[], DroppingCalls(k, j))
  {
    hide Allow, Failure, Success, ReferenceAllow, ReferenceFailure, ReferenceSuccess;
    var calls := DroppingCalls(k, j);
    var m1 := ReferenceAllow(TINY, map[], k, 1).0;
    var m2 := ReferenceAllow(TINY, m1, j, 12).0;
    var m3 := ReferenceFailure(TINY, m2, k, 13);
    var m4 := ReferenceSuccess(m3, j);
    ReferenceLocks(k, j);
    assert !Simulates(TINY, EMPTY_TABLE, m4, calls[4..]);
    assert calls[3..][1..] == calls[4..] && calls[2..][1..] == calls[3..] && calls[1..][1..] == calls[2..];
    hide Simulates;
    DisagreesLater(TINY, t3, m3, calls[3..]);
    DisagreesLater(TINY, t2, m2, calls[2..]);
    DisagreesLater(TINY, t1, m1, calls[1..]);
    DisagreesLater(TINY, EMPTY_TABLE, map[], calls);
  }
}
