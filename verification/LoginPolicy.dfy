/** The starter's bounded login throttle (pkg/starterapp/login_policy.go): a capped map of
    per-identifier counters with in-flight reservations, a fixed failure window, a lockout
    and lazy expiry. The class works on its fields as the source does; each method is tied
    to a function on the table's value, and LoginRuns.dfy proves what runs of those
    functions guarantee. */
module LoginPolicy {
  import opened Instants
  import Sets
  import Text

  datatype Key = Key(tenantID: string, identifier: string)

  datatype Entry = Entry(failures: nat, pending: nat, windowStarted: Time, lockedUntil: Time)

  type Attempts = map<Key, Entry>

  datatype Table = Table(attempts: Attempts, saturatedUntil: Time)

  datatype Decision = Admitted | Locked | Saturated | Cancelled

  datatype Limits = Limits(failureLimit: nat, failureWindow: nat, lockout: nat, trackedLimit: nat) {
    /** What the constants of the source satisfy and every theorem below relies on. */
    predicate Sound() {
      1 <= failureLimit && 1 <= failureWindow <= lockout && 1 <= trackedLimit
    }
  }

  const STARTER_LIMITS := Limits(5, 15 * 60 * SECOND, 15 * 60 * SECOND, 8192)

  const EMPTY_TABLE := Table(map[], ZERO_TIME)

  const NO_ENTRY := Entry(0, 0, ZERO_TIME, ZERO_TIME)

  function Normalized(tenantID: string, identifier: string): Key {
    Key(Text.TrimSpace(tenantID), Text.ToLower(Text.TrimSpace(identifier)))
  }

  /** Two spellings share one set of counters exactly when the tenants are the same and the
      identifiers differ in nothing but letter case, whatever padding stands around them. */
  lemma SpellingsShareAKey(tenant: string, tenant': string, id: string, id': string, padding: seq<string>)
    requires Text.Trimmed(tenant) && Text.Trimmed(tenant') && Text.Trimmed(id) && Text.Trimmed(id')
    requires |padding| == 8 && forall p | p in padding :: Text.AllSpace(p)
    ensures Normalized(padding[0] + tenant + padding[1], padding[2] + id + padding[3])
         == Normalized(padding[4] + tenant' + padding[5], padding[6] + id' + padding[7])
       <==> tenant == tenant' && Text.EqualFold(id, id')
  {
    Text.TrimSpaceUnpads(padding[0], tenant, padding[1]);
    Text.TrimSpaceUnpads(padding[2], id, padding[3]);
    Text.TrimSpaceUnpads(padding[4], tenant', padding[5]);
    Text.TrimSpaceUnpads(padding[6], id', padding[7]);
  }

  predicate WindowOver(l: Limits, e: Entry, now: Time) {
    e.windowStarted + l.failureWindow <= now
  }

  /** Neither the window nor a lock of the entry reaches past now: pruning may drop it. */
  predicate Expired(l: Limits, e: Entry, now: Time) {
    WindowOver(l, e, now) && e.lockedUntil <= now
  }

  function Pruned(l: Limits, m: Attempts, now: Time): Attempts {
    map k | k in m && !Expired(l, m[k], now) :: m[k]
  }

  /** The map an untracked key finds when it asks for a slot: pruned only when full. */
  function WithRoom(l: Limits, m: Attempts, now: Time): Attempts {
    if |m| < l.trackedLimit then m else Pruned(l, m, now)
  }

  function Allow(l: Limits, t: Table, k: Key, now: Time): (Table, Decision) {
    if k in t.attempts && now < t.attempts[k].lockedUntil then
      (t, Locked)
    else if k in t.attempts && !WindowOver(l, t.attempts[k], now) then
      var e := t.attempts[k];
      if l.failureLimit <= e.failures + e.pending then
        (t.(attempts := t.attempts[k := e.(lockedUntil := now + l.lockout)]), Locked)
      else
        (t.(attempts := t.attempts[k := e.(pending := e.pending + 1)]), Admitted)
    else
      var m := t.attempts - {k};
      if now < t.saturatedUntil then
        (Table(m, t.saturatedUntil), Saturated)
      else
        var room := WithRoom(l, m, now);
        if l.trackedLimit <= |room| then
          (Table(room, now + l.failureWindow), Saturated)
        else
          (Table(room[k := Entry(0, 1, now, ZERO_TIME)], t.saturatedUntil), Admitted)
  }

  /** RecordFailure starts a new window: a lock that ran out counts as well as the window. */
  predicate FailureResets(l: Limits, e: Entry, now: Time) {
    (e.lockedUntil != ZERO_TIME && e.lockedUntil <= now) || WindowOver(l, e, now)
  }

  function AfterFailure(l: Limits, e: Entry, now: Time): Entry {
    Entry(e.failures + 1,
          if 0 < e.pending then e.pending - 1 else 0,
          e.windowStarted,
          if l.failureLimit <= e.failures + 1 then now + l.lockout else e.lockedUntil)
  }

  function Failure(l: Limits, t: Table, k: Key, now: Time): Table {
    if k in t.attempts && !FailureResets(l, t.attempts[k], now) then
      t.(attempts := t.attempts[k := AfterFailure(l, t.attempts[k], now)])
    else
      var room := WithRoom(l, t.attempts - {k}, now);
      if l.trackedLimit <= |room| then
        Table(room, now + l.failureWindow)
      else
        t.(attempts := room[k := AfterFailure(l, NO_ENTRY.(windowStarted := now), now)])
  }

  /** The failure is lost: the key holds no live entry and the map is full of live ones. */
  predicate FailureDropped(l: Limits, t: Table, k: Key, now: Time) {
    && !(k in t.attempts && !FailureResets(l, t.attempts[k], now))
    && l.trackedLimit <= |WithRoom(l, t.attempts - {k}, now)|
  }

  function Success(l: Limits, t: Table, k: Key): Table {
    var m :=
      if k !in t.attempts then t.attempts
      else if t.attempts[k].pending <= 1 then t.attempts - {k}
      else t.attempts[k := t.attempts[k].(pending := t.attempts[k].pending - 1, failures := 0,
          lockedUntil := ZERO_TIME)];
    Table(m, if |m| < l.trackedLimit then ZERO_TIME else t.saturatedUntil)
  }

  lemma PrunedSmaller(l: Limits, m: Attempts, now: Time)
    ensures |Pruned(l, m, now)| <= |m|
  {
    Sets.SubsetSmaller(Pruned(l, m, now).Keys, m.Keys);
  }

  class LoginAttemptPolicy {
    const limits: Limits
    var attempts: Attempts
    var saturatedUntil: Time

    ghost predicate Valid()
      reads this
    {
      limits.Sound() && |attempts| <= limits.trackedLimit
    }

    ghost function Contents(): Table
      reads this
    {
      Table(attempts, saturatedUntil)
    }

    constructor (limits: Limits)
      requires limits.Sound()
      ensures Valid() && this.limits == limits && Contents() == EMPTY_TABLE
    {
      this.limits := limits;
      attempts := map[];
      saturatedUntil := ZERO_TIME;
    }

    method AllowLogin(cancelled: bool, tenantID: string, identifier: string, now: Clock) returns (d: Decision)
      requires Valid()
      modifies this
      ensures Valid()
      ensures cancelled ==> Contents() == old(Contents()) && d == Cancelled
      ensures !cancelled ==> (Contents(), d) == Allow(limits, old(Contents()), Normalized(tenantID, identifier), now)
    {
      if cancelled {
        return Cancelled;
      }
      var key := Normalized(tenantID, identifier);
      var exists_ := key in attempts;
      var state := if exists_ then attempts[key] else NO_ENTRY;
      if exists_ {
        if now < state.lockedUntil {
          return Locked;
        }
        if WindowOver(limits, state, now) {
          attempts := attempts - {key};
          state := NO_ENTRY;
          exists_ := false;
        }
      }
      if limits.failureLimit <= state.failures + state.pending {
        if state.lockedUntil <= now {
          state := state.(lockedUntil := now + limits.lockout);
        }
        if !exists_ {
          state := state.(windowStarted := now);
        }
        attempts := attempts[key := state];
        return Locked;
      }
      if !exists_ {
        assert old(attempts) - {key} == attempts;
        if now < saturatedUntil {
          return Saturated;
        }
        var room := MakeRoom(now);
        if !room {
          return Saturated;
        }
        state := state.(windowStarted := now);
      }
      attempts := attempts[key := state.(pending := state.pending + 1)];
      return Admitted;
    }

    method RecordFailure(tenantID: string, identifier: string, now: Clock)
      requires Valid()
      modifies this
      ensures Valid()
      ensures Contents() == Failure(limits, old(Contents()), Normalized(tenantID, identifier), now)
    {
      var key := Normalized(tenantID, identifier);
      var exists_ := key in attempts;
      var state := if exists_ then attempts[key] else NO_ENTRY;
      if exists_ && ((state.lockedUntil != ZERO_TIME && state.lockedUntil <= now) || WindowOver(limits, state, now)) {
        attempts := attempts - {key};
        state := NO_ENTRY;
        exists_ := false;
      }
      assert !exists_ ==> attempts == old(attempts) - {key};
      if !exists_ {
        var room := MakeRoom(now);
        if !room {
          return;
        }
        state := state.(windowStarted := now);
      }
      state := CountFailure(state, now);
      attempts := attempts[key := state];
    }

    method CountFailure(e: Entry, now: Clock) returns (state: Entry)
      ensures state == AfterFailure(limits, e, now)
    {
      state := e;
      if 0 < state.pending {
        state := state.(pending := state.pending - 1);
      }
      state := state.(failures := state.failures + 1);
      if limits.failureLimit <= state.failures {
        state := state.(lockedUntil := now + limits.lockout);
      }
    }

    method RecordSuccess(tenantID: string, identifier: string)
      requires Valid()
      modifies this
      ensures Valid()
      ensures Contents() == Success(limits, old(Contents()), Normalized(tenantID, identifier))
    {
      var key := Normalized(tenantID, identifier);
      if key in attempts {
        var state := attempts[key];
        if 0 < state.pending {
          state := state.(pending := state.pending - 1);
        }
        if state.pending <= 0 {
          attempts := attempts - {key};
        } else {
          state := state.(failures := 0, lockedUntil := ZERO_TIME);
          attempts := attempts[key := state];
        }
      }
      if |attempts| < limits.trackedLimit {
        saturatedUntil := ZERO_TIME;
      }
    }

    /** The capacity gate both AllowLogin and RecordFailure put before a new entry. */
    method MakeRoom(now: Clock) returns (room: bool)
      requires Valid()
      modifies this
      ensures Valid()
      ensures attempts == WithRoom(limits, old(attempts), now) && room == (|attempts| < limits.trackedLimit)
      ensures saturatedUntil == if room then old(saturatedUntil) else now + limits.failureWindow
    {
      if limits.trackedLimit <= |attempts| {
        PruneExpired(now);
        if limits.trackedLimit <= |attempts| {
          saturatedUntil := now + limits.failureWindow;
          return false;
        }
      }
      return true;
    }

    method PruneExpired(now: Clock)
      requires Valid()
      modifies this`attempts
      ensures Valid()
      ensures attempts == Pruned(limits, old(attempts), now)
    {
      ghost var before := attempts;
      var rest := attempts.Keys;
      while rest != {}
        invariant rest <= attempts.Keys
        invariant forall k :: k in attempts <==> k in before && (k in rest || !Expired(limits, before[k], now))
        invariant forall k | k in attempts :: attempts[k] == before[k]
        decreases |rest|
      {
        var key :| key in rest;
        rest := rest - {key};
        var state := attempts[key];
        var expiresAt := state.windowStarted + limits.failureWindow;
        if expiresAt < state.lockedUntil {
          expiresAt := state.lockedUntil;
        }
        if expiresAt <= now {
          attempts := attempts - {key};
        }
      }
      assert attempts == Pruned(limits, before, now);
      PrunedSmaller(limits, before, now);
    }
  }
}
