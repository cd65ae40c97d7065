/** When the login throttle refuses for lack of room: every saturated refusal goes back to a
    call that found the table full of live entries less than one window before. */
module LoginSaturation {
  import opened Instants
  import opened LoginPolicy
  import opened LoginRuns

  /** The table is full, and none of its entries could have been pruned at this instant. */
  predicate FullOfLive(l: Limits, m: Attempts, now: Time) {
    |m| == l.trackedLimit && forall k | k in m :: !Expired(l, m[k], now)
  }

  function RunTo(l: Limits, calls: seq<Call>, n: nat): Table
    requires n <= |calls|
  {
    Run(l, EMPTY_TABLE, calls[..n])
  }

  /** Call i left the table full of live entries, and no later success made room. */
  predicate FoundFull(l: Limits, calls: seq<Call>, i: nat) {
    && i < |calls| && !calls[i].RecordSuccess?
    && FullOfLive(l, RunTo(l, calls, i + 1).attempts, calls[i].now)
    && forall j | i < j < |calls| && calls[j].RecordSuccess? :: |RunTo(l, calls, j + 1).attempts| == l.trackedLimit
  }

  /** The saturation mark is unset, or was set by a call that found the table full. */
  predicate MarkedBy(l: Limits, calls: seq<Call>, i: nat) {
    FoundFull(l, calls, i) && Run(l, EMPTY_TABLE, calls).saturatedUntil == calls[i].now + l.failureWindow
  }

  ghost predicate MarkSound(l: Limits, calls: seq<Call>) {
    Run(l, EMPTY_TABLE, calls).saturatedUntil == ZERO_TIME || exists i: nat :: MarkedBy(l, calls, i)
  }

  /** A call sets the mark when it finds the table full, and only a success that leaves room
      takes it away. */
  lemma MarkAfter(l: Limits, t: Table, c: Call)
    requires l.Sound() && |t.attempts| <= l.trackedLimit
    ensures var t' := After(l, t, c);
            if t'.saturatedUntil == t.saturatedUntil then c.RecordSuccess? && t.saturatedUntil != ZERO_TIME
                ==> |t'.attempts| == l.trackedLimit
            else if c.RecordSuccess? then t'.saturatedUntil == ZERO_TIME
            else t'.saturatedUntil == c.now + l.failureWindow && FullOfLive(l, t'.attempts, c.now)
  {
    match c
    case AllowLogin(k, now) => AllowKeepsCapacity(l, t, k, now);
    case RecordFailure(k, now) => FailureKeepsCapacity(l, t, k, now);
    case RecordSuccess(k) => SuccessKeepsCapacity(l, t, k);
  }

  lemma FoundFullStays(l: Limits, calls: seq<Call>, c: Call, i: nat)
    requires FoundFull(l, calls, i)
    requires c.RecordSuccess? ==> |Run(l, EMPTY_TABLE, calls + [c]).attempts| == l.trackedLimit
    ensures FoundFull(l, calls + [c], i)
  {
    hide Run, FullOfLive;
    var all := calls + [c];
    assert forall n | 0 <= n <= |calls| :: all[..n] == calls[..n];
    assert all[..|all|] == all;
    forall j | i < j < |all| && all[j].RecordSuccess?
      ensures |RunTo(l, all, j + 1).attempts| == l.trackedLimit
    {
      if j < |calls| {
        assert RunTo(l, all, j + 1) == RunTo(l, calls, j + 1);
      }
    }
  }

  lemma FullNow(l: Limits, calls: seq<Call>, c: Call)
    requires !c.RecordSuccess? && FullOfLive(l, Run(l, EMPTY_TABLE, calls + [c]).attempts, c.now)
    ensures FoundFull(l, calls + [c], |calls|)
  {
    assert (calls + [c])[..|calls| + 1] == calls + [c];
  }

  lemma MarkStep(l: Limits, calls: seq<Call>, c: Call)
    requires l.Sound() && MarkSound(l, calls)
    ensures MarkSound(l, calls + [c])
  {
    var t := Run(l, EMPTY_TABLE, calls);
    TrackedIsCapped(l, EMPTY_TABLE, calls);
    RunSnoc(l, EMPTY_TABLE, multiset{}, calls, c);
    MarkAfter(l, t, c);
    hide Run, After, FullOfLive, FoundFull, RunTo;
    var t' := Run(l, EMPTY_TABLE, calls + [c]);
    if t'.saturatedUntil == t.saturatedUntil && t.saturatedUntil != ZERO_TIME {
      var i: nat :| MarkedBy(l, calls, i);
      FoundFullStays(l, calls, c, i);
      FoundFullInRange(l, calls, i);
      assert MarkedBy(l, calls + [c], i);
    } else if t'.saturatedUntil != ZERO_TIME {
      FullNow(l, calls, c);
      assert MarkedBy(l, calls + [c], |calls|);
    }
  }

  lemma FoundFullInRange(l: Limits, calls: seq<Call>, i: nat)
    requires FoundFull(l, calls, i)
    ensures i < |calls| && !calls[i].RecordSuccess?
  {
  }

  lemma {:induction false} MarksSound(l: Limits, calls: seq<Call>)
    requires l.Sound()
    ensures MarkSound(l, calls)
    decreases |calls|
  {
    if calls != [] {
      var before := calls[..|calls| - 1];
      MarksSound(l, before);
      MarkStep(l, before, calls[|calls| - 1]);
      assert calls == before + [calls[|calls| - 1]];
    }
  }

  lemma {:induction false} ClockedAt(calls: seq<Call>, from: Time, until: Time, i: nat)
    requires Clocked(calls, from, until) && i < |calls| && !calls[i].RecordSuccess?
    ensures calls[i].now <= until
    decreases |calls|
  {
    if 0 < i {
      ClockedAt(calls[1..], Later(calls[0], from), until, i - 1);
    }
  }

  lemma RefusedBecause(l: Limits, t: Table, k: Key, now: Clock)
    requires l.Sound() && |t.attempts| <= l.trackedLimit && Allow(l, t, k, now).1 == Saturated
    ensures now < t.saturatedUntil || FullOfLive(l, Allow(l, t, k, now).0.attempts, now)
  {
    AllowKeepsCapacity(l, t, k, now);
  }

  /** In every run, an attempt that is refused as saturated was preceded, less than one window
      before, by a call that found the table full of live entries (or is that call itself), and
      no success has made room since. */
  lemma SaturationHasACause(l: Limits, past: seq<Call>, k: Key, from: Time, now: Clock) returns (i: nat)
    requires l.Sound() && Clocked(past, ZERO_TIME, from) && from <= now
    requires Allow(l, Run(l, EMPTY_TABLE, past), k, now).1 == Saturated
    ensures var calls := past + [AllowLogin(k, now)];
            FoundFull(l, calls, i) && i < |calls| && !calls[i].RecordSuccess?
                && calls[i].now <= now < calls[i].now + l.failureWindow
  {
    var t, c := Run(l, EMPTY_TABLE, past), AllowLogin(k, now);
    TrackedIsCapped(l, EMPTY_TABLE, past);
    MarksSound(l, past);
    RefusedBecause(l, t, k, now);
    RunSnoc(l, EMPTY_TABLE, multiset{}, past, c);
    hide Run, Allow, FullOfLive, FoundFull, RunTo;
    if now < t.saturatedUntil {
      i :| MarkedBy(l, past, i);
      FoundFullInRange(l, past, i);
      ClockedAt(past, ZERO_TIME, from, i);
      FoundFullStays(l, past, c, i);
    } else {
      i := |past|;
      FullNow(l, past, c);
    }
  }
}
