/** The per-network vote limiter (reference/polls/pollmodule/voter.go): a fixed window of
    counted ballots per key, with expired buckets evicted when the map grows large. */
module VoteLimiter {
  import opened Instants
  import opened FixedWindows

  const VOTE_LIMIT_PER_WINDOW: nat := 30
  const VOTE_LIMIT_WINDOW: nat := 60 * SECOND
  const EVICTION_THRESHOLD: nat := 512

  datatype Bucket = Bucket(windowStart: Time, count: nat)

  type Buckets = map<string, Bucket>

  datatype Verdict = Verdict(allowed: bool, retry: int)

  predicate WindowOver(b: Bucket, now: Time) {
    b.windowStart + VOTE_LIMIT_WINDOW <= now
  }

  function Evicted(m: Buckets, now: Time): Buckets {
    if |m| < EVICTION_THRESHOLD then m else map k | k in m && !WindowOver(m[k], now) :: m[k]
  }

  predicate StartsWindow(m: Buckets, k: string, now: Time) {
    k !in m || m[k].windowStart == ZERO_TIME || WindowOver(m[k], now)
  }

  /** The verdict on a ballot, which only the bucket of its key decides. */
  function Judged(m: Buckets, k: string, now: Time): Verdict {
    if !StartsWindow(m, k, now) && VOTE_LIMIT_PER_WINDOW <= m[k].count then
      Verdict(false, VOTE_LIMIT_WINDOW - (now - m[k].windowStart))
    else
      Verdict(true, 0)
  }

  /** The bucket map after counting a ballot, before any eviction. */
  function Counted(m: Buckets, k: string, now: Time): Buckets {
    if StartsWindow(m, k, now) then m[k := Bucket(now, 1)]
    else if VOTE_LIMIT_PER_WINDOW <= m[k].count then m
    else m[k := m[k].(count := m[k].count + 1)]
  }

  function After(m: Buckets, k: string, now: Time): Buckets {
    if StartsWindow(m, k, now) then Evicted(Counted(m, k, now), now) else Counted(m, k, now)
  }

  class Limiter {
    var buckets: Buckets

    constructor ()
      ensures buckets == map[]
    {
      buckets := map[];
    }

    method Allow(key: string, now: Clock) returns (allowed: bool, retry: int)
      modifies this
      ensures Verdict(allowed, retry) == Judged(old(buckets), key, now)
      ensures buckets == After(old(buckets), key, now)
    {
      var bucket := if key in buckets then buckets[key] else Bucket(ZERO_TIME, 0);
      if bucket.windowStart == ZERO_TIME || VOTE_LIMIT_WINDOW <= now - bucket.windowStart {
        bucket := Bucket(now, 1);
        buckets := buckets[key := bucket];
        EvictExpired(now);
        return true, 0;
      }
      if VOTE_LIMIT_PER_WINDOW <= bucket.count {
        return false, VOTE_LIMIT_WINDOW - (now - bucket.windowStart);
      }
      bucket := bucket.(count := bucket.count + 1);
      buckets := buckets[key := bucket];
      return true, 0;
    }

    method EvictExpired(now: Clock)
      modifies this
      ensures buckets == Evicted(old(buckets), now)
    {
      if |buckets| < EVICTION_THRESHOLD {
        return;
      }
      ghost var before := buckets;
      var rest := buckets.Keys;
      while rest != {}
        invariant rest <= buckets.Keys
        invariant forall k :: k in buckets <==> k in before && (k in rest || !WindowOver(before[k], now))
        invariant forall k | k in buckets :: buckets[k] == before[k]
        decreases |rest|
      {
        var key :| key in rest;
        rest := rest - {key};
        if VOTE_LIMIT_WINDOW <= now - buckets[key].windowStart {
          buckets := buckets - {key};
        }
      }
      assert buckets == Evicted(before, now);
    }
  }

  // ---- runs of ballots ------------------------------------------------------------------

  datatype Ballot = Ballot(key: string, now: Clock)

  predicate Clocked(ballots: seq<Ballot>, from: Time, until: Time) {
    ballots == [] || (from <= ballots[0].now <= until && Clocked(ballots[1..], ballots[0].now, until))
  }

  /** Every bucket was started after the zero instant and not after now. */
  ghost predicate Timely(m: Buckets, now: Time) {
    forall k :: TimelyAt(m, k, now)
  }

  predicate TimelyAt(m: Buckets, k: string, now: Time) {
    k in m ==> ZERO_TIME < m[k].windowStart <= now
  }

  lemma TimelyKept(m: Buckets, b: Ballot, from: Time)
    requires Timely(m, from) && from <= b.now
    ensures Timely(After(m, b.key, b.now), b.now)
  {
    forall k
      ensures TimelyAt(After(m, b.key, b.now), k, b.now)
    {
      assert TimelyAt(m, k, from);
    }
  }

  function Run(m: Buckets, ballots: seq<Ballot>): Buckets
    decreases |ballots|
  {
    if ballots == [] then m else Run(After(m, ballots[0].key, ballots[0].now), ballots[1..])
  }

  lemma {:induction false} TimelyRun(m: Buckets, ballots: seq<Ballot>, from: Time, until: Time)
    requires Timely(m, from) && from <= until && Clocked(ballots, from, until)
    ensures Timely(Run(m, ballots), until)
    decreases |ballots|
  {
    if ballots == [] {
      forall k
        ensures TimelyAt(m, k, until)
      {
        assert TimelyAt(m, k, from);
      }
    } else {
      var b := ballots[0];
      TimelyKept(m, b, from);
      TimelyRun(After(m, b.key, b.now), ballots[1..], b.now, until);
    }
  }

  // ---- eviction cannot be observed ------------------------------------------------------

  /** The evicting map lacks only buckets whose window is over. */
  ghost predicate Tracks(m: Buckets, full: Buckets, now: Time) {
    forall k :: TracksAt(m, full, k, now)
  }

  predicate TracksAt(m: Buckets, full: Buckets, k: string, now: Time) {
    && (k in m ==> k in full && full[k] == m[k])
    && (k in full ==> k in m || WindowOver(full[k], now))
    && TimelyAt(full, k, now)
  }

  lemma BallotTracked(m: Buckets, full: Buckets, b: Ballot, from: Time)
    requires Tracks(m, full, from) && from <= b.now
    ensures TracksAt(m, full, b.key, from) && Judged(m, b.key, b.now) == Judged(full, b.key, b.now)
    ensures Tracks(After(m, b.key, b.now), Counted(full, b.key, b.now), b.now)
  {
    assert TracksAt(m, full, b.key, from);
    forall k
      ensures TracksAt(After(m, b.key, b.now), Counted(full, b.key, b.now), k, b.now)
    {
      assert TracksAt(m, full, k, from);
    }
  }

  function Verdicts(m: Buckets, ballots: seq<Ballot>): seq<Verdict>
    decreases |ballots|
  {
    if ballots == [] then [] else
      var b := ballots[0];
      [Judged(m, b.key, b.now)] + Verdicts(After(m, b.key, b.now), ballots[1..])
  }

  /** The verdicts of a limiter that keeps every bucket for ever. */
  function UnevictedVerdicts(full: Buckets, ballots: seq<Ballot>): seq<Verdict>
    decreases |ballots|
  {
    if ballots == [] then [] else
      var b := ballots[0];
      [Judged(full, b.key, b.now)] + UnevictedVerdicts(Counted(full, b.key, b.now), ballots[1..])
  }

  lemma {:induction false} RunsAgree(m: Buckets, full: Buckets, ballots: seq<Ballot>, from: Time, until: Time)
    requires Tracks(m, full, from) && Clocked(ballots, from, until)
    ensures Verdicts(m, ballots) == UnevictedVerdicts(full, ballots)
    decreases |ballots|
  {
    if ballots != [] {
      var b := ballots[0];
      BallotTracked(m, full, b, from);
      RunsAgree(After(m, b.key, b.now), Counted(full, b.key, b.now), ballots[1..], b.now, until);
    }
  }

  /** What a ballot leaves: no delay when let through; of the other buckets, a live one stays as
      it is and none is added; and a ballot that opens a window in a map grown to 512 buckets
      leaves no finished one. */
  lemma OtherBuckets(m: Buckets, k: string, now: Time)
    ensures Judged(m, k, now).allowed ==> Judged(m, k, now).retry == 0
    ensures After(m, k, now).Keys <= m.Keys + {k}
    ensures forall other | other in m && other != k && now - m[other].windowStart < 60 * SECOND ::
              other in After(m, k, now) && After(m, k, now)[other] == m[other]
    ensures StartsWindow(m, k, now) ==>
              (forall other | other in After(m, k, now) :: now - After(m, k, now)[other].windowStart < 60 * SECOND)
              || (|m.Keys + {k}| < 512 && After(m, k, now).Keys == m.Keys + {k})
    ensures !StartsWindow(m, k, now) ==> After(m, k, now).Keys == m.Keys
  {
    assert m.Keys + {k} == m[k := Bucket(now, 1)].Keys;
  }

  /** Under a nondecreasing clock, eviction never changes a verdict or a retry delay. */
  lemma EvictionIsUnobservable(ballots: seq<Ballot>, until: Time)
    requires Clocked(ballots, ZERO_TIME, until)
    ensures Verdicts(map[], ballots) == UnevictedVerdicts(map[], ballots)
  {
    RunsAgree(map[], map[], ballots, ZERO_TIME, until);
  }

  // ---- the rate bound -------------------------------------------------------------------

  /** How many ballots for k the run lets through. */
  function Accepted(m: Buckets, ballots: seq<Ballot>, k: string): nat
    decreases |ballots|
  {
    if ballots == [] then 0 else
      var b := ballots[0];
      (if b.key == k && Judged(m, k, b.now).allowed then 1 else 0) + Accepted(After(m, b.key, b.now), ballots[1..], k)
  }

  function NextStart(m: Buckets, k: string, now: Time): Time {
    if k in m then Max(now, m[k].windowStart + VOTE_LIMIT_WINDOW) else now
  }

  function Remaining(m: Buckets, k: string): nat {
    if k in m && m[k].count < VOTE_LIMIT_PER_WINDOW then VOTE_LIMIT_PER_WINDOW - m[k].count else 0
  }

  /** Ballots k may still get through up to until. */
  function Allowance(m: Buckets, k: string, now: Time, until: Time): nat {
    Remaining(m, k) + VOTE_LIMIT_PER_WINDOW * Windows(NextStart(m, k, now), until, VOTE_LIMIT_WINDOW)
  }

  lemma AllowanceSpent(m: Buckets, b: Ballot, k: string, from: Time, until: Time)
    requires TimelyAt(m, k, from) && from <= b.now <= until
    ensures (if b.key == k && Judged(m, k, b.now).allowed then 1 else 0)
              + Allowance(After(m, b.key, b.now), k, b.now, until)
         <= Allowance(m, k, from, until)
  {
    var m' := After(m, b.key, b.now);
    if b.key == k && StartsWindow(m, k, b.now) {
      NewWindowFits(VOTE_LIMIT_PER_WINDOW, NextStart(m, k, from), b.now, until, VOTE_LIMIT_WINDOW);
    } else {
      assert k in m' ==> k in m && m'[k].windowStart == m[k].windowStart;
      WindowsFall(NextStart(m, k, from), NextStart(m', k, b.now), until, VOTE_LIMIT_WINDOW);
    }
  }

  lemma {:induction false} AllowanceBounds(m: Buckets, ballots: seq<Ballot>, k: string, from: Time, until: Time)
    requires Timely(m, from) && Clocked(ballots, from, until)
    ensures Accepted(m, ballots, k) <= Allowance(m, k, from, until)
    decreases |ballots|
  {
    if ballots != [] {
      var b := ballots[0];
      assert TimelyAt(m, k, from);
      AllowanceSpent(m, b, k, from, until);
      TimelyKept(m, b, from);
      AllowanceBounds(After(m, b.key, b.now), ballots[1..], k, b.now, until);
    }
  }

  /** From any reachable map, a time span lets at most (span / window + 2) windows' worth of
      ballots of one key through: two windows' worth when it is shorter than a window. */
  lemma RateBound(past: seq<Ballot>, ballots: seq<Ballot>, k: string, from: Time, span: nat)
    requires Clocked(past, ZERO_TIME, from) && Clocked(ballots, from, from + span)
    ensures Accepted(Run(map[], past), ballots, k) <= VOTE_LIMIT_PER_WINDOW * (span / VOTE_LIMIT_WINDOW + 2)
    ensures span < VOTE_LIMIT_WINDOW ==> Accepted(Run(map[], past), ballots, k) <= 60
  {
    var m := Run(map[], past);
    TimelyRun(map[], past, ZERO_TIME, from);
    AllowanceBounds(m, ballots, k, from, from + span);
    WindowsInSpan(VOTE_LIMIT_PER_WINDOW, from, NextStart(m, k, from), span, VOTE_LIMIT_WINDOW);
  }

  // ---- the retry delay ------------------------------------------------------------------

  /** The denied bucket stays until its window ends; only then can it be evicted. */
  predicate Holds(m: Buckets, k: string, b: Bucket, now: Time) {
    if k in m then m[k] == b else WindowOver(b, now)
  }

  lemma {:induction false} DeniedBucketHolds(m: Buckets, ballots: seq<Ballot>, k: string, b: Bucket, from: Time,
          until: Time)
    requires Holds(m, k, b, from) && from <= until && Clocked(ballots, from, until)
    requires b.windowStart != ZERO_TIME && VOTE_LIMIT_PER_WINDOW <= b.count
    requires forall c | c in ballots && c.key == k :: !WindowOver(b, c.now)
    ensures Holds(Run(m, ballots), k, b, until)
    decreases |ballots|
  {
    if ballots != [] {
      var c := ballots[0];
      assert c in ballots;
      DeniedBucketHolds(After(m, c.key, c.now), ballots[1..], k, b, c.now, until);
    }
  }

  /** A denial's retry delay is exact: it is positive and at most a window, and whatever
      ballots come between, one for the key is let through once it has passed and not before. */
  lemma RetryIsExact(past: seq<Ballot>, k: string, denied: Clock, between: seq<Ballot>, now: Clock)
    requires Clocked(past, ZERO_TIME, denied) && !Judged(Run(map[], past), k, denied).allowed
    requires denied <= now && Clocked(between, denied, now)
    requires forall c | c in between && c.key == k :: c.now < denied + Judged(Run(map[], past), k, denied).retry
    ensures var retry := Judged(Run(map[], past), k, denied).retry;
            && 0 < retry <= VOTE_LIMIT_WINDOW
            && (Judged(Run(After(Run(map[], past), k, denied), between), k, now).allowed <==> denied + retry <= now)
  {
    var m := Run(map[], past);
    TimelyRun(map[], past, ZERO_TIME, denied);
    assert TimelyAt(m, k, denied);
    DeniedBucketHolds(After(m, k, denied), between, k, m[k], denied, now);
  }

  // ---- the allowance is granted in full -------------------------------------------------

  function BallotsFor(ballots: seq<Ballot>, k: string): nat
    decreases |ballots|
  {
    if ballots == [] then 0 else (if ballots[0].key == k then 1 else 0) + BallotsFor(ballots[1..], k)
  }

  function Least(a: nat, b: nat): nat {
    if a < b then a else b
  }

  lemma OpenBucketStep(m: Buckets, b: Ballot, k: string)
    requires k in m && m[k].windowStart != ZERO_TIME && !WindowOver(m[k], b.now)
    ensures var m' := After(m, b.key, b.now);
            && k in m' && m'[k].windowStart == m[k].windowStart
            && m'[k].count == if b.key == k && m[k].count < 30 then m[k].count + 1 else m[k].count
    ensures b.key == k ==> (Judged(m, k, b.now).allowed <==> m[k].count < 30)
  {
  }

  lemma {:induction false} OpenBucketGrants(m: Buckets, ballots: seq<Ballot>, k: string, from: Time, until: Time)
    requires k in m && m[k].windowStart != ZERO_TIME && m[k].count <= 30
    requires from <= until && Clocked(ballots, from, until) && !WindowOver(m[k], until)
    ensures Accepted(m, ballots, k) == Least(30 - m[k].count, BallotsFor(ballots, k))
    decreases |ballots|
  {
    if ballots != [] {
      OpenBucketStep(m, ballots[0], k);
      hide After, Judged;
      OpenBucketGrants(After(m, ballots[0].key, ballots[0].now), ballots[1..], k, ballots[0].now, until);
    }
  }

  /** From the ballot that starts a window for its key, exactly the first thirty ballots of that
      minute are let through, whoever else votes in between. */
  lemma FirstThirtyPass(m: Buckets, k: string, start: Clock, ballots: seq<Ballot>, until: Time)
    requires StartsWindow(m, k, start)
    requires start <= until < start + 60_000_000_000 && Clocked(ballots, start, until)
    ensures Accepted(m, [Ballot(k, start)] + ballots, k) == Least(30, 1 + BallotsFor(ballots, k))
  {
    var all := [Ballot(k, start)] + ballots;
    assert all[0] == Ballot(k, start) && all[1..] == ballots;
    WindowOpens(m, k, start);
    hide After, Judged;
    OpenBucketGrants(After(m, k, start), ballots, k, start, until);
  }

  lemma WindowOpens(m: Buckets, k: string, start: Clock)
    requires StartsWindow(m, k, start)
    ensures Judged(m, k, start).allowed && k in After(m, k, start) && After(m, k, start)[k] == Bucket(start, 1)
  {
  }
}
