/** Identifiers, and so tenants, do not share counters: calls for one never change what another
    is answered, except that a full table may refuse anybody. */
module LoginIsolation {
  import opened Instants
  import opened LoginPolicy
  import opened LoginRuns
  import Text

  function Own(calls: seq<Call>, k: Key): seq<Call> {
    if calls == [] then [] else (if calls[0].key == k then [calls[0]] else []) + Own(calls[1..], k)
  }

  function OfTenant(calls: seq<Call>, tenantID: string): seq<Call> {
    if calls == [] then []
    else (if calls[0].key.tenantID == tenantID then [calls[0]] else []) + OfTenant(calls[1..], tenantID)
  }

  /** What the attempts for k are answered in the run. */
  function Decisions(l: Limits, t: Table, calls: seq<Call>, k: Key): seq<Decision>
    decreases |calls|
  {
    if calls == [] then []
    else
      (if calls[0].AllowLogin? && calls[0].key == k then [Allow(l, t, k, calls[0].now).1] else [])
      + Decisions(l, After(l, t, calls[0]), calls[1..], k)
  }

  /** There was room for the call, if it is one for k. */
  predicate HeardAt(l: Limits, t: Table, c: Call, k: Key) {
    c.key == k ==>
      && (c.AllowLogin? ==> Allow(l, t, k, c.now).1 != Saturated)
      && (c.RecordFailure? ==> !FailureDropped(l, t, k, c.now))
  }

  /** No attempt for k was refused for lack of room, and no failure of k was dropped. */
  predicate Heard(l: Limits, t: Table, calls: seq<Call>, k: Key)
    decreases |calls|
  {
    calls == [] || (HeardAt(l, t, calls[0], k) && Heard(l, After(l, t, calls[0]), calls[1..], k))
  }

  /** Two tables hold the same entry for k, or one of them has pruned it. */
  predicate AgreeAt(l: Limits, t: Table, t': Table, k: Key, now: Time) {
    && (k in t.attempts && k in t'.attempts ==> t.attempts[k] == t'.attempts[k])
    && (k in t.attempts && k !in t'.attempts ==> Expired(l, t.attempts[k], now))
    && (k !in t.attempts && k in t'.attempts ==> Expired(l, t'.attempts[k], now))
  }

  lemma OtherStep(l: Limits, t: Table, t': Table, c: Call, k: Key, now: Time)
    requires c.key != k && AgreeAt(l, t, t', k, now) && now <= Later(c, now)
    ensures AgreeAt(l, After(l, t, c), t', k, Later(c, now))
  {
    OtherCall(l, t, c, k);
    hide After;
  }

  lemma OwnStep(l: Limits, t: Table, t': Table, c: Call, k: Key, now: Time)
    requires l.Sound() && c.key == k && AgreeAt(l, t, t', k, now) && now <= Later(c, now)
    requires HeardAt(l, t, c, k) && HeardAt(l, t', c, k)
    ensures AgreeAt(l, After(l, t, c), After(l, t', c), k, Later(c, now))
    ensures c.AllowLogin? ==> Allow(l, t, k, c.now).1 == Allow(l, t', k, c.now).1
  {
    hide WithRoom;
  }

  lemma {:induction false} OthersDoNotMatter(l: Limits, t: Table, t': Table, calls: seq<Call>, k: Key,
                                             from: Time, until: Time)
    requires l.Sound() && AgreeAt(l, t, t', k, from) && Clocked(calls, from, until)
    requires Heard(l, t, calls, k) && Heard(l, t', Own(calls, k), k)
    ensures Decisions(l, t, calls, k) == Decisions(l, t', Own(calls, k), k)
    decreases |calls|
  {
    if calls != [] {
      hide Allow, Failure, Success, AgreeAt;
      var c, rest := calls[0], calls[1..];
      if c.key == k {
        assert Own(calls, k)[0] == c && Own(calls, k)[1..] == Own(rest, k);
        OwnStep(l, t, t', c, k, from);
        OthersDoNotMatter(l, After(l, t, c), After(l, t', c), rest, k, Later(c, from), until);
      } else {
        assert Own(calls, k) == Own(rest, k);
        OtherStep(l, t, t', c, k, from);
        OthersDoNotMatter(l, After(l, t, c), t', rest, k, Later(c, from), until);
      }
    }
  }

  /** Nobody but k is in the table, which therefore always has room for k. */
  predicate OnlyOwn(t: Table, k: Key) {
    t.attempts.Keys <= {k} && t.saturatedUntil == ZERO_TIME
  }

  lemma OnlyOwnStep(l: Limits, t: Table, c: Call, k: Key)
    requires l.Sound() && OnlyOwn(t, k) && c.key == k
    ensures HeardAt(l, t, c, k) && OnlyOwn(After(l, t, c), k)
  {
    assert t.attempts - {k} == map[];
  }

  lemma {:induction false} AloneIsHeard(l: Limits, t: Table, calls: seq<Call>, k: Key)
    requires l.Sound() && OnlyOwn(t, k)
    ensures Heard(l, t, Own(calls, k), k)
    decreases |calls|
  {
    if calls != [] {
      hide HeardAt, After, OnlyOwn;
      var rest := calls[1..];
      if calls[0].key == k {
        assert Own(calls, k)[0] == calls[0] && Own(calls, k)[1..] == Own(rest, k);
        OnlyOwnStep(l, t, calls[0], k);
        AloneIsHeard(l, After(l, t, calls[0]), rest, k);
      } else {
        assert Own(calls, k) == Own(rest, k);
        AloneIsHeard(l, t, rest, k);
      }
    }
  }

  /** In every run in which there was room for it, an identifier is answered as if all other
      calls had not been made. */
  lemma IdentifiersAreIndependent(l: Limits, calls: seq<Call>, k: Key, until: Time)
    requires l.Sound() && Clocked(calls, ZERO_TIME, until) && Heard(l, EMPTY_TABLE, calls, k)
    ensures Decisions(l, EMPTY_TABLE, calls, k) == Decisions(l, EMPTY_TABLE, Own(calls, k), k)
  {
    AloneIsHeard(l, EMPTY_TABLE, calls, k);
    OthersDoNotMatter(l, EMPTY_TABLE, EMPTY_TABLE, calls, k, ZERO_TIME, until);
  }

  lemma {:induction false} OwnOfTenant(calls: seq<Call>, k: Key, from: Time, until: Time)
    requires Clocked(calls, from, until) && from <= until
    ensures Own(OfTenant(calls, k.tenantID), k) == Own(calls, k)
    ensures Clocked(OfTenant(calls, k.tenantID), from, until)
    decreases |calls|
  {
    if calls != [] {
      var c, rest := calls[0], calls[1..];
      OwnOfTenant(rest, k, Later(c, from), until);
      if c.key.tenantID == k.tenantID {
        assert OfTenant(calls, k.tenantID)[0] == c;
        assert OfTenant(calls, k.tenantID)[1..] == OfTenant(rest, k.tenantID);
      } else {
        assert OfTenant(calls, k.tenantID) == OfTenant(rest, k.tenantID);
        ClockedEarlier(OfTenant(rest, k.tenantID), from, Later(c, from), until);
      }
    }
  }

  lemma ClockedEarlier(calls: seq<Call>, earlier: Time, from: Time, until: Time)
    requires Clocked(calls, from, until) && earlier <= from
    ensures Clocked(calls, earlier, until)
    decreases |calls|
  {
    if calls != [] && calls[0].RecordSuccess? {
      ClockedEarlier(calls[1..], earlier, from, until);
    }
  }

  /** Calls for other tenants never change what an identifier of this tenant is answered, in
      runs in which there is room for it with and without them. */
  lemma TenantsAreIndependent(l: Limits, calls: seq<Call>, tenant: string, identifier: string, until: Time)
    requires l.Sound() && Clocked(calls, ZERO_TIME, until)
    requires var k := Normalized(tenant, identifier);
             Heard(l, EMPTY_TABLE, calls, k) && Heard(l, EMPTY_TABLE, OfTenant(calls, Text.TrimSpace(tenant)), k)
    ensures var k := Normalized(tenant, identifier);
            Decisions(l, EMPTY_TABLE, calls, k)
              == Decisions(l, EMPTY_TABLE, OfTenant(calls, Text.TrimSpace(tenant)), k)
  {
    var k := Normalized(tenant, identifier);
    assert k.tenantID == Text.TrimSpace(tenant);
    hide *;
    OwnOfTenant(calls, k, ZERO_TIME, until);
    IdentifiersAreIndependent(l, calls, k, until);
    IdentifiersAreIndependent(l, OfTenant(calls, k.tenantID), k, until);
  }
}
