/** The poll tables and their transactions (reference/polls/pollmodule/store.go): polls,
    ballots and the audit outbox. A transaction commits all of its statements or none; a
    storage failure at any statement, or at the commit, rolls it back. */
module PollStore {
  import opened Instants
  import opened Options
  import opened PollEntities
  import Text

  datatype Action = Created | Updated | Moved(target: Status) | Deleted

  datatype AuditEntry = AuditEntry(
    eventID: string,
    tenantID: string,
    actor: string,
    action: Action,
    pollID: string,
    slug: string,
    status: Status,
    createdAt: Time)

  datatype OutboxRow = OutboxRow(entry: AuditEntry, deliveredAt: Option<Time>)

  datatype Slot = Slot(pollID: string, voterID: string)

  datatype Choice = Choice(option: int, createdAt: Time, updatedAt: Time)

  datatype Vote = Vote(pollID: string, option: int, voterID: string, castAt: Time)

  type Polls = map<string, Poll>
  type Votes = map<Slot, Choice>

  datatype Tables = Tables(polls: Polls, votes: Votes, outbox: seq<OutboxRow>)

  const EMPTY_TABLES := Tables(map[], map[], [])

  datatype Outcome = Done | Failed(error: Error)

  predicate EventKnown(outbox: seq<OutboxRow>, eventID: string) {
    exists i :: 0 <= i < |outbox| && outbox[i].entry.eventID == eventID
  }

  predicate SlugTaken(polls: Polls, slug: string, except_: string) {
    exists id :: id in polls && id != except_ && polls[id].slug == slug
  }

  /** The last two statements of every mutation: queue its audit entry, then commit. */
  function Committed(t: Tables, polls: Polls, votes: Votes, entry: AuditEntry, fails: bool): (Tables, Outcome) {
    if fails || EventKnown(t.outbox, entry.eventID) then (t, Failed(Storage))
    else (Tables(polls, votes, t.outbox + [OutboxRow(entry, None)]), Done)
  }

  function InsertPoll(t: Tables, p: Poll, entry: AuditEntry, fails: bool): (Tables, Outcome) {
    if p.id in t.polls || SlugTaken(t.polls, p.slug, p.id) then (t, Failed(Duplicate))
    else Committed(t, t.polls[p.id := p], t.votes, entry, fails)
  }

  predicate Owns(t: Tables, tenantID: string, id: string) {
    id in t.polls && t.polls[id].tenantID == tenantID
  }

  /** UPDATE leaves the key, the author and the creation time of the row as they are. */
  function UpdatedRow(row: Poll, p: Poll): Poll {
    p.(id := row.id, tenantID := row.tenantID, authorID := row.authorID, createdAt := row.createdAt)
  }

  function UpdatePoll(t: Tables, p: Poll, entry: AuditEntry, fails: bool): (Tables, Outcome) {
    if !Owns(t, p.tenantID, p.id) then (t, Failed(NotFound))
    else if SlugTaken(t.polls, p.slug, p.id) then (t, Failed(Duplicate))
    else Committed(t, t.polls[p.id := UpdatedRow(t.polls[p.id], p)], t.votes, entry, fails)
  }

  function WithoutVotes(votes: Votes, pollID: string): Votes {
    map s | s in votes && s.pollID != pollID :: votes[s]
  }

  function DeletePoll(t: Tables, tenantID: string, id: string, entry: AuditEntry, fails: bool): (Tables, Outcome) {
    if !Owns(t, tenantID, id) then (t, Failed(NotFound))
    else Committed(t, t.polls - {id}, WithoutVotes(t.votes, id), entry, fails)
  }

  /** The lifecycle is checked again in the transaction that stores the ballot. */
  function StoreVote(t: Tables, v: Vote, fails: bool): (Tables, Outcome) {
    if Text.TrimSpace(v.voterID) == "" then (t, Failed(Validation))
    else if v.pollID !in t.polls then (t, Failed(NotFound))
    else if t.polls[v.pollID].status != Published then (t, Failed(VotingClosed))
    else if t.polls[v.pollID].closesAt.Some? && t.polls[v.pollID].closesAt.value <= v.castAt then
      (t, Failed(VotingClosed))
    else if fails then (t, Failed(Storage))
    else
      var slot := Slot(v.pollID, v.voterID);
      var created := if slot in t.votes then t.votes[slot].createdAt else v.castAt;
      (t.(votes := t.votes[slot := Choice(v.option, created, v.castAt)]), Done)
  }

  predicate Pending(row: OutboxRow) {
    row.deliveredAt.None?
  }

  function MarkDelivered(outbox: seq<OutboxRow>, eventID: string, now: Time): seq<OutboxRow> {
    seq(|outbox|, i requires 0 <= i < |outbox| =>
      if outbox[i].entry.eventID == eventID && Pending(outbox[i]) then outbox[i].(deliveredAt := Some(now))
      else outbox[i])
  }

  predicate PendingEvent(outbox: seq<OutboxRow>, eventID: string) {
    exists i :: 0 <= i < |outbox| && outbox[i].entry.eventID == eventID && Pending(outbox[i])
  }

  function PendingEntries(outbox: seq<OutboxRow>): seq<AuditEntry> {
    if outbox == [] then [] else
      var rest, row := PendingEntries(outbox[..|outbox| - 1]), outbox[|outbox| - 1];
      if Pending(row) then rest + [row.entry] else rest
  }

  function Smaller(a: nat, b: nat): nat {
    if a < b then a else b
  }

  predicate UniqueEvents(outbox: seq<OutboxRow>) {
    forall i, j | 0 <= i < j < |outbox| :: outbox[i].entry.eventID != outbox[j].entry.eventID
  }

  /** What the pending query can return: pending entries, none twice, as many as there are
      up to the limit. Which of them come first is left open. */
  ghost predicate IsBatch(outbox: seq<OutboxRow>, batch: seq<AuditEntry>, limit: nat) {
    && (forall i, j | 0 <= i < j < |batch| :: batch[i].eventID != batch[j].eventID)
    && (forall i | 0 <= i < |batch| :: batch[i] in PendingEntries(outbox))
    && |batch| == Smaller(limit, |PendingEntries(outbox)|)
  }

  predicate QueuedAt(outbox: seq<OutboxRow>, e: AuditEntry, k: nat) {
    k < |outbox| && outbox[k].entry == e && Pending(outbox[k])
  }

  predicate Queued(outbox: seq<OutboxRow>, e: AuditEntry) {
    exists k | 0 <= k < |outbox| :: QueuedAt(outbox, e, k)
  }

  lemma {:induction false} PendingIsQueued(outbox: seq<OutboxRow>)
    requires UniqueEvents(outbox)
    ensures forall i, j | 0 <= i < j < |PendingEntries(outbox)| ::
              PendingEntries(outbox)[i].eventID != PendingEntries(outbox)[j].eventID
    ensures forall i | 0 <= i < |PendingEntries(outbox)| :: Queued(outbox, PendingEntries(outbox)[i])
  {
    if outbox != [] {
      var n := |outbox| - 1;
      PendingIsQueued(outbox[..n]);
      var before, pending := PendingEntries(outbox[..n]), PendingEntries(outbox);
      forall i | 0 <= i < |pending|
        ensures Queued(outbox, pending[i])
        ensures i < |before| ==> pending[i].eventID != outbox[n].entry.eventID
      {
        if i < |before| {
          var k :| 0 <= k < n && QueuedAt(outbox[..n], before[i], k);
          assert QueuedAt(outbox, pending[i], k);
        } else {
          assert QueuedAt(outbox, pending[i], n);
        }
      }
    }
  }

  lemma {:induction false} PendingListed(outbox: seq<OutboxRow>, k: nat)
    requires k < |outbox| && Pending(outbox[k])
    ensures outbox[k].entry in PendingEntries(outbox)
    decreases |outbox|
  {
    var n := |outbox| - 1;
    if k < n {
      PendingListed(outbox[..n], k);
    }
  }

  /** The pending list holds the entries of the pending rows, every one of them, and none twice. */
  lemma PendingFromOutbox(outbox: seq<OutboxRow>)
    requires UniqueEvents(outbox)
    ensures forall e :: e in PendingEntries(outbox) <==> Queued(outbox, e)
    ensures forall i, j | 0 <= i < j < |PendingEntries(outbox)| ::
              PendingEntries(outbox)[i].eventID != PendingEntries(outbox)[j].eventID
  {
    PendingIsQueued(outbox);
    hide PendingEntries, UniqueEvents;
    forall e | Queued(outbox, e) ensures e in PendingEntries(outbox) {
      var k :| 0 <= k < |outbox| && QueuedAt(outbox, e, k);
      PendingListed(outbox, k);
    }
  }

  class Store {
    var polls: Polls
    var votes: Votes
    var outbox: seq<OutboxRow>

    ghost function Contents(): Tables
      reads this
    {
      Tables(polls, votes, outbox)
    }

    constructor ()
      ensures Contents() == EMPTY_TABLES
    {
      polls, votes, outbox := map[], map[], [];
    }

    method Create(p: Poll, audit: AuditEntry, fails: bool) returns (outcome: Outcome)
      modifies this
      ensures (Contents(), outcome) == InsertPoll(old(Contents()), p, audit, fails)
    {
      var taken := FindSlug(p.slug, p.id);
      if p.id in polls || taken {
        return Failed(Duplicate);
      }
      outcome := Commit(polls[p.id := p], votes, audit, fails);
    }

    method Update(p: Poll, audit: AuditEntry, fails: bool) returns (outcome: Outcome)
      modifies this
      ensures (Contents(), outcome) == UpdatePoll(old(Contents()), p, audit, fails)
    {
      if !(p.id in polls && polls[p.id].tenantID == p.tenantID) {
        return Failed(NotFound);
      }
      var taken := FindSlug(p.slug, p.id);
      if taken {
        return Failed(Duplicate);
      }
      outcome := Commit(polls[p.id := UpdatedRow(polls[p.id], p)], votes, audit, fails);
    }

    method Delete(tenantID: string, id: string, audit: AuditEntry, fails: bool) returns (outcome: Outcome)
      modifies this
      ensures (Contents(), outcome) == DeletePoll(old(Contents()), tenantID, id, audit, fails)
    {
      var kept := votes;
      var rest := votes.Keys;
      while rest != {}
        invariant rest <= votes.Keys
        invariant forall s :: s in kept <==> s in votes && (s in rest || s.pollID != id)
        invariant forall s | s in kept :: kept[s] == votes[s]
        decreases |rest|
      {
        var slot :| slot in rest;
        rest := rest - {slot};
        if slot.pollID == id {
          kept := kept - {slot};
        }
      }
      assert kept == WithoutVotes(votes, id);
      if !(id in polls && polls[id].tenantID == tenantID) {
        return Failed(NotFound);
      }
      outcome := Commit(polls - {id}, kept, audit, fails);
    }

    method SaveVote(v: Vote, fails: bool) returns (outcome: Outcome)
      modifies this
      ensures (Contents(), outcome) == StoreVote(old(Contents()), v, fails)
    {
      if Text.TrimSpace(v.voterID) == "" {
        return Failed(Validation);
      }
      if v.pollID !in polls {
        return Failed(NotFound);
      }
      var row := polls[v.pollID];
      if row.status != Published {
        return Failed(VotingClosed);
      }
      if row.closesAt.Some? && row.closesAt.value <= v.castAt {
        return Failed(VotingClosed);
      }
      if fails {
        return Failed(Storage);
      }
      var slot := Slot(v.pollID, v.voterID);
      if slot in votes {
        votes := votes[slot := votes[slot].(option := v.option, updatedAt := v.castAt)];
      } else {
        votes := votes[slot := Choice(v.option, v.castAt, v.castAt)];
      }
      return Done;
    }

    method PendingAudit(limit: nat) returns (entries: seq<AuditEntry>)
      requires UniqueEvents(outbox)
      ensures IsBatch(outbox, entries, limit)
    {
      entries := [];
      for i := 0 to |outbox|
        invariant entries == PendingEntries(outbox[..i])
      {
        assert outbox[..i + 1][..i] == outbox[..i];
        if Pending(outbox[i]) {
          entries := entries + [outbox[i].entry];
        }
      }
      assert outbox[..|outbox|] == outbox;
      PendingFromOutbox(outbox);
      if limit < |entries| {
        entries := entries[..limit];
      }
    }

    method MarkAuditDelivered(eventID: string, now: Time, fails: bool) returns (outcome: Outcome)
      modifies this`outbox
      ensures outcome == if fails then Failed(Storage)
                         else if PendingEvent(old(outbox), eventID) then Done
                         else Failed(NotFound)
      ensures outbox == if fails then old(outbox) else MarkDelivered(old(outbox), eventID, now)
    {
      if fails {
        return Failed(Storage);
      }
      var rows := outbox;
      var affected := 0;
      for i := 0 to |rows|
        invariant outbox == old(outbox) && |rows| == |outbox|
        invariant forall j | 0 <= j < i :: rows[j] == MarkDelivered(outbox, eventID, now)[j]
        invariant forall j | i <= j < |rows| :: rows[j] == outbox[j]
        invariant 0 < affected <==> PendingEvent(outbox[..i], eventID)
        invariant 0 <= affected
      {
        assert outbox[..i + 1] == outbox[..i] + [outbox[i]];
        if rows[i].entry.eventID == eventID && Pending(rows[i]) {
          rows := rows[i := rows[i].(deliveredAt := Some(now))];
          affected := affected + 1;
          assert outbox[..i + 1][i] == outbox[i];
        } else if PendingEvent(outbox[..i], eventID) {
          var j :| 0 <= j < i && outbox[..i][j].entry.eventID == eventID && Pending(outbox[..i][j]);
          assert outbox[..i + 1][j] == outbox[..i][j];
        }
      }
      assert outbox[..|rows|] == outbox;
      outbox := rows;
      return if 0 < affected then Done else Failed(NotFound);
    }

    method FindSlug(slug: string, except_: string) returns (taken: bool)
      ensures taken == SlugTaken(polls, slug, except_)
    {
      var rest := polls.Keys;
      while rest != {}
        invariant rest <= polls.Keys
        invariant forall id | id in polls && id !in rest && id != except_ :: polls[id].slug != slug
        decreases |rest|
      {
        var id :| id in rest;
        rest := rest - {id};
        if id != except_ && polls[id].slug == slug {
          return true;
        }
      }
      return false;
    }

    method Commit(newPolls: Polls, newVotes: Votes, audit: AuditEntry, fails: bool) returns (outcome: Outcome)
      modifies this
      ensures (Contents(), outcome) == Committed(old(Contents()), newPolls, newVotes, audit, fails)
    {
      for i := 0 to |outbox|
        invariant Contents() == old(Contents())
        invariant !EventKnown(outbox[..i], audit.eventID)
      {
        if outbox[i].entry.eventID == audit.eventID {
          return Failed(Storage);
        }
      }
      assert outbox[..|outbox|] == outbox;
      if fails {
        return Failed(Storage);
      }
      polls, votes, outbox := newPolls, newVotes, outbox + [OutboxRow(audit, None)];
      return Done;
    }
  }
}
