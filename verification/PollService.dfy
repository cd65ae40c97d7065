/** The poll service (reference/polls/pollmodule/service.go): authorization, lifecycle and
    validation in front of the store. Every management call is one atomic step here; a vote
    is two, the snapshot it decides on and the transaction that stores it. */
module PollService {
  import opened Instants
  import opened Options
  import opened PollEntities
  import opened PollStore
  import Text

  function CreatedPoll(p: Poll, freshID: string, now: Time): Poll {
    var n := Normalized(p.(status := Draft));
    n.(id := if n.id == "" then freshID else n.id, createdAt := now, updatedAt := now)
  }

  function EntryFor(p: Poll, tenantID: string, actor: string, action: Action, eventID: string, now: Time): AuditEntry {
    AuditEntry(eventID, tenantID, actor, action, p.id, p.slug, p.status, now)
  }

  function Create(t: Tables, p: Poll, freshID: string, eventID: string, wall: Time, now: Time,
          fails: bool): (Tables, Outcome) {
    if !Accepted(p.(status := Draft), wall) || Text.TrimSpace(p.tenantID) == "" || Text.TrimSpace(p.authorID) == "" then
      (t, Failed(Validation))
    else
      var created := CreatedPoll(p, freshID, now);
      InsertPoll(t, created, EntryFor(created, p.tenantID, p.authorID, Created, eventID, now), fails)
  }

  /** Get: blank identities find nothing. */
  predicate Visible(t: Tables, tenantID: string, id: string) {
    Text.TrimSpace(tenantID) != "" && Text.TrimSpace(id) != "" && Owns(t, tenantID, id)
  }

  datatype Actor = Actor(tenantID: string, actorID: string, moderator: bool)

  function Edited(p: Poll, input: PollUpdate): Poll {
    p.(slug := input.slug, title := input.title, description := input.description, options := input.options,
        closesAt := input.closesAt)
  }

  function Update(t: Tables, a: Actor, id: string, input: PollUpdate, eventID: string, wall: Time, now: Time,
          fails: bool): (Tables, Outcome) {
    if !Visible(t, a.tenantID, id) then (t, Failed(NotFound))
    else if !Authorized(t.polls[id], a.actorID, a.moderator) then (t, Failed(Forbidden))
    else if t.polls[id].status != Draft then (t, Failed(Conflict))
    else if !Accepted(Edited(t.polls[id], input), wall) then (t, Failed(Validation))
    else
      var p := Normalized(Edited(t.polls[id], input)).(updatedAt := now);
      UpdatePoll(t, p, EntryFor(p, a.tenantID, a.actorID, Updated, eventID, now), fails)
  }

  function Transition(t: Tables, a: Actor, id: string, target: Status, eventID: string, now: Time,
          fails: bool): (Tables, Outcome) {
    if !Visible(t, a.tenantID, id) then (t, Failed(NotFound))
    else if !Authorized(t.polls[id], a.actorID, a.moderator) then (t, Failed(Forbidden))
    else if target == Published && t.polls[id].closesAt.Some? && t.polls[id].closesAt.value <= now then
      (t, Failed(Conflict))
    else if !ValidTransition(t.polls[id].status, target) then (t, Failed(Conflict))
    else
      var p := t.polls[id].(status := target, updatedAt := now);
      UpdatePoll(t, p, EntryFor(p, a.tenantID, a.actorID, Moved(target), eventID, now), fails)
  }

  function Delete(t: Tables, a: Actor, id: string, eventID: string, now: Time, fails: bool): (Tables, Outcome) {
    if !Visible(t, a.tenantID, id) then (t, Failed(NotFound))
    else if !Authorized(t.polls[id], a.actorID, a.moderator) then (t, Failed(Forbidden))
    else if t.polls[id].status != Draft then (t, Failed(Conflict))
    else DeletePoll(t, a.tenantID, id, EntryFor(t.polls[id], a.tenantID, a.actorID, Deleted, eventID, now), fails)
  }

  /** The poll a public slug leads to. */
  predicate Names(t: Tables, slug: string, pollID: string) {
    pollID in t.polls && t.polls[pollID].slug == Text.ToLower(Text.TrimSpace(slug))
  }

  /** What a vote decides on before its transaction: the poll the slug names now. */
  function CastVote(t: Tables, pollID: string, option: int, voterID: string, now: Time): Option<Error>
    requires pollID in t.polls
  {
    var p := t.polls[pollID];
    if p.status != Published && p.status != Closed then Some(NotFound)
    else if !AcceptsVotes(p, now) then Some(VotingClosed)
    else if !(0 <= option < |p.options|) || Text.TrimSpace(voterID) == "" then Some(Validation)
    else None
  }

  class Service {
    const store: Store

    constructor (store: Store)
      ensures this.store == store
    {
      this.store := store;
    }

    method CreatePoll(p: Poll, freshID: string, eventID: string, wall: Clock, now: Clock, fails: bool)
      returns (outcome: Outcome)
      modifies store
      ensures (store.Contents(), outcome) == Create(old(store.Contents()), p, freshID, eventID, wall, now, fails)
    {
      var draft := new Draft(p.(status := PollEntities.Draft));
      var ok := draft.NormalizeAndValidate(wall);
      if !ok || Text.TrimSpace(p.tenantID) == "" || Text.TrimSpace(p.authorID) == "" {
        return Failed(Validation);
      }
      if draft.poll.id == "" {
        draft.poll := draft.poll.(id := freshID);
      }
      draft.poll := draft.poll.(createdAt := now, updatedAt := now);
      var poll := draft.poll;
      var entry := AuditEntry(eventID, poll.tenantID, poll.authorID, Created, poll.id, poll.slug, poll.status, now);
      outcome := store.Create(poll, entry, fails);
    }

    method Get(tenantID: string, id: string) returns (found: Option<Poll>)
      ensures found == if Visible(store.Contents(), tenantID, id) then Some(store.polls[id]) else None
    {
      if Text.TrimSpace(tenantID) == "" || Text.TrimSpace(id) == "" {
        return None;
      }
      if id in store.polls && store.polls[id].tenantID == tenantID {
        return Some(store.polls[id]);
      }
      return None;
    }

    method UpdatePoll(a: Actor, id: string, input: PollUpdate, eventID: string, wall: Clock, now: Clock, fails: bool)
      returns (outcome: Outcome)
      modifies store
      ensures (store.Contents(), outcome) == Update(old(store.Contents()), a, id, input, eventID, wall, now, fails)
    {
      var found := Get(a.tenantID, id);
      if found.None? {
        return Failed(NotFound);
      }
      if !Authorized(found.value, a.actorID, a.moderator) {
        return Failed(Forbidden);
      }
      if found.value.status != PollEntities.Draft {
        return Failed(Conflict);
      }
      var draft := new Draft(found.value.(slug := input.slug, title := input.title, description := input.description,
                                          options := input.options, closesAt := input.closesAt));
      var ok := draft.NormalizeAndValidate(wall);
      if !ok {
        return Failed(Validation);
      }
      var poll := draft.poll.(updatedAt := now);
      var entry := AuditEntry(eventID, a.tenantID, a.actorID, Updated, poll.id, poll.slug, poll.status, now);
      outcome := store.Update(poll, entry, fails);
    }

    method TransitionPoll(a: Actor, id: string, target: Status, eventID: string, now: Clock, fails: bool)
      returns (outcome: Outcome)
      modifies store
      ensures (store.Contents(), outcome) == Transition(old(store.Contents()), a, id, target, eventID, now, fails)
    {
      var found := Get(a.tenantID, id);
      if found.None? {
        return Failed(NotFound);
      }
      var poll := found.value;
      if !Authorized(poll, a.actorID, a.moderator) {
        return Failed(Forbidden);
      }
      if target == Published && poll.closesAt.Some? && poll.closesAt.value <= now {
        return Failed(Conflict);
      }
      if !ValidTransition(poll.status, target) {
        return Failed(Conflict);
      }
      poll := poll.(status := target);
      poll := poll.(updatedAt := now);
      var entry := AuditEntry(eventID, a.tenantID, a.actorID, Moved(target), poll.id, poll.slug, target, now);
      outcome := store.Update(poll, entry, fails);
    }

    method DeletePoll(a: Actor, id: string, eventID: string, now: Clock, fails: bool) returns (outcome: Outcome)
      modifies store
      ensures (store.Contents(), outcome) == Delete(old(store.Contents()), a, id, eventID, now, fails)
    {
      var found := Get(a.tenantID, id);
      if found.None? {
        return Failed(NotFound);
      }
      if !Authorized(found.value, a.actorID, a.moderator) {
        return Failed(Forbidden);
      }
      if found.value.status != PollEntities.Draft {
        return Failed(Conflict);
      }
      var poll := found.value;
      var entry := AuditEntry(eventID, a.tenantID, a.actorID, Deleted, poll.id, poll.slug, poll.status, now);
      outcome := store.Delete(a.tenantID, id, entry, fails);
    }
  }
}
