/** What each management call and each ballot does to the tables, field by field: what is
    stored, what stays as it was, what is logged, and who is refused. */
module PollCalls {
  import opened Instants
  import opened Options
  import opened PollEntities
  import opened PollRuns
  import opened PollStore
  import Svc = PollService
  import Text

  /** No other poll changes, and one entry is queued for the audit log. */
  ghost predicate TouchesOnly(t: Tables, t': Tables, id: string, entry: AuditEntry) {
    && (forall other | other != id ::
          && (other in t'.polls <==> other in t.polls)
          && (other in t.polls ==> t'.polls[other] == t.polls[other]))
    && t'.outbox == t.outbox + [OutboxRow(entry, None)]
  }

  /** The poll exists in the actor's tenant. */
  predicate InTenant(t: Tables, a: Svc.Actor, id: string) {
    Text.TrimSpace(a.tenantID) != "" && Text.TrimSpace(id) != "" && id in t.polls && t.polls[id].tenantID == a.tenantID
  }

  /** Its author, or a moderator; nobody without an identity. */
  predicate MayManage(p: Poll, a: Svc.Actor) {
    Text.TrimSpace(a.actorID) != "" && (a.actorID == p.authorID || a.moderator)
  }

  function Trimmed(options: seq<string>): (r: seq<string>)
    ensures |r| == |options| && forall i | 0 <= i < |r| :: r[i] == Text.TrimSpace(options[i])
  {
    if options == [] then [] else [Text.TrimSpace(options[0])] + Trimmed(options[1..])
  }

  lemma NormalizedFields(p: Poll)
    ensures Normalized(p).(status := p.status) == Poll(
              p.id, p.tenantID, Text.ToLower(Text.TrimSpace(p.slug)), Text.TrimSpace(p.title),
              Text.TrimSpace(p.description), Trimmed(p.options), p.authorID, p.status, p.closesAt, p.createdAt,
                  p.updatedAt)
    ensures !p.status.Other? ==> Normalized(p).status == p.status
    ensures p.status.Other? ==> Normalized(p).status == if |p.status.text| == 0 then Draft else p.status
  {
    assert NormalizedOptions(p.options) == Trimmed(p.options);
  }

  lemma InsertTouches(t: Tables, p: Poll, entry: AuditEntry, fails: bool)
    ensures var (t', outcome) := InsertPoll(t, p, entry, fails);
            if outcome != Done then t' == t
            else
              && p.id !in t.polls && !SlugTaken(t.polls, p.slug, p.id) && p.id in t'.polls && t'.polls[p.id] == p
              && t'.votes == t.votes && TouchesOnly(t, t', p.id, entry)
  {
    hide SlugTaken, EventKnown;
  }

  lemma UpdateTouches(t: Tables, p: Poll, entry: AuditEntry, fails: bool)
    ensures var (t', outcome) := UpdatePoll(t, p, entry, fails);
            if outcome != Done then t' == t
            else
              && p.id in t.polls && p.id in t'.polls && t'.votes == t.votes && TouchesOnly(t, t', p.id, entry)
              && t'.polls[p.id] == p.(id := t.polls[p.id].id, tenantID := t.polls[p.id].tenantID,
                                      authorID := t.polls[p.id].authorID, createdAt := t.polls[p.id].createdAt)
  {
    hide SlugTaken, EventKnown;
  }

  /** A creation that succeeds stores exactly the normal form of what was asked for, as a draft
      that closes when it was asked to, and nothing else; one that fails stores nothing. */
  lemma CreateStores(t: Tables, p: Poll, freshID: string, eventID: string, wall: Time, now: Time, fails: bool)
    ensures var (t', outcome) := Svc.Create(t, p, freshID, eventID, wall, now, fails);
            if outcome != Done then t' == t
            else
              var id := if p.id == "" then freshID else p.id;
              var slug := Text.ToLower(Text.TrimSpace(p.slug));
              && id !in t.polls && id in t'.polls && !SlugTaken(t.polls, slug, id)
              && t'.polls[id] == Poll(
                   id, p.tenantID, slug, Text.TrimSpace(p.title), Text.TrimSpace(p.description), Trimmed(p.options),
                   p.authorID, Draft, p.closesAt, now, now)
              && t'.votes == t.votes
              && TouchesOnly(t, t', id, AuditEntry(eventID, p.tenantID, p.authorID, Created, id, slug, Draft, now))
  {
    NormalizedFields(p.(status := Draft));
    var created := Svc.CreatedPoll(p, freshID, now);
    InsertTouches(t, created, Svc.EntryFor(created, p.tenantID, p.authorID, Created, eventID, now), fails);
    hide Normalized, Accepted, Text.TrimSpace, Text.ToLower, Trimmed, InsertPoll, SlugTaken, TouchesOnly;
  }

  /** An update that succeeds replaces the five editable fields of a draft and its update time. */
  lemma UpdateStores(t: Tables, a: Svc.Actor, id: string, input: PollUpdate, eventID: string, wall: Time, now: Time,
                     fails: bool)
    requires Keyed(t)
    ensures var (t', outcome) := Svc.Update(t, a, id, input, eventID, wall, now, fails);
            if outcome != Done then t' == t
            else
              var slug := Text.ToLower(Text.TrimSpace(input.slug));
              && InTenant(t, a, id) && MayManage(t.polls[id], a) && t.polls[id].status == Draft
              && id in t'.polls
              && t'.polls[id] == t.polls[id].(
                   slug := slug, title := Text.TrimSpace(input.title), description := Text.TrimSpace(input.description),
                   options := Trimmed(input.options), closesAt := input.closesAt, updatedAt := now)
              && t'.votes == t.votes
              && TouchesOnly(t, t', id, AuditEntry(eventID, a.tenantID, a.actorID, Updated, id, slug, Draft, now))
  {
    if InTenant(t, a, id) && t.polls[id].status == Draft {
      NormalizedFields(Svc.Edited(t.polls[id], input));
      var p := Normalized(Svc.Edited(t.polls[id], input)).(updatedAt := now);
      UpdateTouches(t, p, Svc.EntryFor(p, a.tenantID, a.actorID, Updated, eventID, now), fails);
    }
    hide Normalized, Accepted, Text.TrimSpace, Text.ToLower, Trimmed, UpdatePoll, TouchesOnly;
  }

  /** A transition that succeeds changes the status and the update time, and nothing else: the
      poll is published with the closing time it was drafted with. */
  lemma TransitionStores(t: Tables, a: Svc.Actor, id: string, target: Status, eventID: string, now: Time, fails: bool)
    requires Keyed(t)
    ensures var (t', outcome) := Svc.Transition(t, a, id, target, eventID, now, fails);
            if outcome != Done then t' == t
            else
              && InTenant(t, a, id) && MayManage(t.polls[id], a) && id in t'.polls
              && t'.polls[id] == t.polls[id].(status := target, updatedAt := now)
              && t'.votes == t.votes
              && TouchesOnly(t, t', id,
                             AuditEntry(eventID, a.tenantID, a.actorID, Moved(target), id, t.polls[id].slug, target,
                                 now))
  {
    hide Text.TrimSpace;
  }

  /** A deletion that succeeds removes a draft and the ballots of its identifier. */
  lemma DeleteRemoves(t: Tables, a: Svc.Actor, id: string, eventID: string, now: Time, fails: bool)
    requires Keyed(t)
    ensures var (t', outcome) := Svc.Delete(t, a, id, eventID, now, fails);
            if outcome != Done then t' == t
            else
              && InTenant(t, a, id) && MayManage(t.polls[id], a) && t.polls[id].status == Draft
              && id !in t'.polls
              && (forall slot :: slot in t'.votes <==> slot in t.votes && slot.pollID != id)
              && (forall slot | slot in t'.votes :: t'.votes[slot] == t.votes[slot])
              && TouchesOnly(t, t', id, AuditEntry(eventID, a.tenantID, a.actorID, Deleted, id, t.polls[id].slug,
                  Draft, now))
  {
    hide Text.TrimSpace;
  }

  /** Whose call on an existing poll is refused, and how: a poll of another tenant looks absent,
      and one's own tenant's poll is forbidden to all but its author and moderators. */
  lemma WhoIsRefused(t: Tables, m: Management)
    requires !m.CreateCall?
    ensures var outcome := Managed(t, m).1;
            && (!InTenant(t, m.actor, m.id) ==> outcome == Failed(NotFound))
            && (InTenant(t, m.actor, m.id) ==>
                  (outcome == Failed(Forbidden) <==> !MayManage(t.polls[m.id], m.actor)))
  {
    hide Accepted, Normalized, Text.TrimSpace;
  }

  // ---- what is accepted -----------------------------------------------------------------

  predicate Alphanumeric(s: string) {
    s != "" && forall i | 0 <= i < |s| :: 'a' <= s[i] <= 'z' || '0' <= s[i] <= '9'
  }

  /** Alphanumeric words joined by single hyphens, read from the left. */
  predicate Hyphenated(s: string)
    decreases |s|
  {
    var i := Text.IndexOf(s, '-');
    Alphanumeric(s[..i]) && (i < |s| ==> Hyphenated(s[i + 1..]))
  }

  lemma SlugSplits(head: string, rest: string)
    requires forall j | 0 <= j < |head| :: head[j] != '-'
    ensures SlugShape(head + "-" + rest) ==> Alphanumeric(head) && SlugShape(rest)
  {
    var s := head + "-" + rest;
    var n := |head|;
    assert s[n] == '-' && (forall j | 0 <= j < n :: s[j] == head[j])
        && forall j | 0 <= j < |rest| :: s[n + 1 + j] == rest[j];
    if SlugShape(s) {
      assert s[0] != '-' && s[|s| - 1] != '-';
      assert head != "" && rest != "";
      assert rest[|rest| - 1] == s[|s| - 1] && s[n + 1] == rest[0];
      forall j | 0 < j < |rest| && rest[j] == '-' ensures rest[j - 1] != '-' {
        assert s[n + 1 + j] == '-' && s[n + 1 + j - 1] == rest[j - 1];
      }
    }
  }

  lemma SlugJoins(head: string, rest: string)
    requires Alphanumeric(head) && SlugShape(rest)
    ensures SlugShape(head + "-" + rest)
  {
    var s := head + "-" + rest;
    var n := |head|;
    assert s[n] == '-' && forall j | n < j < |s| :: s[j] == rest[j - n - 1];
    assert forall j | 0 <= j < n :: s[j] == head[j] && s[j] != '-';
    forall j | 0 < j < |s| && s[j] == '-' ensures s[j - 1] != '-' {
      assert n + 1 < j ==> rest[j - n - 1] == '-' && s[j - 1] == rest[j - n - 2];
    }
  }

  lemma {:induction false} SlugShapeMeans(s: string)
    ensures SlugShape(s) <==> Hyphenated(s)
    decreases |s|
  {
    var i := Text.IndexOf(s, '-');
    if i < |s| {
      var head, rest := s[..i], s[i + 1..];
      SlugShapeMeans(rest);
      assert s == head + "-" + rest;
      SlugSplits(head, rest);
      hide SlugShape, Alphanumeric;
      if Alphanumeric(head) && Hyphenated(rest) {
        SlugJoins(head, rest);
      }
    } else {
      assert s[..i] == s;
    }
  }

  /** Exactly what validation lets through. */
  predicate Acceptable(slug: string, title: string, description: string, options: seq<string>, closesAt: Option<Time>,
                       wall: Time) {
    && Hyphenated(slug) && |slug| <= 80 && 1 <= |title| <= 200 && |description| <= 2000
    && 2 <= |options| <= 20
    && (forall i | 0 <= i < |options| :: 1 <= |options[i]| <= 200)
    && (forall i, j | 0 <= i < j < |options| :: !Text.EqualFold(options[i], options[j]))
    && (closesAt.Some? ==> wall < closesAt.value)
  }

  lemma AcceptedMeans(p: Poll, wall: Time)
    ensures Accepted(p, wall) <==>
              && (p.status in {Draft, Published, Closed, Archived} || p.status == Other([]))
              && Acceptable(Text.ToLower(Text.TrimSpace(p.slug)), Text.TrimSpace(p.title),
                            Text.TrimSpace(p.description), Trimmed(p.options), p.closesAt, wall)
    ensures Accepted(p, wall) ==> Normalized(p).status == if p.status.Other? then Draft else p.status
  {
    NormalizedFields(p);
    SlugShapeMeans(Text.ToLower(Text.TrimSpace(p.slug)));
    hide Normalized, Text.TrimSpace, Text.ToLower, Trimmed, SlugShape, Hyphenated, Text.EqualFold;
  }

  /** No other poll, of whatever tenant, answers to the slug. */
  predicate SlugFree(t: Tables, slug: string, id: string) {
    forall other | other in t.polls && t.polls[other].slug == slug :: other == id
  }

  lemma SlugIsFree(t: Tables, slug: string, id: string)
    ensures SlugFree(t, slug, id) <==> !SlugTaken(t.polls, slug, id)
  {
  }

  /** The answer to a creation, case by case. */
  lemma CreateAnswers(t: Tables, p: Poll, freshID: string, eventID: string, wall: Time, now: Time, fails: bool)
    ensures var outcome := Svc.Create(t, p, freshID, eventID, wall, now, fails).1;
            var id, slug := if p.id == "" then freshID else p.id, Text.ToLower(Text.TrimSpace(p.slug));
            var valid := Text.TrimSpace(p.tenantID) != "" && Text.TrimSpace(p.authorID) != ""
                         && Acceptable(slug, Text.TrimSpace(p.title), Text.TrimSpace(p.description),
                                       Trimmed(p.options), p.closesAt, wall);
            var taken := id in t.polls || !SlugFree(t, slug, id);
            && (outcome == Failed(Validation) <==> !valid)
            && (outcome == Failed(Duplicate) <==> valid && taken)
            && (outcome == Done <==> valid && !taken && !fails && !EventKnown(t.outbox, eventID))
  {
    AcceptedMeans(p.(status := Draft), wall);
    NormalizedFields(p.(status := Draft));
    SlugIsFree(t, Text.ToLower(Text.TrimSpace(p.slug)), if p.id == "" then freshID else p.id);
    hide Normalized, Accepted, Acceptable, Text.TrimSpace, Text.ToLower, Trimmed, EventKnown, SlugTaken, SlugFree;
  }

  /** The answer to an update by somebody who may manage the poll. */
  lemma UpdateAnswers(t: Tables, a: Svc.Actor, id: string, input: PollUpdate, eventID: string, wall: Time, now: Time,
                      fails: bool)
    requires Keyed(t) && InTenant(t, a, id) && MayManage(t.polls[id], a)
    ensures var outcome := Svc.Update(t, a, id, input, eventID, wall, now, fails).1;
            var slug, draft := Text.ToLower(Text.TrimSpace(input.slug)), t.polls[id].status == Draft;
            var valid := Acceptable(slug, Text.TrimSpace(input.title), Text.TrimSpace(input.description),
                                    Trimmed(input.options), input.closesAt, wall);
            && (outcome == Failed(Conflict) <==> !draft)
            && (outcome == Failed(Validation) <==> draft && !valid)
            && (outcome == Failed(Duplicate) <==> draft && valid && !SlugFree(t, slug, id))
            && (outcome == Done <==>
                  draft && valid && SlugFree(t, slug, id) && !fails && !EventKnown(t.outbox, eventID))
  {
    AcceptedMeans(Svc.Edited(t.polls[id], input), wall);
    NormalizedFields(Svc.Edited(t.polls[id], input));
    SlugIsFree(t, Text.ToLower(Text.TrimSpace(input.slug)), id);
    hide Normalized, Accepted, Acceptable, Text.TrimSpace, Text.ToLower, Trimmed, EventKnown, SlugTaken, SlugFree;
  }

  /** The answer to a deletion by somebody who may manage the poll. */
  lemma DeleteAnswers(t: Tables, a: Svc.Actor, id: string, eventID: string, now: Time, fails: bool)
    requires InTenant(t, a, id) && MayManage(t.polls[id], a)
    ensures var outcome := Svc.Delete(t, a, id, eventID, now, fails).1;
            && (outcome == Failed(Conflict) <==> t.polls[id].status != Draft)
            && (outcome == Done <==> t.polls[id].status == Draft && !fails && !EventKnown(t.outbox, eventID))
  {
    hide Text.TrimSpace;
  }

  /** In every reachable state every stored poll is one that validation accepts, apart from the
      closing time having passed meanwhile. */
  predicate StoredWell(p: Poll) {
    Acceptable(p.slug, p.title, p.description, p.options, None, 0)
  }

  ghost predicate AllStoredWell(t: Tables) {
    forall id | id in t.polls :: StoredWell(t.polls[id])
  }

  lemma TouchedStoresWell(t: Tables, t': Tables, id: string, entry: AuditEntry)
    requires AllStoredWell(t) && TouchesOnly(t, t', id, entry) && (id in t'.polls ==> StoredWell(t'.polls[id]))
    ensures AllStoredWell(t')
  {
    hide StoredWell;
  }

  lemma WellWithoutDeadline(slug: string, title: string, description: string, options: seq<string>,
                            closesAt: Option<Time>, wall: Time)
    requires Acceptable(slug, title, description, options, closesAt, wall)
    ensures Acceptable(slug, title, description, options, None, 0)
  {
    hide Hyphenated, Text.EqualFold;
  }

  lemma CreateStoresWell(t: Tables, p: Poll, freshID: string, eventID: string, wall: Time, now: Time, fails: bool)
    requires AllStoredWell(t)
    ensures AllStoredWell(Svc.Create(t, p, freshID, eventID, wall, now, fails).0)
  {
    CreateStores(t, p, freshID, eventID, wall, now, fails);
    CreateAnswers(t, p, freshID, eventID, wall, now, fails);
    hide Svc.Create, Acceptable, Text.TrimSpace, Text.ToLower, Trimmed, AllStoredWell, TouchesOnly;
    var (t', outcome) := Svc.Create(t, p, freshID, eventID, wall, now, fails);
    if outcome == Done {
      var id, slug := if p.id == "" then freshID else p.id, Text.ToLower(Text.TrimSpace(p.slug));
      WellWithoutDeadline(slug, Text.TrimSpace(p.title), Text.TrimSpace(p.description), Trimmed(p.options),
          p.closesAt, wall);
      TouchedStoresWell(t, t', id, AuditEntry(eventID, p.tenantID, p.authorID, Created, id, slug, Draft, now));
    }
  }

  lemma UpdateStoresWell(t: Tables, a: Svc.Actor, id: string, input: PollUpdate, eventID: string, wall: Time, now: Time,
                         fails: bool)
    requires Keyed(t) && AllStoredWell(t)
    ensures AllStoredWell(Svc.Update(t, a, id, input, eventID, wall, now, fails).0)
  {
    UpdateStores(t, a, id, input, eventID, wall, now, fails);
    hide Svc.Update, Acceptable, Text.TrimSpace, Text.ToLower, Trimmed, AllStoredWell, TouchesOnly;
    var (t', outcome) := Svc.Update(t, a, id, input, eventID, wall, now, fails);
    if outcome == Done {
      UpdateAnswers(t, a, id, input, eventID, wall, now, fails);
      var slug := Text.ToLower(Text.TrimSpace(input.slug));
      WellWithoutDeadline(slug, Text.TrimSpace(input.title), Text.TrimSpace(input.description),
                          Trimmed(input.options), input.closesAt, wall);
      TouchedStoresWell(t, t', id, AuditEntry(eventID, a.tenantID, a.actorID, Updated, id, slug, Draft, now));
    }
  }

  lemma TransitionStoresWell(t: Tables, a: Svc.Actor, id: string, target: Status, eventID: string, now: Time,
          fails: bool)
    requires Keyed(t) && AllStoredWell(t)
    ensures AllStoredWell(Svc.Transition(t, a, id, target, eventID, now, fails).0)
  {
    TransitionStores(t, a, id, target, eventID, now, fails);
    hide Svc.Transition, Acceptable, TouchesOnly;
    var (t', outcome) := Svc.Transition(t, a, id, target, eventID, now, fails);
    if outcome == Done {
      var entry := AuditEntry(eventID, a.tenantID, a.actorID, Moved(target), id, t.polls[id].slug, target, now);
      TouchedStoresWell(t, t', id, entry);
    }
  }

  lemma DeleteStoresWell(t: Tables, a: Svc.Actor, id: string, eventID: string, now: Time, fails: bool)
    requires Keyed(t) && AllStoredWell(t)
    ensures AllStoredWell(Svc.Delete(t, a, id, eventID, now, fails).0)
  {
    DeleteRemoves(t, a, id, eventID, now, fails);
    hide Svc.Delete, Acceptable, TouchesOnly;
    var (t', outcome) := Svc.Delete(t, a, id, eventID, now, fails);
    if outcome == Done {
      TouchedStoresWell(t, t', id,
          AuditEntry(eventID, a.tenantID, a.actorID, Deleted, id, t.polls[id].slug, Draft, now));
    }
  }

  lemma ManageStoresWell(t: Tables, m: Management)
    requires Keyed(t) && AllStoredWell(t)
    ensures AllStoredWell(Managed(t, m).0)
  {
    hide AllStoredWell, Keyed, Svc.Create, Svc.Update, Svc.Transition, Svc.Delete;
    match m
    case CreateCall(p, freshID, eventID, wall, now, fails) => CreateStoresWell(t, p, freshID, eventID, wall, now,
        fails);
    case UpdateCall(a, id, input, eventID, wall, now, fails) => UpdateStoresWell(t, a, id, input, eventID, wall, now,
        fails);
    case TransitionCall(a, id, target, eventID, now, fails) => TransitionStoresWell(t, a, id, target, eventID, now,
        fails);
    case DeleteCall(a, id, eventID, now, fails) => DeleteStoresWell(t, a, id, eventID, now, fails);
  }

  lemma StepStoresWell(s: System, step: Step)
    requires TablesSound(s) && AllStoredWell(s.t) && Enabled(s, step)
    ensures AllStoredWell(Next(s, step).t)
  {
    if step.Manage? {
      ManageStoresWell(s.t, step.call);
    } else {
      PollsStay(s, step);
      hide Next;
    }
  }

  lemma PollsStay(s: System, step: Step)
    requires !step.Manage?
    ensures Next(s, step).t.polls == s.t.polls
  {
  }

  lemma {:induction false} RunStoresWell(s: System, steps: seq<Step>)
    requires TablesSound(s) && AllStoredWell(s.t) && Possible(s, steps)
    ensures AllStoredWell(Run(s, steps).t)
    decreases |steps|
  {
    if steps != [] {
      hide AllStoredWell, TablesSound, Enabled, Next;
      var before := steps[..|steps| - 1];
      RunStoresWell(s, before);
      RunKeepsSound(s, before);
      StepStoresWell(Run(s, before), steps[|steps| - 1]);
    }
  }

  lemma StoredPollsAreAcceptable(steps: seq<Step>, id: string)
    requires Possible(START, steps) && id in Run(START, steps).t.polls
    ensures StoredWell(Run(START, steps).t.polls[id])
  {
    RunStoresWell(START, steps);
  }

  // ---- ballots --------------------------------------------------------------------------

  /** A ballot is stored exactly while its poll is open at the transaction itself, whatever the
      snapshot said, and only the voter's own ballot changes. */
  lemma BallotNeedsOpenPoll(t: Tables, v: Vote, fails: bool)
    ensures var (t', outcome) := StoreVote(t, v, fails);
            && (outcome == Done <==>
                  && Text.TrimSpace(v.voterID) != "" && v.pollID in t.polls && t.polls[v.pollID].status == Published
                  && (t.polls[v.pollID].closesAt.Some? ==> v.castAt < t.polls[v.pollID].closesAt.value)
                  && !fails)
            && (outcome != Done ==> t' == t)
            && (outcome == Failed(VotingClosed) <==>
                  Text.TrimSpace(v.voterID) != "" && v.pollID in t.polls && !AcceptsVotes(t.polls[v.pollID], v.castAt))
            && t'.polls == t.polls && t'.outbox == t.outbox
            && (outcome == Done ==>
                  var slot := Slot(v.pollID, v.voterID);
                  var first := if slot in t.votes then t.votes[slot].createdAt else v.castAt;
                  && slot in t'.votes && t'.votes[slot] == Choice(v.option, first, v.castAt)
                  && forall other | other != slot ::
                       (other in t'.votes <==> other in t.votes)
                       && (other in t.votes ==> t'.votes[other] == t.votes[other]))
  {
    hide Text.TrimSpace;
  }

  predicate PastVoting(t: Tables, id: string) {
    id in t.polls && (t.polls[id].status == Closed || t.polls[id].status == Archived)
  }

  /** The same ballots for the poll. */
  predicate SameBallots(t: Tables, t': Tables, slot: Slot) {
    (slot in t'.votes <==> slot in t.votes) && (slot in t.votes ==> t'.votes[slot] == t.votes[slot])
  }

  lemma StepFreezesBallots(s: System, step: Step, id: string, slot: Slot)
    requires TablesSound(s) && Enabled(s, step) && PastVoting(s.t, id) && slot.pollID == id
    ensures PastVoting(Next(s, step).t, id) && SameBallots(s.t, Next(s, step).t, slot)
  {
    StepKeepsSound(s, step);
    var s' := Next(s, step);
    assert KeepsPoll(s.t.polls, s'.t.polls, id);
    if step.Manage? {
      hide Managed;
      ManageKeepsSound(s, step.call);
    } else if step.SaveVote? {
      BallotNeedsOpenPoll(s.t, step.vote, step.fails);
      hide StoreVote;
    } else {
      VotesStay(s, step);
    }
    hide Next, TablesSound, Enabled;
  }

  lemma VotesStay(s: System, step: Step)
    requires !step.Manage? && !step.SaveVote?
    ensures Next(s, step).t.votes == s.t.votes
  {
  }

  lemma {:induction false} RunFreezesBallots(s: System, steps: seq<Step>, id: string, slot: Slot)
    requires TablesSound(s) && Possible(s, steps) && PastVoting(s.t, id) && slot.pollID == id
    ensures PastVoting(Run(s, steps).t, id) && SameBallots(s.t, Run(s, steps).t, slot)
    decreases |steps|
  {
    if steps != [] {
      hide TablesSound, Enabled, Next, PastVoting;
      var before := steps[..|steps| - 1];
      RunFreezesBallots(s, before, id, slot);
      RunKeepsSound(s, before);
      StepFreezesBallots(Run(s, before), steps[|steps| - 1], id, slot);
    }
  }

  /** Once a poll is closed or archived, none of its ballots is added, changed or removed by
      any later run: not even by votes that were under way when it closed. */
  lemma ClosedBallotsAreFinal(past: seq<Step>, steps: seq<Step>, id: string, slot: Slot)
    requires Possible(START, past) && Possible(Run(START, past), steps)
    requires PastVoting(Run(START, past).t, id) && slot.pollID == id
    ensures SameBallots(Run(START, past).t, Run(Run(START, past), steps).t, slot)
  {
    RunKeepsSound(START, past);
    RunFreezesBallots(Run(START, past), steps, id, slot);
  }

  /** A poll published with a closing time takes no ballot cast at or after it, in any later
      state. */
  lemma ClosingTimeHolds(past: seq<Step>, a: Svc.Actor, id: string, eventID: string, now: Time, fails: bool,
                         steps: seq<Step>, v: Vote, storeFails: bool)
    requires var publish := Manage(TransitionCall(a, id, Published, eventID, now, fails));
             Possible(START, past + [publish]) && Possible(Run(START, past + [publish]), steps)
    requires Svc.Transition(Run(START, past).t, a, id, Published, eventID, now, fails).1 == Done
    requires id in Run(START, past).t.polls && Run(START, past).t.polls[id].closesAt.Some?
    requires v.pollID == id && Run(START, past).t.polls[id].closesAt.value <= v.castAt
    ensures var publish := Manage(TransitionCall(a, id, Published, eventID, now, fails));
            var t := Run(Run(START, past + [publish]), steps).t;
            StoreVote(t, v, storeFails).1 != Done && StoreVote(t, v, storeFails).0 == t
  {
    var publish := Manage(TransitionCall(a, id, Published, eventID, now, fails));
    var s := Run(START, past);
    RunSnoc(START, past, publish);
    RunKeepsSound(START, past);
    assert Keyed(s.t);
    TransitionStores(s.t, a, id, Published, eventID, now, fails);
    var s' := Run(START, past + [publish]);
    assert s'.t.polls[id].closesAt == s.t.polls[id].closesAt && s'.t.polls[id].status == Published;
    hide Run, Possible, Svc.Transition, TablesSound, StoreVote;
    RunKeepsSound(START, past + [publish]);
    RunIsOneWay(s', steps, id);
    BallotNeedsOpenPoll(Run(s', steps).t, v, storeFails);
  }
}
