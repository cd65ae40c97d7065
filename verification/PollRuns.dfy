/** Whole runs of the poll module: management calls, votes split into their two steps, audit
    flushers split into their statements, crashes and storage failures, in any interleaving.
    The invariants proved here speak of the tables; AuditDelivery.dfy has those of the
    flushers. Management calls are atomic steps, which is the hypothesis under which the
    source's read-then-write calls keep the lifecycle. */
module PollRuns {
  import opened Instants
  import opened Options
  import opened PollEntities
  import opened PollStore
  import Svc = PollService
  import Text

  datatype Management =
    | CreateCall(poll: Poll, freshID: string, eventID: string, wall: Time, now: Time, fails: bool)
    | UpdateCall(actor: Svc.Actor, id: string, input: PollUpdate, eventID: string, wall: Time, now: Time, fails: bool)
    | TransitionCall(actor: Svc.Actor, id: string, target: Status, eventID: string, now: Time, fails: bool)
    | DeleteCall(actor: Svc.Actor, id: string, eventID: string, now: Time, fails: bool)

  function Managed(t: Tables, m: Management): (Tables, Outcome) {
    match m
    case CreateCall(p, freshID, eventID, wall, now, fails) => Svc.Create(t, p, freshID, eventID, wall, now, fails)
    case UpdateCall(a, id, input, eventID, wall, now, fails) => Svc.Update(t, a, id, input, eventID, wall, now, fails)
    case TransitionCall(a, id, target, eventID, now, fails) => Svc.Transition(t, a, id, target, eventID, now, fails)
    case DeleteCall(a, id, eventID, now, fails) => Svc.Delete(t, a, id, eventID, now, fails)
  }

  /** Where a flusher is: about to record the first entry it holds, or about to mark it. */
  datatype Flusher = Recording(batch: seq<AuditEntry>) | Marking(batch: seq<AuditEntry>)

  const AUDIT_FLUSH_BATCH_SIZE: nat := 100

  /** The audit service's answer: whether it stored the event, and its error text if any. */
  datatype Answer = Answer(stored: bool, error: Option<string>)

  datatype System = System(
    t: Tables,
    casting: multiset<Vote>,
    flushers: map<nat, Flusher>,
    log: seq<AuditEntry>)

  const START := System(EMPTY_TABLES, multiset{}, map[], [])

  datatype Step =
    | Manage(call: Management)
    | Snapshot(slug: string, vote: Vote)
    | SaveVote(vote: Vote, fails: bool)
    | Fetch(f: nat, batch: seq<AuditEntry>)
    | Record(f: nat, answer: Answer)
    | Mark(f: nat, now: Time, fails: bool)
    | Stop(f: nat)

  predicate InLog(log: seq<AuditEntry>, eventID: string) {
    exists i :: 0 <= i < |log| && log[i].eventID == eventID
  }

  /** How FlushAudit reads an answer: an error that mentions "unique" counts as delivered. */
  predicate TakenAsDelivered(a: Answer) {
    a.error.None? || Text.Contains(Text.ToLower(a.error.value), "unique")
  }

  /** The audit service's contract: it stores an event at most once, reports no error only
      for an event it stored, and mentions "unique" only for an event it holds. */
  predicate Honest(log: seq<AuditEntry>, e: AuditEntry, a: Answer) {
    && (a.stored ==> !InLog(log, e.eventID))
    && (TakenAsDelivered(a) ==> a.stored || InLog(log, e.eventID))
  }

  ghost predicate Enabled(s: System, step: Step) {
    match step
    case Manage(_) => true
    case Snapshot(slug, v) => Svc.Names(s.t, slug, v.pollID)
        && Svc.CastVote(s.t, v.pollID, v.option, v.voterID, v.castAt) == None
    case SaveVote(v, _) => v in s.casting
    case Fetch(f, batch) => f !in s.flushers && IsBatch(s.t.outbox, batch, AUDIT_FLUSH_BATCH_SIZE)
    case Record(f, a) => f in s.flushers && s.flushers[f].Recording? && s.flushers[f].batch != []
        && Honest(s.log, s.flushers[f].batch[0], a)
    case Mark(f, _, _) => f in s.flushers && s.flushers[f].Marking? && s.flushers[f].batch != []
    case Stop(f) => f in s.flushers
  }

  function Next(s: System, step: Step): System {
    match step
    case Manage(m) => s.(t := Managed(s.t, m).0)
    case Snapshot(_, v) => s.(casting := s.casting + multiset{v})
    case SaveVote(v, fails) => s.(t := StoreVote(s.t, v, fails).0, casting := s.casting - multiset{v})
    case Fetch(f, batch) => s.(flushers := s.flushers[f := Recording(batch)])
    case Record(f, a) => if Flushing(s, f) then Recorded(s, f, a) else s
    case Mark(f, now, fails) => if Flushing(s, f) then Marked(s, f, now, fails) else s
    case Stop(f) => s.(flushers := s.flushers - {f})
  }

  predicate Flushing(s: System, f: nat) {
    f in s.flushers && s.flushers[f].batch != []
  }

  function Recorded(s: System, f: nat, a: Answer): System
    requires Flushing(s, f)
  {
    var batch := s.flushers[f].batch;
    s.(log := if a.stored then s.log + [batch[0]] else s.log,
       flushers := if TakenAsDelivered(a) then s.flushers[f := Marking(batch)] else s.flushers - {f})
  }

  /** A mark that fails, or finds the entry marked already, ends the flush. */
  function Marked(s: System, f: nat, now: Time, fails: bool): System
    requires Flushing(s, f)
  {
    var batch := s.flushers[f].batch;
    if fails then s.(flushers := s.flushers - {f})
    else if !PendingEvent(s.t.outbox, batch[0].eventID) then s.(flushers := s.flushers - {f})
    else s.(t := s.t.(outbox := MarkDelivered(s.t.outbox, batch[0].eventID, now)),
            flushers := s.flushers[f := Recording(batch[1..])])
  }

  function Run(s: System, steps: seq<Step>): System {
    if steps == [] then s else Next(Run(s, steps[..|steps| - 1]), steps[|steps| - 1])
  }

  ghost predicate Possible(s: System, steps: seq<Step>) {
    steps == [] || (Possible(s, steps[..|steps| - 1]) && Enabled(Run(s, steps[..|steps| - 1]), steps[|steps| - 1]))
  }

  lemma RunSnoc(s: System, steps: seq<Step>, step: Step)
    ensures Run(s, steps + [step]) == Next(Run(s, steps), step)
    ensures Possible(s, steps + [step]) <==> Possible(s, steps) && Enabled(Run(s, steps), step)
  {
    assert (steps + [step])[..|steps + [step]| - 1] == steps;
  }

  // ---- what a management call can change ------------------------------------------------

  /** Once a poll is published its content is frozen and its status only moves forward. */
  predicate OneWay(p: Poll, p': Poll) {
    p.status == Draft ||
    (p' == p.(status := p'.status, updatedAt := p'.updatedAt) && Rank(p.status) <= Rank(p'.status))
  }

  ghost predicate Keyed(t: Tables) {
    forall id | id in t.polls :: t.polls[id].id == id && !t.polls[id].status.Other?
  }

  datatype Change = Nothing | Put(poll: Poll, entry: AuditEntry) | Remove(id: string, entry: AuditEntry)

  ghost predicate Applied(t: Tables, t': Tables, c: Change) {
    match c
    case Nothing => t' == t
    case Put(p, e) =>
      && t' == Tables(t.polls[p.id := p], t.votes, t.outbox + [OutboxRow(e, None)])
      && !EventKnown(t.outbox, e.eventID) && !SlugTaken(t.polls, p.slug, p.id)
      && !e.action.Deleted? && e.pollID == p.id && e.slug == p.slug && e.status == p.status && !p.status.Other?
      && (if p.id in t.polls then OneWay(t.polls[p.id], p) else p.status == Draft)
    case Remove(id, e) =>
      && id in t.polls && t.polls[id].status == Draft
      && t' == Tables(t.polls - {id}, WithoutVotes(t.votes, id), t.outbox + [OutboxRow(e, None)])
      && !EventKnown(t.outbox, e.eventID) && e.action.Deleted? && e.pollID == id
  }

  lemma CreateChanges(t: Tables, m: Management) returns (c: Change)
    requires Keyed(t) && m.CreateCall? && Managed(t, m).1 == Done
    ensures Applied(t, Managed(t, m).0, c) && !c.Nothing?
  {
    var created := Svc.CreatedPoll(m.poll, m.freshID, m.now);
    c := Put(created, Svc.EntryFor(created, m.poll.tenantID, m.poll.authorID, Created, m.eventID, m.now));
  }

  lemma UpdateChanges(t: Tables, m: Management) returns (c: Change)
    requires Keyed(t) && m.UpdateCall? && Managed(t, m).1 == Done
    ensures Applied(t, Managed(t, m).0, c) && !c.Nothing?
  {
    var edited := Normalized(Svc.Edited(t.polls[m.id], m.input)).(updatedAt := m.now);
    c := Put(edited, Svc.EntryFor(edited, m.actor.tenantID, m.actor.actorID, Updated, m.eventID, m.now));
  }

  lemma TransitionChanges(t: Tables, m: Management) returns (c: Change)
    requires Keyed(t) && m.TransitionCall? && Managed(t, m).1 == Done
    ensures Applied(t, Managed(t, m).0, c) && !c.Nothing?
  {
    var moved := t.polls[m.id].(status := m.target, updatedAt := m.now);
    c := Put(moved, Svc.EntryFor(moved, m.actor.tenantID, m.actor.actorID, Moved(m.target), m.eventID, m.now));
  }

  lemma DeleteChanges(t: Tables, m: Management) returns (c: Change)
    requires Keyed(t) && m.DeleteCall? && Managed(t, m).1 == Done
    ensures Applied(t, Managed(t, m).0, c) && !c.Nothing?
  {
    c := Remove(m.id, Svc.EntryFor(t.polls[m.id], m.actor.tenantID, m.actor.actorID, Deleted, m.eventID, m.now));
  }

  lemma NothingChanges(t: Tables, m: Management)
    ensures Managed(t, m).1 != Done ==> Managed(t, m).0 == t
  {
  }

  lemma ManagementChanges(t: Tables, m: Management) returns (c: Change)
    requires Keyed(t)
    ensures Applied(t, Managed(t, m).0, c)
    ensures Managed(t, m).1 == Done <==> !c.Nothing?
  {
    NothingChanges(t, m);
    hide Managed;
    if Managed(t, m).1 != Done {
      return Nothing;
    }
    match m {
      case CreateCall(_, _, _, _, _, _) => c := CreateChanges(t, m);
      case UpdateCall(_, _, _, _, _, _, _) => c := UpdateChanges(t, m);
      case TransitionCall(_, _, _, _, _, _) => c := TransitionChanges(t, m);
      case DeleteCall(_, _, _, _, _) => c := DeleteChanges(t, m);
    }
  }

  /** A transition succeeds only forward, and never skips the rule that publishing needs an
      open closing time. */
  lemma TransitionRaises(t: Tables, a: Svc.Actor, id: string, target: Status, eventID: string, now: Time)
    requires Keyed(t) && Svc.Visible(t, a.tenantID, id) && Authorized(t.polls[id], a.actorID, a.moderator)
    requires !EventKnown(t.outbox, eventID) && !SlugTaken(t.polls, t.polls[id].slug, id)
    ensures var (t', outcome) := Svc.Transition(t, a, id, target, eventID, now, false);
            && (outcome == Done <==>
                  && Rank(t.polls[id].status) < Rank(target) <= 3
                  && (Rank(target) < 3 ==> Rank(target) == Rank(t.polls[id].status) + 1)
                  && (target == Published ==> EffectiveStatus(t.polls[id].(status := Published), now) == Published))
            && (outcome == Done ==> t'.polls[id].status == target)
  {
  }

  // ---- the audit outbox replays to the polls --------------------------------------------

  datatype Listing = Listing(slug: string, status: Status)

  function Catalogue(polls: Polls): map<string, Listing> {
    map id | id in polls :: Listing(polls[id].slug, polls[id].status)
  }

  /** What a reader of the outbox, in commit order, believes the polls to be. */
  function Replay(outbox: seq<OutboxRow>): map<string, Listing> {
    if outbox == [] then map[] else
      var before, e := Replay(outbox[..|outbox| - 1]), outbox[|outbox| - 1].entry;
      if e.action.Deleted? then before - {e.pollID} else before[e.pollID := Listing(e.slug, e.status)]
  }

  lemma {:induction false} ReplayIgnoresMarks(a: seq<OutboxRow>, b: seq<OutboxRow>)
    requires |a| == |b| && forall i | 0 <= i < |a| :: a[i].entry == b[i].entry
    ensures Replay(a) == Replay(b)
  {
    if a != [] {
      ReplayIgnoresMarks(a[..|a| - 1], b[..|b| - 1]);
    }
  }

  // ---- the invariant of the tables ------------------------------------------------------

  predicate BallotSafe(p: Poll, option: int, castAt: Time) {
    p.status != Draft && 0 <= option < |p.options| && (p.closesAt.Some? ==> castAt < p.closesAt.value)
  }

  predicate ChoiceSafe(t: Tables, slot: Slot) {
    slot in t.votes ==>
      && slot.pollID in t.polls
      && BallotSafe(t.polls[slot.pollID], t.votes[slot].option, t.votes[slot].updatedAt)
      && BallotSafe(t.polls[slot.pollID], t.votes[slot].option, t.votes[slot].createdAt)
  }

  predicate CastSafe(t: Tables, v: Vote) {
    v.pollID in t.polls && BallotSafe(t.polls[v.pollID], v.option, v.castAt)
  }

  ghost predicate UniqueSlugs(polls: Polls) {
    forall a, b | a in polls && b in polls && polls[a].slug == polls[b].slug :: a == b
  }

  ghost predicate TablesSound(s: System) {
    && Keyed(s.t) && UniqueSlugs(s.t.polls)
    && (forall slot :: ChoiceSafe(s.t, slot))
    && (forall v | v in s.casting :: CastSafe(s.t, v))
    && Replay(s.t.outbox) == Catalogue(s.t.polls)
  }

  /** A change keeps every poll that is past its draft, with the same content. */
  ghost predicate KeepsPublished(polls: Polls, polls': Polls) {
    forall id | id in polls :: KeepsPoll(polls, polls', id)
  }

  predicate KeepsPoll(polls: Polls, polls': Polls, id: string)
    requires id in polls
  {
    if id in polls' then OneWay(polls[id], polls'[id]) else polls[id].status == Draft
  }

  lemma ChangeKeepsPublished(t: Tables, t': Tables, c: Change)
    requires Applied(t, t', c)
    ensures KeepsPublished(t.polls, t'.polls)
  {
  }

  lemma ChangeKeepsBallots(t: Tables, t': Tables, c: Change)
    requires Applied(t, t', c) && forall slot :: ChoiceSafe(t, slot)
    ensures t'.votes == t.votes && forall slot :: ChoiceSafe(t', slot)
  {
    ChangeKeepsPublished(t, t', c);
    forall slot | slot in t.votes
      ensures slot in t'.votes && slot.pollID in t'.polls
    {
      assert ChoiceSafe(t, slot) && KeepsPoll(t.polls, t'.polls, slot.pollID);
    }
    assert t'.votes == t.votes;
    forall slot
      ensures ChoiceSafe(t', slot)
    {
      assert ChoiceSafe(t, slot);
      assert slot in t.votes ==> KeepsPoll(t.polls, t'.polls, slot.pollID);
    }
  }

  lemma ReplayLast(outbox: seq<OutboxRow>, row: OutboxRow)
    ensures var e := row.entry;
            Replay(outbox + [row]) == if e.action.Deleted? then Replay(outbox) - {e.pollID}
                else Replay(outbox)[e.pollID := Listing(e.slug, e.status)]
  {
    assert (outbox + [row])[..|outbox + [row]| - 1] == outbox;
  }

  lemma CataloguePut(polls: Polls, p: Poll)
    ensures Catalogue(polls[p.id := p]) == Catalogue(polls)[p.id := Listing(p.slug, p.status)]
  {
  }

  lemma CatalogueRemove(polls: Polls, id: string)
    ensures Catalogue(polls - {id}) == Catalogue(polls) - {id}
  {
  }

  lemma ChangeKeepsReplay(t: Tables, t': Tables, c: Change)
    requires Applied(t, t', c) && Replay(t.outbox) == Catalogue(t.polls)
    ensures Replay(t'.outbox) == Catalogue(t'.polls)
  {
    hide Replay, Catalogue;
    match c
    case Nothing =>
    case Put(p, e) =>
      ReplayLast(t.outbox, OutboxRow(e, None));
      CataloguePut(t.polls, p);
    case Remove(id, e) =>
      ReplayLast(t.outbox, OutboxRow(e, None));
      CatalogueRemove(t.polls, id);
  }

  lemma ChangeKeepsSlugs(t: Tables, t': Tables, c: Change)
    requires Applied(t, t', c) && Keyed(t) && UniqueSlugs(t.polls)
    ensures Keyed(t') && UniqueSlugs(t'.polls)
  {
  }

  lemma ManageKeepsSound(s: System, m: Management)
    requires TablesSound(s)
    ensures TablesSound(Next(s, Manage(m))) && Next(s, Manage(m)).t.votes == s.t.votes
    ensures KeepsPublished(s.t.polls, Next(s, Manage(m)).t.polls)
  {
    var s' := Next(s, Manage(m));
    var c := ManagementChanges(s.t, m);
    ChangeKeepsPublished(s.t, s'.t, c);
    ChangeKeepsBallots(s.t, s'.t, c);
    ChangeKeepsReplay(s.t, s'.t, c);
    ChangeKeepsSlugs(s.t, s'.t, c);
    forall v | v in s'.casting
      ensures CastSafe(s'.t, v)
    {
      assert CastSafe(s.t, v) && KeepsPoll(s.t.polls, s'.t.polls, v.pollID);
    }
  }

  lemma SaveVoteKeepsSound(s: System, v: Vote, fails: bool)
    requires TablesSound(s) && v in s.casting
    ensures TablesSound(Next(s, SaveVote(v, fails))) && s.t.votes.Keys <= Next(s, SaveVote(v, fails)).t.votes.Keys
    ensures Next(s, SaveVote(v, fails)).t.polls == s.t.polls
  {
    hide Replay, Catalogue, UniqueSlugs;
    var s' := Next(s, SaveVote(v, fails));
    assert CastSafe(s.t, v);
    forall slot
      ensures ChoiceSafe(s'.t, slot)
    {
      assert ChoiceSafe(s.t, slot);
    }
  }

  lemma MarkOnlyMarks(s: System, f: nat, now: Time, fails: bool)
    ensures var s' := Next(s, Mark(f, now, fails));
            && s'.casting == s.casting && s'.log == s.log && s'.t == s.t.(outbox := s'.t.outbox)
            && (s'.t.outbox == s.t.outbox
                || (Flushing(s, f) && s'.t.outbox == MarkDelivered(s.t.outbox, s.flushers[f].batch[0].eventID, now)))
  {
  }

  lemma MarkKeepsSound(s: System, f: nat, now: Time, fails: bool)
    requires TablesSound(s)
    ensures var s' := Next(s, Mark(f, now, fails));
            TablesSound(s') && s'.t.polls == s.t.polls && s'.t.votes == s.t.votes
  {
    hide Next, Replay;
    var s' := Next(s, Mark(f, now, fails));
    MarkOnlyMarks(s, f, now, fails);
    ReplayIgnoresMarks(s.t.outbox, s'.t.outbox);
    forall slot
      ensures ChoiceSafe(s'.t, slot)
    {
      assert ChoiceSafe(s.t, slot);
    }
  }

  lemma SnapshotKeepsSound(s: System, step: Step)
    requires TablesSound(s) && step.Snapshot? && Enabled(s, step)
    ensures TablesSound(Next(s, step)) && Next(s, step).t == s.t
  {
  }

  lemma PollsKept(polls: Polls)
    ensures KeepsPublished(polls, polls)
  {
  }

  lemma StepKeepsSound(s: System, step: Step)
    requires TablesSound(s) && Enabled(s, step)
    ensures TablesSound(Next(s, step))
    ensures KeepsPublished(s.t.polls, Next(s, step).t.polls) && s.t.votes.Keys <= Next(s, step).t.votes.Keys
  {
    PollsKept(s.t.polls);
    match step {
      case Manage(m) =>
        hide *;
        ManageKeepsSound(s, m);
      case SaveVote(v, fails) =>
        assert v in s.casting;
        hide *;
        SaveVoteKeepsSound(s, v, fails);
      case Mark(f, now, fails) =>
        hide *;
        MarkKeepsSound(s, f, now, fails);
      case Snapshot(_, v) => SnapshotKeepsSound(s, step);
      case Fetch(_, _) => assert Next(s, step).t == s.t && Next(s, step).casting == s.casting;
      case Record(f, a) => assert Next(s, step).t == s.t && Next(s, step).casting == s.casting;
      case Stop(_) => assert Next(s, step).t == s.t && Next(s, step).casting == s.casting;
    }
  }

  lemma {:induction false} RunKeepsSound(s: System, steps: seq<Step>)
    requires TablesSound(s) && Possible(s, steps)
    ensures TablesSound(Run(s, steps))
    decreases |steps|
  {
    if steps != [] {
      var before := steps[..|steps| - 1];
      RunKeepsSound(s, before);
      StepKeepsSound(Run(s, before), steps[|steps| - 1]);
    }
  }

  // ---- main results ---------------------------------------------------------------------

  /** After every step of every run, folding the outbox in commit order rebuilds exactly the
      polls' identifiers, slugs and statuses. */
  lemma OutboxReplaysToPolls(steps: seq<Step>)
    requires Possible(START, steps)
    ensures var t := Run(START, steps).t; Replay(t.outbox) == Catalogue(t.polls)
  {
    RunKeepsSound(START, steps);
  }

  /** Every stored ballot belongs to a poll past its draft, names one of its options, and was
      cast before it closed, however votes and management calls interleave. */
  lemma BallotsStaySafe(steps: seq<Step>, slot: Slot)
    requires Possible(START, steps) && slot in Run(START, steps).t.votes
    ensures var t := Run(START, steps).t;
            && slot.pollID in t.polls && t.polls[slot.pollID].status != Draft
            && 0 <= t.votes[slot].option < |t.polls[slot.pollID].options|
            && (t.polls[slot.pollID].closesAt.Some? ==> t.votes[slot].updatedAt < t.polls[slot.pollID].closesAt.value)
  {
    RunKeepsSound(START, steps);
    assert ChoiceSafe(Run(START, steps).t, slot);
  }

  /** Deleting never takes a ballot away. */
  lemma DeleteTakesNoBallot(steps: seq<Step>, a: Svc.Actor, id: string, eventID: string, now: Time, fails: bool)
    requires Possible(START, steps)
    ensures var t := Run(START, steps).t; Svc.Delete(t, a, id, eventID, now, fails).0.votes == t.votes
  {
    RunKeepsSound(START, steps);
    var s, call := Run(START, steps), DeleteCall(a, id, eventID, now, fails);
    assert Next(s, Manage(call)).t == Svc.Delete(s.t, a, id, eventID, now, fails).0;
    hide *;
    ManageKeepsSound(s, call);
  }

  lemma {:induction false} RunIsOneWay(s: System, steps: seq<Step>, id: string)
    requires TablesSound(s) && Possible(s, steps) && id in s.t.polls && s.t.polls[id].status != Draft
    ensures id in Run(s, steps).t.polls && OneWay(s.t.polls[id], Run(s, steps).t.polls[id])
    ensures Run(s, steps).t.polls[id].status != Draft
    decreases |steps|
  {
    if steps != [] {
      var before := steps[..|steps| - 1];
      var mid := Run(s, before);
      RunIsOneWay(s, before, id);
      RunKeepsSound(s, before);
      StepKeepsSound(mid, steps[|steps| - 1]);
      assert KeepsPoll(mid.t.polls, Run(s, steps).t.polls, id);
    }
  }

  lemma OneWayRanks(p: Poll, p': Poll, at: Time, later: Time)
    requires OneWay(p, p') && !p.status.Other? && !p'.status.Other? && p'.status != Draft
    requires EffectiveStatus(p, at) != Draft && at <= later
    ensures p'.slug == p.slug && p'.options == p.options && p'.closesAt == p.closesAt
    ensures Rank(EffectiveStatus(p, at)) <= Rank(EffectiveStatus(p', later))
  {
  }

  /** A poll never moves back: once it is effectively past its draft at some instant, it
      exists for ever after with the same slug, options and closing time, and its effective
      status at any later instant is no earlier one. */
  lemma LifecycleIsOneWay(past: seq<Step>, steps: seq<Step>, id: string, at: Time, later: Time)
    requires Possible(START, past) && Possible(Run(START, past), steps) && at <= later
    requires id in Run(START, past).t.polls && EffectiveStatus(Run(START, past).t.polls[id], at) != Draft
    ensures id in Run(Run(START, past), steps).t.polls
    ensures var p, p' := Run(START, past).t.polls[id], Run(Run(START, past), steps).t.polls[id];
            && p'.slug == p.slug && p'.options == p.options && p'.closesAt == p.closesAt
            && Rank(EffectiveStatus(p, at)) <= Rank(EffectiveStatus(p', later))
  {
    RunKeepsSound(START, past);
    var s := Run(START, past);
    hide Run, Possible, OneWay, Replay, Catalogue, UniqueSlugs;
    RunIsOneWay(s, steps, id);
    RunKeepsSound(s, steps);
    OneWayRanks(s.t.polls[id], Run(s, steps).t.polls[id], at, later);
  }

  /** Why management calls are taken as atomic: an update that read the draft in t0 and writes
      in t1 keeps the lifecycle one-way exactly when the poll is still a draft in t1. */
  lemma StaleUpdate(t0: Tables, t1: Tables, a: Svc.Actor, id: string, input: PollUpdate, eventID: string, wall: Time,
          now: Time)
    requires Keyed(t0) && Keyed(t1) && Svc.Update(t0, a, id, input, eventID, wall, now, false).1 == Done
    requires var p := Normalized(Svc.Edited(t0.polls[id], input)).(updatedAt := now);
             UpdatePoll(t1, p, Svc.EntryFor(p, a.tenantID, a.actorID, Updated, eventID, now), false).1 == Done
    ensures var p := Normalized(Svc.Edited(t0.polls[id], input)).(updatedAt := now);
            var t' := UpdatePoll(t1, p, Svc.EntryFor(p, a.tenantID, a.actorID, Updated, eventID, now), false).0;
            id in t1.polls && id in t'.polls && (OneWay(t1.polls[id], t'.polls[id]) <==> t1.polls[id].status == Draft)
  {
  }

  /** The set of (poll, voter) pairs only grows. */
  lemma {:induction false} BallotsOnlyGrow(s: System, steps: seq<Step>)
    requires TablesSound(s) && Possible(s, steps)
    ensures s.t.votes.Keys <= Run(s, steps).t.votes.Keys
    decreases |steps|
  {
    if steps != [] {
      var before := steps[..|steps| - 1];
      BallotsOnlyGrow(s, before);
      RunKeepsSound(s, before);
      StepKeepsSound(Run(s, before), steps[|steps| - 1]);
    }
  }
}
