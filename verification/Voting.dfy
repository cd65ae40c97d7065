/** The voting call (reference/polls/pollmodule/service.go, GetPublicBySlug and Vote) as one
    caller sees it when nobody interferes between its snapshot and its transaction. PollRuns
    has the two steps apart, for every interleaving. */
module Voting {
  import opened Instants
  import opened Options
  import opened PollEntities
  import opened PollRuns
  import opened PollStore
  import Svc = PollService
  import Tally
  import Text

  ghost predicate Public(t: Tables, slug: string, id: string) {
    Svc.Names(t, slug, id) && (t.polls[id].status == Published || t.polls[id].status == Closed)
  }

  /** Draft and archived polls look absent at the public boundary. */
  method GetPublicBySlug(store: Store, slug: string) returns (found: Option<string>)
    requires UniqueSlugs(store.polls)
    ensures forall id :: Public(store.Contents(), slug, id) <==> found == Some(id)
  {
    var wanted := Text.ToLower(Text.TrimSpace(slug));
    var rest := store.polls.Keys;
    while rest != {}
      invariant rest <= store.polls.Keys
      invariant forall id | id in store.polls && id !in rest :: store.polls[id].slug != wanted
      decreases |rest|
    {
      var id :| id in rest;
      rest := rest - {id};
      if store.polls[id].slug == wanted {
        var status := store.polls[id].status;
        return if status == Published || status == Closed then Some(id) else None;
      }
    }
    return None;
  }

  /** What one undisturbed call decides for the poll its slug names. */
  function Verdict(t: Tables, id: string, option: int, voterID: string, now: Time, fails: bool): Outcome
    requires id in t.polls
  {
    if !AcceptsVotes(t.polls[id], now) then Failed(VotingClosed)
    else if !(0 <= option < |t.polls[id].options|) || Text.TrimSpace(voterID) == "" then Failed(Validation)
    else if fails then Failed(Storage)
    else Done
  }

  /** One call; storing the ballot may fail, and so may the count that is returned with it. */
  method Vote(store: Store, slug: string, option: int, voterID: string, now: Clock, fails: bool, countFails: bool)
    returns (outcome: Outcome, ghost stored: bool, pollID: string, counts: Tally.Counts)
    requires UniqueSlugs(store.polls)
    modifies store
    ensures (forall id :: !Public(old(store.Contents()), slug, id)) ==> outcome == Failed(NotFound)
    ensures forall id | Public(old(store.Contents()), slug, id) ::
              var verdict := Verdict(old(store.Contents()), id, option, voterID, now, fails);
              && (stored <==> verdict == Done)
              && outcome == if verdict == Done && countFails then Failed(Storage) else verdict
    ensures !stored ==> outcome.Failed? && store.Contents() == old(store.Contents())
    ensures outcome == Done ==> Tally.Groups(store.votes, Tally.Ballots(store.votes, pollID), counts)
    ensures stored ==>
              && Public(old(store.Contents()), slug, pollID)
              && store.polls == old(store.polls) && store.outbox == old(store.outbox)
              && (forall slot | slot != Slot(pollID, voterID) ::
                    (slot in store.votes <==> slot in old(store.votes))
                    && (slot in store.votes ==> store.votes[slot] == old(store.votes)[slot]))
              && Slot(pollID, voterID) in store.votes
              && store.votes[Slot(pollID, voterID)].option == option
  {
    stored, pollID, counts := false, "", map[];
    var found := GetPublicBySlug(store, slug);
    assert store.Contents() == old(store.Contents());
    if found.None? {
      return Failed(NotFound), false, "", map[];
    }
    pollID := found.value;
    assert Public(store.Contents(), slug, pollID);
    var poll := store.polls[pollID];
    if !AcceptsVotes(poll, now) {
      outcome := Failed(VotingClosed);
      return;
    }
    if !(0 <= option < |poll.options|) || Text.TrimSpace(voterID) == "" {
      outcome := Failed(Validation);
      return;
    }
    outcome := store.SaveVote(PollStore.Vote(pollID, option, voterID, now), fails);
    if outcome.Failed? {
      return;
    }
    stored := true;
    if countFails {
      outcome := Failed(Storage);
      return;
    }
    counts := Tally.CountVotes(store.votes, pollID);
  }

  /** Run alone, the two steps of a vote are the voting call: the check in the transaction
      lets through every ballot that the snapshot let through. */
  lemma UndisturbedSteps(s: System, slug: string, v: PollStore.Vote, fails: bool)
    requires Enabled(s, Snapshot(slug, v))
    ensures var s' := Next(Next(s, Snapshot(slug, v)), SaveVote(v, fails));
            && Enabled(Next(s, Snapshot(slug, v)), SaveVote(v, fails))
            && Verdict(s.t, v.pollID, v.option, v.voterID, v.castAt, fails) == StoreVote(s.t, v, fails).1
            && s'.t == StoreVote(s.t, v, fails).0
            && s'.casting == s.casting && s'.flushers == s.flushers && s'.log == s.log
  {
    assert s.casting + multiset{v} - multiset{v} == s.casting;
  }

  /** What the snapshot answers is the call's own verdict. */
  lemma SnapshotAnswers(t: Tables, slug: string, id: string, option: int, voterID: string, now: Time)
    requires Svc.Names(t, slug, id)
    ensures Svc.CastVote(t, id, option, voterID, now) ==
              if !Public(t, slug, id) then Some(NotFound)
              else
                match Verdict(t, id, option, voterID, now, false)
                case Done => None
                case Failed(error) => Some(error)
  {
  }

  /** A vote gets past its snapshot exactly when the call would store its ballot: the poll its
      slug names is public, open at that instant, and has the option. */
  lemma SnapshotMeans(s: System, slug: string, v: PollStore.Vote)
    ensures Enabled(s, Snapshot(slug, v)) <==>
              Public(s.t, slug, v.pollID) && Verdict(s.t, v.pollID, v.option, v.voterID, v.castAt, false) == Done
  {
  }
}
