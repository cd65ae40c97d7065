/** Why the lifecycle needs management calls that do not overlap: a run in which an update
    that read a draft is written after the poll was published and voted on. */
module PollExceptions {
  import opened Instants
  import opened Options
  import opened PollEntities
  import opened PollRuns
  import opened PollStore
  import Svc = PollService
  import Text

  const SAMPLE := Poll("p", "t", "s", "q", "", ["a", "b"], "w", Draft, None, 1, 1)
  const AUTHOR := Svc.Actor("t", "w", false)
  const SAME := PollUpdate("s", "q", "", ["a", "b"], None)
  const BALLOT := Vote("p", 0, "v", 3)

  lemma OneLetter(s: string)
    requires |s| == 1 && 'a' <= s[0] <= 'z'
    ensures Text.TrimSpace(s) == s && Text.ToLower(s) == s
  {
    Text.TrimmedFixed(s);
  }

  lemma SampleNormal()
    ensures Normalized(SAMPLE) == SAMPLE
  {
    OneLetter("s");
    OneLetter("q");
    OneLetter("a");
    OneLetter("b");
    Text.TrimmedFixed("");
    hide Text.TrimSpace, Text.ToLower;
    assert NormalizedOptions(["a", "b"]) == ["a", "b"];
  }

  lemma SampleAccepted(wall: Time)
    ensures Normalized(SAMPLE) == SAMPLE && Accepted(SAMPLE, wall)
  {
    SampleNormal();
    hide Normalized;
    OneLetter("a");
    OneLetter("b");
    assert "a"[0] != "b"[0];
    hide Text.ToLower, Text.TrimSpace;
    assert DistinctOptions(["a", "b"]);
  }

  function EntryOf(status: Status, action: Action, eventID: string, now: Time): AuditEntry {
    AuditEntry(eventID, "t", "w", action, "p", "s", status, now)
  }

  /** The tables once the sample was created, published and voted on. */
  const DRAFTED := Tables(map["p" := SAMPLE], map[], [OutboxRow(EntryOf(Draft, Created, "1", 1), None)])
  const OPENED := Tables(
    map["p" := SAMPLE.(status := Published, updatedAt := 2)], map[],
    DRAFTED.outbox + [OutboxRow(EntryOf(Published, Moved(Published), "2", 2), None)])
  const VOTED := OPENED.(votes := map[Slot("p", "v") := Choice(0, 3, 3)])

  const CREATING := Manage(CreateCall(SAMPLE, "", "1", 1, 1, false))
  const PUBLISHING := Manage(TransitionCall(AUTHOR, "p", Published, "2", 2, false))

  lemma CreatedFirst()
    ensures Svc.Create(EMPTY_TABLES, SAMPLE, "", "1", 1, 1, false) == (DRAFTED, Done)
  {
    SampleAccepted(1);
    OneLetter("t");
    OneLetter("w");
    hide Normalized, Accepted, Text.TrimSpace;
    assert SAMPLE.(status := Draft) == SAMPLE && |"p"| == |"t"| == |"w"| == 1;
    assert Svc.CreatedPoll(SAMPLE, "", 1) == SAMPLE;
    assert EMPTY_TABLES.polls["p" := SAMPLE] == DRAFTED.polls;
    assert [] + DRAFTED.outbox == DRAFTED.outbox;
  }

  lemma PublishedNext()
    ensures Svc.Transition(DRAFTED, AUTHOR, "p", Published, "2", 2, false) == (OPENED, Done)
  {
    OneLetter("t");
    OneLetter("w");
    OneLetter("p");
    hide Text.TrimSpace;
    assert "1" != "2" by {
      assert "1"[0] != "2"[0];
    }
    assert UpdatedRow(SAMPLE, SAMPLE.(status := Published, updatedAt := 2))
        == SAMPLE.(status := Published, updatedAt := 2);
    assert DRAFTED.polls["p" := SAMPLE.(status := Published, updatedAt := 2)] == OPENED.polls;
  }

  lemma VotedNext()
    ensures Svc.Names(OPENED, "s", "p") && Svc.CastVote(OPENED, "p", 0, "v", 3) == None
    ensures StoreVote(OPENED, BALLOT, false) == (VOTED, Done)
  {
    OneLetter("s");
    OneLetter("v");
    hide Text.TrimSpace, Text.ToLower;
  }

  /** The update reads after the first step; then the poll is published and gets a ballot. */
  const READ := [CREATING]
  const OVERTAKEN := [CREATING, PUBLISHING, Snapshot("s", BALLOT), SaveVote(BALLOT, false)]

  lemma VotedBeforeTheWrite()
    ensures Possible(START, OVERTAKEN)
    ensures Run(START, READ).t == DRAFTED && Run(START, OVERTAKEN).t == VOTED
  {
    CreatedFirst();
    PublishedNext();
    VotedNext();
    hide Svc.Create, Svc.Transition, Svc.Names, Svc.CastVote, StoreVote;
    assert [] + [CREATING] == READ;
    RunSnoc(START, [], CREATING);
    RunSnoc(START, READ, PUBLISHING);
    var open := READ + [PUBLISHING];
    RunSnoc(START, open, Snapshot("s", BALLOT));
    RunSnoc(START, open + [Snapshot("s", BALLOT)], SaveVote(BALLOT, false));
    assert open + [Snapshot("s", BALLOT)] + [SaveVote(BALLOT, false)] == OVERTAKEN;
  }

  /** The update is accepted on what it read in t0. */
  predicate AcceptedThen(t0: Tables) {
    && "p" in t0.polls && Svc.Update(t0, AUTHOR, "p", SAME, "3", 4, 4, false).1 == Done
    && Normalized(Svc.Edited(t0.polls["p"], SAME)) == SAMPLE
  }

  /** Its transaction on t1, with the poll it made of what it read. */
  function Written(t1: Tables): (Tables, Outcome) {
    var p := SAMPLE.(updatedAt := 4);
    UpdatePoll(t1, p, Svc.EntryFor(p, "t", "w", Updated, "3", 4), false)
  }

  predicate HasStatus(t: Tables, status: Status) {
    "p" in t.polls && t.polls["p"].status == status
  }

  /** Written then, the update brings the published poll back to a draft that has a ballot. */
  lemma StaleUpdateReverts()
    ensures READ <= OVERTAKEN && Possible(START, OVERTAKEN)
    ensures AcceptedThen(Run(START, READ).t)
    ensures var t1 := Run(START, OVERTAKEN).t;
            && HasStatus(t1, Published) && Written(t1).1 == Done
            && HasStatus(Written(t1).0, Draft) && Slot("p", "v") in Written(t1).0.votes
  {
    UpdateReads();
    UpdateWrites();
    assert HasStatus(VOTED, Published);
    hide *;
    VotedBeforeTheWrite();
  }

  lemma UpdateReads()
    ensures AcceptedThen(DRAFTED)
  {
    SampleAccepted(4);
    OneLetter("t");
    OneLetter("w");
    OneLetter("p");
    hide Normalized, Accepted, Text.TrimSpace;
    assert Svc.Edited(SAMPLE, SAME) == SAMPLE;
    assert "1"[0] != "3"[0];
  }

  lemma UpdateWrites()
    ensures Written(VOTED).1 == Done && HasStatus(Written(VOTED).0, Draft) && Slot("p", "v") in Written(VOTED).0.votes
  {
    assert "1"[0] != "3"[0] && "2"[0] != "3"[0];
  }
}
