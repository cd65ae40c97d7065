/** Counting ballots (store.go, CountVotes and the vote_count column; handler.go, sumCounts;
    public_page.go, buildPublicPageView): no ballot is lost or counted twice on the way from
    the ballot table to the percentages a voter sees. */
module Tally {
  import opened Instants
  import opened Options
  import opened PollEntities
  import opened PollRuns
  import opened PollStore
  import Text

  type Counts = map<int, nat>

  function Ballots(votes: Votes, pollID: string): set<Slot> {
    set s | s in votes && s.pollID == pollID
  }

  /** The vote_count column of a poll. */
  function VoteCount(votes: Votes, pollID: string): nat {
    |Ballots(votes, pollID)|
  }

  function Choosing(votes: Votes, slots: set<Slot>, option: int): set<Slot> {
    set s | s in slots && s in votes && votes[s].option == option
  }

  /** The groups of slots: each option chosen at least once, with how often. */
  ghost predicate Groups(votes: Votes, slots: set<Slot>, counts: Counts) {
    forall o :: GroupOf(votes, slots, counts, o)
  }

  predicate GroupOf(votes: Votes, slots: set<Slot>, counts: Counts, o: int) {
    |Choosing(votes, slots, o)| == if o in counts then counts[o] else 0
  }

  method CountVotes(votes: Votes, pollID: string) returns (counts: Counts)
    ensures Groups(votes, Ballots(votes, pollID), counts)
    ensures forall o | o in counts :: 0 < counts[o]
  {
    counts := map[];
    var rest := votes.Keys;
    while rest != {}
      invariant rest <= votes.Keys
      invariant Groups(votes, Ballots(votes, pollID) - rest, counts)
      invariant forall o | o in counts :: 0 < counts[o]
      decreases |rest|
    {
      ghost var before, seen := counts, Ballots(votes, pollID) - rest;
      var slot :| slot in rest;
      rest := rest - {slot};
      if slot.pollID == pollID {
        var option := votes[slot].option;
        counts := counts[option := (if option in counts then counts[option] else 0) + 1];
        CountOne(votes, seen, before, slot);
        assert Ballots(votes, pollID) - rest == seen + {slot};
      } else {
        assert Ballots(votes, pollID) - rest == seen;
      }
    }
    assert Ballots(votes, pollID) - {} == Ballots(votes, pollID);
  }

  lemma CountOne(votes: Votes, slots: set<Slot>, counts: Counts, slot: Slot)
    requires slot in votes && slot !in slots && Groups(votes, slots, counts)
    ensures var o := votes[slot].option;
            Groups(votes, slots + {slot}, counts[o := (if o in counts then counts[o] else 0) + 1])
  {
    var option := votes[slot].option;
    var counts' := counts[option := (if option in counts then counts[option] else 0) + 1];
    forall o
      ensures GroupOf(votes, slots + {slot}, counts', o)
    {
      assert GroupOf(votes, slots, counts, o);
      assert Choosing(votes, slots + {slot}, o) == Choosing(votes, slots, o) + if o == option then {slot} else {};
    }
  }

  // ---- the total ------------------------------------------------------------------------

  lemma NoKeys(counts: Counts)
    ensures (forall o: int :: o !in counts) ==> counts == map[]
  {
    if forall o: int :: o !in counts {
      assert counts.Keys == {};
    }
  }

  lemma HasKey(counts: Counts)
    requires counts != map[]
    ensures exists o :: o in counts
  {
    NoKeys(counts);
  }

  ghost function Sum(counts: Counts): nat
    decreases |counts|
  {
    if counts == map[] then 0 else
      HasKey(counts);
      var o :| o in counts; counts[o] + Sum(counts - {o})
  }

  /** The sum does not depend on the order in which the map is walked. */
  lemma {:induction false} SumWithout(counts: Counts, o: int)
    requires o in counts
    ensures Sum(counts) == counts[o] + Sum(counts - {o})
    decreases |counts|
  {
    var first :| first in counts && Sum(counts) == counts[first] + Sum(counts - {first});
    if first != o {
      SumWithout(counts - {first}, o);
      SumWithout(counts - {o}, first);
      assert counts - {first} - {o} == counts - {o} - {first};
    }
  }

  method SumCounts(counts: Counts) returns (total: nat)
    ensures total == Sum(counts)
  {
    total := 0;
    var rest := counts;
    while rest != map[]
      invariant total + Sum(rest) == Sum(counts)
      decreases |rest|
    {
      HasKey(rest);
      var o :| o in rest;
      SumWithout(rest, o);
      total := total + rest[o];
      rest := rest - {o};
    }
  }

  lemma GroupsWithout(votes: Votes, slots: set<Slot>, counts: Counts, o: int)
    requires Groups(votes, slots, counts)
    ensures Groups(votes, slots - Choosing(votes, slots, o), counts - {o})
  {
    var others := slots - Choosing(votes, slots, o);
    forall p
      ensures GroupOf(votes, others, counts - {o}, p)
    {
      assert GroupOf(votes, slots, counts, p);
      assert Choosing(votes, others, p) == if p == o then {} else Choosing(votes, slots, p);
    }
  }

  lemma GroupsSplit(votes: Votes, slots: set<Slot>, counts: Counts, o: int)
    requires Groups(votes, slots, counts) && o in counts
    ensures |slots| == |slots - Choosing(votes, slots, o)| + counts[o]
  {
    assert GroupOf(votes, slots, counts, o);
    assert slots == (slots - Choosing(votes, slots, o)) + Choosing(votes, slots, o);
  }

  lemma NoGroups(votes: Votes, slots: set<Slot>)
    requires slots <= votes.Keys && Groups(votes, slots, map[])
    ensures slots == {}
  {
    forall s | s in votes
      ensures s !in slots
    {
      assert GroupOf(votes, slots, map[], votes[s].option);
      assert s !in Choosing(votes, slots, votes[s].option);
    }
  }

  lemma {:induction false} GroupsSum(votes: Votes, slots: set<Slot>, counts: Counts)
    requires slots <= votes.Keys && Groups(votes, slots, counts)
    ensures Sum(counts) == |slots|
    decreases |counts|
  {
    hide Groups, Choosing;
    if counts == map[] {
      NoGroups(votes, slots);
    } else {
      HasKey(counts);
      var o :| o in counts;
      GroupsSplit(votes, slots, counts, o);
      GroupsWithout(votes, slots, counts, o);
      GroupsSum(votes, slots - Choosing(votes, slots, o), counts - {o});
      SumWithout(counts, o);
    }
  }

  function Voters(votes: Votes, pollID: string): set<string> {
    set s | s in votes && s.pollID == pollID :: s.voterID
  }

  lemma {:induction false} VotersCount(slots: set<Slot>, voters: set<string>, pollID: string)
    requires forall s | s in slots :: s.pollID == pollID
    requires forall v :: v in voters <==> Slot(pollID, v) in slots
    ensures |voters| == |slots|
    decreases slots
  {
    if slots != {} {
      var s :| s in slots;
      VotersCount(slots - {s}, voters - {s.voterID}, pollID);
    } else {
      assert voters == {};
    }
  }

  /** The counts of a poll add up to its ballots, which are its distinct voters. */
  lemma TallyConserved(votes: Votes, pollID: string, counts: Counts)
    requires Groups(votes, Ballots(votes, pollID), counts)
    ensures Sum(counts) == VoteCount(votes, pollID) == |Voters(votes, pollID)|
  {
    GroupsSum(votes, Ballots(votes, pollID), counts);
    VotersCount(Ballots(votes, pollID), Voters(votes, pollID), pollID);
  }

  /** Voting again moves a ballot and adds none; a first vote adds one, to its poll only. */
  lemma RevoteKeepsTotal(t: Tables, v: Vote, pollID: string)
    requires StoreVote(t, v, false).1 == Done
    ensures VoteCount(StoreVote(t, v, false).0.votes, pollID)
         == VoteCount(t.votes, pollID) + if pollID == v.pollID && Slot(v.pollID, v.voterID) !in t.votes then 1 else 0
  {
    var slot, votes' := Slot(v.pollID, v.voterID), StoreVote(t, v, false).0.votes;
    assert votes'.Keys == t.votes.Keys + {slot};
    BallotsAdded(t.votes, votes', slot, pollID);
  }

  lemma BallotsAdded(votes: Votes, votes': Votes, slot: Slot, pollID: string)
    requires votes'.Keys == votes.Keys + {slot}
    ensures VoteCount(votes', pollID)
         == VoteCount(votes, pollID) + if pollID == slot.pollID && slot !in votes then 1 else 0
  {
    if pollID == slot.pollID && slot !in votes {
      assert Ballots(votes', pollID) == Ballots(votes, pollID) + {slot};
    } else {
      assert Ballots(votes', pollID) == Ballots(votes, pollID);
    }
  }

  // ---- the public page ------------------------------------------------------------------

  datatype OptionView = OptionView(index: nat, text: string, count: nat, percent: nat, selected: bool)

  function CountOf(counts: Counts, i: int): nat {
    if i in counts then counts[i] else 0
  }

  function Percent(counts: Counts, total: nat, i: int): nat {
    if total == 0 then 0 else CountOf(counts, i) * 100 / total
  }

  method BuildOptions(p: Poll, counts: Counts, choice: Option<int>) returns (views: seq<OptionView>)
    ensures |views| == |p.options|
    ensures forall i | 0 <= i < |views| ::
              views[i] ==
                OptionView(i, p.options[i], CountOf(counts, i), Percent(counts, Sum(counts), i), choice == Some(i))
  {
    var total := SumCounts(counts);
    views := [];
    for i := 0 to |p.options|
      invariant |views| == i
      invariant forall j | 0 <= j < i ::
                  views[j] ==
                    OptionView(j, p.options[j], CountOf(counts, j), Percent(counts, total, j), choice == Some(j))
    {
      var percent := 0;
      if 0 < total {
        percent := CountOf(counts, i) * 100 / total;
      }
      views := views + [OptionView(i, p.options[i], CountOf(counts, i), percent, choice == Some(i))];
    }
  }

  function CountSum(counts: Counts, n: nat): nat {
    if n == 0 then 0 else CountSum(counts, n - 1) + CountOf(counts, n - 1)
  }

  function PercentSum(counts: Counts, total: nat, n: nat): nat {
    if n == 0 then 0 else PercentSum(counts, total, n - 1) + Percent(counts, total, n - 1)
  }

  lemma {:induction false} CountSumIsSum(counts: Counts, n: nat)
    requires forall o | o in counts :: 0 <= o < n
    ensures CountSum(counts, n) == Sum(counts)
    decreases n
  {
    if n == 0 {
      assert forall o :: o !in counts;
      assert counts.Keys == {};
    } else if n - 1 in counts {
      var rest := counts - {n - 1};
      CountSumSame(counts, rest, n - 1);
      CountSumIsSum(rest, n - 1);
      SumWithout(counts, n - 1);
    } else {
      CountSumIsSum(counts, n - 1);
    }
  }

  lemma {:induction false} CountSumSame(a: Counts, b: Counts, n: nat)
    requires forall i | 0 <= i < n :: CountOf(a, i) == CountOf(b, i)
    ensures CountSum(a, n) == CountSum(b, n)
  {
    if 0 < n {
      CountSumSame(a, b, n - 1);
    }
  }

  lemma QuotientBounds(a: nat, b: nat)
    requires 0 < b
    ensures b * (a / b) <= a < b * (a / b) + b
  {
  }

  lemma {:induction false} PercentsScaled(counts: Counts, total: nat, n: nat)
    requires 0 < total
    ensures total * PercentSum(counts, total, n) <= 100 * CountSum(counts, n)
              <= total * PercentSum(counts, total, n) + total * n
    ensures 0 < n ==> 100 * CountSum(counts, n) < total * PercentSum(counts, total, n) + total * n
  {
    if 0 < n {
      PercentsScaled(counts, total, n - 1);
      QuotientBounds(CountOf(counts, n - 1) * 100, total);
      ScaleAdds(total, PercentSum(counts, total, n - 1), Percent(counts, total, n - 1));
      ScaleAdds(total, n - 1, 1);
    }
  }

  /** The percentage shown for an option is the share of the poll's ballots that chose it,
      rounded down, and zero while nobody has voted. */
  lemma PercentIsShare(votes: Votes, pollID: string, counts: Counts, i: int)
    requires Groups(votes, Ballots(votes, pollID), counts)
    ensures var percent := Percent(counts, Sum(counts), i);
            var chosen, cast := |Choosing(votes, Ballots(votes, pollID), i)|, |Voters(votes, pollID)|;
            && CountOf(counts, i) == chosen
            && if cast == 0 then percent == 0 else cast * percent <= 100 * chosen < cast * percent + cast
  {
    TallyConserved(votes, pollID, counts);
    assert GroupOf(votes, Ballots(votes, pollID), counts, i);
    if 0 < Sum(counts) {
      QuotientBounds(CountOf(counts, i) * 100, Sum(counts));
    }
  }

  lemma ScaleAdds(total: nat, a: nat, b: nat)
    ensures total * (a + b) == total * a + total * b
  {
  }

  lemma ScalePositive(total: nat, d: nat)
    requires 0 < total && 0 < d
    ensures 0 < total * d
  {
  }

  lemma CancelTotal(total: nat, a: int, b: int)
    requires 0 < total
    ensures total * a < total * b ==> a < b
    ensures total * a <= total * b ==> a <= b
  {
    if b < a {
      ScalePositive(total, a - b);
      assert total * (a - b) == total * a - total * b;
    }
  }

  /** In every reachable state, once somebody has voted, the n percentages shown add up to at
      most 100 and to at least 100 - (n - 1). */
  lemma PercentagesAddUp(steps: seq<Step>, id: string, counts: Counts)
    requires Possible(START, steps) && id in Run(START, steps).t.polls
    requires var t := Run(START, steps).t;
             Groups(t.votes, Ballots(t.votes, id), counts) && 0 < VoteCount(t.votes, id)
             && forall o | o in counts :: 0 < counts[o]
    ensures var n := |Run(START, steps).t.polls[id].options|;
            0 < n && 100 - (n - 1) <= PercentSum(counts, Sum(counts), n) <= 100
  {
    var t := Run(START, steps).t;
    RunKeepsSound(START, steps);
    var n := |t.polls[id].options|;
    TallyConserved(t.votes, id, counts);
    var s :| s in Ballots(t.votes, id);
    assert ChoiceSafe(t, s);
    forall o | o in counts
      ensures 0 <= o < n
    {
      assert GroupOf(t.votes, Ballots(t.votes, id), counts, o);
      var slot :| slot in Choosing(t.votes, Ballots(t.votes, id), o);
      assert ChoiceSafe(t, slot);
    }
    CountSumIsSum(counts, n);
    PercentsAddUp(counts, n);
  }

  lemma PercentsAddUp(counts: Counts, n: nat)
    requires 0 < n && 0 < Sum(counts) == CountSum(counts, n)
    ensures 100 - (n - 1) <= PercentSum(counts, Sum(counts), n) <= 100
  {
    var total := Sum(counts);
    var p := PercentSum(counts, total, n);
    PercentsScaled(counts, total, n);
    ScaleAdds(total, p, n);
    CancelTotal(total, 100, p + n);
    CancelTotal(total, p, 100);
  }
}
