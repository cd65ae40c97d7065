/** The search for a free name that seeding runs three times (pkg/starterapp/seed/seed.go):
    a preferred name, then a stem, then the stem with a growing decimal suffix. The loops in
    the source are unbounded; they end because the candidates are all different and only
    finitely many names are taken. */
module FreeNames {
  import Sets
  import Text

  datatype Naming = Naming(first: string, stem: string, tail: string) {
    /** The preferred name is shorter than every later candidate, as it is in all three uses. */
    predicate Sound() {
      |first| < |stem| + |tail|
    }

    function Candidate(i: nat): string {
      if i == 0 then first
      else if i == 1 then stem + tail
      else stem + "-" + Text.Decimal(i) + tail
    }
  }

  lemma CandidatesDiffer(n: Naming, i: nat, j: nat)
    requires n.Sound() && i < j
    ensures n.Candidate(i) != n.Candidate(j)
  {
    if 2 <= i && n.Candidate(i) == n.Candidate(j) {
      var a, b := Text.Decimal(i), Text.Decimal(j);
      var start := |n.stem| + 1;
      assert n.Candidate(i)[start..start + |a|] == a && n.Candidate(j)[start..start + |b|] == b;
      assert |n.Candidate(i)| == start + |a| + |n.tail| && |n.Candidate(j)| == start + |b| + |n.tail|;
      Text.DecimalInjective(i, j);
      assert false;
    }
  }

  ghost function Candidates(n: Naming, k: nat): set<string> {
    if k == 0 then {} else Candidates(n, k - 1) + {n.Candidate(k - 1)}
  }

  lemma {:induction false} CandidatesCount(n: Naming, taken: set<string>, k: nat, next: nat)
    requires n.Sound() && k <= next && forall i | 0 <= i < k :: n.Candidate(i) in taken
    ensures |Candidates(n, k)| == k && Candidates(n, k) <= taken && n.Candidate(next) !in Candidates(n, k)
  {
    if 0 < k {
      CandidatesCount(n, taken, k - 1, k - 1);
      CandidatesCount(n, taken, k - 1, next);
      CandidatesDiffer(n, k - 1, next);
    }
  }

  /** Once as many candidates have been probed as there are taken names, one was free. */
  lemma ProbesAreBounded(n: Naming, taken: set<string>, k: nat)
    requires n.Sound() && forall i | 0 <= i < k :: n.Candidate(i) in taken
    ensures k <= |taken|
  {
    CandidatesCount(n, taken, k, k);
    Sets.SubsetSmaller(Candidates(n, k), taken);
  }

  /** The least index whose candidate is free. */
  predicate IsFirstFree(n: Naming, taken: set<string>, k: nat) {
    n.Candidate(k) !in taken && forall i | 0 <= i < k :: n.Candidate(i) in taken
  }

  function FirstFreeFrom(n: Naming, taken: set<string>, k: nat): (i: nat)
    requires n.Sound() && forall j | 0 <= j < k :: n.Candidate(j) in taken
    ensures IsFirstFree(n, taken, i) && i <= |taken|
    decreases |taken| + 1 - k
  {
    ProbesAreBounded(n, taken, k);
    if n.Candidate(k) in taken then
      ProbesAreBounded(n, taken, k + 1);
      FirstFreeFrom(n, taken, k + 1)
    else k
  }

  function FreeName(n: Naming, taken: set<string>): (name: string)
    requires n.Sound()
    ensures name !in taken
  {
    n.Candidate(FirstFreeFrom(n, taken, 0))
  }

  lemma FirstFreeUnique(n: Naming, taken: set<string>, i: nat, j: nat)
    requires IsFirstFree(n, taken, i) && IsFirstFree(n, taken, j)
    ensures i == j
  {
  }
}
