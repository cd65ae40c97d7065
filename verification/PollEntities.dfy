/** The poll record, its validation and its lifecycle (reference/polls/pollmodule/entities.go
    and the pure decisions of service.go). */
module PollEntities {
  import opened Instants
  import opened Options
  import Text

  /** The four lifecycle states, and any other text a caller may send. */
  datatype Status = Draft | Published | Closed | Archived | Other(text: string)

  datatype Poll = Poll(
    id: string,
    tenantID: string,
    slug: string,
    title: string,
    description: string,
    options: seq<string>,
    authorID: string,
    status: Status,
    closesAt: Option<Time>,
    createdAt: Time,
    updatedAt: Time)

  datatype PollUpdate = PollUpdate(
    slug: string,
    title: string,
    description: string,
    options: seq<string>,
    closesAt: Option<Time>)

  datatype Error = NotFound | Duplicate | Validation | Forbidden | Conflict | VotingClosed | Storage

  const MAX_SLUG_RUNES: nat := 80
  const MAX_TITLE_RUNES: nat := 200
  const MAX_DESCRIPTION_RUNES: nat := 2000
  const MAX_OPTION_RUNES: nat := 200
  const MAX_OPTIONS: nat := 20

  predicate SlugChar(c: char) {
    'a' <= c <= 'z' || '0' <= c <= '9'
  }

  /** Lower-case letters and digits in runs joined by single hyphens. */
  predicate SlugShape(s: string) {
    && s != "" && SlugChar(s[0]) && SlugChar(s[|s| - 1])
    && (forall i | 0 <= i < |s| :: SlugChar(s[i]) || s[i] == '-')
    && (forall i | 0 < i < |s| :: s[i] == '-' ==> s[i - 1] != '-')
  }

  function NormalizedOptions(options: seq<string>): seq<string> {
    seq(|options|, i requires 0 <= i < |options| => Text.TrimSpace(options[i]))
  }

  function Normalized(p: Poll): Poll {
    p.(slug := Text.ToLower(Text.TrimSpace(p.slug)),
       title := Text.TrimSpace(p.title),
       description := Text.TrimSpace(p.description),
       status := if p.status == Other("") then Draft else p.status,
       options := NormalizedOptions(p.options))
  }

  /** Options a ballot can choose between: present, short, and different to a reader. */
  predicate DistinctOptions(options: seq<string>) {
    && (forall i | 0 <= i < |options| :: options[i] != "" && |options[i]| <= MAX_OPTION_RUNES)
    && (forall i, j | 0 <= i < j < |options| :: !Text.EqualFold(options[i], options[j]))
  }

  /** What a stored poll looks like when validation let it through at the instant wall. */
  predicate WellFormed(p: Poll, wall: Time) {
    && SlugShape(p.slug) && |p.slug| <= MAX_SLUG_RUNES
    && p.title != "" && |p.title| <= MAX_TITLE_RUNES
    && |p.description| <= MAX_DESCRIPTION_RUNES
    && 2 <= |p.options| <= MAX_OPTIONS
    && !p.status.Other?
    && (p.closesAt.Some? ==> wall < p.closesAt.value)
    && DistinctOptions(p.options)
  }

  predicate Accepted(p: Poll, wall: Time) {
    WellFormed(Normalized(p), wall)
  }

  /** A poll under edit: validation rewrites it in place. */
  class Draft {
    var poll: Poll

    constructor (poll: Poll)
      ensures this.poll == poll
    {
      this.poll := poll;
    }

    method NormalizeAndValidate(wall: Clock) returns (ok: bool)
      modifies this
      ensures ok <==> Accepted(old(poll), wall)
      ensures ok ==> poll == Normalized(old(poll))
    {
      poll := poll.(slug := Text.ToLower(Text.TrimSpace(poll.slug)));
      poll := poll.(title := Text.TrimSpace(poll.title));
      poll := poll.(description := Text.TrimSpace(poll.description));
      if poll.status == Other("") {
        poll := poll.(status := Status.Draft);
      }
      if poll.slug == "" || MAX_SLUG_RUNES < |poll.slug| || !SlugShape(poll.slug)
         || poll.title == "" || MAX_TITLE_RUNES < |poll.title| || MAX_DESCRIPTION_RUNES < |poll.description|
         || |poll.options| < 2 || MAX_OPTIONS < |poll.options|
         || poll.status.Other?
         || (poll.closesAt.Some? && poll.closesAt.value <= wall)
      {
        return false;
      }
      ok := NormalizeOptions();
    }

    method NormalizeOptions() returns (ok: bool)
      modifies this
      ensures ok <==> DistinctOptions(NormalizedOptions(old(poll.options)))
      ensures ok ==> poll == old(poll).(options := NormalizedOptions(old(poll.options)))
    {
      ghost var wanted := NormalizedOptions(poll.options);
      var seen: set<string> := {};
      var normalized: seq<string> := [];
      for i := 0 to |poll.options|
        invariant poll == old(poll)
        invariant normalized == wanted[..i]
        invariant DistinctOptions(normalized)
        invariant seen == ComparisonKeys(normalized)
      {
        hide DistinctOptions, ComparisonKeys, Text.TrimSpace, Text.ToLower;
        var option := Text.TrimSpace(poll.options[i]);
        assert wanted[..i + 1] == normalized + [option];
        OptionJoins(normalized, option);
        if option == "" || MAX_OPTION_RUNES < |option| {
          RefusedPrefix(wanted, i + 1);
          return false;
        }
        var key := Text.ToLower(option);
        if key in seen {
          RefusedPrefix(wanted, i + 1);
          return false;
        }
        normalized := normalized + [option];
        seen := seen + {key};
      }
      assert wanted[..|poll.options|] == wanted;
      poll := poll.(options := normalized);
      return true;
    }
  }

  /** The texts options are compared by, so that case does not tell them apart. */
  function ComparisonKeys(options: seq<string>): set<string> {
    set i | 0 <= i < |options| :: Text.ToLower(options[i])
  }

  lemma OptionJoins(options: seq<string>, option: string)
    ensures DistinctOptions(options + [option]) <==>
              DistinctOptions(options) && option != "" && |option| <= MAX_OPTION_RUNES
                  && Text.ToLower(option) !in ComparisonKeys(options)
    ensures ComparisonKeys(options + [option]) == ComparisonKeys(options) + {Text.ToLower(option)}
  {
    hide Text.ToLower;
    var all := options + [option];
    assert all[|options|] == option && forall i | 0 <= i < |options| :: options[i] == all[i];
  }

  lemma RefusedPrefix(options: seq<string>, n: nat)
    requires n <= |options| && !DistinctOptions(options[..n])
    ensures !DistinctOptions(options)
  {
  }

  // ---- lifecycle ------------------------------------------------------------------------

  function EffectiveStatus(p: Poll, now: Time): Status {
    if p.status == Published && p.closesAt.Some? && p.closesAt.value <= now then Closed else p.status
  }

  predicate AcceptsVotes(p: Poll, now: Time) {
    EffectiveStatus(p, now) == Published
  }

  /** The order in which a poll lives: draft, published, closed, archived. */
  function Rank(s: Status): nat {
    match s
    case Draft => 0
    case Published => 1
    case Closed => 2
    case Archived => 3
    case Other(_) => 4
  }

  predicate ValidTransition(current: Status, target: Status) {
    || (current == Draft && target == Published)
    || (current == Published && target == Closed)
    || (current != Archived && target == Archived)
  }

  predicate Authorized(p: Poll, actorID: string, moderator: bool) {
    Text.TrimSpace(actorID) != "" && (p.authorID == actorID || moderator)
  }

  /** Validation is idempotent: an accepted poll is accepted again unchanged. */
  lemma NormalizedTwice(p: Poll, wall: Time)
    requires Accepted(p, wall)
    ensures Normalized(Normalized(p)) == Normalized(p) && Accepted(Normalized(p), wall)
  {
    var n := Normalized(p);
    assert n.slug == Text.ToLower(n.slug);
    Text.TrimmedFixed(n.slug);
    Text.TrimTwice(p.title);
    Text.TrimTwice(p.description);
    forall i | 0 <= i < |n.options|
      ensures Text.TrimSpace(n.options[i]) == n.options[i]
    {
      Text.TrimTwice(p.options[i]);
    }
    assert NormalizedOptions(n.options) == n.options;
  }
}
