# PlatformKit starter: verified models

This project models the stateful core of the PlatformKit starter and of its reference polls
module in Dafny, and proves what that core promises over whole runs. `dafny verify
dfyconfig.toml` checks everything.

Each object that the Go code mutates is a class whose methods follow the branches of the
source; what a method leaves out of its source function is listed under "Left out". Every such
method is tied by its `ensures` to a function of the old state; the theorems are about runs of
those functions, so the classes and the theorems cannot drift apart.

## The parts

**Login throttle** (`LoginPolicy.dfy`, `LoginRuns.dfy`, `LoginSaturation.dfy`,
`LoginIsolation.dfy`, `LoginExceptions.dfy`, with `FixedWindows.dfy`). A capped map of
per-identifier counters with in-flight reservations, a fixed failure window, a lockout and
lazy expiry. Proved over every sequence of calls: the cap holds; at most `failureLimit`
admissions between two resets of an entry, under any clock; at most
`failureLimit * (T / window + 2)` admissions in any span `T` when readings never go back in
lock order; the capped, pruning table decides as an unbounded one that never prunes as long as
no failure is dropped; every saturated refusal goes back to a call, less than one window
before, that found the table full of live entries; locks persist; reservations never leak;
and an identifier for which there is room is answered as if all other calls, and so all calls
of other tenants, had not been made.

Three promises hold only under a condition. The exact condition is proved, and
`LoginExceptions.dfy` has, for each, a run from the empty table that keeps the protocol and
fails:

- A failure recorded during a lock keeps the lock exactly when the failure window is still open
  (`FailureKeepsLock`). With limit 2, window and lockout 10: two attempts at 1, a third at 10
  locks until 20, the failure of one of the two at 11 unlocks (`LockIsLost`).
- An attempt right after a success is admitted except in one corner: other attempts hold the
  entry, its window is over, the table is full and still marked saturated
  (`AdmittedAfterSuccess`, `SuccessIsRefused`).
- A failure keeps the capped table in step with the unbounded one exactly when it is not
  dropped (`FailureAgrees`). A dropped failure lets the identifier in again where the unbounded
  table has it locked (`FailureIsDropped`).

**Polls** (`PollEntities.dfy`, `PollStore.dfy`, `PollService.dfy`, `PollCalls.dfy`,
`PollRuns.dfy`, `PollExceptions.dfy`, `Voting.dfy`). The tables are maps and an outbox
sequence, a transaction is one step, and a storage failure rolls it back. `PollCalls.dfy` says
of each call, field by field, what it stores, logs and leaves alone, and who is refused. A run interleaves management calls, votes split into snapshot
and transaction, and flushers split into fetch, record and mark, with crashes and failures
anywhere. Proved for every reachable state: folding the outbox in commit order rebuilds the
polls; every ballot is in range, in time and belongs to a poll past its draft; the lifecycle
is one-way and publishing freezes slug, options and closing time; ballots are never removed;
every stored poll is one that validation accepts; a ballot is stored only while its poll is
open at the transaction itself, so that the ballots of a closed or archived poll are final and
no ballot cast at or after the closing time is ever stored.

Management calls are single steps. This is an assumption: the source reads outside its write
transaction. `StaleUpdate` proves what it excludes: an update that read a draft and writes
later keeps the lifecycle exactly when the poll is still a draft at the write.
`StaleUpdateReverts` is such a run: the poll is published and voted on in between, and the
update leaves a draft that has a ballot.

**Audit delivery** (`AuditDelivery.dfy`). At-least-once delivery with an audit service that
stores an event at most once, may fail, and says "unique" only for an event it holds. Each
event is logged at most once, everything marked is logged, nothing pending is lost, and `n`
pending entries drain in exactly `ceil(n / 100)` undisturbed flushes. `ManageAndFlush` is a
management call with the flush that follows its commit: the flush never changes the answer,
the polls or the ballots.

**Vote limiter, tallies, voter identity** (`VoteLimiter.dfy`, `Tally.dfy`, `Hex.dfy`,
`VoterSecret.dfy`). Eviction cannot be observed, the ballot rate is bounded, a denial's retry
delay is exact; counts, totals and percentages conserve ballots; concurrent first callers
agree on one signing secret for ever, and a minted cookie leads back to its voter. Two
accounts are one voter exactly when they are one account, as long as tenant identifiers have
no colon (`AccountsAreApart`); with colons they can collide (`ColonsCollide`).

**Boot and seeding** (`FreeNames.dfy`, `Seed.dfy`, `Boot.dfy`, `BootLedger.dfy`). Replicas boot
one statement at a time under the schema lock and crash anywhere, beside running instances of
the application. No boot is refused, the ledger is written once, a completed boot leaves the
administrator with a password, and a boot that is left alone always completes with the same
accounts as one uninterrupted seed. The three free-name loops stop by a pigeonhole argument
and find the first free candidate.

Instances of the application may change tenants and users in any way except three: they do
not create the two bootstrap identifiers, do not move the administrator to another tenant, and
do not erase its password. `CompletedBootSeeded` has the tenant present unless an application
deleted it after the lock was taken.

A password that is set outlives every interleaving of boots that may not repair it, with one
exception: a boot that saw no password writes its own, even if an application gave one in
between. `PasswordSurvivesExactly` proves that this is the only exception, and
`GivenPasswordIsOverwritten` is such a run from an initial state.

**Configuration and the password rule** (`Config.dfy`, `ConfigSettings.dfy`,
`PasswordRule.dfy`). A file is accepted exactly when each of its lines can be read, and then
every setting has the value of the last line that assigns it in its section. The administrator
that a boot creates has the password that the last such line for `seed.admin_password` says,
and the local one only in development. The environment of an accepted file is the value of the
last line that assigns one; of boots that follow one
another, one may replace an existing administrator password only if that is exactly
`development`. The parser accepts
`environment` only outside a section, so "the last line that assigns it" needs no reference to
sections.

**Migrations** (`Migrations.dfy`). The three embedded migrations as statements on a schema. From
any database without migrations, of any schema, and over any sequence of runs interrupted at
any statement: the ledger is a prefix of 1, 2, 3 with each version entered once, the schema is
what those migrations make of the first one, and a run that is left alone stops at the point
and with the ledger that the first schema decides (`EndOf`). It applies all migrations if and
only if that schema was `Upgradable`, which can be checked before the first run. A fresh
database and one of the first release are; a poll table that already has one of the columns of
the second migration passes the adoption check and is stuck at version 1
(`ExtraColumnIsStuck`). The second migration fails on its own result, which is why its body and
its ledger row must commit together.

**Discovery document** (`Paths.dfy`, `OpenApi.dfy`). Contributed modules are validated by a
method that normalises their operations in place; two modules may share a slice. For every
accepted set of modules the rendered document has exactly one entry per declared operation,
with that operation's own texts, status and protection.

Shared helpers are in `Text.dfy` (trimming, ASCII case, decimals), `Options.dfy`,
`Instants.dfy` and `Sets.dfy`.

## Reading the model

- Times are natural numbers of nanoseconds; 0 is the zero time and a clock reading is positive.
  A nondecreasing clock is always an explicit hypothesis (`Clocked`).
- Random identifiers, tokens and secrets, storage failures (`fails`), the signature function,
  the duration parser and the library's password length limit are parameters.
- `Possible(START, steps)` and `Initial(s) && Possible(s, steps)` range over every run.

## Where the code and its comments differ

The models follow the code. The comment on `LoadConfig` (pkg/starterapp/config.go:121-131) says
that a missing file returns the defaults; the code (lines 137-146) also sets the environment to
production then, and so does the model. The comment on the login reservation
(pkg/starterapp/login_policy.go:118-120) says that a Record call releases it; a Record call that
finds the entry gone, or restarts it, has nothing to release, and the pending count may
therefore be smaller than the attempts in flight (`NoReservationLeaks` is an inequality).

## Model

| member | source | states |
|---|---|---|
| LoginPolicy.SpellingsShareAKey | pkg/starterapp/login_policy.go:200-205 | two spellings share counters exactly when the tenants are equal and the identifiers are equal up to ASCII case, under any padding |
| LoginPolicy.LoginAttemptPolicy.constructor | pkg/starterapp/login_policy.go:54-63 | a new policy tracks nobody and is not saturated |
| LoginPolicy.LoginAttemptPolicy.AllowLogin | pkg/starterapp/login_policy.go:65-124 | decision and new table, for a cancelled context too; the table stays within its cap |
| LoginPolicy.LoginAttemptPolicy.RecordFailure | pkg/starterapp/login_policy.go:126-160 | the new table: release, count, lock, restart of an ended window, and the dropped failure of a full table |
| LoginPolicy.LoginAttemptPolicy.CountFailure | pkg/starterapp/login_policy.go:152-158 | one failure counted, one reservation released, lock set from the limit on |
| LoginPolicy.LoginAttemptPolicy.RecordSuccess | pkg/starterapp/login_policy.go:162-186 | the entry is dropped or cleared for the other attempts in flight, and saturation ends once there is room |
| LoginPolicy.LoginAttemptPolicy.MakeRoom | pkg/starterapp/login_policy.go:108-114 | room after pruning, or saturation for one window |
| LoginPolicy.LoginAttemptPolicy.PruneExpired | pkg/starterapp/login_policy.go:188-198 | exactly the entries whose window and lock are both over are deleted |
| FixedWindows.WindowsInSpan | pkg/starterapp/login_policy.go:81-85 | how many windows that start at least w apart meet a span |
| LoginRuns.TrackedIsCapped | pkg/starterapp/login_policy.go:108-116 | no run tracks more identifiers than the limit |
| LoginRuns.EpochBound | pkg/starterapp/login_policy.go:88-123 | between two resets of an entry at most failureLimit attempts are admitted, under any clock and any interleaving |
| LoginRuns.RateBound | pkg/starterapp/login_policy.go:65-160 | at most failureLimit times (span / window + 2) admissions in any span of any run |
| LoginRuns.StarterHour | pkg/starterapp/login_policy.go:15-20 | with the shipped constants at most 30 attempts per identifier in any hour without a success |
| LoginRuns.StarterLocks | pkg/starterapp/login_policy.go:15-20 | with the shipped constants the fifth failure locks, for exactly fifteen minutes |
| LoginRuns.AllowAgrees | pkg/starterapp/login_policy.go:76-124 | one decision of the capped table is the unbounded table's, or a saturated refusal that changes nothing there |
| LoginRuns.FailureAgrees | pkg/starterapp/login_policy.go:141-147 | a recorded failure keeps the two tables in step if and only if it is not dropped |
| LoginRuns.BoundedRefinesUnbounded | pkg/starterapp/login_policy.go:65-198 | over every run without a dropped failure the capped, pruned table decides as one that never prunes |
| LoginRuns.LockPersists | pkg/starterapp/login_policy.go:76-80 | a locked identifier is refused at every instant before its lock ends, whatever calls for other keys come between |
| LoginRuns.FailureKeepsLock | pkg/starterapp/login_policy.go:133-139 | a failure during a lock keeps it if and only if the window is still open or one failure locks |
| LoginRuns.NoReservationLeaks | pkg/starterapp/login_policy.go:118-123 | pending counts never exceed the attempts in flight nor the limit, and are zero at quiescence |
| LoginRuns.AdmittedAfterSuccess | pkg/starterapp/login_policy.go:162-186 | exactly when the attempt after a success is admitted |
| LoginExceptions.LockIsLost | pkg/starterapp/login_policy.go:133-139 | a run that keeps the protocol, in which a failure unlocks an identifier |
| LoginExceptions.SuccessIsRefused | pkg/starterapp/login_policy.go:104-114 | a run that keeps the protocol, in which the attempt after a success is refused |
| LoginExceptions.FailureIsDropped | pkg/starterapp/login_policy.go:141-147 | a run that keeps the protocol, in which a dropped failure makes a decision differ from the unbounded table |
| LoginSaturation.SaturationHasACause | pkg/starterapp/login_policy.go:104-114 | in every run a saturated refusal follows, within a window, a call that found the table full of live entries, and no success made room since |
| LoginIsolation.IdentifiersAreIndependent | pkg/starterapp/login_policy.go:65-186 | in every run with room for it, an identifier is answered as if no other calls had been made |
| LoginIsolation.TenantsAreIndependent | pkg/starterapp/login_policy.go:200-205 | calls of other tenants never change what an identifier is answered while there is room |
| VoteLimiter.Limiter.Allow | reference/polls/pollmodule/voter.go:43-59 | verdict, retry delay and new buckets |
| VoteLimiter.Limiter.EvictExpired | reference/polls/pollmodule/voter.go:61-70 | only buckets whose window is over go, and only from a large map |
| VoteLimiter.EvictionIsUnobservable | reference/polls/pollmodule/voter.go:61-70 | every verdict of every run is that of a limiter that keeps all buckets |
| VoteLimiter.RateBound | reference/polls/pollmodule/voter.go:43-59 | ballots per key in any span, and at most 60 in a span shorter than the window |
| VoteLimiter.RetryIsExact | reference/polls/pollmodule/voter.go:52-55 | a retry delay is positive, at most a window, and the key is let through if and only if it has passed |
| VoteLimiter.FirstThirtyPass | reference/polls/pollmodule/voter.go:43-59 | exactly the first thirty ballots of a minute are let through, whoever votes in between |
| VoteLimiter.OtherBuckets | reference/polls/pollmodule/voter.go:43-70 | live buckets of other keys stay, and opening a window in a map of 512 buckets leaves no finished one |
| PollEntities.Draft.NormalizeAndValidate | reference/polls/pollmodule/entities.go:114-146 | accepts exactly the polls whose normal form is well formed, and leaves the normal form in place |
| PollEntities.Draft.NormalizeOptions | reference/polls/pollmodule/entities.go:147-170 | accepts exactly lists of present, short options that differ beyond case, and trims them |
| PollEntities.NormalizedTwice | reference/polls/pollmodule/entities.go:114-171 | normalisation is idempotent on accepted polls |
| PollCalls.SlugShapeMeans | reference/polls/pollmodule/entities.go:130-131 | a slug is alphanumeric words joined by single hyphens |
| PollCalls.AcceptedMeans | reference/polls/pollmodule/entities.go:114-171 | exactly which texts, statuses, options and closing times validation accepts |
| PollStore.Store.Create | reference/polls/pollmodule/store.go:56-97 | row and outbox entry together, or nothing |
| PollStore.Store.Update | reference/polls/pollmodule/store.go:99-145 | the mutable columns and the outbox entry together, or nothing |
| PollStore.Store.Delete | reference/polls/pollmodule/store.go:207-244 | the poll, its ballots and the outbox entry together, or nothing |
| PollStore.Store.SaveVote | reference/polls/pollmodule/store.go:246-301 | the lifecycle is checked again and one ballot per voter is inserted or replaced |
| PollCalls.BallotNeedsOpenPoll | reference/polls/pollmodule/store.go:246-301 | a ballot is stored if and only if the poll is published and open at the transaction; only the voter's own ballot changes |
| PollStore.Store.PendingAudit | reference/polls/pollmodule/store.go:351-392 | a batch of distinct pending entries, as large as the limit allows |
| PollStore.Store.MarkAuditDelivered | reference/polls/pollmodule/store.go:394-418 | marks exactly the pending row of the event, and fails when there is none |
| PollStore.Store.FindSlug | reference/polls/pollmodule/store.go:576-578 | whether another poll holds the slug, which the unique index refuses |
| PollStore.Store.Commit | reference/polls/pollmodule/store.go:533-555 | the audit entry is queued in the same transaction; a known event or a failure rolls all back |
| PollStore.PendingFromOutbox | reference/polls/pollmodule/store.go:351-392 | the pending list holds exactly the entries of the pending rows, each once |
| PollService.Service.CreatePoll | reference/polls/pollmodule/service.go:40-81 | new tables and outcome, for invalid and duplicate polls too |
| PollService.Service.Get | reference/polls/pollmodule/service.go:84-89 | finds a poll for its own tenant only |
| PollService.Service.UpdatePoll | reference/polls/pollmodule/service.go:130-174 | order of refusals, draft-only editing, new tables |
| PollService.Service.TransitionPoll | reference/polls/pollmodule/service.go:177-217 | order of refusals, allowed moves, new tables |
| PollService.Service.DeletePoll | reference/polls/pollmodule/service.go:221-256 | order of refusals, draft-only deletion, new tables |
| PollCalls.CreateStores | reference/polls/pollmodule/service.go:40-81 | the stored draft field by field, the log entry, and nothing else; nothing on failure |
| PollCalls.CreateAnswers | reference/polls/pollmodule/service.go:40-81 | exactly when a creation is invalid, duplicate or done |
| PollCalls.UpdateStores | reference/polls/pollmodule/service.go:130-174 | only the editable fields of that draft change |
| PollCalls.UpdateAnswers | reference/polls/pollmodule/service.go:130-174 | exactly when an update is a conflict, invalid, duplicate or done |
| PollCalls.TransitionStores | reference/polls/pollmodule/service.go:198-211 | only status and update time change; the closing time stays |
| PollCalls.DeleteRemoves | reference/polls/pollmodule/service.go:221-256 | that draft goes, with the ballots of its id |
| PollCalls.DeleteAnswers | reference/polls/pollmodule/service.go:235-237 | exactly when a deletion is a conflict or done |
| PollCalls.WhoIsRefused | reference/polls/pollmodule/service.go:358-369 | another tenant's poll is not found, and one's own tenant's is forbidden to all but author and moderators |
| Voting.GetPublicBySlug | reference/polls/pollmodule/service.go:93-104 | finds exactly the published or closed poll of the slug |
| Voting.Vote | reference/polls/pollmodule/service.go:259-299 | the verdict for the named poll, a failing store or count included; a stored ballot is the only change, and a success returns the counts |
| Voting.UndisturbedSteps | reference/polls/pollmodule/service.go:259-299 | the two steps of a vote, run alone, are the call: the transaction's check never contradicts the snapshot's |
| Voting.SnapshotMeans | reference/polls/pollmodule/service.go:265-281 | which votes get past the snapshot |
| Voting.SnapshotAnswers | reference/polls/pollmodule/service.go:265-281 | the answer of a refused snapshot, case by case |
| PollRuns.ManagementChanges | reference/polls/pollmodule/service.go:40-256 | every management call changes nothing, puts one poll or removes one draft, with the matching audit entry |
| PollRuns.TransitionRaises | reference/polls/pollmodule/service.go:371-382 | a transition succeeds if and only if it goes up the lifecycle by an allowed move, and sets the target |
| PollRuns.StepKeepsSound | reference/polls/pollmodule/store.go:56-301 | every step keeps the table invariant, every published poll and every ballot |
| PollRuns.OutboxReplaysToPolls | reference/polls/pollmodule/store.go:533-555 | in every reachable state, folding the outbox in commit order gives the polls' ids, slugs and statuses |
| PollRuns.BallotsStaySafe | reference/polls/pollmodule/store.go:246-301 | every stored ballot is of an existing poll past its draft, in range, and cast before closing |
| PollRuns.DeleteTakesNoBallot | reference/polls/pollmodule/service.go:235-237 | in every reachable state deletion removes no ballot |
| PollRuns.LifecycleIsOneWay | reference/polls/pollmodule/entities.go:182-191 | over every run a poll past its draft stays, frozen, and its effective status never goes back |
| PollRuns.StaleUpdate | reference/polls/pollmodule/service.go:138-168 | an update that read earlier keeps the lifecycle if and only if the poll is still a draft at the write |
| PollExceptions.StaleUpdateReverts | reference/polls/pollmodule/service.go:138-168 | a run in which an overtaken update turns a published poll with a ballot back into a draft |
| PollRuns.BallotsOnlyGrow | reference/polls/pollmodule/store.go:280-293 | the set of (poll, voter) pairs only grows |
| PollCalls.StoredPollsAreAcceptable | reference/polls/pollmodule/entities.go:114-171 | in every reachable state every stored poll is well formed |
| PollCalls.ClosedBallotsAreFinal | reference/polls/pollmodule/store.go:268-270 | over every run the ballots of a closed or archived poll never change |
| PollCalls.ClosingTimeHolds | reference/polls/pollmodule/store.go:271-279 | after publishing with a closing time, no later state stores a ballot cast at or after it |
| AuditDelivery.AuditLog.Record | reference/polls/pollmodule/service.go:333-342 | what FlushAudit relies on from the audit service |
| AuditDelivery.FlushAudit | reference/polls/pollmodule/service.go:321-350 | with no audit service, a failing query, an outage or a failing mark at any point, exactly the entries before it are marked and logged |
| AuditDelivery.ManageAndFlush | reference/polls/pollmodule/service.go:40-256 | a management call with the flush after its commit: the answer and tables of the call, with the entries before the first failure marked and logged |
| AuditDelivery.ExactlyOnceEffect | reference/polls/pollmodule/service.go:321-350 | each event is logged at most once, from the outbox only, and everything marked is logged |
| AuditDelivery.NothingPendingIsLost | reference/polls/pollmodule/store.go:394-418 | an enqueued entry stays for ever, and delivered ones stay delivered |
| AuditDelivery.MarkedIsLoggedIfHonest | reference/polls/pollmodule/service.go:333-346 | a marked entry is logged if and only if the answer taken as delivered was true |
| AuditDelivery.DeliveredMeans | reference/polls/pollmodule/service.go:339-342 | an answer counts as delivered exactly without error or with "unique" in any case |
| AuditDelivery.AnswerDecides | reference/polls/pollmodule/service.go:333-343 | among concurrent flushes, what one answer of the audit service does to the flush and to the log |
| AuditDelivery.MarkDecides | reference/polls/pollmodule/store.go:394-418 | a flush goes on exactly when its mark found the row waiting; only that row changes |
| AuditDelivery.FlushTakesABatch | reference/polls/pollmodule/service.go:321-350 | an undisturbed flush takes 100 pending entries, or all |
| AuditDelivery.OutboxDrains | reference/polls/pollmodule/service.go:321-350 | how many entries are left after k undisturbed flushes |
| AuditDelivery.FlushIsARun | reference/polls/pollmodule/service.go:321-350 | such a flush exists as a run of the system's steps |
| Tally.CountVotes | reference/polls/pollmodule/store.go:324-349 | the size of each group of ballots, with no empty group |
| Tally.SumCounts | reference/polls/pollmodule/handler.go:522-528 | the sum of the counts, in whatever order the map is walked |
| Tally.SumWithout | reference/polls/pollmodule/handler.go:522-528 | the sum does not depend on the order |
| Tally.TallyConserved | reference/polls/pollmodule/store.go:324-349 | the counts add up to the vote count and to the number of distinct voters |
| Tally.RevoteKeepsTotal | reference/polls/pollmodule/store.go:280-293 | a repeated vote adds nothing, a first vote adds one to its own poll |
| Tally.BuildOptions | reference/polls/pollmodule/public_page.go:124-138 | one view per option with its count, percentage and selection |
| Tally.PercentagesAddUp | reference/polls/pollmodule/public_page.go:124-138 | in every reachable state with a vote the n percentages add up to between 100 - (n - 1) and 100 |
| Tally.PercentIsShare | reference/polls/pollmodule/public_page.go:124-138 | a percentage is the share of the ballots that chose the option, rounded down, and zero while nobody has voted |
| Hex.DecodeEncode | reference/polls/pollmodule/store.go:420-461 | decoding inverts encoding |
| Hex.EncodeDecode | reference/polls/pollmodule/voter.go:122-125 | what decodes is exactly an even number of digits, and it encodes back in lower case |
| Hex.EncodeShows | reference/polls/pollmodule/store.go:433 | each byte is two lower-case digits, high one first |
| VoterSecret.SettingsStore.VoterSecret | reference/polls/pollmodule/store.go:420-461 | returns the stored secret, or stores and returns the new one |
| VoterSecret.StepKeepsSound | reference/polls/pollmodule/store.go:420-461 | a stored secret is never replaced, and callers hold only it |
| VoterSecret.CallersAgree | reference/polls/pollmodule/store.go:420-461 | callers interleaved statement by statement return the same secret, now and later |
| VoterSecret.VoterIdentity | reference/polls/pollmodule/voter.go:72-95 | the existing identity, or a new one with its cookie |
| VoterSecret.SecretShape | reference/polls/pollmodule/store.go:456-459 | a stored text is a secret exactly when it is 64 hexadecimal digits |
| VoterSecret.TokenShape | reference/polls/pollmodule/voter.go:122-125 | a token is 32 hexadecimal digits |
| VoterSecret.AccountIdentity | reference/polls/pollmodule/voter.go:98-101 | an account's identity is its tenant and subject, whatever the cookie and key |
| VoterSecret.AccountsAreApart | reference/polls/pollmodule/voter.go:98-101 | two accounts are one voter if and only if they are equal, for tenants without a colon |
| VoterSecret.ColonsCollide | reference/polls/pollmodule/voter.go:98-101 | two accounts that collide |
| VoterSecret.BrowsersAreApart | reference/polls/pollmodule/voter.go:97-114 | no account has the identity of a browser |
| VoterSecret.NoIdentity | reference/polls/pollmodule/voter.go:102-112 | exactly when an anonymous request has no identity |
| VoterSecret.IdentityOfCookie | reference/polls/pollmodule/voter.go:97-114 | an anonymous request has an identity if and only if its cookie is a valid token, a dot and its signature |
| VoterSecret.CookieRoundTrip | reference/polls/pollmodule/voter.go:72-125 | a minted cookie leads back to its voter for any caller at any later time |
| FreeNames.CandidatesDiffer | pkg/starterapp/seed/seed.go:140-161 | no candidate of a naming occurs twice |
| FreeNames.ProbesAreBounded | pkg/starterapp/seed/seed.go:140-161 | as many taken probes as there are taken names at most |
| FreeNames.FirstFreeFrom | pkg/starterapp/seed/seed.go:140-161 | the least free index, at most the number of taken names |
| FreeNames.FreeName | pkg/starterapp/seed/seed.go:231-293 | the name found is free |
| Seed.EmailCandidates | pkg/starterapp/seed/seed.go:238-255 | the addresses tried, in order |
| Seed.EmailShapeMeans | pkg/starterapp/seed/seed.go:89-94 | a valid address is a local part and a domain around one @ |
| Seed.Services.TenantBySlug | pkg/starterapp/seed/seed.go:140-161 | lookup by slug |
| Seed.Services.UserByEmail | pkg/starterapp/seed/seed.go:242-263 | lookup by email within the tenant |
| Seed.Services.UserByUsername | pkg/starterapp/seed/seed.go:272-292 | lookup by username within the tenant |
| Seed.Services.EnsureTenant | pkg/starterapp/seed/seed.go:131-171 | the tenant exists afterwards, new ones under the first free slug |
| Seed.Services.AvailableAdminEmail | pkg/starterapp/seed/seed.go:231-264 | the first free address, the user's own not counting as taken |
| Seed.Services.AvailableAdminUsername | pkg/starterapp/seed/seed.go:266-293 | the first free username |
| Seed.Services.EnsureAdminUser | pkg/starterapp/seed/seed.go:180-229 | creates the administrator, or gives it a missing password, or repairs it when allowed |
| Seed.Services.Run | pkg/starterapp/seed/seed.go:77-125 | accounts and result of a whole seed, refused parameters included |
| Seed.TenantKeepsSound | pkg/starterapp/seed/seed.go:131-171 | seeding the tenant keeps slugs unique |
| Seed.AdminKeepsSound | pkg/starterapp/seed/seed.go:180-229 | seeding the administrator keeps emails and usernames unique in a tenant |
| Seed.AdministratorMade | pkg/starterapp/seed/seed.go:206-229 | who is created: an active administrator with the given password, under the given address and "operator" if and only if these are free |
| Seed.OtherUsersUntouched | pkg/starterapp/seed/seed.go:180-229 | a seed leaves every other user alone, and of the administrator that was there all but the password |
| Seed.TenantMade | pkg/starterapp/seed/seed.go:131-171 | a new tenant takes the slug "local" if and only if it is free, and every other tenant stays |
| BootLedger.IdentityLedger.ResolveBootstrapIdentity | pkg/starterapp/bootstrap.go:49-104 | the call is the boot's first statements in order |
| BootLedger.IdentityLedger.RecordBootstrapIdentity | pkg/starterapp/bootstrap.go:110-146 | the identity row is committed, or nothing changes |
| BootLedger.RefusedWhen | pkg/starterapp/bootstrap.go:58-103 | exactly when an identity is refused, by the recorded row and the tenant of its user, and which one is returned otherwise |
| BootLedger.RecordedIsResolved | pkg/starterapp/bootstrap.go:106-146 | what one boot recorded the next one resolves, if and only if the administrator was not moved |
| Boot.StepKeepsSound | pkg/starterapp/app.go:172-215 | every statement, crash and application step keeps the boot invariant and a written ledger |
| Boot.NoBootIsRefused | pkg/starterapp/bootstrap.go:49-146 | no interleaving leads to a refusal, every boot has the one identity, and only the lock holder boots |
| Boot.LockIsNeverStuck | pkg/starterapp/app.go:172-215 | a replica can take the schema lock exactly while nobody boots, and an ended or crashed boot frees it, in every reachable state |
| Boot.LedgerIsForEver | pkg/starterapp/bootstrap.go:110-146 | the ledger is written once |
| Boot.CompletedBootSeeded | pkg/starterapp/app.go:343-360 | a boot that completes leaves administrator, password and ledger in place, and the tenant unless it was deleted meanwhile |
| Boot.BootsLeavePassword | pkg/starterapp/seed/seed.go:180-229 | over every interleaving of boots without repair, none of which is about to write a different one, a set password stays |
| Boot.AdvanceChangesPassword | pkg/starterapp/seed/seed.go:187-200 | a statement changes a set password if and only if it writes a different one; without repair, an application gave it since the boot began |
| Boot.PasswordSurvivesExactly | pkg/starterapp/seed/seed.go:187-200 | a set password outlives every run without repair if and only if no boot is about to write a different one |
| Boot.GivenPasswordIsOverwritten | pkg/starterapp/seed/seed.go:187-193 | a run from an initial state in which a boot without repair replaces a password given meanwhile |
| Boot.UninterruptedBootHeals | pkg/starterapp/app.go:172-215 | after any crashes a boot left alone completes with the accounts of one whole seed |
| Config.StripComment | pkg/starterapp/config.go:193-205 | cuts at the first '#' outside quotes |
| Config.LoadConfig | pkg/starterapp/config.go:132-190 | the configuration of a file, or of no file; refused lines, an unreadable file and a read that breaks off are errors |
| Config.EnvironmentIsLastAssigned | pkg/starterapp/config.go:132-190 | the environment is the value of the last line that assigns it, else production |
| ConfigSettings.AppliedExactly | pkg/starterapp/config.go:224-303 | which assignments are known, and that each changes its own setting only |
| ConfigSettings.AcceptedFiles | pkg/starterapp/config.go:160-189 | a file is accepted if and only if every line can be read |
| ConfigSettings.EverySettingIsLastAssigned | pkg/starterapp/config.go:160-189 | every setting has the value of the last line that assigns it in its section |
| ConfigSettings.WrittenLineIsRead | pkg/starterapp/config.go:192-221 | a written key and quoted value are read back, indentation, white space and comment around them |
| ConfigSettings.SeedParamsMean | pkg/starterapp/seed_params.go:28-69 | exactly which configurations seed, and with the configured address and password |
| Config.SeedParamsAreValid | pkg/starterapp/seed_params.go:28-69 | resolved parameters pass the seed's own checks and never hold the published password |
| PasswordRule.RepairIsDevelopment | pkg/starterapp/seed_params.go:28-69 | repair is on if and only if the file declares development |
| PasswordRule.BootsKeepPassword | pkg/starterapp/seed/seed.go:180-229 | over every sequence of files outside development a set password stays |
| PasswordRule.BootPassword | pkg/starterapp/seed/seed.go:180-229 | which password each successful boot ends with |
| PasswordRule.ParamsAreAsked | pkg/starterapp/seed_params.go:28-69 | address and password are those of the last lines that assign them |
| PasswordRule.SeededPasswordIsConfigured | pkg/starterapp/seed/seed.go:180-229 | a created administrator has the password of the last line that assigns seed.admin_password |
| PasswordRule.ParamsAreValid | pkg/starterapp/seed_params.go:28-69 | parameters of an accepted file are never refused by the seed |
| Migrations.InitialBody | reference/polls/pollmodule/migrations/0001_initial.up.sql:1-26 | on any schema: when the first body succeeds, and what it makes |
| Migrations.LifecycleBody | reference/polls/pollmodule/migrations/0002_lifecycle_and_audit.up.sql:1-35 | on any schema: the second body succeeds if and only if none of its columns is there, and what it makes |
| Migrations.LifecycleIsNotRepeatable | reference/polls/pollmodule/migrations/0002_lifecycle_and_audit.up.sql:1-35 | the second body fails on its own result |
| Migrations.IndexesBody | reference/polls/pollmodule/migrations/0003_release_indexes.up.sql:1-8 | on any schema: when the third body succeeds, and what it makes |
| Migrations.StepKeepsSound | reference/polls/pollmodule/migrations.go:29-86 | every statement and interruption keeps schema, ledger and point in step with the first schema |
| Migrations.LedgerIsAPrefix | reference/polls/pollmodule/migrations.go:57-86 | from any schema without migrations, interrupted anywhere: each version entered once in order, schema as the ledger says, and where a run stops of itself |
| Migrations.RunsEnd | reference/polls/pollmodule/migrations.go:29-86 | a run left alone after any interruptions stops at the point and with the ledger the first schema decides, missing columns and duplicate slugs included |
| Migrations.MigrationsConverge | reference/polls/pollmodule/migrations.go:29-86 | a run left alone applies all migrations if and only if the first schema was upgradable |
| Migrations.OldReleasesReachCurrent | reference/polls/pollmodule/migrations.go:164-227 | a fresh database and one of the first release reach the one current schema |
| Migrations.ExtraColumnIsStuck | reference/polls/pollmodule/migrations.go:175-187 | a table the adoption check accepts and no run can upgrade |
| Migrations.NewerSchemaUntouched | reference/polls/pollmodule/migrations.go:147-162 | a ledger with a newer version is refused and nothing is changed |
| Migrations.Runner.Migrate | reference/polls/pollmodule/migrations.go:29-86 | a whole run, adoption included, ends where its statements lead |
| Migrations.Runner.ApplyAll | reference/polls/pollmodule/migrations.go:57-86 | the loop over the migrations, each with its ledger row in one transaction |
| Paths.CleanFixes | pkg/starterapp/openapi.go:46-54 | a rooted path is canonical if and only if it is the root or has no empty, dot or dot-dot segment |
| OpenApi.CompletedTwice | pkg/starterapp/openapi.go:27-32 | normalising an operation twice is normalising it once |
| OpenApi.Catalog.ValidateOperation | pkg/starterapp/openapi.go:27-91 | the first fault in the order of the checks, or the operation rewritten and its names claimed |
| OpenApi.Catalog.ValidateOperations | pkg/starterapp/openapi.go:21-94 | accepts exactly when all claims together are well declared and free of clashes; a refusal is the first faulty operation's |
| OpenApi.WellDeclaredMeans | pkg/starterapp/openapi.go:34-82 | exactly which declarations are well formed, in terms of what was declared |
| OpenApi.LetterMeans | pkg/starterapp/openapi.go:19 | the letters an operation ID may hold |
| OpenApi.Catalog.Contribute | pkg/starterapp/app.go:415-441 | a module joins exactly when it names itself freshly, has routes and its operations fit |
| OpenApi.Catalog.ContributeAll | pkg/starterapp/app.go:404-442 | the set is accepted if and only if it is admissible as a whole, shared slices included |
| OpenApi.AcceptedModules | pkg/starterapp/app.go:404-442 | the accepted sets: fresh distinct module names with routes, well-formed operations, and a slot and an operation ID for each operation alone |
| OpenApi.Render | pkg/starterapp/openapi.go:156-174 | each slot of the document holds the last operation that goes there, and there are no others |
| OpenApi.RenderedIsLossless | pkg/starterapp/openapi.go:156-174 | no operation is overwritten if and only if no two go to one slot |
| OpenApi.RouteIsSlot | pkg/starterapp/openapi.go:83-91 | the text compared for duplicates separates exactly the document's slots |
| OpenApi.Conservation | pkg/starterapp/openapi.go:156-174 | for every accepted set of modules: one entry per declared operation, as normalised, each operation ID once |
| OpenApi.EveryDeclarationIsShown | pkg/starterapp/openapi.go:156-174 | each declared operation stands in its slot with its own texts, status and protection |

## Left out

- Concurrent interleaving inside Create, Update, Transition and Delete: they are single steps, see `StaleUpdate`.
- PollStore.Store.PendingAudit: does not model the order of the batch, because it sorts stored time texts and random ids; any batch of pending entries of the right size is allowed.
- AuditDelivery.FlushAudit: other flushers do not run during the call; the steps of `PollRuns` have them.
- PollService.Service.CreatePoll: ends at the commit; the flush that follows is in `AuditDelivery.ManageAndFlush`.
- PollService.Service.UpdatePoll: ends at the commit; the flush that follows is in `AuditDelivery.ManageAndFlush`.
- PollService.Service.TransitionPoll: ends at the commit; the flush that follows is in `AuditDelivery.ManageAndFlush`.
- PollService.Service.DeletePoll: ends at the commit; the flush that follows is in `AuditDelivery.ManageAndFlush`.
- PollEntities.Draft.NormalizeAndValidate: case mapping is ASCII only, and a closing time is an instant, so its zone is not modelled.
- AuditDelivery.AuditLog.Record: the audit service is outside this repository; this is its contract, not its code.
- LoginPolicy.SpellingsShareAKey: case mapping is ASCII only; so are the poll slug and option comparison and the HTTP method.
- Config.LoadConfig: the file arrives as lines, perhaps cut off; line splitting, line numbers in errors and duration syntax are not modelled.
- Seed.Services.Run: the tenant and user services are tables with exact-match lookups and unique columns; their own validation and errors are not modelled.
- VoterSecret.CookieRoundTrip: the signature is a parameter, so nothing is said about forgery.
- Migrations.LedgerIsAPrefix: rows matter only through whether stored slugs are distinct; the default values and the filled columns are not modelled, nor is an operator who repairs the database between runs.
- OpenApi.Catalog.Contribute: the composition entry and the API-key scopes of a module are not modelled.
- Time texts, JSON columns, metrics, audit severity and details: encoding without an invariant.
- Integer overflow of counters and times, and real-time behaviour of the mutexes: each locked region is one step.
- The migration file names and their sorting: the three embedded files are a constant.
- Listing and paging of polls, the current vote of a voter, the retry header: single reads with no further property.
- Branding seed, HTTP handlers, pages, scopes, cross-site and body-limit middleware, serving, driver selection and SQL text per engine.
- The second reference module: its store and its migration runner are simpler than those of the polls.
