/** Booting (pkg/starterapp/app.go, bootstrap.go, schemalock.go and seed.go): replicas that
    boot one statement at a time under the schema lock, crash anywhere, and share the
    database with running instances of the application. */
module Boot {
  import opened FreeNames
  import opened Options
  import Seed

  datatype Identity = Identity(tenantID: string, userID: string)

  /** The identity a fresh database takes. */
  const RESERVED := Identity(Seed.TENANT_ID, Seed.USER_ID)

  /** The ledger table, its one row, and the tenants and users. */
  datatype Database = Database(ledgerTable: bool, ledger: Option<Identity>, accounts: Seed.Accounts)

  datatype Refusal = EmptyIdentity | MovedAdministrator | Collision | LedgerMismatch

  /** Where a boot is: what its last statement told it. */
  datatype Point =
    | Opened
    | SawLedgerTable(there: bool)
    | ReadLedger(id: Identity)
    | NoLedgerRow
    | CountedTenant(there: bool)
    | Resolved(id: Identity)
    | Recorded(id: Identity)
    | ProbingSlug(id: Identity, n: nat)
    | CreatingTenant(id: Identity, slug: string)
    | TenantReady(id: Identity)
    | VerifyingPassword(id: Identity)
    | ProbingEmail(id: Identity, n: nat)
    | ProbingUsername(id: Identity, email: string, n: nat)
    | CreatingUser(id: Identity, email: string, username: string)
    | SettingPassword(id: Identity)
    | Checking(id: Identity)
    | Booted(id: Identity)
    | Refused(reason: Refusal)
    | Aborted

  function UserTenant(d: Database, userID: string): Option<string> {
    if userID in d.accounts.users then Some(d.accounts.users[userID].tenantID) else None
  }

  predicate AdminPresent(a: Seed.Accounts, id: Identity) {
    id.userID in a.users && a.users[id.userID].tenantID == id.tenantID
  }

  function WithTenantRow(d: Database, id: string, slug: string): Database {
    d.(accounts := d.accounts.(tenants := d.accounts.tenants[id := Seed.Tenant(slug, Seed.TENANT_NAME)]))
  }

  function WithUserRow(d: Database, id: string, row: Seed.User): Database {
    d.(accounts := d.accounts.(users := d.accounts.users[id := row]))
  }

  function OtherEmails(d: Database, id: Identity): set<string> {
    Seed.TakenEmails(d.accounts.users - {id.userID}, id.tenantID)
  }

  function OtherUsernames(d: Database, id: Identity): set<string> {
    Seed.TakenUsernames(d.accounts.users - {id.userID}, id.tenantID)
  }

  /** The identity transaction: create the table, insert the row unless there is one, read it
      back, and commit only if it is the resolved identity. */
  function Record(d: Database, id: Identity): (Database, Point) {
    var recorded := if d.ledger.Some? then d.ledger.value else id;
    if id.tenantID == "" || id.userID == "" then (d, Aborted)
    else if recorded != id then (d, Refused(LedgerMismatch))
    else (d.(ledgerTable := true, ledger := Some(recorded)), Recorded(id))
  }

  function FindTenantSlug(d: Database, id: Identity, n: nat): Point {
    var slug := Seed.SLUGS.Candidate(n);
    if slug !in Seed.TakenSlugs(d.accounts.tenants) then CreatingTenant(id, slug)
    else if id.tenantID in d.accounts.tenants && d.accounts.tenants[id.tenantID].slug == slug then TenantReady(id)
    else ProbingSlug(id, n + 1)
  }

  function FindAdmin(d: Database, p: Seed.Params, id: Identity): Point {
    if !AdminPresent(d.accounts, id) then (if Seed.Splittable(p.email) then ProbingEmail(id, 0) else Aborted)
    else if d.accounts.users[id.userID].password.Missing? then SettingPassword(id)
    else if p.repair then VerifyingPassword(id)
    else Checking(id)
  }

  /** The next statement of a boot: its effect and what it tells. */
  function Statement(d: Database, p: Seed.Params, at: Point): (Database, Point) {
    match at
    case Opened => (d, SawLedgerTable(d.ledgerTable))
    case SawLedgerTable(there) =>
      (d, if !there || d.ledger.None? then NoLedgerRow
          else if d.ledger.value.tenantID == "" || d.ledger.value.userID == "" then Refused(EmptyIdentity)
          else ReadLedger(d.ledger.value))
    case ReadLedger(id) =>
      (d, if UserTenant(d, id.userID).Some? && UserTenant(d, id.userID).value != id.tenantID then
            Refused(MovedAdministrator)
          else Resolved(id))
    case NoLedgerRow => (d, CountedTenant(RESERVED.tenantID in d.accounts.tenants))
    case CountedTenant(there) =>
      (d, if there || UserTenant(d, RESERVED.userID).Some? then Refused(Collision) else Resolved(RESERVED))
    case Resolved(id) => Record(d, id)
    case Recorded(id) => (d, if id.tenantID in d.accounts.tenants then TenantReady(id) else ProbingSlug(id, 0))
    case ProbingSlug(id, n) => (d, FindTenantSlug(d, id, n))
    case CreatingTenant(id, slug) =>
      if id.tenantID in d.accounts.tenants || slug in Seed.TakenSlugs(d.accounts.tenants) then (d, Aborted)
      else (WithTenantRow(d, id.tenantID, slug), TenantReady(id))
    case TenantReady(id) => (d, FindAdmin(d, p, id))
    case VerifyingPassword(id) =>
      (d, if AdminPresent(d.accounts, id) && d.accounts.users[id.userID].password == Seed.Set(p.password) then
            Checking(id)
          else SettingPassword(id))
    case ProbingEmail(id, n) =>
      if !Seed.Splittable(p.email) then (d, Aborted)
      else
        var email := Seed.EmailNaming(p.email).Candidate(n);
        (d, if email in OtherEmails(d, id) then ProbingEmail(id, n + 1) else ProbingUsername(id, email, 0))
    case ProbingUsername(id, email, n) =>
      var username := Seed.USERNAMES.Candidate(n);
      (d, if username in OtherUsernames(d, id) then ProbingUsername(id, email, n + 1)
          else CreatingUser(id, email, username))
    case CreatingUser(id, email, username) =>
      if id.userID in d.accounts.users || email in OtherEmails(d, id) || username in OtherUsernames(d, id) then
        (d, Aborted)
      else
        var row := Seed.User(id.tenantID, email, username, Seed.USER_DISPLAY, true, Seed.Missing);
        (WithUserRow(d, id.userID, row), SettingPassword(id))
    case SettingPassword(id) =>
      if !AdminPresent(d.accounts, id) then (d, Aborted)
      else (WithUserRow(d, id.userID, d.accounts.users[id.userID].(password := Seed.Set(p.password))), Checking(id))
    case Checking(id) => (d, if AdminPresent(d.accounts, id) then Booted(id) else Aborted)
    case Booted(_) => (d, at)
    case Refused(_) => (d, at)
    case Aborted => (d, at)
  }

  datatype Replica = Replica(params: Seed.Params, at: Point)

  /** The database, who holds the schema lock, and the replicas that are booting. The last
      two fields are history: since the lock was taken, an application deleted the bootstrap
      tenant, or gave the administrator a first password. */
  datatype System = System(
    home: Identity,
    d: Database,
    lock: Option<nat>,
    replicas: map<nat, Replica>,
    tenantDeleted: bool,
    passwordGiven: bool)

  datatype Step =
    | Acquire(r: nat, params: Seed.Params)
    | Advance(r: nat)
    | Release(r: nat)
    | Crash(r: nat)
    | Application(accounts: Seed.Accounts)

  predicate Ended(at: Point) {
    at.Booted? || at.Refused? || at.Aborted?
  }

  /** An application may do anything to the accounts except create the bootstrap identifiers,
      move the administrator to another tenant, or erase its password. */
  predicate ApplicationMay(home: Identity, a: Seed.Accounts, a': Seed.Accounts) {
    && (home.tenantID in a'.tenants ==> home.tenantID in a.tenants)
    && (home.userID in a'.users ==>
          && home.userID in a.users && a'.users[home.userID].tenantID == a.users[home.userID].tenantID
          && (a.users[home.userID].password.Set? ==> a'.users[home.userID].password.Set?))
  }

  predicate Enabled(s: System, step: Step) {
    match step
    case Acquire(r, _) => s.lock == None && r !in s.replicas
    case Advance(r) => r in s.replicas && !Ended(s.replicas[r].at)
    case Release(r) => r in s.replicas && Ended(s.replicas[r].at)
    case Crash(r) => r in s.replicas
    case Application(a) => ApplicationMay(s.home, s.d.accounts, a)
  }

  function Next(s: System, step: Step): System {
    match step
    case Acquire(r, params) =>
      s.(lock := Some(r), replicas := s.replicas[r := Replica(params, Opened)], tenantDeleted := false,
          passwordGiven := false)
    case Advance(r) => if r in s.replicas then Advanced(s, r) else s
    case Release(r) => s.(lock := if s.lock == Some(r) then None else s.lock, replicas := s.replicas - {r})
    case Crash(r) => s.(lock := if s.lock == Some(r) then None else s.lock, replicas := s.replicas - {r})
    case Application(a) =>
      s.(d := s.d.(accounts := a),
         tenantDeleted := s.tenantDeleted || (s.home.tenantID in s.d.accounts.tenants && s.home.tenantID !in a.tenants),
         passwordGiven := s.passwordGiven || (PasswordMissing(s.d.accounts, s.home) && !PasswordMissing(a, s.home)))
  }

  predicate PasswordMissing(a: Seed.Accounts, home: Identity) {
    home.userID !in a.users || a.users[home.userID].password.Missing?
  }

  function Advanced(s: System, r: nat): System
    requires r in s.replicas
  {
    var (d', at') := Statement(s.d, s.replicas[r].params, s.replicas[r].at);
    s.(d := d', replicas := s.replicas[r := s.replicas[r].(at := at')])
  }

  function Run(s: System, steps: seq<Step>): System {
    if steps == [] then s else Next(Run(s, steps[..|steps| - 1]), steps[|steps| - 1])
  }

  predicate Possible(s: System, steps: seq<Step>) {
    steps == [] || (Possible(s, steps[..|steps| - 1]) && Enabled(Run(s, steps[..|steps| - 1]), steps[|steps| - 1]))
  }

  /** Nobody boots yet, and the database is either empty of bootstrap rows, or carries the
      ledger of an earlier release with its administrator, if any, in the recorded tenant. */
  predicate Initial(s: System) {
    && s.lock == None && s.replicas == map[] && s.home.tenantID != "" && s.home.userID != ""
    && DatabaseSound(s.home, s.d)
  }

  const EMPTY_DATABASE := Database(false, None, Seed.Accounts(map[], map[]))

  predicate DatabaseSound(home: Identity, d: Database) {
    && (d.ledger.Some? ==> d.ledgerTable && d.ledger.value == home)
    && (d.ledger.None? ==> home == RESERVED && home.tenantID !in d.accounts.tenants && home.userID !in d.accounts.users)
    && (home.userID in d.accounts.users ==> d.accounts.users[home.userID].tenantID == home.tenantID)
  }

  /** The identity a boot has settled on, once it has. */
  function IdentityOf(at: Point): Option<Identity> {
    match at
    case ReadLedger(id) => Some(id)
    case Resolved(id) => Some(id)
    case Recorded(id) => Some(id)
    case ProbingSlug(id, _) => Some(id)
    case CreatingTenant(id, _) => Some(id)
    case TenantReady(id) => Some(id)
    case VerifyingPassword(id) => Some(id)
    case ProbingEmail(id, _) => Some(id)
    case ProbingUsername(id, _, _) => Some(id)
    case CreatingUser(id, _, _) => Some(id)
    case SettingPassword(id) => Some(id)
    case Checking(id) => Some(id)
    case Booted(id) => Some(id)
    case _ => None
  }

  predicate PastTenant(at: Point) {
    at.TenantReady? || at.VerifyingPassword? || at.ProbingEmail? || at.ProbingUsername? || at.CreatingUser?
    || at.SettingPassword? || at.Checking? || at.Booted?
  }

  predicate BeforeRecord(at: Point) {
    at.Opened? || at.SawLedgerTable? || at.NoLedgerRow? || at.CountedTenant? || at.Resolved? || Ended(at)
  }

  predicate PasswordSet(a: Seed.Accounts, home: Identity) {
    home.userID in a.users ==> a.users[home.userID].password.Set?
  }

  /** What holds of the database while a boot, alone under the lock, is at a point. */
  predicate PointSound(s: System, rep: Replica) {
    var at, d := rep.at, s.d;
    && !at.Refused?
    && (IdentityOf(at).Some? ==> IdentityOf(at).value == s.home)
    && (!BeforeRecord(at) || at.Booted? ==> d.ledger == Some(s.home))
    && (at.SawLedgerTable? ==> at.there == d.ledgerTable)
    && (at.NoLedgerRow? || at.CountedTenant? ==> d.ledger == None)
    && (at.CountedTenant? ==> !at.there)
    && (PastTenant(at) ==> s.home.tenantID in d.accounts.tenants || s.tenantDeleted)
    && (at.VerifyingPassword? ==> rep.params.repair)
    && (at.Checking? || at.Booted? ==> PasswordSet(d.accounts, s.home))
    && (at.SettingPassword? ==> rep.params.repair || PasswordMissing(d.accounts, s.home) || s.passwordGiven)
  }

  predicate Sound(s: System) {
    && s.home.tenantID != "" && s.home.userID != ""
    && DatabaseSound(s.home, s.d)
    && forall r | r in s.replicas :: s.lock == Some(r) && PointSound(s, s.replicas[r])
  }

  predicate Resolving(at: Point) {
    at.Opened? || at.SawLedgerTable? || at.ReadLedger? || at.NoLedgerRow? || at.CountedTenant? || at.Resolved?
  }

  predicate SeedingTenant(at: Point) {
    at.Recorded? || at.ProbingSlug? || at.CreatingTenant? || at.TenantReady? || at.VerifyingPassword?
  }

  lemma ResolvingKeepsSound(s: System, r: nat)
    requires Sound(s) && r in s.replicas && Resolving(s.replicas[r].at)
    ensures DatabaseSound(s.home, Advanced(s, r).d) && PointSound(Advanced(s, r), Advanced(s, r).replicas[r])
  {
  }

  lemma SeedingTenantKeepsSound(s: System, r: nat)
    requires Sound(s) && r in s.replicas && SeedingTenant(s.replicas[r].at)
    ensures DatabaseSound(s.home, Advanced(s, r).d) && PointSound(Advanced(s, r), Advanced(s, r).replicas[r])
  {
    hide Record, OtherEmails, OtherUsernames, Seed.TakenSlugs, Seed.EmailNaming, Seed.Splittable;
  }

  lemma SeedingAdminKeepsSound(s: System, r: nat)
    requires Sound(s) && r in s.replicas && !Resolving(s.replicas[r].at) && !SeedingTenant(s.replicas[r].at)
    ensures DatabaseSound(s.home, Advanced(s, r).d) && PointSound(Advanced(s, r), Advanced(s, r).replicas[r])
  {
    hide Record, FindTenantSlug, OtherEmails, OtherUsernames, Seed.TakenSlugs, Seed.EmailNaming, Seed.Splittable;
  }

  lemma StatementKeepsSound(s: System, r: nat)
    requires Sound(s) && r in s.replicas
    ensures DatabaseSound(s.home, Advanced(s, r).d) && PointSound(Advanced(s, r), Advanced(s, r).replicas[r])
  {
    hide *;
    if Resolving(s.replicas[r].at) {
      ResolvingKeepsSound(s, r);
    } else if SeedingTenant(s.replicas[r].at) {
      SeedingTenantKeepsSound(s, r);
    } else {
      SeedingAdminKeepsSound(s, r);
    }
  }

  lemma ApplicationKeepsSound(s: System, a: Seed.Accounts, rep: Replica)
    requires Sound(s) && ApplicationMay(s.home, s.d.accounts, a) && PointSound(s, rep)
    ensures DatabaseSound(s.home, Next(s, Application(a)).d) && PointSound(Next(s, Application(a)), rep)
  {
  }

  lemma StepKeepsSound(s: System, step: Step)
    requires Sound(s) && Enabled(s, step)
    ensures Sound(Next(s, step)) && Next(s, step).home == s.home
    ensures s.d.ledger.Some? ==> Next(s, step).d.ledger == s.d.ledger
  {
    match step
    case Advance(r) =>
      StatementKeepsSound(s, r);
      hide Statement, PointSound;
      forall q | q in Next(s, step).replicas
        ensures q == r
      {
        assert q in s.replicas;
      }
    case Application(a) =>
      forall r | r in s.replicas
        ensures PointSound(Next(s, step), s.replicas[r])
      {
        ApplicationKeepsSound(s, a, s.replicas[r]);
      }
      ApplicationKeepsSound(s, a, Replica(Seed.Params("", "", false, "", ""), Aborted));
    case Acquire(_, _) =>
    case Release(_) =>
    case Crash(_) =>
  }

  lemma {:induction false} RunKeepsSound(s: System, steps: seq<Step>)
    requires Sound(s) && Possible(s, steps)
    ensures Sound(Run(s, steps)) && Run(s, steps).home == s.home
    ensures s.d.ledger.Some? ==> Run(s, steps).d.ledger == s.d.ledger
  {
    if steps != [] {
      RunKeepsSound(s, steps[..|steps| - 1]);
      StepKeepsSound(Run(s, steps[..|steps| - 1]), steps[|steps| - 1]);
    }
  }

  /** No boot is ever refused, and all boots settle on one identity for ever. */
  lemma NoBootIsRefused(s: System, steps: seq<Step>, r: nat)
    requires Initial(s) && Possible(s, steps) && r in Run(s, steps).replicas
    ensures var at := Run(s, steps).replicas[r].at;
            !at.Refused? && (IdentityOf(at).Some? ==> IdentityOf(at).value == s.home)
    ensures Run(s, steps).lock == Some(r)
  {
    RunKeepsSound(s, steps);
  }

  /** The schema lock is held by exactly the replica that boots. */
  predicate LockHeld(s: System) {
    s.replicas.Keys == match s.lock case None => {} case Some(r) => {r}
  }

  lemma {:induction false} LockIsHeld(s: System, steps: seq<Step>)
    requires Initial(s) && Possible(s, steps)
    ensures LockHeld(Run(s, steps))
  {
    if steps != [] {
      LockIsHeld(s, steps[..|steps| - 1]);
      LockStep(Run(s, steps[..|steps| - 1]), steps[|steps| - 1]);
    }
  }

  lemma LockStep(s: System, step: Step)
    requires Enabled(s, step) && LockHeld(s)
    ensures LockHeld(Next(s, step))
  {
    hide Statement, ApplicationMay;
  }

  /** The lock is never left behind: a replica can take it exactly while nobody boots, and
      whoever boots gives it free by ending or by crashing, at any point. */
  lemma LockIsNeverStuck(s: System, steps: seq<Step>, r: nat, p: Seed.Params)
    requires Initial(s) && Possible(s, steps)
    ensures var now := Run(s, steps);
            && (Enabled(now, Acquire(r, p)) <==> now.replicas == map[])
            && (forall q | q in now.replicas ::
                  && now.replicas.Keys == {q} && Enabled(now, Crash(q))
                  && Enabled(Next(now, Crash(q)), Acquire(r, p))
                  && (Enabled(now, Release(q)) <==> now.replicas[q].at.Booted? || now.replicas[q].at.Aborted?)
                  && Next(now, Release(q)) == Next(now, Crash(q)))
  {
    LockIsHeld(s, steps);
    RunKeepsSound(s, steps);
    var now := Run(s, steps);
    hide Run, Possible, DatabaseSound;
    assert now.replicas == map[] <==> now.replicas.Keys == {};
  }

  /** The ledger is written once: whatever it holds at one time it holds for ever. */
  lemma LedgerIsForEver(s: System, past: seq<Step>, steps: seq<Step>)
    requires Initial(s) && Possible(s, past) && Possible(Run(s, past), steps)
    requires Run(s, past).d.ledger.Some?
    ensures Run(Run(s, past), steps).d.ledger == Run(s, past).d.ledger == Some(s.home)
  {
    RunKeepsSound(s, past);
    RunKeepsSound(Run(s, past), steps);
  }

  /** A boot that completes leaves the administrator in place with a password, and the
      tenant too unless an application deleted it meanwhile. */
  lemma CompletedBootSeeded(s: System, steps: seq<Step>, r: nat)
    requires Initial(s) && Possible(s, steps) && r in Run(s, steps).replicas
    requires Run(s, steps).replicas[r].at.Checking? && Advanced(Run(s, steps), r).replicas[r].at.Booted?
    ensures var s' := Advanced(Run(s, steps), r);
            && AdminPresent(s'.d.accounts, s.home) && s'.d.accounts.users[s.home.userID].password.Set?
            && (s.home.tenantID in s'.d.accounts.tenants || s'.tenantDeleted)
            && s'.d.ledger == Some(s.home)
  {
    RunKeepsSound(s, steps);
    StatementKeepsSound(Run(s, steps), r);
  }

  // ---- passwords under interleaving -----------------------------------------------------

  predicate HasPassword(a: Seed.Accounts, home: Identity, password: string) {
    home.userID in a.users && a.users[home.userID].password == Seed.Set(password)
  }

  /** The replica is about to write a password other than this one. */
  predicate Overwrites(rep: Replica, password: string) {
    rep.at.SettingPassword? && rep.params.password != password
  }

  /** A statement of a boot changes a password that is set exactly when it is the write of a
      different one. Without repair, that boot saw no password when it looked: an application
      gave this one since the boot took the lock. */
  lemma AdvanceChangesPassword(s: System, r: nat, password: string)
    requires Sound(s) && r in s.replicas && HasPassword(s.d.accounts, s.home, password)
    ensures !HasPassword(Advanced(s, r).d.accounts, s.home, password) <==> Overwrites(s.replicas[r], password)
    ensures Overwrites(s.replicas[r], password) && !s.replicas[r].params.repair ==> s.passwordGiven
  {
    hide FindTenantSlug, FindAdmin, OtherEmails, OtherUsernames, Seed.EmailNaming, Seed.Splittable;
  }

  /** Boots that may not repair, and applications that leave the password alone. */
  predicate LeavesPassword(home: Identity, password: string, step: Step) {
    && (step.Acquire? ==> !step.params.repair)
    && (step.Application? ==> HasPassword(step.accounts, home, password))
  }

  predicate PasswordHeld(s: System, password: string) {
    && HasPassword(s.d.accounts, s.home, password)
    && forall r | r in s.replicas :: !s.replicas[r].params.repair && !Overwrites(s.replicas[r], password)
  }

  lemma AdvanceHoldsPassword(s: System, r: nat, password: string)
    requires Sound(s) && r in s.replicas && PasswordHeld(s, password)
    ensures !Overwrites(Advanced(s, r).replicas[r], password)
  {
    hide OtherEmails, OtherUsernames, Seed.EmailNaming, Seed.Splittable;
  }

  lemma StepLeavesPassword(s: System, step: Step, password: string)
    requires Sound(s) && Enabled(s, step) && LeavesPassword(s.home, password, step) && PasswordHeld(s, password)
    ensures PasswordHeld(Next(s, step), password)
  {
    if step.Advance? {
      AdvanceChangesPassword(s, step.r, password);
      AdvanceHoldsPassword(s, step.r, password);
    }
    hide Statement, Sound;
  }

  /** No interleaving of boots outside development, crashes included, changes a password that
      is set, unless a boot that saw none is about to write its own. */
  lemma {:induction false} BootsLeavePassword(s: System, steps: seq<Step>, password: string)
    requires Sound(s) && Possible(s, steps) && PasswordHeld(s, password)
    requires forall step | step in steps :: LeavesPassword(s.home, password, step)
    ensures HasPassword(Run(s, steps).d.accounts, s.home, password) && PasswordHeld(Run(s, steps), password)
  {
    if steps != [] {
      var before := steps[..|steps| - 1];
      BootsLeavePassword(s, before, password);
      RunKeepsSound(s, before);
      StepLeavesPassword(Run(s, before), steps[|steps| - 1], password);
    }
  }

  predicate Survives(s: System, steps: seq<Step>, password: string) {
    Possible(s, steps) && (forall step | step in steps :: LeavesPassword(s.home, password, step)) ==>
      HasPassword(Run(s, steps).d.accounts, s.home, password)
  }

  /** A set password outlives every run that neither repairs nor lets an application replace
      it, if and only if no boot is about to write a different one. */
  lemma PasswordSurvivesExactly(s: System, password: string)
    requires Sound(s) && HasPassword(s.d.accounts, s.home, password)
    requires forall r | r in s.replicas :: !s.replicas[r].params.repair
    ensures (forall steps: seq<Step> :: Survives(s, steps, password))
       <==> forall r | r in s.replicas :: !Overwrites(s.replicas[r], password)
  {
    if r :| r in s.replicas && Overwrites(s.replicas[r], password) {
      OneStep(s, Advance(r));
      AdvanceChangesPassword(s, r, password);
      assert !Survives(s, [Advance(r)], password);
    } else {
      forall steps: seq<Step> | Possible(s, steps)
          && forall step | step in steps :: LeavesPassword(s.home, password, step)
        ensures Survives(s, steps, password)
      {
        BootsLeavePassword(s, steps, password);
      }
    }
  }

  lemma OneStep(s: System, step: Step)
    requires Enabled(s, step)
    ensures Possible(s, [step]) && Run(s, [step]) == Next(s, step)
  {
    assert [step][..0] == [];
  }

  // The exception is reachable: a boot that saw no password overwrites one given meanwhile.

  lemma RunSnoc(s: System, steps: seq<Step>, step: Step)
    ensures Run(s, steps + [step]) == Next(Run(s, steps), step)
    ensures Possible(s, steps + [step]) <==> Possible(s, steps) && Enabled(Run(s, steps), step)
  {
    assert (steps + [step])[..|steps|] == steps;
  }

  function Alone(d: Database, p: Seed.Params, at: Point): System {
    System(RESERVED, d, Some(0), map[0 := Replica(p, at)], false, false)
  }

  lemma AdvanceAlone(s: System, steps: seq<Step>, d: Database, p: Seed.Params, at: Point) returns (longer: seq<Step>)
    requires Possible(s, steps) && Run(s, steps) == Alone(d, p, at)
    requires !at.Booted? && !at.Refused? && !at.Aborted?
    ensures longer == steps + [Advance(0)] && Possible(s, longer)
    ensures Run(s, longer) == Alone(Statement(d, p, at).0, p, Statement(d, p, at).1)
  {
    hide Statement;
    longer := steps + [Advance(0)];
    RunSnoc(s, steps, Advance(0));
    assert map[0 := Replica(p, at)][0 := Replica(p, Statement(d, p, at).1)]
        == map[0 := Replica(p, Statement(d, p, at).1)];
  }

  const UNFINISHED := Database(true, Some(RESERVED), Seed.Accounts(
    map[RESERVED.tenantID := Seed.Tenant("acme", "Acme")],
    map[RESERVED.userID := Seed.User(RESERVED.tenantID, "a@b", "admin", "Admin", true, Seed.Missing)]))

  function Given(password: string): Seed.Accounts {
    UNFINISHED.accounts.(users :=
      map[RESERVED.userID := UNFINISHED.accounts.users[RESERVED.userID].(password := Seed.Set(password))])
  }

  lemma SeesNoPassword(p: Seed.Params)
    requires !p.repair
    ensures Statement(UNFINISHED, p, Opened) == (UNFINISHED, SawLedgerTable(true))
    ensures Statement(UNFINISHED, p, SawLedgerTable(true)) == (UNFINISHED, ReadLedger(RESERVED))
    ensures Statement(UNFINISHED, p, ReadLedger(RESERVED)) == (UNFINISHED, Resolved(RESERVED))
    ensures Statement(UNFINISHED, p, Resolved(RESERVED)) == (UNFINISHED, Recorded(RESERVED))
    ensures Statement(UNFINISHED, p, Recorded(RESERVED)) == (UNFINISHED, TenantReady(RESERVED))
    ensures Statement(UNFINISHED, p, TenantReady(RESERVED)) == (UNFINISHED, SettingPassword(RESERVED))
  {
  }

  lemma Acquired(s: System, p: Seed.Params)
    requires s == System(RESERVED, UNFINISHED, None, map[], false, false)
    ensures Possible(s, [Acquire(0, p)]) && Run(s, [Acquire(0, p)]) == Alone(UNFINISHED, p, Opened)
  {
    RunSnoc(s, [], Acquire(0, p));
    assert [] + [Acquire(0, p)] == [Acquire(0, p)];
    assert map[][0 := Replica(p, Opened)] == map[0 := Replica(p, Opened)];
  }

  /** The boot reads that the administrator has no password. */
  lemma BootSeesNoPassword(s: System, p: Seed.Params) returns (steps: seq<Step>)
    requires s == System(RESERVED, UNFINISHED, None, map[], false, false) && !p.repair
    ensures Possible(s, steps) && Run(s, steps) == Alone(UNFINISHED, p, SettingPassword(RESERVED))
    ensures steps == [Acquire(0, p)] + seq(6, _ => Advance(0))
  {
    Acquired(s, p);
    SeesNoPassword(p);
    hide *;
    steps := AdvanceAlone(s, [Acquire(0, p)], UNFINISHED, p, Opened);
    steps := AdvanceAlone(s, steps, UNFINISHED, p, SawLedgerTable(true));
    steps := AdvanceAlone(s, steps, UNFINISHED, p, ReadLedger(RESERVED));
    steps := AdvanceAlone(s, steps, UNFINISHED, p, Resolved(RESERVED));
    steps := AdvanceAlone(s, steps, UNFINISHED, p, Recorded(RESERVED));
    steps := AdvanceAlone(s, steps, UNFINISHED, p, TenantReady(RESERVED));
  }

  /** From an initial state, without any repairing boot: an application gives the
      administrator a first password while a boot is under way, and the boot replaces it. */
  lemma GivenPasswordIsOverwritten(p: Seed.Params, password: string) returns (s: System, steps: seq<Step>)
    requires !p.repair && p.password != password
    ensures Initial(s) && Possible(s, steps + [Advance(0)])
    ensures forall step | step in steps :: step.Acquire? ==> !step.params.repair
    ensures HasPassword(Run(s, steps).d.accounts, s.home, password)
    ensures HasPassword(Run(s, steps + [Advance(0)]).d.accounts, s.home, p.password)
  {
    s := System(RESERVED, UNFINISHED, None, map[], false, false);
    assert Initial(s);
    hide *;
    var before := BootSeesNoPassword(s, p);
    assert forall step | step in before :: step.Acquire? ==> step == Acquire(0, p);
    var giving := Application(Given(password));
    steps := before + [giving];
    RunSnoc(s, before, giving);
    RunSnoc(s, steps, Advance(0));
    GivenThenWritten(p, password);
  }

  lemma GivenThenWritten(p: Seed.Params, password: string)
    ensures var s := Alone(UNFINISHED, p, SettingPassword(RESERVED));
            var given := Next(s, Application(Given(password)));
            && Enabled(s, Application(Given(password))) && Enabled(given, Advance(0))
            && HasPassword(given.d.accounts, RESERVED, password)
            && HasPassword(Next(given, Advance(0)).d.accounts, RESERVED, p.password)
  {
  }

  // ---- an uninterrupted boot ------------------------------------------------------------

  function Iterate(d: Database, p: Seed.Params, at: Point, k: nat): (Database, Point)
    decreases k
  {
    if k == 0 then (d, at) else
      var (d', at') := Statement(d, p, at); Iterate(d', p, at', k - 1)
  }

  /** Left alone, a boot at this point completes with these accounts. */
  ghost predicate Completes(d: Database, p: Seed.Params, at: Point, id: Identity, accounts: Seed.Accounts) {
    exists k: nat :: Iterate(d, p, at, k) == (Database(true, Some(id), accounts), Booted(id))
  }

  lemma CompletesBefore(d: Database, p: Seed.Params, at: Point, id: Identity, accounts: Seed.Accounts)
    requires Completes(Statement(d, p, at).0, p, Statement(d, p, at).1, id, accounts)
    ensures Completes(d, p, at, id, accounts)
  {
    var d', at' := Statement(d, p, at).0, Statement(d, p, at).1;
    var k: nat :| Iterate(d', p, at', k) == (Database(true, Some(id), accounts), Booted(id));
    assert Iterate(d, p, at, k + 1) == (Database(true, Some(id), accounts), Booted(id));
  }

  predicate LedgerHolds(d: Database, id: Identity) {
    d.ledgerTable && d.ledger == Some(id)
  }

  lemma CheckingCompletes(d: Database, p: Seed.Params, id: Identity)
    requires LedgerHolds(d, id) && AdminPresent(d.accounts, id)
    ensures Completes(d, p, Checking(id), id, d.accounts)
  {
    assert Iterate(d, p, Checking(id), 1) == (Database(true, Some(id), d.accounts), Booted(id));
  }

  lemma SettingCompletes(d: Database, p: Seed.Params, id: Identity)
    requires LedgerHolds(d, id) && AdminPresent(d.accounts, id)
    ensures Completes(d, p, SettingPassword(id), id, Statement(d, p, SettingPassword(id)).0.accounts)
  {
    CheckingCompletes(Statement(d, p, SettingPassword(id)).0, p, id);
    CompletesBefore(d, p, SettingPassword(id), id, Statement(d, p, SettingPassword(id)).0.accounts);
  }

  lemma OthersWithout(d: Database, id: Identity)
    requires id.userID !in d.accounts.users
    ensures OtherEmails(d, id) == Seed.TakenEmails(d.accounts.users, id.tenantID)
    ensures OtherUsernames(d, id) == Seed.TakenUsernames(d.accounts.users, id.tenantID)
  {
    assert d.accounts.users - {id.userID} == d.accounts.users;
  }

  lemma {:induction false} UsernameCompletes(d: Database, p: Seed.Params, id: Identity, email: string, n: nat)
    requires LedgerHolds(d, id) && id.userID !in d.accounts.users && Seed.Splittable(p.email)
    requires email == FreeName(Seed.EmailNaming(p.email), Seed.TakenEmails(d.accounts.users, id.tenantID))
    requires forall i | 0 <= i < n :: Seed.USERNAMES.Candidate(i) in OtherUsernames(d, id)
    ensures Completes(d, p, ProbingUsername(id, email, n), id, Seed.WithAdmin(d.accounts, p, id.tenantID, id.userID))
    decreases |OtherUsernames(d, id)| + 1 - n
  {
    var at, username, taken := ProbingUsername(id, email, n), Seed.USERNAMES.Candidate(n), OtherUsernames(d, id);
    var accounts := Seed.WithAdmin(d.accounts, p, id.tenantID, id.userID);
    OthersWithout(d, id);
    if username in taken {
      ProbesAreBounded(Seed.USERNAMES, taken, n + 1);
      UsernameCompletes(d, p, id, email, n + 1);
      assert Statement(d, p, at) == (d, ProbingUsername(id, email, n + 1));
    } else {
      FirstFreeUnique(Seed.USERNAMES, taken, n, FirstFreeFrom(Seed.USERNAMES, taken, 0));
      var creating := CreatingUser(id, email, username);
      assert Statement(d, p, at) == (d, creating);
      CreatingUserCompletes(d, p, id, email, username);
    }
    hide Statement, Completes;
    CompletesBefore(d, p, at, id, accounts);
  }

  lemma CreatingUserCompletes(d: Database, p: Seed.Params, id: Identity, email: string, username: string)
    requires LedgerHolds(d, id) && id.userID !in d.accounts.users && Seed.Splittable(p.email)
    requires email == FreeName(Seed.EmailNaming(p.email), Seed.TakenEmails(d.accounts.users, id.tenantID))
    requires username == FreeName(Seed.USERNAMES, Seed.TakenUsernames(d.accounts.users, id.tenantID))
    ensures Completes(d, p, CreatingUser(id, email, username), id,
              Seed.WithAdmin(d.accounts, p, id.tenantID, id.userID))
  {
    OthersWithout(d, id);
    var d' := WithUserRow(d, id.userID, Seed.User(id.tenantID, email, username, Seed.USER_DISPLAY, true, Seed.Missing));
    assert Statement(d, p, CreatingUser(id, email, username)) == (d', SettingPassword(id));
    SettingCompletes(d', p, id);
    assert Statement(d', p, SettingPassword(id)).0.accounts == Seed.WithAdmin(d.accounts, p, id.tenantID, id.userID);
    hide Statement, Completes;
    CompletesBefore(d, p, CreatingUser(id, email, username), id, Seed.WithAdmin(d.accounts, p, id.tenantID, id.userID));
  }

  lemma {:induction false} EmailCompletes(d: Database, p: Seed.Params, id: Identity, n: nat)
    requires LedgerHolds(d, id) && id.userID !in d.accounts.users && Seed.Splittable(p.email)
    requires forall i | 0 <= i < n :: Seed.EmailNaming(p.email).Candidate(i) in OtherEmails(d, id)
    ensures Completes(d, p, ProbingEmail(id, n), id, Seed.WithAdmin(d.accounts, p, id.tenantID, id.userID))
    decreases |OtherEmails(d, id)| + 1 - n
  {
    var naming, taken := Seed.EmailNaming(p.email), OtherEmails(d, id);
    var email := naming.Candidate(n);
    OthersWithout(d, id);
    if email in taken {
      ProbesAreBounded(naming, taken, n + 1);
      EmailCompletes(d, p, id, n + 1);
      assert Statement(d, p, ProbingEmail(id, n)) == (d, ProbingEmail(id, n + 1));
    } else {
      FirstFreeUnique(naming, taken, n, FirstFreeFrom(naming, taken, 0));
      assert Statement(d, p, ProbingEmail(id, n)) == (d, ProbingUsername(id, email, 0));
      UsernameCompletes(d, p, id, email, 0);
    }
    hide Statement, Completes;
    CompletesBefore(d, p, ProbingEmail(id, n), id, Seed.WithAdmin(d.accounts, p, id.tenantID, id.userID));
  }

  lemma TenantReadyCompletes(d: Database, p: Seed.Params, id: Identity)
    requires LedgerHolds(d, id) && Seed.Splittable(p.email) && !Seed.Misplaced(d.accounts, id.tenantID, id.userID)
    ensures Completes(d, p, TenantReady(id), id, Seed.WithAdmin(d.accounts, p, id.tenantID, id.userID))
  {
    var accounts := Seed.WithAdmin(d.accounts, p, id.tenantID, id.userID);
    if id.userID !in d.accounts.users {
      assert Statement(d, p, TenantReady(id)) == (d, ProbingEmail(id, 0));
      EmailCompletes(d, p, id, 0);
    } else if d.accounts.users[id.userID].password.Missing?
        || (p.repair && d.accounts.users[id.userID].password != Seed.Set(p.password)) {
      assert Statement(d, p, SettingPassword(id)).0.accounts == accounts;
      SettingCompletes(d, p, id);
      if d.accounts.users[id.userID].password.Set? {
        assert Statement(d, p, VerifyingPassword(id)) == (d, SettingPassword(id));
        CompletesBefore(d, p, VerifyingPassword(id), id, accounts);
      }
    } else {
      assert accounts == d.accounts;
      CheckingCompletes(d, p, id);
      if p.repair {
        assert Statement(d, p, VerifyingPassword(id)) == (d, Checking(id));
        CompletesBefore(d, p, VerifyingPassword(id), id, accounts);
      }
    }
    CompletesBefore(d, p, TenantReady(id), id, accounts);
  }

  lemma {:induction false} SlugCompletes(d: Database, p: Seed.Params, id: Identity, n: nat)
    requires LedgerHolds(d, id) && Seed.Splittable(p.email) && !Seed.Misplaced(d.accounts, id.tenantID, id.userID)
    requires id.tenantID !in d.accounts.tenants
    requires forall i | 0 <= i < n :: Seed.SLUGS.Candidate(i) in Seed.TakenSlugs(d.accounts.tenants)
    ensures Completes(d, p, ProbingSlug(id, n), id,
              Seed.WithAdmin(Seed.WithTenant(d.accounts, id.tenantID), p, id.tenantID, id.userID))
    decreases |Seed.TakenSlugs(d.accounts.tenants)| + 1 - n
  {
    var slug, taken := Seed.SLUGS.Candidate(n), Seed.TakenSlugs(d.accounts.tenants);
    var accounts := Seed.WithAdmin(Seed.WithTenant(d.accounts, id.tenantID), p, id.tenantID, id.userID);
    if slug in taken {
      ProbesAreBounded(Seed.SLUGS, taken, n + 1);
      SlugCompletes(d, p, id, n + 1);
      assert Statement(d, p, ProbingSlug(id, n)) == (d, ProbingSlug(id, n + 1));
    } else {
      FirstFreeUnique(Seed.SLUGS, taken, n, FirstFreeFrom(Seed.SLUGS, taken, 0));
      var d' := WithTenantRow(d, id.tenantID, slug);
      assert Statement(d, p, ProbingSlug(id, n)) == (d, CreatingTenant(id, slug));
      assert Statement(d, p, CreatingTenant(id, slug)) == (d', TenantReady(id));
      assert d'.accounts == Seed.WithTenant(d.accounts, id.tenantID);
      hide Statement, Completes, Seed.WithAdmin;
      TenantReadyCompletes(d', p, id);
      CompletesBefore(d, p, CreatingTenant(id, slug), id, accounts);
    }
    hide Statement, Completes;
    CompletesBefore(d, p, ProbingSlug(id, n), id, accounts);
  }

  lemma RecordedCompletes(d: Database, p: Seed.Params, id: Identity)
    requires LedgerHolds(d, id) && Seed.Splittable(p.email) && !Seed.Misplaced(d.accounts, id.tenantID, id.userID)
    ensures Completes(d, p, Recorded(id), id,
              Seed.WithAdmin(Seed.WithTenant(d.accounts, id.tenantID), p, id.tenantID, id.userID))
  {
    if id.tenantID in d.accounts.tenants {
      assert Statement(d, p, Recorded(id)) == (d, TenantReady(id));
      TenantReadyCompletes(d, p, id);
    } else {
      assert Statement(d, p, Recorded(id)) == (d, ProbingSlug(id, 0));
      SlugCompletes(d, p, id, 0);
    }
    hide Statement, Completes;
    CompletesBefore(d, p, Recorded(id), id,
        Seed.WithAdmin(Seed.WithTenant(d.accounts, id.tenantID), p, id.tenantID, id.userID));
  }

  lemma ResolvedCompletes(home: Identity, d: Database, p: Seed.Params)
    requires DatabaseSound(home, d) && home.tenantID != "" && home.userID != "" && Seed.Splittable(p.email)
    ensures Completes(d, p, Resolved(home), home,
              Seed.WithAdmin(Seed.WithTenant(d.accounts, home.tenantID), p, home.tenantID, home.userID))
  {
    var d' := Statement(d, p, Resolved(home)).0;
    assert Statement(d, p, Resolved(home)).1 == Recorded(home) && d'.accounts == d.accounts && LedgerHolds(d', home);
    hide Statement, Completes, Seed.WithAdmin, Seed.WithTenant;
    RecordedCompletes(d', p, home);
    CompletesBefore(d, p, Resolved(home), home,
        Seed.WithAdmin(Seed.WithTenant(d.accounts, home.tenantID), p, home.tenantID, home.userID));
  }

  /** Whatever crashes came before, a boot left alone completes, and leaves the accounts as
      one uninterrupted seed with the recorded identity does. */
  lemma UninterruptedBootHeals(s: System, steps: seq<Step>, p: Seed.Params, maxPasswordBytes: nat)
    requires Initial(s) && Possible(s, steps)
    requires Seed.ValidParams(p, maxPasswordBytes) && p.tenantID == s.home.tenantID && p.userID == s.home.userID
    ensures var d, q := Run(s, steps).d, p.(email := Seed.Trimmed(p));
            Completes(d, q, Opened, s.home, Seed.AfterSeed(d.accounts, p, maxPasswordBytes))
  {
    RunKeepsSound(s, steps);
    var home, d, q := s.home, Run(s, steps).d, p.(email := Seed.Trimmed(p));
    var accounts := Seed.AfterSeed(d.accounts, p, maxPasswordBytes);
    ResolvedCompletes(home, d, q);
    assert accounts == Seed.WithAdmin(Seed.WithTenant(d.accounts, home.tenantID), q, home.tenantID, home.userID);
    hide Run, Possible, Seed.AfterSeed, Seed.WithAdmin, Seed.WithTenant, Completes;
    OpenedCompletes(home, d, q, accounts);
  }

  lemma OpenedCompletes(home: Identity, d: Database, p: Seed.Params, accounts: Seed.Accounts)
    requires DatabaseSound(home, d) && home.tenantID != "" && home.userID != ""
    requires Completes(d, p, Resolved(home), home, accounts)
    ensures Completes(d, p, Opened, home, accounts)
  {
    var saw := SawLedgerTable(d.ledgerTable);
    if d.ledger.Some? {
      assert Statement(d, p, ReadLedger(home)) == (d, Resolved(home));
      CompletesBefore(d, p, ReadLedger(home), home, accounts);
      assert Statement(d, p, saw) == (d, ReadLedger(home));
    } else {
      assert Statement(d, p, CountedTenant(false)) == (d, Resolved(home));
      CompletesBefore(d, p, CountedTenant(false), home, accounts);
      assert Statement(d, p, NoLedgerRow) == (d, CountedTenant(false));
      CompletesBefore(d, p, NoLedgerRow, home, accounts);
      assert Statement(d, p, saw) == (d, NoLedgerRow);
    }
    CompletesBefore(d, p, saw, home, accounts);
    CompletesBefore(d, p, Opened, home, accounts);
  }
}
