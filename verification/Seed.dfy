/** First-boot seeding (pkg/starterapp/seed/seed.go): the bootstrap tenant and administrator
    are each found or created on their own, under free names, and a password is replaced only
    when it is missing or repair is asked for. The tenant and user services are the tables
    below with the contract the seeding code relies on. */
module Seed {
  import opened FreeNames
  import Text

  const TENANT_ID := "tenant_local"
  const TENANT_NAME := "Local Workspace"
  const USER_ID := "user_operator"
  const USER_EMAIL := "operator@local.test"
  const USER_DISPLAY := "Local Administrator"
  const USER_PASS := "local-development-only"

  const SLUGS := Naming("local", "platformkit-local", "")
  const USERNAMES := Naming("operator", "platformkit-operator", "")

  datatype Tenant = Tenant(slug: string, name: string)

  /** A password is kept as the text that verifies; a user may have none. */
  datatype Password = Missing | Set(text: string)

  datatype User = User(tenantID: string, email: string, username: string, displayName: string, active: bool,
          password: Password)

  datatype Accounts = Accounts(tenants: map<string, Tenant>, users: map<string, User>)

  datatype Params = Params(email: string, password: string, repair: bool, tenantID: string, userID: string)

  datatype Result = Failed | Seeded(tenantCreated: bool, adminCreated: bool)

  // ---- names ----------------------------------------------------------------------------

  function TakenSlugs(tenants: map<string, Tenant>): set<string> {
    set id | id in tenants :: tenants[id].slug
  }

  function TakenEmails(users: map<string, User>, tenantID: string): set<string> {
    set id | id in users && users[id].tenantID == tenantID :: users[id].email
  }

  function TakenUsernames(users: map<string, User>, tenantID: string): set<string> {
    set id | id in users && users[id].tenantID == tenantID :: users[id].username
  }

  /** The index of the last occurrence of c, or -1. */
  function LastIndex(s: string, c: char): (i: int)
    ensures -1 <= i < |s| && (i >= 0 ==> s[i] == c)
    ensures forall j | i < j < |s| :: s[j] != c
  {
    if s == "" then -1
    else if s[|s| - 1] == c then |s| - 1
    else LastIndex(s[..|s| - 1], c)
  }

  predicate Splittable(email: string) {
    0 < LastIndex(email, '@') < |email| - 1
  }

  /** local@domain, then local+platformkit@domain, then local+platformkit-2@domain, ... */
  function EmailNaming(email: string): (n: Naming)
    requires Splittable(email)
    ensures n.Sound() && n.first == email
  {
    var at := LastIndex(email, '@');
    Naming(email, email[..at] + "+platformkit", "@" + email[at + 1..])
  }

  function OccurrencesOf(s: string, c: char): nat {
    if s == "" then 0 else (if s[0] == c then 1 else 0) + OccurrencesOf(s[1..], c)
  }

  predicate EmailShape(email: string) {
    OccurrencesOf(email, '@') == 1 && Splittable(email)
  }

  lemma {:induction false} OccurrencesSplit(a: string, b: string, c: char)
    ensures OccurrencesOf(a + b, c) == OccurrencesOf(a, c) + OccurrencesOf(b, c)
    decreases |a|
  {
    if a == "" {
      assert a + b == b;
    } else {
      assert (a + b)[1..] == a[1..] + b;
      OccurrencesSplit(a[1..], b, c);
    }
  }

  lemma {:induction false} NoOccurrence(s: string, c: char)
    ensures OccurrencesOf(s, c) == 0 <==> c !in s
    decreases |s|
  {
    if s != "" {
      NoOccurrence(s[1..], c);
      assert s == [s[0]] + s[1..];
    }
  }

  lemma OnlyAt(email: string, i: nat)
    requires i < |email| && email[i] == '@' && '@' !in email[i + 1..]
    ensures LastIndex(email, '@') == i
  {
    assert forall k | i < k < |email| :: email[k] == email[i + 1..][k - i - 1];
  }

  /** An address is a local part and a domain around one '@', neither of them empty. */
  lemma EmailShapeMeans(email: string)
    ensures EmailShape(email) <==>
              exists at :: 0 < at < |email| - 1 && email[at] == '@' && '@' !in email[..at] && '@' !in email[at + 1..]
  {
    var at := LastIndex(email, '@');
    if 0 <= at {
      var local, domain := email[..at], email[at + 1..];
      assert email == local + ("@" + domain) && "@"[0] == '@';
      OccurrencesSplit(local, "@" + domain, '@');
      assert ("@" + domain)[1..] == domain;
      NoOccurrence(local, '@');
      NoOccurrence(domain, '@');
      assert forall j | 0 <= j < |domain| :: domain[j] == email[at + 1 + j];
      forall i | 0 < i < |email| - 1 && email[i] == '@' && '@' !in email[..i]
          && '@' !in email[i + 1..] ensures i == at {
        OnlyAt(email, i);
      }
    }
  }

  /** The addresses tried for an administrator, in order. */
  lemma EmailCandidates(local: string, domain: string, i: nat)
    requires local != "" && domain != "" && '@' !in domain
    ensures var email := local + "@" + domain;
            && Splittable(email)
            && EmailNaming(email).Candidate(i) ==
                 if i == 0 then email
                 else if i == 1 then local + "+platformkit@" + domain
                 else local + "+platformkit-" + Text.Decimal(i) + "@" + domain
  {
    var email := local + "@" + domain;
    assert email[|local|] == '@' && forall j | |local| < j < |email| :: email[j] == domain[j - |local| - 1];
    assert LastIndex(email, '@') == |local|;
    assert email[..|local|] == local && email[|local| + 1..] == domain;
    var d := Text.Decimal(i);
    assert local + "+platformkit" + ("@" + domain) == local + "+platformkit@" + domain;
    assert local + "+platformkit" + "-" + d + ("@" + domain) == local + "+platformkit-" + d + "@" + domain;
  }

  function Utf8Length(s: string): nat {
    if s == "" then 0 else
      var n := s[0] as int;
      (if n < 0x80 then 1 else if n < 0x800 then 2 else if n < 0x1_0000 then 3 else 4) + Utf8Length(s[1..])
  }

  function Trimmed(p: Params): string {
    Text.TrimSpace(p.email)
  }

  predicate ValidParams(p: Params, maxPasswordBytes: nat) {
    EmailShape(Trimmed(p)) && p.password != "" && Utf8Length(p.password) <= maxPasswordBytes
  }

  // ---- what a seed leaves behind --------------------------------------------------------

  function WithTenant(a: Accounts, tenantID: string): Accounts {
    if tenantID in a.tenants then a
    else a.(tenants := a.tenants[tenantID := Tenant(FreeName(SLUGS, TakenSlugs(a.tenants)), TENANT_NAME)])
  }

  /** The password an existing administrator has after a seed. */
  function Repaired(current: Password, p: Params): Password {
    if current.Missing? || p.repair then Set(p.password) else current
  }

  function NewAdmin(a: Accounts, p: Params, tenantID: string): User
    requires Splittable(p.email)
  {
    User(tenantID,
         FreeName(EmailNaming(p.email), TakenEmails(a.users, tenantID)),
         FreeName(USERNAMES, TakenUsernames(a.users, tenantID)),
         USER_DISPLAY, true, Set(p.password))
  }

  /** The recorded user belongs to another tenant, so it can be neither found nor created. */
  predicate Misplaced(a: Accounts, tenantID: string, userID: string) {
    userID in a.users && a.users[userID].tenantID != tenantID
  }

  function WithAdmin(a: Accounts, p: Params, tenantID: string, userID: string): Accounts
    requires Splittable(p.email)
  {
    if Misplaced(a, tenantID, userID) then a
    else if userID in a.users then
      a.(users := a.users[userID := a.users[userID].(password := Repaired(a.users[userID].password, p))])
    else
      a.(users := a.users[userID := NewAdmin(a, p, tenantID)])
  }

  function Identity(p: Params): (string, string) {
    (if p.tenantID == "" then TENANT_ID else p.tenantID, if p.userID == "" then USER_ID else p.userID)
  }

  /** A whole seed, uninterrupted. */
  function AfterSeed(a: Accounts, p: Params, maxPasswordBytes: nat): Accounts {
    if !ValidParams(p, maxPasswordBytes) then a
    else
      var (tenantID, userID) := Identity(p);
      WithAdmin(WithTenant(a, tenantID), p.(email := Trimmed(p)), tenantID, userID)
  }

  class Services {
    var tenants: map<string, Tenant>
    var users: map<string, User>

    ghost function Contents(): Accounts
      reads this
    {
      Accounts(tenants, users)
    }

    constructor (a: Accounts)
      ensures Contents() == a
    {
      tenants, users := a.tenants, a.users;
    }

    method TenantBySlug(slug: string) returns (found: bool, id: string)
      ensures found <==> slug in TakenSlugs(tenants)
      ensures found ==> id in tenants && tenants[id].slug == slug
    {
      var rest := tenants.Keys;
      while rest != {}
        invariant rest <= tenants.Keys
        invariant forall t | t in tenants && t !in rest :: tenants[t].slug != slug
        decreases |rest|
      {
        var t :| t in rest;
        if tenants[t].slug == slug {
          return true, t;
        }
        rest := rest - {t};
      }
      return false, "";
    }

    method UserByEmail(tenantID: string, email: string) returns (found: bool, id: string)
      ensures found <==> email in TakenEmails(users, tenantID)
      ensures found ==> id in users && users[id].tenantID == tenantID && users[id].email == email
    {
      var rest := users.Keys;
      while rest != {}
        invariant rest <= users.Keys
        invariant forall u | u in users && u !in rest && users[u].tenantID == tenantID :: users[u].email != email
        decreases |rest|
      {
        var u :| u in rest;
        if users[u].tenantID == tenantID && users[u].email == email {
          return true, u;
        }
        rest := rest - {u};
      }
      return false, "";
    }

    method UserByUsername(tenantID: string, username: string) returns (found: bool, id: string)
      ensures found <==> username in TakenUsernames(users, tenantID)
      ensures found ==> id in users && users[id].tenantID == tenantID && users[id].username == username
    {
      var rest := users.Keys;
      while rest != {}
        invariant rest <= users.Keys
        invariant forall u | u in users && u !in rest && users[u].tenantID == tenantID :: users[u].username != username
        decreases |rest|
      {
        var u :| u in rest;
        if users[u].tenantID == tenantID && users[u].username == username {
          return true, u;
        }
        rest := rest - {u};
      }
      return false, "";
    }

    method EnsureTenant(tenantID: string) returns (created: bool)
      modifies this`tenants
      ensures Contents() == WithTenant(old(Contents()), tenantID)
      ensures created <==> tenantID !in old(tenants)
    {
      if tenantID in tenants {
        return false;
      }
      ghost var taken := TakenSlugs(tenants);
      var slug := SLUGS.first;
      var suffix := 0;
      var found, existing := TenantBySlug(slug);
      while found
        invariant slug == SLUGS.Candidate(suffix) && tenants == old(tenants)
        invariant found <==> slug in taken
        invariant found ==> existing in tenants
        invariant forall i | 0 <= i < suffix :: SLUGS.Candidate(i) in taken
        decreases |taken| + 1 - suffix, found
      {
        if existing == tenantID {
          return false;
        }
        ProbesAreBounded(SLUGS, taken, suffix + 1);
        slug := if suffix == 0 then "platformkit-local" else "platformkit-local" + "-" + Text.Decimal(suffix + 1);
        suffix := suffix + 1;
        SuffixedName(SLUGS, suffix);
        found, existing := TenantBySlug(slug);
      }
      FirstFreeUnique(SLUGS, taken, suffix, FirstFreeFrom(SLUGS, taken, 0));
      tenants := tenants[tenantID := Tenant(slug, TENANT_NAME)];
      return true;
    }

    method AvailableAdminEmail(tenantID: string, userID: string, preferred: string) returns (ok: bool, email: string)
      requires Sound(Contents())
      ensures ok <==> Splittable(preferred)
      ensures ok ==> email == FreeName(EmailNaming(preferred), TakenEmails(users - {userID}, tenantID))
    {
      var at := LastIndex(preferred, '@');
      if at <= 0 || at == |preferred| - 1 {
        return false, "";
      }
      var local, domain := preferred[..at], preferred[at + 1..];
      ghost var naming, taken := EmailNaming(preferred), TakenEmails(users - {userID}, tenantID);
      email := preferred;
      var suffix := 0;
      while true
        invariant email == naming.Candidate(suffix)
        invariant forall i | 0 <= i < suffix :: naming.Candidate(i) in taken
        decreases |taken| + 1 - suffix
      {
        var found, existing := UserByEmail(tenantID, email);
        if !found || existing == userID {
          FirstFreeUnique(naming, taken, suffix, FirstFreeFrom(naming, taken, 0));
          return true, email;
        }
        assert existing in users - {userID};
        ProbesAreBounded(naming, taken, suffix + 1);
        email := if suffix == 0 then local + "+platformkit" + ("@" + domain)
                 else local + "+platformkit" + "-" + Text.Decimal(suffix + 1) + ("@" + domain);
        suffix := suffix + 1;
      }
    }

    method AvailableAdminUsername(tenantID: string, userID: string) returns (username: string)
      requires Sound(Contents())
      ensures username == FreeName(USERNAMES, TakenUsernames(users - {userID}, tenantID))
    {
      ghost var taken := TakenUsernames(users - {userID}, tenantID);
      username := USERNAMES.first;
      var suffix := 0;
      while true
        invariant username == USERNAMES.Candidate(suffix)
        invariant forall i | 0 <= i < suffix :: USERNAMES.Candidate(i) in taken
        decreases |taken| + 1 - suffix
      {
        var found, existing := UserByUsername(tenantID, username);
        if !found || existing == userID {
          FirstFreeUnique(USERNAMES, taken, suffix, FirstFreeFrom(USERNAMES, taken, 0));
          return username;
        }
        assert existing in users - {userID};
        ProbesAreBounded(USERNAMES, taken, suffix + 1);
        username := if suffix == 0 then "platformkit-operator"
            else "platformkit-operator" + "-" + Text.Decimal(suffix + 1);
        suffix := suffix + 1;
        SuffixedName(USERNAMES, suffix);
      }
    }

    method EnsureAdminUser(p: Params, tenantID: string, userID: string) returns (ok: bool, created: bool)
      requires Sound(Contents()) && Splittable(p.email)
      modifies this`users
      ensures Contents() == WithAdmin(old(Contents()), p, tenantID, userID)
      ensures ok <==> !Misplaced(old(Contents()), tenantID, userID)
      ensures created <==> userID !in old(users)
    {
      if userID in users && users[userID].tenantID == tenantID {
        var existing := users[userID];
        if existing.password.Missing? {
          users := users[userID := existing.(password := Set(p.password))];
        } else if p.repair {
          if existing.password != Set(p.password) {
            users := users[userID := existing.(password := Set(p.password))];
          }
        }
        return true, false;
      }
      assert users - {userID} == users || userID in users;
      var _, email := AvailableAdminEmail(tenantID, userID, p.email);
      var username := AvailableAdminUsername(tenantID, userID);
      if userID in users {
        return false, false;
      }
      users := users[userID := User(tenantID, email, username, USER_DISPLAY, true, Missing)];
      users := users[userID := users[userID].(password := Set(p.password))];
      return true, true;
    }

    method Run(p: Params, maxPasswordBytes: nat) returns (result: Result)
      requires Sound(Contents())
      modifies this
      ensures Contents() == AfterSeed(old(Contents()), p, maxPasswordBytes)
      ensures var (tenantID, userID) := Identity(p);
              result == if !ValidParams(p, maxPasswordBytes) || Misplaced(old(Contents()), tenantID, userID) then Failed
                        else Seeded(tenantID !in old(tenants), userID !in old(users))
    {
      var email := Text.TrimSpace(p.email);
      if email == "" {
        return Failed;
      }
      var at := LastIndex(email, '@');
      if OccurrencesOf(email, '@') != 1 || at <= 0 || at == |email| - 1 {
        return Failed;
      }
      if p.password == "" || maxPasswordBytes < Utf8Length(p.password) {
        return Failed;
      }
      var tenantID := if p.tenantID == "" then TENANT_ID else p.tenantID;
      var userID := if p.userID == "" then USER_ID else p.userID;
      var tenantCreated := EnsureTenant(tenantID);
      TenantKeepsSound(old(Contents()), tenantID);
      var ok, adminCreated := EnsureAdminUser(p.(email := email), tenantID, userID);
      if !ok {
        return Failed;
      }
      return Seeded(tenantCreated, adminCreated);
    }
  }

  lemma SuffixedName(n: Naming, i: nat)
    requires n.tail == "" && 0 < i
    ensures n.Candidate(i) == if i == 1 then n.stem else n.stem + "-" + Text.Decimal(i)
  {
  }

  /** What the services' unique columns guarantee. */
  ghost predicate Sound(a: Accounts) {
    && (forall s, t | s in a.tenants && t in a.tenants && a.tenants[s].slug == a.tenants[t].slug :: s == t)
    && (forall u, v | u in a.users && v in a.users && a.users[u].tenantID == a.users[v].tenantID
          && a.users[u].email == a.users[v].email :: u == v)
    && (forall u, v | u in a.users && v in a.users && a.users[u].tenantID == a.users[v].tenantID
          && a.users[u].username == a.users[v].username :: u == v)
  }

  lemma TenantKeepsSound(a: Accounts, tenantID: string)
    requires Sound(a)
    ensures Sound(WithTenant(a, tenantID))
  {
  }

  lemma AdminKeepsSound(a: Accounts, p: Params, tenantID: string, userID: string)
    requires Sound(a) && Splittable(p.email)
    ensures Sound(WithAdmin(a, p, tenantID, userID))
  {
  }

  predicate SlugTaken(a: Accounts, slug: string) {
    exists t :: t in a.tenants && a.tenants[t].slug == slug
  }

  predicate EmailTaken(a: Accounts, tenantID: string, email: string) {
    exists u :: u in a.users && a.users[u].tenantID == tenantID && a.users[u].email == email
  }

  predicate UsernameTaken(a: Accounts, tenantID: string, username: string) {
    exists u :: u in a.users && a.users[u].tenantID == tenantID && a.users[u].username == username
  }

  /** Whom a seed creates: an active administrator of the tenant with the given password, under
      the address given and the name "operator" unless another user of the tenant has them. */
  lemma AdministratorMade(a: Accounts, p: Params, maxPasswordBytes: nat)
    requires ValidParams(p, maxPasswordBytes) && p.tenantID != "" && p.userID != "" && p.userID !in a.users
    ensures var a', email := AfterSeed(a, p, maxPasswordBytes), Text.TrimSpace(p.email);
            && a'.users.Keys == a.users.Keys + {p.userID}
            && var u := a'.users[p.userID];
            && u.tenantID == p.tenantID && u.active && u.displayName == "Local Administrator"
            && u.password == Set(p.password)
            && !EmailTaken(a, p.tenantID, u.email) && !UsernameTaken(a, p.tenantID, u.username)
            && (u.email == email <==> !EmailTaken(a, p.tenantID, email))
            && (u.username == "operator" <==> !UsernameTaken(a, p.tenantID, "operator"))
  {
    var trimmed := p.(email := Trimmed(p));
    assert AfterSeed(a, p, maxPasswordBytes).users == a.users[p.userID := NewAdmin(a, trimmed, p.tenantID)] by {
      hide NewAdmin, FreeName, Utf8Length, OccurrencesOf, LastIndex, Text.TrimSpace;
    }
    hide AfterSeed, FreeName, EmailShape, Splittable, Text.TrimSpace;
    var emails, names := TakenEmails(a.users, p.tenantID), TakenUsernames(a.users, p.tenantID);
    PreferredName(EmailNaming(trimmed.email), emails);
    PreferredName(USERNAMES, names);
    assert forall e :: e in emails <==> EmailTaken(a, p.tenantID, e);
    assert forall n :: n in names <==> UsernameTaken(a, p.tenantID, n);
  }

  /** Every other user stays as it was, and of an administrator that was there only the
      password may change. */
  lemma OtherUsersUntouched(a: Accounts, p: Params, maxPasswordBytes: nat)
    requires ValidParams(p, maxPasswordBytes) && p.tenantID != "" && p.userID != ""
    ensures var a' := AfterSeed(a, p, maxPasswordBytes);
            && (forall u | u in a.users && u != p.userID :: u in a'.users && a'.users[u] == a.users[u])
            && (p.userID in a.users ==>
                  && p.userID in a'.users
                  && a'.users[p.userID].(password := a.users[p.userID].password) == a.users[p.userID])
  {
    hide Utf8Length, OccurrencesOf, LastIndex, FreeName, EmailNaming, Text.TrimSpace, TakenSlugs;
    hide TakenEmails, TakenUsernames;
  }

  /** The tenant is made under the slug "local" unless that is taken, and every other tenant
      stays as it was. */
  lemma TenantMade(a: Accounts, p: Params, maxPasswordBytes: nat)
    requires ValidParams(p, maxPasswordBytes) && p.tenantID != "" && p.userID != ""
    ensures var a' := AfterSeed(a, p, maxPasswordBytes);
            && a'.tenants.Keys == a.tenants.Keys + {p.tenantID}
            && (forall t | t in a.tenants :: a'.tenants[t] == a.tenants[t])
            && (p.tenantID !in a.tenants ==>
                  var made := a'.tenants[p.tenantID];
                  made.name == "Local Workspace" && !SlugTaken(a, made.slug)
                  && (made.slug == "local" <==> !SlugTaken(a, "local")))
  {
    SeedsTenant(a, p, maxPasswordBytes);
    hide AfterSeed, ValidParams, FreeName;
    var slugs := TakenSlugs(a.tenants);
    PreferredName(SLUGS, slugs);
    assert forall s :: s in slugs <==> SlugTaken(a, s);
  }

  lemma SeedsTenant(a: Accounts, p: Params, maxPasswordBytes: nat)
    requires ValidParams(p, maxPasswordBytes) && p.tenantID != "" && p.userID != ""
    ensures AfterSeed(a, p, maxPasswordBytes).tenants == WithTenant(a, p.tenantID).tenants
  {
    hide WithTenant, Utf8Length, OccurrencesOf, LastIndex, NewAdmin, Repaired, Text.TrimSpace;
  }

  lemma PreferredName(n: Naming, taken: set<string>)
    requires n.Sound()
    ensures FreeName(n, taken) == n.first <==> n.first !in taken
  {
    var i := FirstFreeFrom(n, taken, 0);
    if 0 < i {
      CandidatesDiffer(n, 0, i);
    }
  }
}
