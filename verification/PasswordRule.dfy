/** The password rule end to end: from the text of the configuration files of successive
    boots to the administrator's password they leave (config.go, seed_params.go, seed.go). */
module PasswordRule {
  import opened Options
  import Config
  import Settings = ConfigSettings
  import FreeNames
  import Seed
  import Text

  /** What every boot shares: defaults, the duration parser, the byte limit, the identity. */
  datatype Host = Host(defaults: Config.Config, parse: string -> Option<int>, maxPasswordBytes: nat,
          tenantID: string, userID: string)

  function ParamsOf(h: Host, file: seq<string>): Option<Seed.Params> {
    match Config.Loaded(file, h.defaults, h.parse)
    case None => None
    case Some(c) => Config.SeedParams(c, h.tenantID, h.userID, h.maxPasswordBytes)
  }

  function AfterBoot(h: Host, a: Seed.Accounts, file: seq<string>): Seed.Accounts {
    match ParamsOf(h, file)
    case None => a
    case Some(p) => Seed.AfterSeed(a, p, h.maxPasswordBytes)
  }

  function AfterBoots(h: Host, a: Seed.Accounts, files: seq<seq<string>>): Seed.Accounts {
    if files == [] then a
    else AfterBoot(h, AfterBoots(h, a, files[..|files| - 1]), files[|files| - 1])
  }

  /** The file declares the development environment, by the position of its lines. */
  ghost predicate Development(file: seq<string>) {
    Config.LastEnvironment(file, "development", "production")
  }

  lemma LastEnvironmentUnique(file: seq<string>, a: string, b: string)
    requires Config.LastEnvironment(file, a, "production") && Config.LastEnvironment(file, b, "production")
    ensures a == b
  {
    if exists i: nat :: Config.AssignsEnvironment(file, i) {
      var i: nat :| Config.LastAssigned(file, i) && a == Config.Classified(file[i]).value;
      var j: nat :| Config.LastAssigned(file, j) && b == Config.Classified(file[j]).value;
      assert Config.AssignsEnvironment(file, i) && Config.AssignsEnvironment(file, j);
      assert i == j;
    }
  }

  /** Repair is on for exactly the files that declare development. */
  lemma RepairIsDevelopment(h: Host, file: seq<string>)
    requires ParamsOf(h, file).Some?
    ensures ParamsOf(h, file).value.repair <==> Development(file)
  {
    Config.EnvironmentIsLastAssigned(file, h.defaults, h.parse);
    var environment := Config.Loaded(file, h.defaults, h.parse).value.environment;
    hide Config.Loaded, Config.LastEnvironment;
    if Development(file) {
      LastEnvironmentUnique(file, environment, "development");
    }
  }

  predicate HasPassword(a: Seed.Accounts, userID: string, password: string) {
    userID in a.users && a.users[userID].password == Seed.Set(password)
  }

  lemma SeedKeepsPassword(a: Seed.Accounts, p: Seed.Params, maxPasswordBytes: nat, userID: string, password: string)
    requires HasPassword(a, userID, password) && !p.repair
    ensures HasPassword(Seed.AfterSeed(a, p, maxPasswordBytes), userID, password)
  {
  }

  lemma BootKeepsPassword(h: Host, a: Seed.Accounts, file: seq<string>, userID: string, password: string)
    requires HasPassword(a, userID, password) && !Development(file)
    ensures HasPassword(AfterBoot(h, a, file), userID, password)
  {
    hide ParamsOf, Seed.AfterSeed, HasPassword, Development;
    if ParamsOf(h, file).Some? {
      RepairIsDevelopment(h, file);
      SeedKeepsPassword(a, ParamsOf(h, file).value, h.maxPasswordBytes, userID, password);
    }
  }

  /** Outside development no sequence of boots changes a password that is set. */
  lemma {:induction false} BootsKeepPassword(h: Host, a: Seed.Accounts, files: seq<seq<string>>, userID: string,
          password: string)
    requires HasPassword(a, userID, password) && forall f | f in files :: !Development(f)
    ensures HasPassword(AfterBoots(h, a, files), userID, password)
    decreases |files|
  {
    if files != [] {
      BootsKeepPassword(h, a, files[..|files| - 1], userID, password);
      BootKeepsPassword(h, AfterBoots(h, a, files[..|files| - 1]), files[|files| - 1], userID, password);
    }
  }

  lemma SeedPassword(a: Seed.Accounts, p: Seed.Params, maxPasswordBytes: nat)
    requires Seed.ValidParams(p, maxPasswordBytes) && p.tenantID != "" && p.userID != ""
              && !Seed.Misplaced(a, p.tenantID, p.userID)
    ensures var a' := Seed.AfterSeed(a, p, maxPasswordBytes);
            && p.tenantID in a'.tenants && p.userID in a'.users && a'.users[p.userID].tenantID == p.tenantID
            && (if p.userID in a.users && a.users[p.userID].password.Set? && !p.repair
                then a'.users[p.userID].password == a.users[p.userID].password
                else HasPassword(a', p.userID, p.password))
  {
    hide FreeNames.FreeName, Seed.EmailNaming, Seed.TakenSlugs, Seed.TakenEmails, Seed.TakenUsernames;
  }

  /** A boot whose seed succeeds leaves the administrator in its tenant with the configured
      password when the file declares development or there was no password, and otherwise
      with the one it had. */
  lemma BootPassword(h: Host, a: Seed.Accounts, file: seq<string>)
    requires h.tenantID != "" && h.userID != "" && ParamsOf(h, file).Some? && !Seed.Misplaced(a, h.tenantID, h.userID)
    ensures var p, a' := ParamsOf(h, file).value, AfterBoot(h, a, file);
            && h.tenantID in a'.tenants && h.userID in a'.users && a'.users[h.userID].tenantID == h.tenantID
            && (if h.userID in a.users && a.users[h.userID].password.Set? && !Development(file)
                then a'.users[h.userID].password == a.users[h.userID].password
                else HasPassword(a', h.userID, p.password))
  {
    hide ParamsOf, Development, Seed.ValidParams, Seed.AfterSeed;
    RepairIsDevelopment(h, file);
    ParamsAreValid(h, file);
    SeedPassword(a, ParamsOf(h, file).value, h.maxPasswordBytes);
  }

  /** Parameters a file resolves to are never refused by the seed itself. */
  lemma ParamsAreValid(h: Host, file: seq<string>)
    requires ParamsOf(h, file).Some?
    ensures Seed.ValidParams(ParamsOf(h, file).value, h.maxPasswordBytes)
    ensures ParamsOf(h, file).value.tenantID == h.tenantID && ParamsOf(h, file).value.userID == h.userID
    ensures ParamsOf(h, file).value.password != Config.KNOWN_PUBLIC_PASSWORD
  {
    hide Config.Loaded, Config.SeedParams, Seed.ValidParams;
    Config.SeedParamsAreValid(Config.Loaded(file, h.defaults, h.parse).value, h.tenantID, h.userID, h.maxPasswordBytes);
  }

  // ---- from the line in the file to the stored password ---------------------------------

  /** The text a file sets, by the position of its lines. */
  ghost predicate Sets(h: Host, file: seq<string>, x: Settings.Setting, text: string) {
    if exists i: nat :: Settings.LastOf(file, |file|, i, x) then
      exists i: nat :: Settings.LastOf(file, |file|, i, x) && Settings.Says(file, i, x, Settings.Words(text), h.parse)
    else Settings.Held(h.defaults, x) == Settings.Words(text)
  }

  lemma HeldSets(h: Host, file: seq<string>, x: Settings.Setting, c: Config.Config, d: Config.Config, text: string)
    requires Settings.HeldAfter(file, |file|, x, c, d, h.parse)
    requires Settings.Held(c, x) == Settings.Words(text) && Settings.Held(d, x) == Settings.Held(h.defaults, x)
    ensures Sets(h, file, x, text)
  {
    hide Settings.LastOf, Settings.Says, Settings.Held;
  }

  lemma LoadedSets(h: Host, file: seq<string>)
    requires Config.Loaded(file, h.defaults, h.parse).Some?
    ensures var c := Config.Loaded(file, h.defaults, h.parse).value;
            Sets(h, file, Settings.AdminPassword, c.adminPassword) && Sets(h, file, Settings.AdminEmail, c.adminEmail)
  {
    hide Config.Loaded, Settings.HeldAfter, Sets;
    var c, d := Config.Loaded(file, h.defaults, h.parse).value, h.defaults.(environment := "production");
    Settings.EverySettingIsLastAssigned(file, Settings.AdminPassword, h.defaults, h.parse);
    HeldSets(h, file, Settings.AdminPassword, c, d, c.adminPassword);
    Settings.EverySettingIsLastAssigned(file, Settings.AdminEmail, h.defaults, h.parse);
    HeldSets(h, file, Settings.AdminEmail, c, d, c.adminEmail);
  }

  /** The parameters of an accepted file are what its last assignments of the administrator's
      address and password say, or the local ones where those are empty. */
  lemma ParamsAreAsked(h: Host, file: seq<string>) returns (c: Config.Config)
    requires ParamsOf(h, file).Some?
    ensures Sets(h, file, Settings.AdminPassword, c.adminPassword) && Sets(h, file, Settings.AdminEmail, c.adminEmail)
    ensures ParamsOf(h, file).value.password == Settings.AskedPassword(c)
    ensures ParamsOf(h, file).value.email == Settings.AskedEmail(c)
    ensures c.adminPassword == "" ==> Development(file)
  {
    c := Config.Loaded(file, h.defaults, h.parse).value;
    LoadedSets(h, file);
    Settings.SeedParamsMean(c, h.tenantID, h.userID, h.maxPasswordBytes);
    RepairIsDevelopment(h, file);
    hide Config.Loaded, Config.SeedParams, Sets, Development, Settings.AskedPassword, Settings.AskedEmail;
  }

  /** The administrator a boot creates, or whose password it may set, has the password that the
      last line assigning seed.admin_password says, whatever the environment. */
  lemma SeededPasswordIsConfigured(h: Host, a: Seed.Accounts, file: seq<string>) returns (password: string)
    requires h.tenantID != "" && h.userID != "" && ParamsOf(h, file).Some? && !Seed.Misplaced(a, h.tenantID, h.userID)
    ensures Sets(h, file, Settings.AdminPassword, password)
    ensures password == "" ==> Development(file)
    ensures var current := if h.userID in a.users then a.users[h.userID].password else Seed.Missing;
            current.Missing? || Development(file) ==>
              HasPassword(AfterBoot(h, a, file), h.userID, if password == "" then "local-development-only"
                  else password)
  {
    var c := ParamsAreAsked(h, file);
    BootPassword(h, a, file);
    password := c.adminPassword;
    hide AfterBoot, ParamsOf, Development, Sets;
  }
}
