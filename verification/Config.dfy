/** The starter's line-oriented configuration file (pkg/starterapp/config.go) and the seed
    parameters derived from it (pkg/starterapp/seed_params.go). */
module Config {
  import opened Options
  import Seed
  import Text

  datatype Config = Config(
    appName: string, appVersion: string, environment: string,
    httpAddr: string, readTimeout: int, writeTimeout: int, shutdownTimeout: int,
    databaseDriver: string, databaseDSN: string,
    cacheProvider: string,
    adminEmail: string, adminPassword: string,
    brandingDisplayName: string, brandingPrimaryColor: string, brandingFont: string, brandingLogoPath: string)

  // ---- one line -------------------------------------------------------------------------

  function Quotes(s: string): nat {
    if s == "" then 0 else Quotes(s[..|s| - 1]) + if s[|s| - 1] == '"' then 1 else 0
  }

  /** A '#' at i starts a comment when an even number of quotes stands before it. */
  predicate CommentAt(line: string, i: nat) {
    i < |line| && line[i] == '#' && Quotes(line[..i]) % 2 == 0
  }

  method StripComment(line: string) returns (stripped: string)
    ensures stripped <= line
    ensures forall i | 0 <= i < |stripped| :: !CommentAt(line, i)
    ensures stripped == line || CommentAt(line, |stripped|)
    ensures stripped == Stripped(line, 0)
  {
    var inQuote := false;
    for i := 0 to |line|
      invariant inQuote <==> Quotes(line[..i]) % 2 == 1
      invariant forall j | 0 <= j < i :: !CommentAt(line, j)
      invariant Stripped(line, 0) == Stripped(line, i)
    {
      assert line[..i + 1][..i] == line[..i];
      if line[i] == '"' {
        inQuote := !inQuote;
      } else if line[i] == '#' && !inQuote {
        return line[..i];
      }
    }
    return line;
  }

  function Stripped(line: string, i: nat): string
    requires i <= |line|
    decreases |line| - i
  {
    if i == |line| || CommentAt(line, i) then line[..i] else Stripped(line, i + 1)
  }

  function TrimQuotes(s: string): string {
    if s != "" && s[0] == '"' then TrimQuotes(s[1..])
    else if s != "" && s[|s| - 1] == '"' then TrimQuotes(s[..|s| - 1])
    else s
  }

  datatype Line = Blank | Invalid | Header(section: string) | Pair(indented: bool, key: string, value: string)

  function SplitKV(line: string): Option<(string, string)> {
    var at := Text.IndexOf(line, ':');
    if at == |line| then None
    else
      var key := Text.TrimSpace(line[..at]);
      if key == "" then None else Some((key, TrimQuotes(Text.TrimSpace(line[at + 1..]))))
  }

  function Classified(raw: string): Line {
    var line := Stripped(raw, 0);
    if Text.TrimSpace(line) == "" then Blank
    else
      match SplitKV(line)
      case None => Invalid
      case Some((key, "")) => Header(key)
      case Some((key, value)) => Pair(line != "" && (line[0] == ' ' || line[0] == '\t'), key, value)
  }

  // ---- assignments ----------------------------------------------------------------------

  /** One (section, key, value) triple; durations are parsed by the time library. */
  function Applied(c: Config, section: string, key: string, value: string,
          parse: string -> Option<int>): Option<Config> {
    if section == "" then
      if key == "app_name" then Some(c.(appName := value))
      else if key == "app_version" then Some(c.(appVersion := value))
      else if key == "environment" then Some(c.(environment := value))
      else None
    else if section == "http" then
      if key == "addr" then Some(c.(httpAddr := value))
      else if key == "read_timeout"
          then (match parse(value) case None => None case Some(d) => Some(c.(readTimeout := d)))
      else if key == "write_timeout"
          then (match parse(value) case None => None case Some(d) => Some(c.(writeTimeout := d)))
      else if key == "shutdown_timeout"
          then (match parse(value) case None => None case Some(d) => Some(c.(shutdownTimeout := d)))
      else None
    else if section == "seed" then
      if key == "admin_email" then Some(c.(adminEmail := value))
      else if key == "admin_password" then Some(c.(adminPassword := value))
      else if key == "branding_display_name" then Some(c.(brandingDisplayName := value))
      else if key == "branding_primary_color" then Some(c.(brandingPrimaryColor := value))
      else if key == "branding_font" then Some(c.(brandingFont := value))
      else if key == "branding_logo_path" then Some(c.(brandingLogoPath := value))
      else None
    else if section == "database" then
      if key == "driver" then Some(c.(databaseDriver := value))
      else if key == "dsn" then Some(c.(databaseDSN := value))
      else None
    else if section == "cache" then
      if key == "provider" then Some(c.(cacheProvider := value)) else None
    else None
  }

  function SectionAfter(section: string, line: Line): string {
    match line
    case Header(key) => key
    case Pair(false, _, _) => ""
    case _ => section
  }

  function Parsed(lines: seq<string>, section: string, c: Config, parse: string -> Option<int>): Option<Config>
    decreases |lines|
  {
    if lines == [] then Some(c) else
      var line := Classified(lines[0]);
      var section' := SectionAfter(section, line);
      match line
      case Invalid => None
      case Pair(_, key, value) =>
        (match Applied(c, section', key, value, parse)
         case None => None
         case Some(c') => Parsed(lines[1..], section', c', parse))
      case _ => Parsed(lines[1..], section', c, parse)
  }

  /** A present file is a deployment signal: production, unless the file says otherwise. */
  function Loaded(lines: seq<string>, defaults: Config, parse: string -> Option<int>): Option<Config> {
    Parsed(lines, "", defaults.(environment := "production"), parse)
  }

  /** What opening the file finds: nothing, an error, or lines that a read error may cut off. */
  datatype File = Missing | Unreadable | Lines(lines: seq<string>, cutOff: bool)

  method LoadConfig(file: File, defaults: Config, parse: string -> Option<int>) returns (result: Option<Config>)
    ensures result == match file
                      case Missing => Some(defaults.(environment := "production"))
                      case Unreadable => None
                      case Lines(lines, cutOff) => if cutOff then None else Loaded(lines, defaults, parse)
  {
    var cfg := defaults.(environment := "production");
    if file.Missing? {
      return Some(cfg);
    }
    if file.Unreadable? {
      return None;
    }
    var lines := file.lines;
    var section := "";
    for i := 0 to |lines|
      invariant Loaded(lines, defaults, parse) == Parsed(lines[i..], section, cfg, parse)
    {
      assert lines[i..][1..] == lines[i + 1..];
      var line := StripComment(lines[i]);
      if Text.TrimSpace(line) != "" {
        var indented := line != "" && (line[0] == ' ' || line[0] == '\t');
        var kv := SplitKV(line);
        if kv.None? {
          return None;
        }
        var (key, value) := kv.value;
        if value == "" {
          section := key;
        } else {
          if !indented {
            section := "";
          }
          var applied := Applied(cfg, section, key, value, parse);
          if applied.None? {
            return None;
          }
          cfg := applied.value;
        }
      }
    }
    return if file.cutOff then None else Some(cfg);
  }

  // ---- the environment rule -------------------------------------------------------------

  predicate AssignsEnvironment(lines: seq<string>, i: nat) {
    i < |lines| && Classified(lines[i]).Pair? && Classified(lines[i]).key == "environment"
  }

  /** What the environment of an accepted file is, by position in the text. */
  ghost predicate LastEnvironment(lines: seq<string>, environment: string, otherwise: string) {
    if exists i: nat :: AssignsEnvironment(lines, i) then
      exists i: nat :: LastAssigned(lines, i) && environment == Classified(lines[i]).value
    else environment == otherwise
  }

  ghost predicate LastAssigned(lines: seq<string>, i: nat) {
    AssignsEnvironment(lines, i) && forall j: nat :: AssignsEnvironment(lines, j) ==> j <= i
  }

  lemma AppliedEnvironment(c: Config, section: string, key: string, value: string, parse: string -> Option<int>)
    requires Applied(c, section, key, value, parse).Some?
    ensures Applied(c, section, key, value, parse).value.environment ==
              if key == "environment" then value else c.environment
  {
  }

  lemma {:induction false} ParsedEnvironment(lines: seq<string>, section: string, c: Config,
          parse: string -> Option<int>)
    requires Parsed(lines, section, c, parse).Some?
    ensures LastEnvironment(lines, Parsed(lines, section, c, parse).value.environment, c.environment)
    decreases |lines|
  {
    if lines != [] {
      var line, rest := Classified(lines[0]), lines[1..];
      var section' := SectionAfter(section, line);
      var c' := c;
      if line.Pair? {
        AppliedEnvironment(c, section', line.key, line.value, parse);
        c' := Applied(c, section', line.key, line.value, parse).value;
      }
      ParsedEnvironment(rest, section', c', parse);
      var environment := Parsed(rest, section', c', parse).value.environment;
      assert Parsed(lines, section, c, parse).value.environment == environment;
      assert c'.environment == if AssignsEnvironment(lines, 0) then line.value else c.environment;
      hide Parsed, Applied, Classified;
      EnvironmentShifts(lines, environment, c'.environment, c.environment);
    }
  }

  lemma EnvironmentShifts(lines: seq<string>, environment: string, middle: string, otherwise: string)
    requires lines != [] && LastEnvironment(lines[1..], environment, middle)
    requires middle == if AssignsEnvironment(lines, 0) then Classified(lines[0]).value else otherwise
    ensures LastEnvironment(lines, environment, otherwise)
  {
    hide Classified;
    var rest := lines[1..];
    assert forall i: nat | i < |rest| :: rest[i] == lines[i + 1];
    assert forall i: nat :: AssignsEnvironment(rest, i) <==> AssignsEnvironment(lines, i + 1);
    if exists i: nat :: AssignsEnvironment(rest, i) {
      var i: nat :| LastAssigned(rest, i) && environment == Classified(rest[i]).value;
      assert AssignsEnvironment(lines, i + 1);
      forall j: nat | AssignsEnvironment(lines, j)
        ensures j <= i + 1
      {
        if 0 < j {
          assert AssignsEnvironment(rest, j - 1);
        }
      }
      assert LastAssigned(lines, i + 1);
    } else if AssignsEnvironment(lines, 0) {
      forall j: nat | 0 < j
        ensures !AssignsEnvironment(lines, j)
      {
        assert !AssignsEnvironment(rest, j - 1);
      }
      assert LastAssigned(lines, 0);
    } else {
      forall j: nat
        ensures !AssignsEnvironment(lines, j)
      {
        if 0 < j {
          assert !AssignsEnvironment(rest, j - 1);
        }
      }
    }
  }

  /** For every accepted file, the environment is the value of the last line that assigns
      it, at whatever indentation, and "production" when none does. */
  lemma EnvironmentIsLastAssigned(lines: seq<string>, defaults: Config, parse: string -> Option<int>)
    requires Loaded(lines, defaults, parse).Some?
    ensures LastEnvironment(lines, Loaded(lines, defaults, parse).value.environment, "production")
  {
    ParsedEnvironment(lines, "", defaults.(environment := "production"), parse);
  }

  // ---- seed parameters ------------------------------------------------------------------

  const KNOWN_PUBLIC_PASSWORD := "changeme"

  function SeedParams(c: Config, tenantID: string, userID: string, maxPasswordBytes: nat): Option<Seed.Params> {
    var email := Text.TrimSpace(c.adminEmail);
    if c.adminEmail != "" && email == "" then None
    else
      var address := if email == "" then Seed.USER_EMAIL else email;
      var dev := c.environment == "development";
      if !Seed.EmailShape(address) then None
      else if c.adminPassword == "" && !dev then None
      else
        var password := if c.adminPassword == "" then Seed.USER_PASS else c.adminPassword;
        if password == KNOWN_PUBLIC_PASSWORD || maxPasswordBytes < Seed.Utf8Length(password) then None
        else Some(Seed.Params(address, password, dev, tenantID, userID))
  }

  lemma LetterIsNoSpace(c: char)
    requires 'a' <= c <= 'z'
    ensures !Text.IsSpace(c)
  {
  }

  lemma DefaultEmailTrimmed()
    ensures Text.TrimSpace(Seed.USER_EMAIL) == Seed.USER_EMAIL
  {
    hide Text.IsSpace, Text.TrimSpace;
    var s := Seed.USER_EMAIL;
    assert s[0] == 'o' && s[|s| - 1] == 't';
    LetterIsNoSpace('o');
    LetterIsNoSpace('t');
    Text.TrimmedFixed(s);
  }

  /** The parameters meet every check the seed makes again, and never hold the published
      password. */
  lemma SeedParamsAreValid(c: Config, tenantID: string, userID: string, maxPasswordBytes: nat)
    requires SeedParams(c, tenantID, userID, maxPasswordBytes).Some?
    ensures var p := SeedParams(c, tenantID, userID, maxPasswordBytes).value;
            && Seed.ValidParams(p, maxPasswordBytes) && p.tenantID == tenantID && p.userID == userID
            && p.password != KNOWN_PUBLIC_PASSWORD
  {
    Text.TrimTwice(c.adminEmail);
    DefaultEmailTrimmed();
    hide Text.TrimSpace, Seed.EmailShape, Seed.Utf8Length;
  }
}
