/** What a configuration file means, setting by setting: which text and durations it may set,
    which line decides each of them, and which files are accepted. */
module ConfigSettings {
  import opened Config
  import opened Options
  import Seed
  import Text

  datatype Setting =
    | AppName | AppVersion | Environment
    | HttpAddr | ReadTimeout | WriteTimeout | ShutdownTimeout
    | AdminEmail | AdminPassword | BrandingName | BrandingColor | BrandingFont | BrandingLogo
    | DatabaseDriver | DatabaseDSN
    | CacheProvider

  function SectionOf(x: Setting): string {
    match x
    case AppName => "" case AppVersion => "" case Environment => ""
    case HttpAddr => "http" case ReadTimeout => "http" case WriteTimeout => "http" case ShutdownTimeout => "http"
    case AdminEmail => "seed" case AdminPassword => "seed"
    case BrandingName => "seed" case BrandingColor => "seed" case BrandingFont => "seed" case BrandingLogo => "seed"
    case DatabaseDriver => "database" case DatabaseDSN => "database"
    case CacheProvider => "cache"
  }

  function KeyOf(x: Setting): string {
    match x
    case AppName => "app_name" case AppVersion => "app_version" case Environment => "environment"
    case HttpAddr => "addr"
    case ReadTimeout => "read_timeout" case WriteTimeout => "write_timeout" case ShutdownTimeout => "shutdown_timeout"
    case AdminEmail => "admin_email" case AdminPassword => "admin_password"
    case BrandingName => "branding_display_name" case BrandingColor => "branding_primary_color"
    case BrandingFont => "branding_font" case BrandingLogo => "branding_logo_path"
    case DatabaseDriver => "driver" case DatabaseDSN => "dsn"
    case CacheProvider => "provider"
  }

  datatype Content = Words(text: string) | Duration(length: int)

  /** What a configuration holds for a setting. */
  function Held(c: Config, x: Setting): Content {
    match x
    case AppName => Words(c.appName)
    case AppVersion => Words(c.appVersion)
    case Environment => Words(c.environment)
    case HttpAddr => Words(c.httpAddr)
    case ReadTimeout => Duration(c.readTimeout)
    case WriteTimeout => Duration(c.writeTimeout)
    case ShutdownTimeout => Duration(c.shutdownTimeout)
    case AdminEmail => Words(c.adminEmail)
    case AdminPassword => Words(c.adminPassword)
    case BrandingName => Words(c.brandingDisplayName)
    case BrandingColor => Words(c.brandingPrimaryColor)
    case BrandingFont => Words(c.brandingFont)
    case BrandingLogo => Words(c.brandingLogoPath)
    case DatabaseDriver => Words(c.databaseDriver)
    case DatabaseDSN => Words(c.databaseDSN)
    case CacheProvider => Words(c.cacheProvider)
  }

  /** What a written value stands for; a duration may be malformed. */
  function Read(x: Setting, value: string, parse: string -> Option<int>): Option<Content> {
    if x.ReadTimeout? || x.WriteTimeout? || x.ShutdownTimeout? then
      match parse(value) case None => None case Some(d) => Some(Duration(d))
    else Some(Words(value))
  }

  predicate Names(x: Setting, section: string, key: string) {
    section == SectionOf(x) && key == KeyOf(x)
  }

  predicate Known(section: string, key: string, value: string, parse: string -> Option<int>) {
    exists x :: Names(x, section, key) && Read(x, value, parse).Some?
  }

  // ---- one assignment -------------------------------------------------------------------

  /** The configuration with one setting replaced. */
  function With(c: Config, x: Setting, content: Content): Config
    requires content.Duration? <==> x.ReadTimeout? || x.WriteTimeout? || x.ShutdownTimeout?
  {
    match x
    case AppName => c.(appName := content.text)
    case AppVersion => c.(appVersion := content.text)
    case Environment => c.(environment := content.text)
    case HttpAddr => c.(httpAddr := content.text)
    case ReadTimeout => c.(readTimeout := content.length)
    case WriteTimeout => c.(writeTimeout := content.length)
    case ShutdownTimeout => c.(shutdownTimeout := content.length)
    case AdminEmail => c.(adminEmail := content.text)
    case AdminPassword => c.(adminPassword := content.text)
    case BrandingName => c.(brandingDisplayName := content.text)
    case BrandingColor => c.(brandingPrimaryColor := content.text)
    case BrandingFont => c.(brandingFont := content.text)
    case BrandingLogo => c.(brandingLogoPath := content.text)
    case DatabaseDriver => c.(databaseDriver := content.text)
    case DatabaseDSN => c.(databaseDSN := content.text)
    case CacheProvider => c.(cacheProvider := content.text)
  }

  lemma WithSets(c: Config, x: Setting, content: Content, y: Setting)
    requires content.Duration? <==> x.ReadTimeout? || x.WriteTimeout? || x.ShutdownTimeout?
    ensures Held(With(c, x, content), y) == if y == x then content else Held(c, y)
  {
  }

  lemma AppliedIs(c: Config, x: Setting, value: string, parse: string -> Option<int>)
    ensures Applied(c, SectionOf(x), KeyOf(x), value, parse) ==
              match Read(x, value, parse) case None => None case Some(content) => Some(With(c, x, content))
  {
  }

  /** An assignment that names a setting is accepted when its value can be read, and then
      changes that setting and no other. */
  lemma AppliedSets(c: Config, x: Setting, value: string, parse: string -> Option<int>, y: Setting)
    ensures var r := Applied(c, SectionOf(x), KeyOf(x), value, parse);
            && (r.Some? <==> Read(x, value, parse).Some?)
            && (r.Some? ==> Held(r.value, y) == if y == x then Read(x, value, parse).value else Held(c, y))
  {
    AppliedIs(c, x, value, parse);
    hide Applied, SectionOf, KeyOf, Held, With;
    if Read(x, value, parse).Some? {
      WithSets(c, x, Read(x, value, parse).value, y);
    }
  }

  /** Nothing else can be assigned. */
  lemma AppliedNames(c: Config, section: string, key: string, value: string, parse: string -> Option<int>)
    returns (x: Setting)
    requires Applied(c, section, key, value, parse).Some?
    ensures Names(x, section, key)
  {
    if section == "" {
      x := if key == "app_name" then AppName else if key == "app_version" then AppVersion else Environment;
    } else if section == "http" {
      x := if key == "addr" then HttpAddr
           else if key == "read_timeout" then ReadTimeout
           else if key == "write_timeout" then WriteTimeout
           else ShutdownTimeout;
    } else if section == "seed" {
      x := SeedNames(c, key, value, parse);
    } else if section == "database" {
      x := if key == "driver" then DatabaseDriver else DatabaseDSN;
    } else {
      x := CacheProvider;
    }
  }

  lemma SeedNames(c: Config, key: string, value: string, parse: string -> Option<int>) returns (x: Setting)
    requires Applied(c, "seed", key, value, parse).Some?
    ensures Names(x, "seed", key)
  {
    x := if key == "admin_email" then AdminEmail
         else if key == "admin_password" then AdminPassword
         else if key == "branding_display_name" then BrandingName
         else if key == "branding_primary_color" then BrandingColor
         else if key == "branding_font" then BrandingFont
         else BrandingLogo;
  }

  /** No name stands for two settings. */
  lemma NamesDiffer(x: Setting, y: Setting)
    requires SectionOf(x) == SectionOf(y) && KeyOf(x) == KeyOf(y)
    ensures x == y
  {
  }

  lemma AppliedExactly(c: Config, section: string, key: string, value: string, parse: string -> Option<int>, y: Setting)
    ensures Applied(c, section, key, value, parse).Some? <==> Known(section, key, value, parse)
    ensures Applied(c, section, key, value, parse).Some? ==>
              && (Names(y, section, key) ==> Read(y, value, parse).Some?)
              && Held(Applied(c, section, key, value, parse).value, y)
                   == if Names(y, section, key) then Read(y, value, parse).value else Held(c, y)
  {
    hide Applied, SectionOf, KeyOf, Held;
    if Applied(c, section, key, value, parse).Some? {
      var x := AppliedNames(c, section, key, value, parse);
      AppliedSets(c, x, value, parse, y);
      if Names(y, section, key) {
        NamesDiffer(x, y);
      }
    } else if Known(section, key, value, parse) {
      var x :| Names(x, section, key) && Read(x, value, parse).Some?;
      AppliedSets(c, x, value, parse, y);
    }
  }

  // ---- whole files ----------------------------------------------------------------------

  /** The section opened by the lines before line n: the last header, unless an assignment at
      the margin came after it. */
  function Opened(lines: seq<string>, n: nat): string
    requires n <= |lines|
  {
    if n == 0 then ""
    else
      match Classified(lines[n - 1])
      case Header(section) => section
      case Pair(indented, _, _) => if indented then Opened(lines, n - 1) else ""
      case _ => Opened(lines, n - 1)
  }

  /** The section an assignment on line i belongs to: none at the margin. */
  function SectionAt(lines: seq<string>, i: nat): string
    requires i < |lines|
  {
    match Classified(lines[i])
    case Pair(true, _, _) => Opened(lines, i)
    case _ => ""
  }

  /** Line i assigns the setting. */
  predicate Assigns(lines: seq<string>, i: nat, x: Setting) {
    i < |lines| && Classified(lines[i]).Pair? && Names(x, SectionAt(lines, i), Classified(lines[i]).key)
  }

  /** Line i assigns the setting this content. */
  predicate Says(lines: seq<string>, i: nat, x: Setting, content: Content, parse: string -> Option<int>) {
    Assigns(lines, i, x) && Read(x, Classified(lines[i]).value, parse) == Some(content)
  }

  /** Line i is the last of the first n that assigns the setting. */
  predicate LastOf(lines: seq<string>, n: nat, i: nat, x: Setting) {
    i < n && Assigns(lines, i, x) && forall j: nat | i < j < n :: !Assigns(lines, j, x)
  }

  /** The setting is what the last line that assigns it says, or what it was. */
  ghost predicate HeldAfter(lines: seq<string>, n: nat, x: Setting, c: Config, defaults: Config,
                            parse: string -> Option<int>) {
    if exists i: nat :: LastOf(lines, n, i, x) then
      exists i: nat :: LastOf(lines, n, i, x) && Says(lines, i, x, Held(c, x), parse)
    else Held(c, x) == Held(defaults, x)
  }

  /** The line can be read: blank, a header, or an assignment to something known. */
  predicate Readable(lines: seq<string>, i: nat, parse: string -> Option<int>)
    requires i < |lines|
  {
    match Classified(lines[i])
    case Invalid => false
    case Pair(_, key, value) => Known(SectionAt(lines, i), key, value, parse)
    case _ => true
  }

  lemma OpenedNext(lines: seq<string>, n: nat)
    requires n < |lines|
    ensures Opened(lines, n + 1) == SectionAfter(Opened(lines, n), Classified(lines[n]))
    ensures Classified(lines[n]).Pair? ==> SectionAt(lines, n) == Opened(lines, n + 1)
  {
  }

  /** One more line, when the file read so far is accepted. */
  lemma HeldNext(lines: seq<string>, n: nat, x: Setting, c: Config, c': Config, defaults: Config,
                 parse: string -> Option<int>)
    requires n < |lines| && HeldAfter(lines, n, x, c, defaults, parse)
    requires if Assigns(lines, n, x) then Says(lines, n, x, Held(c', x), parse)
             else Held(c', x) == Held(c, x)
    ensures HeldAfter(lines, n + 1, x, c', defaults, parse)
  {
    hide Assigns, Says, Held, Read, Classified;
    if Assigns(lines, n, x) {
      assert LastOf(lines, n + 1, n, x) && Says(lines, n, x, Held(c', x), parse);
    } else if exists i: nat :: LastOf(lines, n, i, x) {
      var i: nat :| LastOf(lines, n, i, x) && Says(lines, i, x, Held(c, x), parse);
      assert LastOf(lines, n + 1, i, x) && Says(lines, i, x, Held(c', x), parse);
    } else {
      var m := n + 1;
      forall i: nat ensures !LastOf(lines, m, i, x) {
        assert !LastOf(lines, n, i, x);
      }
    }
  }

  lemma {:induction false} ParsedHolds(lines: seq<string>, n: nat, x: Setting, c: Config, defaults: Config,
                                       parse: string -> Option<int>)
    requires n <= |lines| && HeldAfter(lines, n, x, c, defaults, parse)
    requires Parsed(lines[n..], Opened(lines, n), c, parse).Some?
    ensures HeldAfter(lines, |lines|, x, Parsed(lines[n..], Opened(lines, n), c, parse).value, defaults, parse)
    decreases |lines| - n
  {
    if n < |lines| {
      var line := Classified(lines[n]);
      assert lines[n..][0] == lines[n] && lines[n..][1..] == lines[n + 1..];
      OpenedNext(lines, n);
      var c' := c;
      if line.Pair? {
        AppliedExactly(c, Opened(lines, n + 1), line.key, line.value, parse, x);
        c' := Applied(c, Opened(lines, n + 1), line.key, line.value, parse).value;
      }
      assert Parsed(lines[n..], Opened(lines, n), c, parse) == Parsed(lines[n + 1..], Opened(lines, n + 1), c', parse);
      hide Parsed, Applied, Classified, Opened, HeldAfter, Held, Read, Names, SectionAfter;
      HeldNext(lines, n, x, c, c', defaults, parse);
      ParsedHolds(lines, n + 1, x, c', defaults, parse);
    }
  }

  /** In every accepted file each setting has the value of the last line that assigns it in its
      section, and its default when none does; an environment nobody assigns is production. */
  lemma EverySettingIsLastAssigned(lines: seq<string>, x: Setting, defaults: Config, parse: string -> Option<int>)
    requires Loaded(lines, defaults, parse).Some?
    ensures HeldAfter(lines, |lines|, x, Loaded(lines, defaults, parse).value,
                      defaults.(environment := "production"), parse)
  {
    assert lines[0..] == lines;
    ParsedHolds(lines, 0, x, defaults.(environment := "production"), defaults.(environment := "production"), parse);
  }

  lemma {:induction false} ParsedAccepts(lines: seq<string>, n: nat, c: Config, parse: string -> Option<int>)
    requires n <= |lines|
    ensures Parsed(lines[n..], Opened(lines, n), c, parse).Some?
       <==> forall i | n <= i < |lines| :: Readable(lines, i, parse)
    decreases |lines| - n
  {
    if n < |lines| {
      var line := Classified(lines[n]);
      assert lines[n..][0] == lines[n] && lines[n..][1..] == lines[n + 1..];
      OpenedNext(lines, n);
      var c' := c;
      if line.Pair? {
        AppliedExactly(c, Opened(lines, n + 1), line.key, line.value, parse, AppName);
        var applied := Applied(c, Opened(lines, n + 1), line.key, line.value, parse);
        c' := if applied.Some? then applied.value else c;
      }
      assert Parsed(lines[n..], Opened(lines, n), c, parse) ==
               if Readable(lines, n, parse) then Parsed(lines[n + 1..], Opened(lines, n + 1), c', parse) else None;
      hide Parsed, Applied, Classified, Opened, Readable, Held, Read, Names, Known, SectionAfter;
      ParsedAccepts(lines, n + 1, c', parse);
    }
  }

  /** A file is accepted if and only if every line of it can be read. */
  lemma AcceptedFiles(lines: seq<string>, defaults: Config, parse: string -> Option<int>)
    ensures Loaded(lines, defaults, parse).Some? <==> forall i | 0 <= i < |lines| :: Readable(lines, i, parse)
  {
    assert lines[0..] == lines;
    ParsedAccepts(lines, 0, defaults.(environment := "production"), parse);
  }

  // ---- seed parameters ------------------------------------------------------------------

  /** What a configuration asks the seed for: its own address and password, and the local ones
      where it leaves them empty. */
  function AskedEmail(c: Config): string {
    if Text.TrimSpace(c.adminEmail) == "" then "operator@local.test" else Text.TrimSpace(c.adminEmail)
  }

  function AskedPassword(c: Config): string {
    if c.adminPassword == "" then "local-development-only" else c.adminPassword
  }

  /** The seed is asked for exactly what the configuration says; the local password only in
      development, and there alone with repair. */
  lemma SeedParamsMean(c: Config, tenantID: string, userID: string, maxPasswordBytes: nat)
    ensures var p := SeedParams(c, tenantID, userID, maxPasswordBytes);
            && (p.Some? <==>
                  && (c.adminEmail == "" || Text.TrimSpace(c.adminEmail) != "") && Seed.EmailShape(AskedEmail(c))
                  && (c.adminPassword != "" || c.environment == "development")
                  && AskedPassword(c) != "changeme" && Seed.Utf8Length(AskedPassword(c)) <= maxPasswordBytes)
            && (p.Some? ==>
                  p.value == Seed.Params(AskedEmail(c), AskedPassword(c), c.environment
                      == "development", tenantID, userID))
  {
    hide Text.TrimSpace, Seed.EmailShape, Seed.Utf8Length;
  }

  // ---- one written line -----------------------------------------------------------------

  predicate Free(s: string, c: char) {
    forall i | 0 <= i < |s| :: s[i] != c
  }

  lemma {:induction false} QuotesAdd(a: string, b: string)
    ensures Quotes(a + b) == Quotes(a) + Quotes(b)
    decreases |b|
  {
    if b == "" {
      assert a + b == a;
    } else {
      assert (a + b)[..|a + b| - 1] == a + b[..|b| - 1];
      QuotesAdd(a, b[..|b| - 1]);
    }
  }

  lemma {:induction false} NoQuotes(s: string)
    requires Free(s, '"')
    ensures Quotes(s) == 0
  {
    if s != "" {
      NoQuotes(s[..|s| - 1]);
    }
  }

  lemma {:induction false} StrippedAt(line: string, i: nat, n: nat)
    requires i <= n <= |line| && (forall j | i <= j < n :: !CommentAt(line, j)) && (n == |line| || CommentAt(line, n))
    ensures Stripped(line, i) == line[..n]
    decreases n - i
  {
    if i < n {
      StrippedAt(line, i + 1, n);
    }
  }

  /** The text before a quoted value, and the value in its quotes. */
  lemma NoCommentIn(before: string, value: string, rest: string, j: nat)
    requires Free(before, '"') && Free(before, '#') && Free(value, '"') && Free(rest, '"')
    requires var line := before + ("\"" + value + "\"") + rest; j < |line|
    ensures var line := before + ("\"" + value + "\"") + rest;
            CommentAt(line, j) <==> |before| + |value| + 2 <= j && rest[j - |before| - |value| - 2] == '#'
  {
    var quoted := "\"" + value + "\"";
    var line := before + quoted + rest;
    assert Quotes("\"") == 1 by {
      assert "\""[..0] == "";
    }
    NoQuotes(before);
    if j < |before| {
      assert line[j] == before[j];
    } else if j == |before| {
      assert line[j] == quoted[0];
    } else if j < |before| + 1 + |value| {
      var k := j - |before| - 1;
      assert line[..j] == before + ("\"" + value[..k]);
      NoQuotes(value[..k]);
      QuotesAdd(before, "\"" + value[..k]);
      QuotesAdd("\"", value[..k]);
    } else if j == |before| + 1 + |value| {
      assert line[j] == quoted[1 + |value|];
    } else {
      var k := j - |before| - |value| - 2;
      assert line[..j] == before + (quoted + rest[..k]);
      NoQuotes(value);
      NoQuotes(rest[..k]);
      QuotesAdd(before, quoted + rest[..k]);
      QuotesAdd(quoted, rest[..k]);
      QuotesAdd("\"" + value, "\"");
      QuotesAdd("\"", value);
    }
  }

  /** A line written as an indentation, a key, a colon and a value in quotes, with white space
      and a comment behind it or nothing, is read as that key and that value: what stands in the
      quotes is kept as it is, a '#' included. */
  lemma WrittenLineIsRead(indent: string, key: string, gap: string, value: string, gap': string, comment: string)
    requires Text.AllSpace(indent) && (indent != "" ==> indent[0] == ' ' || indent[0] == '\t')
    requires Text.AllSpace(gap) && Text.AllSpace(gap')
    requires key != "" && Text.Trimmed(key) && Free(key, ':') && Free(key, '"') && Free(key, '#')
    requires value != "" && Free(value, '"') && Free(comment, '"') && (comment != "" ==> comment[0] == '#')
    ensures Classified(indent + key + ":" + gap + ("\"" + value + "\"") + (gap' + comment))
              == Pair(indent != "", key, value)
  {
    var before, quoted, rest := indent + key + ":" + gap, "\"" + value + "\"", gap' + comment;
    var line := before + quoted + rest;
    var kept := before + quoted + gap';
    SpacesAreFree(indent);
    SpacesAreFree(gap);
    SpacesAreFree(gap');
    forall j | 0 <= j < |line| ensures CommentAt(line, j)
        <==> |before| + |value| + 2 <= j && rest[j - |before| - |value| - 2] == '#' {
      NoCommentIn(before, value, rest, j);
    }
    var n := |kept|;
    hide Stripped, CommentAt;
    StrippedAt(line, 0, n);
    assert line[..n] == kept;
    KeptIsRead(indent, key, gap, value, gap');
  }

  lemma SpacesAreFree(s: string)
    requires Text.AllSpace(s)
    ensures Free(s, '"') && Free(s, '#') && Free(s, ':')
  {
  }

  lemma KeptIsRead(indent: string, key: string, gap: string, value: string, gap': string)
    requires Text.AllSpace(indent) && Text.AllSpace(gap) && Text.AllSpace(gap')
    requires key != "" && Text.Trimmed(key) && Free(key, ':') && value != "" && Free(value, '"')
    ensures var kept := indent + key + ":" + gap + ("\"" + value + "\"") + gap';
            && SplitKV(kept) == Some((key, value)) && Text.TrimSpace(kept) != "" && kept != ""
            && kept[0] == if indent == "" then key[0] else indent[0]
  {
    var quoted := "\"" + value + "\"";
    var kept := indent + key + ":" + gap + quoted + gap';
    var at := |indent + key|;
    SpacesAreFree(indent);
    assert kept[at] == ':' && forall j | 0 <= j < at :: kept[j] == (indent + key)[j];
    assert Text.IndexOf(kept, ':') == at;
    assert kept[..at] == indent + key + "" && kept[at + 1..] == gap + quoted + gap';
    Text.TrimSpaceUnpads(indent, key, "");
    Text.TrimSpaceUnpads(gap, quoted, gap');
    UnquotedOnce(value);
    NotAllSpace(kept, at);
  }

  lemma UnquotedOnce(value: string)
    requires value != "" && Free(value, '"')
    ensures TrimQuotes("\"" + value + "\"") == value
  {
    var quoted := "\"" + value + "\"";
    assert quoted[1..] == value + "\"" && (value + "\"")[..|value|] == value;
    assert TrimQuotes(value) == value;
    assert (value + "\"")[0] == value[0] && TrimQuotes(value + "\"") == TrimQuotes(value);
  }

  lemma NotAllSpace(s: string, i: nat)
    requires i < |s| && s[i] == ':'
    ensures Text.TrimSpace(s) != ""
  {
    var left, right := Text.TrimSpaceSplits(s);
    var core := Text.TrimSpace(s);
    assert forall j | 0 <= j < |left| :: s[j] == left[j];
    assert forall j | |left| + |core| <= j < |s| :: s[j] == right[j - |left| - |core|];
    assert |left| <= i < |left| + |core|;
  }
}
