/** The key that signs voter cookies (store.go, VoterSecret) and the cookies themselves
    (voter.go): replicas that create the key together agree on it, and a cookie minted by one
    is understood by all. The signature function is a parameter. */
module VoterSecret {
  import opened Hex
  import opened Options
  import Text

  const KEY := "voter_cookie_hmac_v1"
  const SECRET_BYTES: nat := 32
  const TOKEN_BYTES: nat := 16

  type Settings = map<string, string>

  function ReadBack(encoded: string): Option<seq<Byte>> {
    match Decode(encoded)
    case None => None
    case Some(secret) => if |secret| == SECRET_BYTES then Some(secret) else None
  }

  /** A stored text is a secret exactly when it is 64 hexadecimal digits. */
  lemma SecretShape(encoded: string)
    ensures ReadBack(encoded).Some? <==> |encoded| == 64 && AllDigits(encoded)
  {
    EncodeDecode(encoded);
  }

  /** INSERT ... ON CONFLICT DO NOTHING. */
  function InsertOnce(settings: Settings, value: string): Settings {
    if KEY in settings then settings else settings[KEY := value]
  }

  class SettingsStore {
    var settings: Settings

    constructor (settings: Settings)
      ensures this.settings == settings
    {
      this.settings := settings;
    }

    /** One caller alone: the stored secret, or the random one it stores first. */
    method VoterSecret(random: seq<Byte>) returns (secret: Option<seq<Byte>>)
      requires |random| == SECRET_BYTES
      modifies this
      ensures settings == InsertOnce(old(settings), Encode(random))
      ensures secret == if KEY in old(settings) then ReadBack(old(settings)[KEY]) else Some(random)
    {
      if KEY !in settings {
        settings := settings[KEY := Encode(random)];
        DecodeEncode(random);
      }
      var encoded := settings[KEY];
      secret := Decode(encoded);
      if secret.None? || |secret.value| != SECRET_BYTES {
        return None;
      }
    }
  }

  // ---- callers interleaved statement by statement ---------------------------------------

  datatype Caller =
    | Selecting
    | Inserting(random: seq<Byte>)
    | Reselecting
    | Returned(secret: Option<seq<Byte>>)

  datatype System = System(settings: Settings, callers: map<nat, Caller>)

  datatype Step =
    | Call(c: nat)
    | Select(c: nat, random: seq<Byte>)
    | Insert(c: nat)
    | Reselect(c: nat)
    | Crash(c: nat)

  predicate Enabled(s: System, step: Step) {
    match step
    case Call(c) => c !in s.callers
    case Select(c, random) => c in s.callers && s.callers[c].Selecting? && |random| == SECRET_BYTES
    case Insert(c) => c in s.callers && s.callers[c].Inserting?
    case Reselect(c) => c in s.callers && s.callers[c].Reselecting?
    case Crash(c) => c in s.callers
  }

  function Moved(s: System, c: nat, to: Caller): System {
    s.(callers := s.callers[c := to])
  }

  function Found(s: System): Caller {
    Returned(if KEY in s.settings then ReadBack(s.settings[KEY]) else None)
  }

  function Next(s: System, step: Step): System {
    match step
    case Call(c) => Moved(s, c, Selecting)
    case Select(c, random) => Moved(s, c, if KEY in s.settings then Found(s) else Inserting(random))
    case Insert(c) =>
      if c in s.callers && s.callers[c].Inserting? then
        Moved(s, c, Reselecting).(settings := InsertOnce(s.settings, Encode(s.callers[c].random)))
      else s
    case Reselect(c) => Moved(s, c, Found(s))
    case Crash(c) => s.(callers := s.callers - {c})
  }

  function Run(s: System, steps: seq<Step>): System {
    if steps == [] then s else Next(Run(s, steps[..|steps| - 1]), steps[|steps| - 1])
  }

  predicate Possible(s: System, steps: seq<Step>) {
    steps == [] || (Possible(s, steps[..|steps| - 1]) && Enabled(Run(s, steps[..|steps| - 1]), steps[|steps| - 1]))
  }

  predicate Stored(settings: Settings) {
    KEY in settings ==> ReadBack(settings[KEY]).Some?
  }

  predicate CallerSound(s: System, caller: Caller) {
    match caller
    case Selecting => true
    case Inserting(random) => |random| == SECRET_BYTES
    case Reselecting => KEY in s.settings
    case Returned(secret) => KEY in s.settings && secret.Some? && secret == ReadBack(s.settings[KEY])
  }

  predicate Sound(s: System) {
    Stored(s.settings) && forall c | c in s.callers :: CallerSound(s, s.callers[c])
  }

  lemma StepKeepsSound(s: System, step: Step)
    requires Sound(s) && Enabled(s, step)
    ensures Sound(Next(s, step))
    ensures KEY in s.settings ==> Next(s, step).settings == s.settings
  {
    if step.Insert? {
      DecodeEncode(s.callers[step.c].random);
    }
    forall c | c in Next(s, step).callers
      ensures CallerSound(Next(s, step), Next(s, step).callers[c])
    {
      assert c in s.callers ==> CallerSound(s, s.callers[c]);
    }
  }

  lemma {:induction false} RunKeepsSound(s: System, steps: seq<Step>)
    requires Sound(s) && Possible(s, steps)
    ensures Sound(Run(s, steps))
    ensures KEY in s.settings ==> Run(s, steps).settings == s.settings
  {
    if steps != [] {
      RunKeepsSound(s, steps[..|steps| - 1]);
      StepKeepsSound(Run(s, steps[..|steps| - 1]), steps[|steps| - 1]);
    }
  }

  /** However callers interleave and crash, every one that returns has a secret, and it is the
      secret of every other, now or at any later time. */
  lemma CallersAgree(settings: Settings, past: seq<Step>, steps: seq<Step>, a: nat, b: nat)
    requires Stored(settings)
    requires var s := System(settings, map[]); Possible(s, past) && Possible(Run(s, past), steps)
    requires var s := Run(System(settings, map[]), past); a in s.callers && s.callers[a].Returned?
    requires var s := Run(Run(System(settings, map[]), past), steps); b in s.callers && s.callers[b].Returned?
    ensures var s := Run(System(settings, map[]), past);
            s.callers[a].secret.Some? && s.callers[a].secret == Run(s, steps).callers[b].secret
  {
    var s0 := System(settings, map[]);
    RunKeepsSound(s0, past);
    RunKeepsSound(Run(s0, past), steps);
    assert CallerSound(Run(s0, past), Run(s0, past).callers[a]);
    assert CallerSound(Run(Run(s0, past), steps), Run(Run(s0, past), steps).callers[b]);
  }

  // ---- cookies --------------------------------------------------------------------------

  type Signer = (seq<Byte>, string) -> string

  datatype Principal = Anonymous | Account(tenantID: string, subject: string)

  datatype Cookie = Cookie(value: string)

  predicate ValidToken(token: string) {
    Decode(token).Some? && |Decode(token).value| == TOKEN_BYTES
  }

  /** existingVoterIdentity: "" when the request carries none. */
  function ExistingIdentity(sign: Signer, secret: seq<Byte>, who: Principal, cookie: Option<Cookie>): string {
    if who.Account? && who.subject != "" then "account:" + who.tenantID + ":" + who.subject
    else if cookie.None? then ""
    else
      var value := cookie.value.value;
      var at := Text.IndexOf(value, '.');
      if at == |value| || !ValidToken(value[..at]) || value[at + 1..] != sign(secret, value[..at]) then ""
      else "browser:" + value[..at]
  }

  /** A token is 32 hexadecimal digits. */
  lemma TokenShape(token: string)
    ensures ValidToken(token) <==> |token| == 32 && AllDigits(token)
  {
    EncodeDecode(token);
  }

  predicate NoColon(s: string) {
    forall i | 0 <= i < |s| :: s[i] != ':'
  }

  /** The identity of an account is its own: it depends on neither cookie nor key, it is not
      the identity of any browser, and only an account with a subject has one. */
  lemma AccountIdentity(sign: Signer, secret: seq<Byte>, cookie: Option<Cookie>, tenantID: string, subject: string)
    ensures var identity := ExistingIdentity(sign, secret, Account(tenantID, subject), cookie);
            if subject == "" then identity == ExistingIdentity(sign, secret, Anonymous, cookie)
            else identity == "account:" + tenantID + ":" + subject && identity != "" && identity[0] != "browser:"[0]
  {
  }

  lemma CutAtColon(tenant: string, subject: string, tenant': string, subject': string)
    requires NoColon(tenant) && NoColon(tenant') && tenant + ":" + subject == tenant' + ":" + subject'
    ensures tenant == tenant' && subject == subject'
  {
    var key := tenant + ":" + subject;
    assert key[|tenant|] == ':' && key[|tenant'|] == ':';
    assert forall i | 0 <= i < |tenant| :: key[i] == tenant[i];
    assert forall i | 0 <= i < |tenant'| :: key[i] == tenant'[i];
    assert |tenant| == |tenant'|;
    assert tenant == key[..|tenant|] == tenant' && subject == key[|tenant| + 1..] == subject';
  }

  lemma AccountText(tenant: string, subject: string)
    ensures ("account:" + tenant + ":" + subject)[8..] == tenant + ":" + subject
  {
  }

  /** Two accounts are one voter exactly when they are one account, for tenants without a
      colon, whatever keys and cookies the two requests carry. */
  lemma AccountsAreApart(sign: Signer, secret: seq<Byte>, cookie: Option<Cookie>, sign': Signer, secret': seq<Byte>,
                         cookie': Option<Cookie>, tenant: string, subject: string, tenant': string, subject': string)
    requires NoColon(tenant) && NoColon(tenant') && subject != "" && subject' != ""
    ensures ExistingIdentity(sign, secret, Account(tenant, subject), cookie)
         == ExistingIdentity(sign', secret', Account(tenant', subject'), cookie')
       <==> tenant == tenant' && subject == subject'
  {
    AccountIdentity(sign, secret, cookie, tenant, subject);
    AccountIdentity(sign', secret', cookie', tenant', subject');
    hide ExistingIdentity;
    if "account:" + tenant + ":" + subject == "account:" + tenant' + ":" + subject' {
      AccountText(tenant, subject);
      AccountText(tenant', subject');
      CutAtColon(tenant, subject, tenant', subject');
    }
  }

  /** The condition on the tenants is needed. */
  lemma ColonsCollide(sign: Signer, secret: seq<Byte>)
    ensures ExistingIdentity(sign, secret, Account("a:b", "c"), None)
              == ExistingIdentity(sign, secret, Account("a", "b:c"), None)
  {
    assert "account:" + "a:b" + ":" + "c" == "account:" + "a" + ":" + "b:c";
  }

  /** A browser never has the identity of an account: what a cookie or a new token gives starts
      differently. */
  lemma BrowsersAreApart(sign: Signer, secret: seq<Byte>, cookie: Option<Cookie>, tenant: string, subject: string,
                         token: string)
    requires subject != ""
    ensures ExistingIdentity(sign, secret, Account(tenant, subject), cookie) != "browser:" + token
  {
    AccountIdentity(sign, secret, cookie, tenant, subject);
  }

  /** voterIdentity: the identity of a request, and the cookie set when it had none. */
  method VoterIdentity(sign: Signer, secret: seq<Byte>, who: Principal, cookie: Option<Cookie>, random: seq<Byte>)
    returns (identity: string, set_: Option<Cookie>)
    requires |random| == TOKEN_BYTES
    ensures ExistingIdentity(sign, secret, who, cookie) != "" ==>
              identity == ExistingIdentity(sign, secret, who, cookie) && set_ == None
    ensures ExistingIdentity(sign, secret, who, cookie) == "" ==>
              identity == "browser:" + Encode(random) && set_ == Some(Minted(sign, secret, random))
    ensures who.Account? && who.subject != "" ==>
              identity == "account:" + who.tenantID + ":" + who.subject && set_ == None
  {
    identity := ExistingIdentity(sign, secret, who, cookie);
    if identity != "" {
      return identity, None;
    }
    var token := Encode(random);
    return "browser:" + token, Some(Cookie(token + "." + sign(secret, token)));
  }

  function Minted(sign: Signer, secret: seq<Byte>, random: seq<Byte>): Cookie {
    Cookie(Encode(random) + "." + sign(secret, Encode(random)))
  }

  lemma CutAtDot(token: string, rest: string)
    requires forall i | 0 <= i < |token| :: token[i] != '.'
    ensures var value := token + "." + rest;
            Text.IndexOf(value, '.') == |token| && value[..|token|] == token && value[|token| + 1..] == rest
  {
    var value := token + "." + rest;
    assert value[|token|] == '.';
    assert forall i | 0 <= i < |token| :: value[i] == token[i];
  }

  lemma TokenHasNoDot(token: string)
    requires ValidToken(token)
    ensures forall i | 0 <= i < |token| :: token[i] != '.'
  {
    EncodeDecode(token);
  }

  /** An anonymous request is given an identity exactly when its cookie is a valid token, a
      dot, and the signature of that token; the identity is the token's. */
  lemma IdentityOfCookie(sign: Signer, secret: seq<Byte>, value: string, token: string)
    ensures ExistingIdentity(sign, secret, Anonymous, Some(Cookie(value))) == "browser:" + token
       <==> ValidToken(token) && value == token + "." + sign(secret, token)
  {
    if ValidToken(token) && value == token + "." + sign(secret, token) {
      TokenHasNoDot(token);
      CutAtDot(token, sign(secret, token));
    }
    if ExistingIdentity(sign, secret, Anonymous, Some(Cookie(value))) == "browser:" + token {
      var at := Text.IndexOf(value, '.');
      assert ("browser:" + value[..at])[8..] == value[..at] && ("browser:" + token)[8..] == token;
      assert value == value[..at] + [value[at]] + value[at + 1..];
    }
  }

  /** An anonymous request has no identity at all unless it carries such a cookie. */
  lemma NoIdentity(sign: Signer, secret: seq<Byte>, cookie: Option<Cookie>)
    ensures ExistingIdentity(sign, secret, Anonymous, cookie) == "" <==>
              || cookie.None?
              || forall token: string :: ValidToken(token) ==> cookie.value.value != token + "." + sign(secret, token)
  {
    if cookie.Some? {
      var value := cookie.value.value;
      forall token: string | ValidToken(token)
        ensures value == token + "." + sign(secret, token) ==> ExistingIdentity(sign, secret, Anonymous, cookie) != ""
      {
        IdentityOfCookie(sign, secret, value, token);
      }
      var at := Text.IndexOf(value, '.');
      var token := value[..at];
      if at < |value| && ValidToken(token) && value[at + 1..] == sign(secret, token) {
        assert value == token + [value[at]] + value[at + 1..];
        assert value == token + "." + sign(secret, token);
      }
    }
  }

  /** A cookie minted by the holder of one returned secret, presented anonymously to the
      holder of any other, now or later, names the voter it was minted for. */
  lemma CookieRoundTrip(sign: Signer, settings: Settings, past: seq<Step>, steps: seq<Step>, a: nat, b: nat,
          random: seq<Byte>)
    requires Stored(settings) && |random| == TOKEN_BYTES
    requires var s := System(settings, map[]); Possible(s, past) && Possible(Run(s, past), steps)
    requires var s := Run(System(settings, map[]), past);
             a in s.callers && s.callers[a].Returned? && s.callers[a].secret.Some?
    requires var s := Run(Run(System(settings, map[]), past), steps);
             b in s.callers && s.callers[b].Returned? && s.callers[b].secret.Some?
    ensures var s := Run(System(settings, map[]), past);
            (ExistingIdentity(sign, Run(s, steps).callers[b].secret.value, Anonymous,
                Some(Minted(sign, s.callers[a].secret.value, random)))
             == "browser:" + Encode(random))
  {
    CallersAgree(settings, past, steps, a, b);
    DecodeEncode(random);
    var secret := Run(System(settings, map[]), past).callers[a].secret.value;
    IdentityOfCookie(sign, secret, Minted(sign, secret, random).value, Encode(random));
  }
}
