/** The deployment configuration: validated, written to two files, read back,
    and tied to the domain the deployment was locked to. */
module DeployConfig {
  import opened Common
  import opened EnvFile
  import opened Validators
  import Decimal

  datatype Config = Config(
    domain: string, email: string, image: string, caddyImage: string, stack: string, timezone: string,
    httpPort: nat, httpsPort: nat, retention: nat, logLevel: string)

  /** The values a configuration is made from; a missing one has a default. */
  datatype Raw = Raw(
    domain: Option<string>, email: Option<string>, image: Option<string>, caddyImage: Option<string>,
    stack: Option<string>, timezone: Option<string>, httpPort: Option<string>, httpsPort: Option<string>,
    retention: Option<string>, logLevel: Option<string>)

  /** The values with the defaults filled in. */
  datatype Texts = Texts(
    domain: string, email: string, image: string, caddyImage: string, stack: string, timezone: string,
    httpPort: string, httpsPort: string, retention: string, logLevel: string)

  function VERSION(): (r: string) {
    "0.0.2"
  }

  function DefaultImage(): (r: string) {
    "ghcr.io/mcxiaocaibug/cinquain:" + VERSION()
  }

  function DefaultCaddyImage(): (r: string) {
    "docker.io/caddy:2.11.4-alpine"
  }

  predicate ValidPorts(http: int, https: int) {
    1 <= http <= 65535 && 1 <= https <= 65535 && http != https
  }

  predicate ValidRetention(n: int) {
    1 <= n <= 365
  }

  predicate ValidConfig(c: Config) {
    && IsDomain(c.domain) && IsEmail(c.email) && IsImage(c.image) && IsImage(c.caddyImage)
    && IsStack(c.stack) && IsTimezone(c.timezone) && IsLevel(c.logLevel)
    && ValidPorts(c.httpPort, c.httpsPort) && ValidRetention(c.retention)
  }

  function Or(v: Option<string>, fallback: string): (r: string) {
    if v.Some? then v.value else fallback
  }

  function Filled(raw: Raw): (r: Texts) {
    Texts(
      Or(raw.domain, ""), Or(raw.email, ""), Or(raw.image, DefaultImage()),
      Or(raw.caddyImage, DefaultCaddyImage()), Or(raw.stack, "cinquain"), Or(raw.timezone, "UTC"),
      Or(raw.httpPort, "80"), Or(raw.httpsPort, "443"), Or(raw.retention, "7"), Or(raw.logLevel, "info"))
  }

  function Checked(lower: string -> string, t: Texts): (r: Option<Config>)
    ensures r.Some? ==> ValidConfig(r.value)
  {
    var http, https, retention := ParseInt(t.httpPort), ParseInt(t.httpsPort), ParseInt(t.retention);
    if http.None? || https.None? || retention.None? then None
    else if !ValidPorts(http.value, https.value) || !ValidRetention(retention.value) then None
    else
      var level := ValidateLevel(lower, t.logLevel);
      var domain := ValidateDomain(lower, t.domain);
      var email := ValidateEmail(t.email);
      var image := ValidateImage(lower, t.image);
      var caddy := ValidateImage(lower, t.caddyImage);
      var stack := ValidateStack(lower, t.stack);
      var zone := ValidateTimezone(t.timezone);
      if level.None? || domain.None? || email.None? || image.None? || caddy.None? || stack.None? || zone.None?
      then None
      else Some(Config(domain.value, email.value, image.value, caddy.value, stack.value, zone.value,
                       http.value, https.value, retention.value, level.value))
  }

  /** Build a configuration, or refuse. */
  function Validated(lower: string -> string, raw: Raw): (r: Option<Config>)
    ensures r.Some? ==> ValidConfig(r.value)
  {
    Checked(lower, Filled(raw))
  }

  // ----- defaults -----

  lemma ComponentIsRest(s: string)
    requires IsComponent(s)
    ensures IsRest("/" + s)
  {
    assert ("/" + s)[1..] == s;
    assert Find(s, '/') == |s| && s[..|s|] == s && s[|s|..] == [];
  }

  lemma ComponentThenRest(s: string, rest: string)
    requires IsComponent(s) && rest != [] && IsRest(rest)
    ensures IsRest("/" + s + rest)
  {
    var all := "/" + s + rest;
    assert all[1..] == s + rest;
    FindAt(s + rest, '/', |s|);
    assert (s + rest)[..|s|] == s && (s + rest)[|s|..] == rest;
  }

  lemma HostThenRest(host: string, rest: string)
    requires IsComponent(host) && rest != [] && IsRest(rest)
    ensures IsPath(host + rest)
  {
    FindAt(host + rest, '/', |host|);
    assert (host + rest)[..|host|] == host && (host + rest)[|host|..] == rest;
    assert Find(host, ':') == |host| && host[..|host|] == host;
  }

  lemma PathThenTag(path: string, tag: string)
    requires IsPath(path) && IsTag(tag) && 3 <= |path + tag| <= 512
    ensures IsImage(path + tag)
  {
    assert (path + tag)[..|path|] == path && (path + tag)[|path|..] == tag;
    assert IsSuffix(tag);
  }

  lemma DefaultImageParts()
    ensures DefaultImage() == "ghcr.io" + ("/" + "mcxiaocaibug" + ("/" + "cinquain")) + ":0.0.2"
  {
    assert "ghcr.io/mcxiaocaibug/cinquain:" == "ghcr.io" + ("/" + "mcxiaocaibug" + ("/" + "cinquain")) + ":";
  }

  lemma DefaultImageComponents()
    ensures IsComponent("ghcr.io") && IsComponent("mcxiaocaibug") && IsComponent("cinquain") && IsTag(":0.0.2")
  {
  }

  lemma DefaultImageIsImage()
    ensures IsImage(DefaultImage())
  {
    hide DefaultImage, VERSION, IsComponent, IsRest, IsPath, IsTag, IsImage;
    DefaultImageParts();
    DefaultImageComponents();
    var host, user, app, tag := "ghcr.io", "mcxiaocaibug", "cinquain", ":0.0.2";
    ComponentIsRest(app);
    ComponentThenRest(user, "/" + app);
    HostThenRest(host, "/" + user + ("/" + app));
    PathThenTag(host + ("/" + user + ("/" + app)), tag);
  }

  lemma DefaultCaddyImageParts()
    ensures DefaultCaddyImage() == "docker.io" + ("/" + "caddy") + ":2.11.4-alpine"
  {
  }

  lemma DefaultCaddyImageComponents()
    ensures IsComponent("docker.io") && IsComponent("caddy") && IsTag(":2.11.4-alpine")
  {
  }

  lemma DefaultCaddyImageIsImage()
    ensures IsImage(DefaultCaddyImage())
  {
    hide DefaultCaddyImage, IsComponent, IsRest, IsPath, IsTag, IsImage;
    DefaultCaddyImageParts();
    DefaultCaddyImageComponents();
    var host, app, tag := "docker.io", "caddy", ":2.11.4-alpine";
    ComponentIsRest(app);
    HostThenRest(host, "/" + app);
    PathThenTag(host + ("/" + app), tag);
  }

  /** The configuration of a domain and an address, everything else left out. */
  function DefaultConfig(domain: string, email: string): (c: Config) {
    Config(domain, email, DefaultImage(), DefaultCaddyImage(), "cinquain", "UTC", 80, 443, 7, "info")
  }

  lemma NoTwoDots(s: string)
    requires forall i :: 0 <= i < |s| ==> s[i] != '.'
    ensures !Contains(s, "..")
  {
    forall i | 0 <= i <= |s| - 2
      ensures !(".." <= s[i..])
    {
      assert s[i..][0] == s[i] && ".."[0] == '.';
    }
  }

  lemma DefaultsAreValid(domain: string, email: string)
    requires IsDomain(domain) && IsEmail(email)
    ensures ValidConfig(DefaultConfig(domain, email))
  {
    hide IsDomain, IsEmail, IsImage, DefaultImage, DefaultCaddyImage;
    DefaultImageIsImage();
    DefaultCaddyImageIsImage();
    NoTwoDots("UTC");
    hide Contains;
  }

  lemma DefaultNumerals()
    ensures Decimal.Print(80) == "80" && Decimal.Print(443) == "443" && Decimal.Print(7) == "7"
  {
    assert Decimal.Print(8) == "8" && Decimal.Print(4) == "4" && Decimal.Print(44) == "44";
  }

  /** What the validators make of the defaults. */
  lemma DefaultsAreFixed(lower: string -> string, domain: string, email: string)
    requires Lowers(lower) && IsDomain(domain) && IsEmail(email)
    ensures Checked(lower, TextsOf(DefaultConfig(domain, email))) == Some(DefaultConfig(domain, email))
    ensures ValidateImage(lower, DefaultImage()) == Some(DefaultImage())
    ensures ValidateImage(lower, DefaultCaddyImage()) == Some(DefaultCaddyImage())
    ensures ValidateStack(lower, "cinquain") == Some("cinquain") && ValidateTimezone("UTC") == Some("UTC")
    ensures ParseInt("80") == Some(80) && ParseInt("443") == Some(443) && ParseInt("7") == Some(7)
    ensures ValidateLevel(lower, "info") == Some("info")
  {
    hide IsDomain, IsEmail, DefaultImage, DefaultCaddyImage, Lowers, ValidConfig, Checked;
    hide ParseInt, ValidateImage, ValidateStack, ValidateTimezone, ValidateLevel, Decimal.Print;
    DefaultsAreValid(domain, email);
    DefaultNumerals();
    var c := DefaultConfig(domain, email);
    AllFixed(lower, c);
    CheckedTexts(lower, c);
  }

  lemma NothingIsNoDomain(lower: string -> string)
    requires Lowers(lower)
    ensures ValidateDomain(lower, "") == None && ValidateEmail("") == None
  {
    assert Ascii("") && AsciiLower("") == "" && Strip("") == "";
    assert lower("") == "";
    hide Lowers, IsDomain;
    assert DropScheme("") == "" && Host("") == "" && DropPort("") == "";
    assert !IsDomain("") by {
      ShortIsNoDomain("");
    }
  }

  lemma ShortIsNoDomain(s: string)
    requires |s| < 4
    ensures !IsDomain(s)
  {
  }

  /** Without a domain or an address nothing is built; every other missing value
      is filled in. */
  lemma MissingValues(lower: string -> string, raw: Raw)
    requires Lowers(lower)
    ensures raw.domain.None? || raw.email.None? ==> Validated(lower, raw) == None
    ensures Validated(lower, raw).Some? ==>
      var c := Validated(lower, raw).value;
      && (raw.image.None? ==> c.image == "ghcr.io/mcxiaocaibug/cinquain:" + "0.0.2")
      && (raw.caddyImage.None? ==> c.caddyImage == "docker.io/caddy:2.11.4-alpine")
      && (raw.stack.None? ==> c.stack == "cinquain") && (raw.timezone.None? ==> c.timezone == "UTC")
      && (raw.httpPort.None? ==> c.httpPort == 80) && (raw.httpsPort.None? ==> c.httpsPort == 443)
      && (raw.retention.None? ==> c.retention == 7) && (raw.logLevel.None? ==> c.logLevel == "info")
  {
    hide IsDomain, IsEmail, Lowers;
    hide ParseInt, ValidateDomain, ValidateEmail, ValidateImage, ValidateStack, ValidateTimezone, ValidateLevel;
    NothingIsNoDomain(lower);
    if Validated(lower, raw).Some? {
      var c := Validated(lower, raw).value;
      DefaultsAreFixed(lower, c.domain, c.email);
    }
  }

  /** A domain and an address are enough. */
  lemma DomainAndAddressSuffice(lower: string -> string, domain: string, email: string)
    requires Lowers(lower) && IsDomain(domain) && IsEmail(email)
    ensures
      var raw := Raw(Some(domain), Some(email), None, None, None, None, None, None, None, None);
      Validated(lower, raw) == Some(DefaultConfig(domain, email))
  {
    hide IsDomain, IsEmail, Lowers, Checked, DefaultImage, DefaultCaddyImage, Decimal.Print;
    hide ParseInt, ValidateImage, ValidateStack, ValidateTimezone, ValidateLevel;
    DefaultNumerals();
    DefaultsAreFixed(lower, domain, email);
  }

  lemma ParsedPrint(n: nat)
    ensures ParseInt(Decimal.Print(n)).Some? ==> ParseInt(Decimal.Print(n)).value == n
  {
    var s := Decimal.Print(n);
    assert forall i :: 0 <= i < |s| ==> Decimal.IsDigit(s[i]);
    assert Graphic(s);
    hide Graphic;
    StripOfGraphic(s);
    NoUnderscores(s);
    Decimal.NumberOfPrint(n);
    hide Decimal.Print, Decimal.Number, Strip;
  }

  /** A printed number passes a range check exactly if it is in the range. */
  lemma PrintedInRange(n: nat, most: nat)
    requires most <= 65535
    ensures
      var p := ParseInt(Decimal.Print(n));
      (p.Some? && 1 <= p.value <= most <==> 1 <= n <= most) && (p.Some? ==> p.value == n)
  {
    hide ParseInt, Decimal.Print;
    ParsedPrint(n);
    if n <= most {
      IntIsFixed(n);
    }
  }

  /** The default texts with other numbers. */
  function WithNumbers(domain: string, email: string, http: nat, https: nat, retention: nat): (t: Texts) {
    TextsOf(DefaultConfig(domain, email)).(
      httpPort := Decimal.Print(http), httpsPort := Decimal.Print(https), retention := Decimal.Print(retention))
  }

  lemma CheckedNumbers(
    lower: string -> string, domain: string, email: string, http: nat, https: nat, retention: nat)
    requires Lowers(lower) && IsDomain(domain) && IsEmail(email)
    ensures
      var r := Checked(lower, WithNumbers(domain, email, http, https, retention));
      && (r.Some? <==> 1 <= http <= 65535 && 1 <= https <= 65535 && http != https && 1 <= retention <= 365)
      && (r.Some? ==> r.value.httpPort == http && r.value.httpsPort == https && r.value.retention == retention)
  {
    hide IsDomain, IsEmail, Lowers, DefaultImage, DefaultCaddyImage, Decimal.Print, ValidConfig;
    hide ParseInt, ValidateDomain, ValidateEmail, ValidateImage, ValidateStack, ValidateTimezone, ValidateLevel;
    PrintedInRange(http, 65535);
    PrintedInRange(https, 65535);
    PrintedInRange(retention, 365);
    DefaultsAreFixed(lower, domain, email);
  }

  /** Ports and retention are accepted exactly in their ranges, the ports apart. */
  lemma NumbersAcceptedIff(
    lower: string -> string, domain: string, email: string, http: nat, https: nat, retention: nat)
    requires Lowers(lower) && IsDomain(domain) && IsEmail(email)
    ensures
      var r := Validated(lower, Raw(Some(domain), Some(email), None, None, None, None,
        Some(Decimal.Print(http)), Some(Decimal.Print(https)), Some(Decimal.Print(retention)), None));
      && (r.Some? <==> 1 <= http <= 65535 && 1 <= https <= 65535 && http != https && 1 <= retention <= 365)
      && (r.Some? ==> r.value.httpPort == http && r.value.httpsPort == https && r.value.retention == retention)
  {
    hide IsDomain, IsEmail, Lowers, DefaultImage, DefaultCaddyImage, Decimal.Print, ValidConfig, Checked;
    CheckedNumbers(lower, domain, email, http, https, retention);
  }

  // ----- the environment file -----

  datatype Var =
    Version | Revision | Stack | Domain | Email | Image | Caddy | Http | Https | Retention | Level | Zone

  function ShortName(v: Var): (r: string) {
    match v
    case Version => "VERSION"
    case Revision => "CONFIG_REVISION"
    case Stack => "STACK_NAME"
    case Domain => "SERVER_NAME"
    case Email => "OPERATOR_EMAIL"
    case Image => "HOMESERVER_IMAGE"
    case Caddy => "CADDY_IMAGE"
    case Http => "HTTP_PORT"
    case Https => "HTTPS_PORT"
    case Retention => "BACKUP_RETENTION"
    case Level => "LOG_LEVEL"
    case Zone => "TIMEZONE"
  }

  const PREFIX: string := "CINQUAIN_"

  function Name(v: Var): (r: string) {
    PREFIX + ShortName(v)
  }

  const ORDER: seq<Var> :=
    [Version, Revision, Stack, Domain, Email, Image, Caddy, Http, Https, Retention, Level, Zone]

  function ValueOf(c: Config, v: Var): (r: string) {
    match v
    case Version => VERSION()
    case Revision => "1"
    case Stack => c.stack
    case Domain => c.domain
    case Email => c.email
    case Image => c.image
    case Caddy => c.caddyImage
    case Http => Decimal.Print(c.httpPort)
    case Https => Decimal.Print(c.httpsPort)
    case Retention => Decimal.Print(c.retention)
    case Level => c.logLevel
    case Zone => c.timezone
  }

  function Header(): (r: string) {
    "# Managed by Cinquain. Permissions must remain 0600."
  }

  /** The lines for the first n variables. */
  function EnvLines(c: Config, n: nat): (r: seq<string>)
    requires n <= |ORDER|
    ensures |r| == n + 1
  {
    if n == 0 then [Header()]
    else EnvLines(c, n - 1) + [Line(Name(ORDER[n - 1]), ValueOf(c, ORDER[n - 1]))]
  }

  function EnvText(c: Config): (r: string) {
    Unlines(EnvLines(c, |ORDER|))
  }

  predicate KeyChars(s: string) {
    forall i :: 0 <= i < |s| ==> IsKeyChar(s[i])
  }

  lemma ShortNameChars(v: Var)
    ensures KeyChars(ShortName(v))
  {
    assert KeyChars("VERSION") && KeyChars("CONFIG_REVISION") && KeyChars("STACK_NAME");
    assert KeyChars("SERVER_NAME") && KeyChars("OPERATOR_EMAIL") && KeyChars("HOMESERVER_IMAGE");
    assert KeyChars("CADDY_IMAGE") && KeyChars("HTTP_PORT") && KeyChars("HTTPS_PORT");
    assert KeyChars("BACKUP_RETENTION") && KeyChars("LOG_LEVEL") && KeyChars("TIMEZONE");
    hide KeyChars;
  }

  lemma NameIsKey(v: Var)
    ensures IsKey(Name(v))
  {
    ShortNameChars(v);
    hide ShortName;
    assert IsKey(PREFIX);
  }

  lemma NameInjective(u: Var, v: Var)
    requires Name(u) == Name(v)
    ensures u == v
  {
    assert Name(u)[|PREFIX|..] == ShortName(u) && Name(v)[|PREFIX|..] == ShortName(v);
    assert |ShortName(u)| == |ShortName(v)| && ShortName(u)[0] == ShortName(v)[0];
  }

  predicate Printable(s: string) {
    forall i :: 0 <= i < |s| ==> ' ' <= s[i] <= '~'
  }

  lemma PrintableHasNoBreaks(s: string)
    requires Printable(s)
    ensures NoBreaks(s)
  {
  }

  lemma PrintableConcat(a: string, b: string)
    requires Printable(a) && Printable(b)
    ensures Printable(a + b)
  {
  }

  lemma HeaderParts()
    ensures Header() == "# Managed by Cinquain. Per" + "missions must remain 0600."
  {
  }

  lemma HeaderIsPrintable()
    ensures Printable(Header()) && |Header()| > 0 && Header()[0] == '#' && Header()[|Header()| - 1] == '.'
  {
    hide Header;
    HeaderParts();
    var a, b := "# Managed by Cinquain. Per", "missions must remain 0600.";
    assert a[0] == '#' && b[|b| - 1] == '.';
    PrintableConcat(a, b);
  }

  lemma HeaderIsComment()
    ensures NoBreaks(Header()) && Entry(Header()) == None
  {
    hide Header, Entry;
    HeaderIsPrintable();
    PrintableHasNoBreaks(Header());
    StripOfComment(Header());
  }

  lemma StripOfComment(s: string)
    requires s != [] && s[0] == '#' && !IsSpace(s[|s| - 1])
    ensures Entry(s) == None
  {
    StripIsIdentity(s);
  }

  lemma ValueIsGraphic(lower: string -> string, c: Config, v: Var)
    requires Lowers(lower) && ValidConfig(c)
    ensures Graphic(ValueOf(c, v))
  {
    match v
    case Version =>
    case Revision =>
    case Stack => StackIsFixed(lower, c.stack);
    case Domain => DomainIsFixed(lower, c.domain);
    case Email => EmailIsFixed(c.email);
    case Image => ImageIsFixed(lower, c.image);
    case Caddy => ImageIsFixed(lower, c.caddyImage);
    case Http => IntIsFixed(c.httpPort);
    case Https => IntIsFixed(c.httpsPort);
    case Retention => IntIsFixed(c.retention);
    case Level => LevelIsFixed(lower, c.logLevel);
    case Zone => TimezoneIsFixed(c.timezone);
  }

  lemma LineIsClean(key: string, value: string)
    requires IsKey(key) && Graphic(value)
    ensures NoBreaks(Line(key, value)) && NoSpaces(value)
  {
    var s := Line(key, value);
    forall i | 0 <= i < |s|
      ensures !IsBreak(s[i])
    {
      assert i < |key| ==> IsKeyChar(s[i]);
    }
  }

  /** The written lines are clean, and say exactly the values of their variables. */
  lemma {:induction false} EnvOfLines(lower: string -> string, c: Config, n: nat)
    requires Lowers(lower) && ValidConfig(c) && n <= |ORDER|
    ensures forall i :: 0 <= i <= n ==> NoBreaks(EnvLines(c, n)[i])
    ensures forall j :: 0 <= j < n ==>
      Name(ORDER[j]) in EnvOf(EnvLines(c, n)) && EnvOf(EnvLines(c, n))[Name(ORDER[j])] == ValueOf(c, ORDER[j])
  {
    hide Name, ValueOf, Line, Entry, Header, ValidConfig, Lowers;
    if n == 0 {
      HeaderIsComment();
      assert EnvLines(c, 0)[..0] == [];
    } else {
      EnvOfLines(lower, c, n - 1);
      var v := ORDER[n - 1];
      LineOfVar(lower, c, v);
      hide NoBreaks;
      var before := EnvLines(c, n - 1);
      assert EnvLines(c, n)[..n] == before;
      forall j | 0 <= j < n
        ensures Name(ORDER[j]) in EnvOf(EnvLines(c, n))
        ensures EnvOf(EnvLines(c, n))[Name(ORDER[j])] == ValueOf(c, ORDER[j])
      {
        if j < n - 1 {
          OrderDistinct(j, n - 1);
          if Name(ORDER[j]) == Name(v) {
            NameInjective(ORDER[j], v);
          }
        }
      }
    }
  }

  lemma LineOfVar(lower: string -> string, c: Config, v: Var)
    requires Lowers(lower) && ValidConfig(c)
    ensures NoBreaks(Line(Name(v), ValueOf(c, v)))
    ensures Entry(Line(Name(v), ValueOf(c, v))) == Some((Name(v), ValueOf(c, v)))
  {
    hide Name, ValueOf, Line, Entry, ValidConfig, Lowers, NoBreaks, NoSpaces, Graphic, IsKey;
    NameIsKey(v);
    ValueIsGraphic(lower, c, v);
    LineIsClean(Name(v), ValueOf(c, v));
    EntryOfLine(Name(v), ValueOf(c, v));
  }

  lemma OrderDistinct(i: nat, j: nat)
    requires i < j < |ORDER|
    ensures ORDER[i] != ORDER[j]
  {
  }

  /** What the values of an environment file make of a configuration. */
  function FromEnv(env: map<string, string>): (r: Raw) {
    Raw(Get(env, Domain), Get(env, Email), Get(env, Image), Get(env, Caddy), Get(env, Stack), Get(env, Zone),
        Get(env, Http), Get(env, Https), Get(env, Retention), Get(env, Level))
  }

  function Get(env: map<string, string>, v: Var): (r: Option<string>) {
    if Name(v) in env then Some(env[Name(v)]) else None
  }

  lemma ReadBack(lower: string -> string, c: Config, v: Var)
    requires Lowers(lower) && ValidConfig(c)
    ensures LinesOf(EnvText(c)) == EnvLines(c, |ORDER|)
    ensures Get(EnvOf(LinesOf(EnvText(c))), v) == Some(ValueOf(c, v))
  {
    EnvOfLines(lower, c, |ORDER|);
    hide Name, ValueOf, ValidConfig, EnvOf;
    var lines := EnvLines(c, |ORDER|);
    forall i | 0 <= i < |lines|
      ensures NoBreaks(lines[i])
    {
    }
    LinesOfUnlines(lines);
    var j := IndexOf(v);
    assert ORDER[j] == v;
  }

  /** The variable of the given name, after the prefix all have, has the value. */
  predicate Says(env: map<string, string>, name: string, value: string) {
    "CINQUAIN_" + name in env && env["CINQUAIN_" + name] == value
  }

  lemma VarSays(lower: string -> string, c: Config, v: Var)
    requires Lowers(lower) && ValidConfig(c)
    ensures Says(EnvOf(LinesOf(EnvText(c))), ShortName(v), ValueOf(c, v))
  {
    hide EnvText, LinesOf, EnvOf, ValidConfig, Lowers, ValueOf, ShortName;
    ReadBack(lower, c, v);
  }

  /** What a reader of the written environment file finds. */
  lemma EnvSays(lower: string -> string, c: Config)
    requires Lowers(lower) && ValidConfig(c)
    ensures
      var env := EnvOf(LinesOf(EnvText(c)));
      && Says(env, "VERSION", "0.0.2")
      && Says(env, "CONFIG_REVISION", "1")
      && Says(env, "STACK_NAME", c.stack)
      && Says(env, "SERVER_NAME", c.domain)
      && Says(env, "OPERATOR_EMAIL", c.email)
      && Says(env, "HOMESERVER_IMAGE", c.image)
      && Says(env, "CADDY_IMAGE", c.caddyImage)
      && Says(env, "HTTP_PORT", Decimal.Print(c.httpPort))
      && Says(env, "HTTPS_PORT", Decimal.Print(c.httpsPort))
      && Says(env, "BACKUP_RETENTION", Decimal.Print(c.retention))
      && Says(env, "LOG_LEVEL", c.logLevel)
      && Says(env, "TIMEZONE", c.timezone)
  {
    hide EnvText, LinesOf, EnvOf, Says, ValidConfig, Lowers, Decimal.Print;
    VarSays(lower, c, Version);
    VarSays(lower, c, Revision);
    VarSays(lower, c, Stack);
    VarSays(lower, c, Domain);
    VarSays(lower, c, Email);
    VarSays(lower, c, Image);
    VarSays(lower, c, Caddy);
    VarSays(lower, c, Http);
    VarSays(lower, c, Https);
    VarSays(lower, c, Retention);
    VarSays(lower, c, Level);
    VarSays(lower, c, Zone);
  }

  function IndexOf(v: Var): (j: nat)
    ensures j < |ORDER| && ORDER[j] == v
  {
    match v
    case Version => 0
    case Revision => 1
    case Stack => 2
    case Domain => 3
    case Email => 4
    case Image => 5
    case Caddy => 6
    case Http => 7
    case Https => 8
    case Retention => 9
    case Level => 10
    case Zone => 11
  }

  function TextsOf(c: Config): (r: Texts) {
    Texts(
      c.domain, c.email, c.image, c.caddyImage, c.stack, c.timezone,
      Decimal.Print(c.httpPort), Decimal.Print(c.httpsPort), Decimal.Print(c.retention), c.logLevel)
  }

  lemma FilledFromEnv(env: map<string, string>, c: Config)
    requires forall v :: Get(env, v) == Some(ValueOf(c, v))
    ensures Filled(FromEnv(env)) == TextsOf(c)
  {
    hide Get, DefaultImage, DefaultCaddyImage, VERSION;
  }

  lemma CheckedTexts(lower: string -> string, c: Config)
    requires Lowers(lower) && ValidConfig(c)
    ensures Checked(lower, TextsOf(c)) == Some(c)
  {
    hide ParseInt, ValidateDomain, ValidateEmail, ValidateImage, ValidateStack, ValidateTimezone, ValidateLevel, Lowers;
    AllFixed(lower, c);
  }

  /** A configuration is what its own text is read and validated back to. */
  lemma ConfigRoundTrip(lower: string -> string, c: Config)
    requires Lowers(lower) && ValidConfig(c)
    ensures Validated(lower, FromEnv(EnvOf(LinesOf(EnvText(c))))) == Some(c)
  {
    hide EnvText, LinesOf, EnvOf, Get, Lowers, ValueOf, Filled, Checked, ValidConfig, FromEnv;
    forall v: Var
      ensures Get(EnvOf(LinesOf(EnvText(c))), v) == Some(ValueOf(c, v))
    {
      ReadBack(lower, c, v);
    }
    FilledFromEnv(EnvOf(LinesOf(EnvText(c))), c);
    CheckedTexts(lower, c);
  }

  lemma AllFixed(lower: string -> string, c: Config)
    requires Lowers(lower) && ValidConfig(c)
    ensures ValidateDomain(lower, c.domain) == Some(c.domain) && ValidateEmail(c.email) == Some(c.email)
    ensures ValidateImage(lower, c.image) == Some(c.image)
    ensures ValidateImage(lower, c.caddyImage) == Some(c.caddyImage)
    ensures ValidateStack(lower, c.stack) == Some(c.stack)
    ensures ValidateTimezone(c.timezone) == Some(c.timezone)
    ensures ValidateLevel(lower, c.logLevel) == Some(c.logLevel)
    ensures ParseInt(Decimal.Print(c.httpPort)) == Some(c.httpPort)
    ensures ParseInt(Decimal.Print(c.httpsPort)) == Some(c.httpsPort)
    ensures ParseInt(Decimal.Print(c.retention)) == Some(c.retention)
  {
    hide ValidateDomain, ValidateEmail, ValidateImage, ValidateStack, ValidateTimezone, ValidateLevel, ParseInt, Lowers;
    DomainIsFixed(lower, c.domain);
    EmailIsFixed(c.email);
    ImageIsFixed(lower, c.image);
    ImageIsFixed(lower, c.caddyImage);
    StackIsFixed(lower, c.stack);
    TimezoneIsFixed(c.timezone);
    LevelIsFixed(lower, c.logLevel);
    IntIsFixed(c.httpPort);
    IntIsFixed(c.httpsPort);
    IntIsFixed(c.retention);
  }
}
