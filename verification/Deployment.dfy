/** The files of a deployment: its environment file, the homeserver's own
    configuration, and the lock that records the domain it first ran with. */
module Deployment {
  import opened Common
  import opened EnvFile
  import opened Validators
  import opened DeployConfig
  import Decimal

  datatype Files = Files(env: Option<string>, toml: Option<string>, lock: Option<string>)

  // ----- the homeserver's configuration -----

  /** The first line. */
  function Heading(): (r: string) {
    "# Managed by Cinquain " + VERSION() + ". server_name is immutable after first deployment."
  }

  const GLOBAL: string := "[global]"
  const WELL_KNOWN: string := "[global.well_known]"

  function Quoted(s: string): (r: string) {
    "\"" + s + "\""
  }

  /** A setting: its key, and its value as it is spelled in the file. */
  type Setting = (string, string)

  function GlobalSettings(c: Config): (r: seq<Setting>) {
    [
      ("server_name", Quoted(c.domain)),
      ("database_path", Quoted("/var/lib/continuwuity")),
      ("address", "[\"0.0.0.0\"]"),
      ("port", "8008"),
      ("allow_registration", "false"),
      ("allow_federation", "true"),
      ("request_ip_source", Quoted("x_forwarded_for"))
    ]
  }

  function WellKnownSettings(c: Config): (r: seq<Setting>) {
    [
      ("client", Quoted("https://" + c.domain)),
      ("server", Quoted(c.domain + ":" + Decimal.Print(c.httpsPort))),
      ("support_page", Quoted("https://" + c.domain + "/support/")),
      ("support_email", Quoted(c.email))
    ]
  }

  function Assigned(s: Setting): (r: string) {
    s.0 + " = " + s.1
  }

  /** The settings, a line each, in front of a text. */
  function Written(settings: seq<Setting>, rest: string): (r: string) {
    if settings == [] then rest else Assigned(settings[0]) + "\n" + Written(settings[1..], rest)
  }

  function WellKnownText(c: Config): (r: string) {
    WELL_KNOWN + "\n" + Written(WellKnownSettings(c), "")
  }

  function TomlText(c: Config): (r: string) {
    Heading() + "\n" + (GLOBAL + "\n" + Written(GlobalSettings(c), "" + "\n" + WellKnownText(c)))
  }

  /** What the first line for a key in a section assigns to it; `current` is the
      section the text starts in. */
  function Lookup(text: string, current: string, section: string, key: string): (r: Option<string>)
    decreases |text|
  {
    if text == [] then None
    else
      var k := Find(text, '\n');
      var line, rest := text[..k], if k < |text| then text[k + 1..] else [];
      if line != [] && line[0] == '[' then Lookup(rest, line, section, key)
      else if current == section && key + " = " <= line then Some(line[|key| + 3..])
      else Lookup(rest, current, section, key)
  }

  /** What a configuration text sets a key of a section to. */
  function TomlValue(text: string, section: string, key: string): (r: Option<string>) {
    Lookup(text, "", section, key)
  }

  function Unquoted(v: string): (r: Option<string>) {
    if v != [] && v[0] == '"' then Some(v[1..1 + Find(v[1..], '"')]) else None
  }

  /** The server name a configuration text gives. */
  function TomlDomain(text: string): (r: Option<string>) {
    var v := TomlValue(text, GLOBAL, "server_name");
    if v.Some? then Unquoted(v.value) else None
  }

  /** A line and what follows it. */
  lemma FirstLine(line: string, rest: string)
    requires !HasChar(line, '\n')
    ensures
      var text := line + "\n" + rest;
      Find(text, '\n') == |line| && text[..|line|] == line && text[|line| + 1..] == rest
  {
    var text := line + "\n" + rest;
    assert forall i :: 0 <= i < |line| ==> text[i] == line[i];
    FindAt(text, '\n', |line|);
  }

  lemma LastPart()
    ensures ". server_name is immutable after first deployment." ==
      ". server_name is immutable" + " after first deployment."
  {
  }

  lemma HeadingParts()
    ensures Heading() ==
      ("# Managed by Cinquain " + VERSION()) + (". server_name is immutable" + " after first deployment.")
  {
    hide VERSION;
    LastPart();
  }

  lemma HeadingIsComment()
    ensures !HasChar(Heading(), '\n') && Heading() != [] && Heading()[0] == '#'
  {
    HeadingParts();
    hide Heading;
    var a, b := "# Managed by Cinquain ", VERSION();
    var c, d := ". server_name is immutable", " after first deployment.";
    assert a[0] == '#';
    NoneInConcat(a, b, '\n');
    NoneInConcat(c, d, '\n');
    NoneInConcat(a + b, c + d, '\n');
  }

  lemma NoneInConcat(a: string, b: string, c: char)
    requires !HasChar(a, c) && !HasChar(b, c)
    ensures !HasChar(a + b, c)
  {
  }

  lemma HeadingIsSkipped(rest: string, section: string, key: string)
    requires section != ""
    ensures Lookup(Heading() + "\n" + rest, "", section, key) == Lookup(rest, "", section, key)
  {
    HeadingIsComment();
    hide Heading;
    FirstLine(Heading(), rest);
  }

  lemma SectionIsEntered(header: string, rest: string, current: string, section: string, key: string)
    requires header != [] && header[0] == '[' && !HasChar(header, '\n')
    ensures Lookup(header + "\n" + rest, current, section, key) == Lookup(rest, header, section, key)
  {
    FirstLine(header, rest);
  }

  lemma EmptyIsSkipped(rest: string, current: string, section: string, key: string)
    ensures Lookup("" + "\n" + rest, current, section, key) == Lookup(rest, current, section, key)
  {
    FirstLine("", rest);
  }

  /** A key without blanks, and a value on one line. */
  predicate Writable(s: Setting) {
    && s.0 != [] && s.0[0] != '[' && !HasChar(s.0, ' ') && !HasChar(s.0, '\n') && !HasChar(s.1, '\n')
  }

  predicate AllWritable(settings: seq<Setting>) {
    forall i :: 0 <= i < |settings| ==> Writable(settings[i])
  }

  predicate KeysDistinct(settings: seq<Setting>) {
    forall i, j :: 0 <= i < j < |settings| ==> settings[i].0 != settings[j].0
  }

  lemma AssignsOwnKey(s: Setting, key: string)
    requires Writable(s) && !HasChar(key, ' ')
    ensures key + " = " <= Assigned(s) <==> key == s.0
    ensures Assigned(s)[|s.0| + 3..] == s.1
  {
    var line := Assigned(s);
    assert line[|s.0|] == ' ';
    assert forall i :: 0 <= i < |s.0| ==> line[i] == s.0[i];
    var start := key + " = ";
    if start <= line {
      assert forall i :: 0 <= i < |start| ==> line[i] == start[i];
      assert start[|key|] == ' ';
      assert forall i :: 0 <= i < |key| ==> start[i] == key[i];
      assert |key| == |s.0|;
      assert key == line[..|key|] == s.0;
    }
    assert line[..|s.0| + 3] == s.0 + " = ";
  }

  lemma AssignedIsLine(s: Setting)
    requires Writable(s)
    ensures !HasChar(Assigned(s), '\n') && Assigned(s) != [] && Assigned(s)[0] != '['
  {
    NoneInConcat(s.0, " = ", '\n');
    NoneInConcat(s.0 + " = ", s.1, '\n');
  }

  lemma OneLine(s: Setting, rest: string, current: string, section: string, key: string)
    requires Writable(s) && !HasChar(key, ' ')
    ensures Lookup(Assigned(s) + "\n" + rest, current, section, key) ==
      if current == section && key == s.0 then Some(s.1) else Lookup(rest, current, section, key)
  {
    AssignedIsLine(s);
    AssignsOwnKey(s, key);
    hide Assigned, Writable, HasChar;
    FirstLine(Assigned(s), rest);
  }

  /** Settings of another section are passed over. */
  lemma {:induction false} OtherSection(
    settings: seq<Setting>, rest: string, current: string, section: string, key: string)
    requires AllWritable(settings) && !HasChar(key, ' ') && current != section
    ensures Lookup(Written(settings, rest), current, section, key) == Lookup(rest, current, section, key)
  {
    if settings != [] {
      hide Writable, HasChar;
      OtherSection(settings[1..], rest, current, section, key);
      OneLine(settings[0], Written(settings[1..], rest), current, section, key);
      hide Lookup, Assigned;
    }
  }

  /** A setting of the section is found. */
  lemma {:induction false} OwnSection(settings: seq<Setting>, rest: string, section: string, i: nat)
    requires AllWritable(settings) && KeysDistinct(settings) && i < |settings|
    ensures Lookup(Written(settings, rest), section, section, settings[i].0) == Some(settings[i].1)
  {
    assert Writable(settings[i]);
    OneLine(settings[0], Written(settings[1..], rest), section, section, settings[i].0);
    if i > 0 {
      assert settings[0].0 != settings[i].0;
      hide Lookup, Assigned, Writable;
      OwnSection(settings[1..], rest, section, i - 1);
    }
  }

  lemma OneLineOfGraphic(s: string)
    requires Graphic(s)
    ensures !HasChar(s, '\n')
  {
  }

  lemma QuotedIsOneLine(s: string)
    requires !HasChar(s, '\n')
    ensures !HasChar(Quoted(s), '\n')
  {
  }

  lemma GlobalsWritable(c: Config)
    requires !HasChar(c.domain, '\n')
    ensures AllWritable(GlobalSettings(c)) && KeysDistinct(GlobalSettings(c))
  {
    hide Quoted;
    QuotedIsOneLine(c.domain);
    QuotedIsOneLine("/var/lib/continuwuity");
    QuotedIsOneLine("x_forwarded_for");
  }

  lemma WellKnownWritable(c: Config)
    requires !HasChar(c.domain, '\n') && !HasChar(c.email, '\n')
    ensures AllWritable(WellKnownSettings(c)) && KeysDistinct(WellKnownSettings(c))
  {
    var port := Decimal.Print(c.httpsPort);
    assert !HasChar(port, '\n') by {
      assert forall i :: 0 <= i < |port| ==> Decimal.IsDigit(port[i]);
    }
    NoneInConcat("https://", c.domain, '\n');
    NoneInConcat("https://" + c.domain, "/support/", '\n');
    NoneInConcat(c.domain, ":", '\n');
    NoneInConcat(c.domain + ":", port, '\n');
    hide Quoted, Decimal.Print;
    QuotedIsOneLine("https://" + c.domain);
    QuotedIsOneLine(c.domain + ":" + port);
    QuotedIsOneLine("https://" + c.domain + "/support/");
    QuotedIsOneLine(c.email);
  }

  lemma OnOneLine(lower: string -> string, c: Config)
    requires Lowers(lower) && ValidConfig(c)
    ensures !HasChar(c.domain, '\n') && !HasChar(c.email, '\n')
  {
    hide HasChar, IsDomain, IsEmail, IsImage, IsStack, IsTimezone, IsLevel;
    DomainIsFixed(lower, c.domain);
    EmailIsFixed(c.email);
    OneLineOfGraphic(c.domain);
    OneLineOfGraphic(c.email);
  }

  /** The i-th setting of the global section is read back. */
  lemma GlobalIsRead(lower: string -> string, c: Config, i: nat)
    requires Lowers(lower) && ValidConfig(c) && i < |GlobalSettings(c)|
    ensures
      var s := GlobalSettings(c)[i];
      TomlValue(TomlText(c), GLOBAL, s.0) == Some(s.1)
  {
    OnOneLine(lower, c);
    assert !HasChar(GLOBAL, '\n');
    hide Heading, HasChar, ValidConfig, Lowers, GlobalSettings, WellKnownText, Lookup;
    GlobalsWritable(c);
    var s, rest := GlobalSettings(c)[i], "" + "\n" + WellKnownText(c);
    var globals := Written(GlobalSettings(c), rest);
    HeadingIsSkipped(GLOBAL + "\n" + globals, GLOBAL, s.0);
    SectionIsEntered(GLOBAL, globals, "", GLOBAL, s.0);
    OwnSection(GlobalSettings(c), rest, GLOBAL, i);
  }

  /** The i-th setting of the delegation section is read back. */
  lemma WellKnownIsRead(lower: string -> string, c: Config, i: nat)
    requires Lowers(lower) && ValidConfig(c) && i < |WellKnownSettings(c)|
    ensures
      var s := WellKnownSettings(c)[i];
      TomlValue(TomlText(c), WELL_KNOWN, s.0) == Some(s.1)
  {
    OnOneLine(lower, c);
    assert !HasChar(GLOBAL, '\n') && !HasChar(WELL_KNOWN, '\n') && |GLOBAL| != |WELL_KNOWN|;
    GlobalsWritable(c);
    WellKnownWritable(c);
    hide GlobalSettings, WellKnownSettings, Heading, ValidConfig, Lowers, Lookup;
    var s, rest := WellKnownSettings(c)[i], "" + "\n" + WellKnownText(c);
    var globals := Written(GlobalSettings(c), rest);
    assert Writable(s);
    hide HasChar;
    HeadingIsSkipped(GLOBAL + "\n" + globals, WELL_KNOWN, s.0);
    SectionIsEntered(GLOBAL, globals, "", WELL_KNOWN, s.0);
    OtherSection(GlobalSettings(c), rest, GLOBAL, WELL_KNOWN, s.0);
    EmptyIsSkipped(WellKnownText(c), GLOBAL, WELL_KNOWN, s.0);
    SectionIsEntered(WELL_KNOWN, Written(WellKnownSettings(c), ""), GLOBAL, WELL_KNOWN, s.0);
    OwnSection(WellKnownSettings(c), "", WELL_KNOWN, i);
  }

  lemma QuotedConstants()
    ensures Quoted("/var/lib/continuwuity") == "\"/var/lib/continuwuity\""
    ensures Quoted("x_forwarded_for") == "\"x_forwarded_for\""
  {
  }

  /** The homeserver's own settings, as a reader of the written text finds them. */
  lemma TomlSaysGlobal(lower: string -> string, c: Config)
    requires Lowers(lower) && ValidConfig(c)
    ensures
      var t := TomlText(c);
      && TomlValue(t, "[global]", "server_name") == Some("\"" + c.domain + "\"")
      && TomlValue(t, "[global]", "address") == Some("[\"0.0.0.0\"]")
      && TomlValue(t, "[global]", "port") == Some("8008")
      && TomlValue(t, "[global]", "allow_registration") == Some("false")
      && TomlValue(t, "[global]", "allow_federation") == Some("true")
  {
    hide TomlText, TomlValue, ValidConfig, Lowers;
    GlobalIsRead(lower, c, 0);
    GlobalIsRead(lower, c, 2);
    GlobalIsRead(lower, c, 3);
    GlobalIsRead(lower, c, 4);
    GlobalIsRead(lower, c, 5);
  }

  lemma TomlSaysPaths(lower: string -> string, c: Config)
    requires Lowers(lower) && ValidConfig(c)
    ensures TomlValue(TomlText(c), "[global]", "database_path") == Some("\"/var/lib/continuwuity\"")
    ensures TomlValue(TomlText(c), "[global]", "request_ip_source") == Some("\"x_forwarded_for\"")
  {
    hide TomlText, TomlValue, ValidConfig, Lowers, Quoted;
    QuotedConstants();
    GlobalIsRead(lower, c, 1);
    GlobalIsRead(lower, c, 6);
  }

  /** The delegation settings: where clients and other servers are sent. */
  lemma TomlSaysWellKnown(lower: string -> string, c: Config)
    requires Lowers(lower) && ValidConfig(c)
    ensures
      var t := TomlText(c);
      && TomlValue(t, "[global.well_known]", "client") == Some("\"https://" + c.domain + "\"")
      && TomlValue(t, "[global.well_known]", "server") ==
         Some("\"" + c.domain + ":" + Decimal.Print(c.httpsPort) + "\"")
      && TomlValue(t, "[global.well_known]", "support_page") == Some("\"https://" + c.domain + "/support/\"")
      && TomlValue(t, "[global.well_known]", "support_email") == Some("\"" + c.email + "\"")
  {
    hide TomlText, TomlValue, ValidConfig, Lowers, Decimal.Print;
    WellKnownIsRead(lower, c, 0);
    WellKnownIsRead(lower, c, 1);
    WellKnownIsRead(lower, c, 2);
    WellKnownIsRead(lower, c, 3);
    var d, port := c.domain, Decimal.Print(c.httpsPort);
    assert Quoted("https://" + d) == "\"https://" + d + "\"";
    assert Quoted(d + ":" + port) == "\"" + d + ":" + port + "\"";
    assert Quoted("https://" + d + "/support/") == "\"https://" + d + "/support/\"";
  }

  lemma UnquotedQuoted(s: string)
    requires !HasChar(s, '"')
    ensures Unquoted(Quoted(s)) == Some(s)
  {
    var v := Quoted(s);
    assert v[1..] == s + "\"";
    FindAt(v[1..], '"', |s|);
  }

  lemma TomlNamesDomain(lower: string -> string, c: Config)
    requires Lowers(lower) && ValidConfig(c)
    ensures TomlDomain(TomlText(c)) == Some(c.domain)
  {
    hide TomlText, TomlValue, Lowers, IsDomain, IsEmail, IsImage, IsStack, IsTimezone, IsLevel, Unquoted;
    DomainIsFixed(lower, c.domain);
    GlobalIsRead(lower, c, 0);
    UnquotedQuoted(c.domain);
  }

  function EnvDomain(text: string): (r: Option<string>) {
    Get(EnvOf(LinesOf(text)), Domain)
  }

  // ----- writing -----

  /** The domain the deployment is locked to, empty if it is not locked. */
  function LockedTo(f: Files): (r: string) {
    if f.lock.Some? then Strip(f.lock.value) else ""
  }

  predicate Refused(f: Files, c: Config) {
    LockedTo(f) != "" && LockedTo(f) != c.domain
  }

  /** The files after a write of which only `cut` file replacements were done. */
  function AfterWrite(f: Files, c: Config, cut: nat): (r: Files) {
    if Refused(f, c) || cut == 0 then f
    else if cut == 1 then f.(env := Some(EnvText(c)))
    else f.(env := Some(EnvText(c)), toml := Some(TomlText(c)))
  }

  /** The files after an image update of which only `cut` replacements were done. */
  function AfterUpdate(lower: string -> string, f: Files, raw: string, cut: nat): (r: Files) {
    var image := ValidateImage(lower, raw);
    if image.None? || f.env.None? || EnvOf(LinesOf(f.env.value)) == map[] || cut == 0 then f
    else f.(env := Some(UpdatedText(f.env.value, Name(Image), image.value)))
  }

  datatype Ending = Done | Error | Stopped

  class Root {
    var env: Option<string>
    var toml: Option<string>
    var lock: Option<string>

    ghost function State(): (f: Files)
      reads this
    {
      Files(env, toml, lock)
    }

    constructor (f: Files)
      ensures State() == f
    {
      env, toml, lock := f.env, f.toml, f.lock;
    }

    /** Write a configuration; the process may be stopped before any replacement. */
    method WriteConfig(c: Config, cut: nat) returns (e: Ending)
      modifies this`env, this`toml
      ensures State() == AfterWrite(old(State()), c, cut)
      ensures e == Error <==> lock.Some? && Strip(lock.value) != "" && Strip(lock.value) != c.domain
      ensures e == Error ==> env == old(env) && toml == old(toml)
      ensures e == Stopped ==> toml == old(toml) && env == if cut == 0 then old(env) else Some(EnvText(c))
      ensures e == Stopped ==> cut < 2
      ensures e == Done ==> env == Some(EnvText(c)) && toml == Some(TomlText(c))
    {
      hide EnvText, TomlText;
      var locked := if lock.Some? then Strip(lock.value) else "";
      if locked != "" && locked != c.domain {
        return Error;
      }
      if cut == 0 {
        return Stopped;
      }
      env := Some(EnvText(c));
      if cut == 1 {
        return Stopped;
      }
      toml := Some(TomlText(c));
      e := Done;
    }

    /** Change the image in the environment file. */
    method UpdateImage(lower: string -> string, raw: string, cut: nat) returns (e: Ending)
      modifies this`env
      ensures State() == AfterUpdate(lower, old(State()), raw, cut)
      ensures e == Error <==>
        ValidateImage(lower, raw).None? || old(env).None? || EnvOf(LinesOf(old(env).value)) == map[]
      ensures e == Stopped ==> cut == 0
    {
      hide Name, LinesOf, ValidateImage;
      var image := ValidateImage(lower, raw);
      if image.None? {
        return Error;
      }
      var values := ReadEnv(env);
      if values == map[] {
        return Error;
      }
      var lines := LinesOf(env.value);
      var output := UpdateLines(lines, Name(Image), image.value);
      if cut == 0 {
        return Stopped;
      }
      env := Some(Unlines(output));
      e := Done;
    }
  }

  // ----- only the image changes -----

  lemma PlainOfLine(key: string, value: string, other: string)
    requires IsKey(key) && IsKey(other)
    ensures Plain(Line(key, value), other) <==> key == other
  {
    var s := Line(key, value);
    if Plain(s, other) {
      assert forall i :: 0 <= i < |other| ==> s[i] == other[i] && IsKeyChar(other[i]);
      assert s[|other|] == (other + "=")[|other|] == '=';
      assert forall i :: 0 <= i < |key| ==> s[i] == key[i] && IsKeyChar(key[i]);
      assert s[|key|] == '=';
      assert |key| == |other|;
      assert key == s[..|key|] == other;
    }
    assert s[..|key| + 1] == key + "=";
  }

  lemma HeaderNotPlain(key: string)
    requires IsKey(key)
    ensures !Plain(Header(), key)
  {
    assert "# Managed by "[0] == '#';
    assert Header()[0] == '#' && (key + "=")[0] == key[0];
  }

  lemma ValueUnlessImage(c: Config, image: string, v: Var)
    ensures ValueOf(c.(image := image), v) == if v == Image then image else ValueOf(c, v)
  {
  }

  /** Of the written lines, only the one for the image starts with its name. */
  lemma PlainIsImage(c: Config, v: Var)
    ensures Plain(Line(Name(v), ValueOf(c, v)), Name(Image)) <==> v == Image
  {
    NameIsKey(v);
    NameIsKey(Image);
    hide Plain, Line, ValueOf;
    PlainOfLine(Name(v), ValueOf(c, v), Name(Image));
    if Name(v) == Name(Image) {
      NameInjective(v, Image);
    }
  }

  lemma {:induction false} ReplacedLines(c: Config, image: string, n: nat)
    requires n <= |ORDER|
    ensures Replaced(EnvLines(c, n), Name(Image), image) == EnvLines(c.(image := image), n)
  {
    hide Name, Line, Header, Plain, ValueOf;
    var lines := EnvLines(c, n);
    if n == 0 {
      NameIsKey(Image);
      HeaderNotPlain(Name(Image));
    } else {
      ReplacedLines(c, image, n - 1);
      var v := ORDER[n - 1];
      PlainIsImage(c, v);
      ValueUnlessImage(c, image, v);
      assert lines[..n] == EnvLines(c, n - 1);
    }
  }

  lemma {:induction false} ImageLineIsThere(c: Config, n: nat)
    requires IndexOf(Image) < n <= |ORDER|
    ensures HasPlain(EnvLines(c, n), Name(Image))
  {
    hide Name, Line, Header, Plain, ValueOf;
    var lines := EnvLines(c, n);
    assert lines[..n] == EnvLines(c, n - 1);
    PlainIsImage(c, ORDER[n - 1]);
    if n - 1 > IndexOf(Image) {
      ImageLineIsThere(c, n - 1);
    }
  }

  /** Updating the image of a written file gives the file of the configuration
      with that image. */
  lemma UpdatedEnvText(lower: string -> string, c: Config, image: string)
    requires Lowers(lower) && ValidConfig(c)
    ensures UpdatedText(EnvText(c), Name(Image), image) == EnvText(c.(image := image))
  {
    hide EnvLines, Name, LinesOf, Replaced, HasPlain, ValidConfig, EnvOf, Get, ValueOf, Lowers;
    ReadBack(lower, c, Image);
    ReplacedLines(c, image, |ORDER|);
    ImageLineIsThere(c, |ORDER|);
    var lines := Replaced(EnvLines(c, |ORDER|), Name(Image), image);
    assert lines + [] == lines;
  }

  function LastImage(lower: string -> string, image: string, raws: seq<string>): (r: string) {
    if raws == [] then image
    else
      var v := ValidateImage(lower, raws[|raws| - 1]);
      if v.Some? then v.value else LastImage(lower, image, raws[..|raws| - 1])
  }

  function Updates(lower: string -> string, f: Files, raws: seq<string>): (r: Files) {
    if raws == [] then f
    else AfterUpdate(lower, Updates(lower, f, raws[..|raws| - 1]), raws[|raws| - 1], 1)
  }

  /** After any number of image updates, accepted or not, the environment file
      is that of the same configuration with the last accepted image. */
  lemma {:induction false} OnlyImageChanges(lower: string -> string, f: Files, c: Config, raws: seq<string>)
    requires Lowers(lower) && ValidConfig(c) && f.env == Some(EnvText(c))
    ensures IsImage(LastImage(lower, c.image, raws))
    ensures
      Updates(lower, f, raws) == f.(env := Some(EnvText(c.(image := LastImage(lower, c.image, raws)))))
  {
    if raws == [] {
      assert c.(image := c.image) == c;
    } else {
      var n := |raws| - 1;
      OnlyImageChanges(lower, f, c, raws[..n]);
      UpdateOne(lower, f, c.(image := LastImage(lower, c.image, raws[..n])), raws[n]);
      hide EnvText, ValidConfig, IsImage, Lowers, AfterUpdate;
    }
  }

  /** One update of a written file. */
  lemma UpdateOne(lower: string -> string, f: Files, c: Config, raw: string)
    requires Lowers(lower) && ValidConfig(c)
    ensures
      var v := ValidateImage(lower, raw);
      var g := f.(env := Some(EnvText(c)));
      AfterUpdate(lower, g, raw, 1) == if v.Some? then f.(env := Some(EnvText(c.(image := v.value)))) else g
  {
    hide EnvText, LinesOf, EnvOf, Name, ValidConfig, IsImage, Lowers, UpdatedText, ValidateImage;
    var v := ValidateImage(lower, raw);
    if v.Some? {
      UpdatedEnvText(lower, c, v.value);
      EnvNotEmpty(lower, c);
    }
  }

  lemma EnvNotEmpty(lower: string -> string, c: Config)
    requires Lowers(lower) && ValidConfig(c)
    ensures EnvOf(LinesOf(EnvText(c))) != map[]
  {
    hide LinesOf, EnvText, Name, ValidConfig, EnvOf;
    ReadBack(lower, c, Image);
    assert Name(Image) in EnvOf(LinesOf(EnvText(c)));
  }

  // ----- the locked domain -----

  datatype Op = Write(config: Config, cut: nat) | Update(raw: string, cut: nat)

  function Step(lower: string -> string, f: Files, op: Op): (r: Files) {
    match op
    case Write(c, cut) => AfterWrite(f, c, cut)
    case Update(raw, cut) => AfterUpdate(lower, f, raw, cut)
  }

  function Steps(lower: string -> string, f: Files, ops: seq<Op>): (r: Files) {
    if ops == [] then f else Step(lower, Steps(lower, f, ops[..|ops| - 1]), ops[|ops| - 1])
  }

  predicate ValidOp(op: Op) {
    op.Write? ==> ValidConfig(op.config)
  }

  predicate EnvNames(f: Files, d: string) {
    f.env.Some? && EnvDomain(f.env.value) == Some(d)
  }

  predicate TomlNames(f: Files, d: string) {
    f.toml.Some? && TomlDomain(f.toml.value) == Some(d)
  }

  /** A written configuration names its domain in both files. */
  lemma WriteNames(lower: string -> string, c: Config)
    requires Lowers(lower) && ValidConfig(c)
    ensures EnvDomain(EnvText(c)) == Some(c.domain) && TomlDomain(TomlText(c)) == Some(c.domain)
  {
    hide EnvText, LinesOf, EnvOf, Get, TomlText, TomlDomain, ValidConfig;
    ReadBack(lower, c, Domain);
    TomlNamesDomain(lower, c);
  }

  /** An image update leaves the domain of any environment file alone. */
  lemma UpdateKeepsDomain(lower: string -> string, text: string, image: string)
    requires Lowers(lower) && IsImage(image)
    ensures EnvDomain(UpdatedText(text, Name(Image), image)) == EnvDomain(text)
  {
    ImageIsFixed(lower, image);
    StripOfGraphic(image);
    NameIsKey(Image);
    if Name(Domain) == Name(Image) {
      NameInjective(Domain, Image);
    }
    hide Name, LinesOf, EnvOf, IsImage, UpdatedText, Updated;
    UpdatedTextLines(text, Name(Image), image);
    UpdateEffect(LinesOf(text), Name(Image), image);
  }

  lemma StepKeepsDomain(lower: string -> string, f: Files, op: Op, d: string)
    requires Lowers(lower) && ValidOp(op) && d != ""
    requires LockedTo(f) == d && EnvNames(f, d) && TomlNames(f, d)
    ensures
      var g := Step(lower, f, op);
      LockedTo(g) == d && EnvNames(g, d) && TomlNames(g, d)
  {
    hide EnvDomain, TomlDomain, EnvText, TomlText, ValidConfig, EnvOf, LinesOf, UpdatedText, Lowers;
    match op
    case Write(c, cut) =>
      WriteNames(lower, c);
    case Update(raw, cut) =>
      var v := ValidateImage(lower, raw);
      if v.Some? && f.env.Some? {
        UpdateKeepsDomain(lower, f.env.value, v.value);
      }
  }

  /** Once the lock and both files name a domain, they do so after any run of
      writes and updates, each stopped at any point. */
  lemma {:induction false} DomainStaysLocked(lower: string -> string, f: Files, ops: seq<Op>, d: string)
    requires Lowers(lower) && (forall i :: 0 <= i < |ops| ==> ValidOp(ops[i])) && d != ""
    requires LockedTo(f) == d && EnvNames(f, d) && TomlNames(f, d)
    ensures
      var g := Steps(lower, f, ops);
      LockedTo(g) == d && EnvNames(g, d) && TomlNames(g, d)
  {
    hide EnvNames, TomlNames, Step, Lowers, ValidOp, LockedTo;
    if ops != [] {
      var n := |ops| - 1;
      DomainStaysLocked(lower, f, ops[..n], d);
      StepKeepsDomain(lower, Steps(lower, f, ops[..n]), ops[n], d);
    }
  }

  /** From files that agree on a domain, a write leaves them in agreement
      exactly unless it is stopped between the two replacements with a new
      domain that no lock refuses. */
  lemma WriteAgreesIff(lower: string -> string, f: Files, c: Config, cut: nat, d: string)
    requires Lowers(lower) && ValidConfig(c) && EnvNames(f, d) && TomlNames(f, d)
    ensures
      var g := AfterWrite(f, c, cut);
      (exists e :: EnvNames(g, e) && TomlNames(g, e)) <==> !(cut == 1 && c.domain != d && !Refused(f, c))
  {
    hide EnvDomain, TomlDomain, EnvText, TomlText, ValidConfig;
    WriteNames(lower, c);
    var g := AfterWrite(f, c, cut);
    if Refused(f, c) || cut == 0 {
      assert EnvNames(g, d) && TomlNames(g, d);
    } else if cut == 1 {
      assert EnvNames(g, c.domain) && TomlNames(g, d);
      if c.domain == d {
        assert EnvNames(g, d);
      }
    } else {
      assert EnvNames(g, c.domain) && TomlNames(g, c.domain);
    }
  }

  /** Without a lock, a write of another domain that is stopped between the two
      replacements leaves the files with two domains. */
  lemma StoppedWriteDisagrees(lower: string -> string, f: Files, d: string, c: Config)
    requires Lowers(lower) && ValidConfig(c) && f.lock == None && EnvNames(f, d) && TomlNames(f, d)
    ensures var g := AfterWrite(f, c, 1);
            EnvNames(g, c.domain) && TomlNames(g, d)
  {
    hide EnvDomain, TomlDomain, EnvText, TomlText, ValidConfig;
    WriteNames(lower, c);
  }
}
