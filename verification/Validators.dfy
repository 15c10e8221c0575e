/** The validators of the deployment configuration: what is accepted, and that
    an accepted value is accepted again unchanged. */
module Validators {
  import opened Common
  import opened EnvFile
  import Decimal

  // ----- characters -----

  predicate Graphic(s: string) {
    forall i :: 0 <= i < |s| ==> '!' <= s[i] <= '~'
  }

  predicate IsUpper(c: char) {
    'A' <= c <= 'Z'
  }

  predicate IsLower(c: char) {
    'a' <= c <= 'z'
  }

  predicate IsLowNum(c: char) {
    IsLower(c) || Decimal.IsDigit(c)
  }

  predicate IsAlNum(c: char) {
    IsLower(c) || IsUpper(c) || Decimal.IsDigit(c)
  }

  predicate NoUpper(s: string) {
    forall i :: 0 <= i < |s| ==> !IsUpper(s[i])
  }

  predicate HasChar(s: string, c: char) {
    exists i :: 0 <= i < |s| && s[i] == c
  }

  predicate Ascii(s: string) {
    forall i :: 0 <= i < |s| ==> s[i] < '\U{80}'
  }

  function LowerChar(c: char): (r: char) {
    if IsUpper(c) then 'a' + (c - 'A') else c
  }

  function AsciiLower(s: string): (r: string) {
    seq(|s|, i requires 0 <= i < |s| => LowerChar(s[i]))
  }

  /** A lower-casing of strings: known on ASCII, free elsewhere. */
  ghost predicate Lowers(lower: string -> string) {
    forall s :: Ascii(s) ==> lower(s) == AsciiLower(s)
  }

  predicate Contains(s: string, t: string) {
    exists i :: 0 <= i <= |s| - |t| && t <= s[i..]
  }

  lemma StripOfGraphic(s: string)
    requires Graphic(s)
    ensures Strip(s) == s && NoSpaces(s) && Ascii(s)
  {
    if s != [] {
      StripIsIdentity(s);
    }
  }

  lemma LowerOfNoUpper(lower: string -> string, s: string)
    requires Lowers(lower) && Ascii(s) && NoUpper(s)
    ensures lower(s) == s
  {
    assert AsciiLower(s) == s;
  }

  // ----- domain -----

  predicate IsLabelChar(c: char) {
    IsLowNum(c) || c == '-'
  }

  predicate IsLabel(s: string) {
    && 1 <= |s| <= 63 && IsLowNum(s[0]) && IsLowNum(s[|s| - 1])
    && forall i :: 0 <= i < |s| ==> IsLabelChar(s[i])
  }

  predicate IsTopLevel(s: string) {
    2 <= |s| <= 63 && forall i :: 0 <= i < |s| ==> IsLower(s[i])
  }

  /** Labels, each followed by a dot, and a top-level name. */
  predicate IsDotted(s: string) {
    var k := Find(s, '.');
    if k == |s| then IsTopLevel(s) else IsLabel(s[..k]) && IsDotted(s[k + 1..])
  }

  predicate IsDomain(s: string) {
    4 <= |s| <= 253 && Find(s, '.') < |s| && IsDotted(s)
  }

  function DropScheme(s: string): (r: string) {
    if "http://" <= s then s[7..] else if "https://" <= s then s[8..] else s
  }

  function DropDots(s: string): (r: string) {
    if s != [] && s[|s| - 1] == '.' then DropDots(s[..|s| - 1]) else s
  }

  function Host(s: string): (r: string) {
    DropDots(s[..Find(s, '/')])
  }

  function DropPort(s: string): (r: string) {
    if EndsWith(s, ":443") then s[..|s| - 4] else s
  }

  function NormalizeDomain(lower: string -> string, raw: string): (r: string) {
    DropPort(Host(DropScheme(lower(Strip(raw)))))
  }

  function ValidateDomain(lower: string -> string, raw: string): (r: Option<string>)
    ensures r.Some? ==> IsDomain(r.value)
  {
    var v := NormalizeDomain(lower, raw);
    if IsDomain(v) then Some(v) else None
  }

  predicate DomainChars(s: string) {
    forall i :: 0 <= i < |s| ==> IsLabelChar(s[i]) || s[i] == '.'
  }

  lemma {:induction false} DottedChars(s: string)
    requires IsDotted(s)
    ensures DomainChars(s) && s != [] && IsLower(s[|s| - 1])
  {
    var k := Find(s, '.');
    if k < |s| {
      DottedChars(s[k + 1..]);
      forall i | 0 <= i < |s|
        ensures IsLabelChar(s[i]) || s[i] == '.'
      {
        if i < k {
          assert s[i] == s[..k][i];
        } else if i > k {
          assert s[i] == s[k + 1..][i - k - 1];
        }
      }
    }
  }

  lemma DomainCharsPlain(s: string)
    requires DomainChars(s)
    ensures Graphic(s) && NoUpper(s) && !HasChar(s, '"') && !HasChar(s, '/') && !HasChar(s, ':')
  {
  }

  lemma NothingToDrop(s: string)
    requires !HasChar(s, ':')
    ensures DropScheme(s) == s && !EndsWith(s, ":443")
  {
    assert "http://"[4] == "https://"[5] == ':';
    if |s| >= 4 {
      assert s[|s| - 4..][0] == s[|s| - 4] && ":443"[0] == ':';
    }
  }

  lemma DomainIsFixed(lower: string -> string, v: string)
    requires Lowers(lower) && IsDomain(v)
    ensures ValidateDomain(lower, v) == Some(v) && Graphic(v) && !HasChar(v, '"')
  {
    DottedChars(v);
    DomainCharsPlain(v);
    hide IsDomain, DomainChars, IsDotted, DropScheme, EndsWith, Graphic, Lowers, NoUpper;
    StripOfGraphic(v);
    LowerOfNoUpper(lower, v);
    NothingToDrop(v);
    assert Find(v, '/') == |v| && v[..|v|] == v;
    assert DropDots(v) == v;
  }

  /** A domain with what may stand around it: a scheme, the port, dots, a path. */
  predicate Spelled(x: string, scheme: string, d: string, port: string, dots: string, path: string) {
    && x == scheme + (d + port + dots + path)
    && (scheme == "" || scheme == "http://" || scheme == "https://")
    && (port == "" || port == ":443")
    && (forall i :: 0 <= i < |dots| ==> dots[i] == '.')
    && (path == "" || path[0] == '/')
  }

  lemma {:induction false} DropDotsMeans(s: string)
    ensures DropDots(s) <= s
    ensures DropDots(s) != [] ==> DropDots(s)[|DropDots(s)| - 1] != '.'
    ensures forall i :: |DropDots(s)| <= i < |s| ==> s[i] == '.'
  {
    if s != [] && s[|s| - 1] == '.' {
      DropDotsMeans(s[..|s| - 1]);
    }
  }

  lemma DropDotsOf(s: string, dots: string)
    requires s != [] && s[|s| - 1] != '.' && forall i :: 0 <= i < |dots| ==> dots[i] == '.'
    ensures DropDots(s + dots) == s
  {
    var all := s + dots;
    DropDotsMeans(all);
    var r := DropDots(all);
    assert all[|s| - 1] == s[|s| - 1];
    assert forall i :: |s| <= i < |all| ==> all[i] == dots[i - |s|];
    assert |r| == |s|;
    assert all[..|s|] == s;
  }

  lemma SchemeChars()
    ensures "http://"[4] == ':' && "https://"[5] == ':'
    ensures forall i :: 0 <= i < 7 ==> "http://"[i] != '.'
    ensures forall i :: 0 <= i < 8 ==> "https://"[i] != '.'
  {
  }

  /** What has a dot before any colon does not start with a scheme. */
  lemma DotBeforeColon(scheme: string, colon: nat, x: string, dot: nat)
    requires colon < |scheme| && scheme[colon] == ':' && forall i :: 0 <= i < |scheme| ==> scheme[i] != '.'
    requires dot < |x| && x[dot] == '.' && forall i :: 0 <= i < dot ==> x[i] != ':'
    ensures !(scheme <= x)
  {
  }

  lemma NoScheme(d: string, rest: string)
    requires Find(d, '.') < |d| && !HasChar(d, ':')
    ensures DropScheme(d + rest) == d + rest
  {
    var k, x := Find(d, '.'), d + rest;
    assert x[k] == '.' && forall i :: 0 <= i < k ==> x[i] != ':';
    hide Find, HasChar;
    SchemeChars();
    DotBeforeColon("http://", 4, x, k);
    DotBeforeColon("https://", 5, x, k);
  }

  lemma SchemeAway(scheme: string, rest: string)
    requires scheme == "http://" || scheme == "https://"
    ensures DropScheme(scheme + rest) == rest
  {
    var x := scheme + rest;
    assert x[|scheme|..] == rest;
    assert x[4] == scheme[4];
  }

  lemma SchemeDropped(scheme: string, d: string, rest: string)
    requires IsDomain(d) && (scheme == "" || scheme == "http://" || scheme == "https://")
    ensures DropScheme(scheme + (d + rest)) == d + rest
  {
    hide DropScheme;
    if scheme == "" {
      DottedChars(d);
      DomainCharsPlain(d);
      NoScheme(d, rest);
      assert scheme + (d + rest) == d + rest;
    } else {
      SchemeAway(scheme, d + rest);
    }
  }

  /** A domain so spelled is normalized to itself. */
  lemma SpelledIsDomain(x: string, scheme: string, d: string, port: string, dots: string, path: string)
    requires Spelled(x, scheme, d, port, dots, path) && IsDomain(d)
    ensures DropPort(Host(DropScheme(x))) == d
  {
    hide DropScheme, Host, DropPort;
    assert d + port + dots + path == d + (port + dots + path);
    SchemeDropped(scheme, d, port + dots + path);
    DottedChars(d);
    DomainCharsPlain(d);
    hide IsDomain, IsDotted, DomainChars, Graphic, NoUpper, HasChar;
    HostOf(d, port, dots, path);
    PortDropped(d, port);
  }

  lemma PortDropped(d: string, port: string)
    requires !HasChar(d, ':') && (port == "" || port == ":443")
    ensures DropPort(d + port) == d
  {
    if port == "" {
      assert d + port == d;
      NothingToDrop(d);
    } else {
      assert (d + port)[|d|..] == ":443" && (d + port)[..|d|] == d;
    }
  }

  lemma HostOf(d: string, port: string, dots: string, path: string)
    requires d != [] && IsLower(d[|d| - 1]) && !HasChar(d, '/') && (port == "" || port == ":443")
    requires (forall i :: 0 <= i < |dots| ==> dots[i] == '.') && (path == "" || path[0] == '/')
    ensures Host(d + port + dots + path) == d + port
  {
    HostEnds(d, port, dots, path);
    var host := d + port + dots;
    assert (host + path)[..|host|] == host;
    hide HasChar, DropDots, Find;
    DropDotsOf(d + port, dots);
  }

  /** The host ends where the path starts, and it does not end in a dot. */
  lemma HostEnds(d: string, port: string, dots: string, path: string)
    requires d != [] && IsLower(d[|d| - 1]) && !HasChar(d, '/') && (port == "" || port == ":443")
    requires (forall i :: 0 <= i < |dots| ==> dots[i] == '.') && (path == "" || path[0] == '/')
    ensures Find(d + port + dots + path, '/') == |d + port + dots|
    ensures (d + port)[|d + port| - 1] != '.'
  {
    var host := d + port + dots;
    var a := host + path;
    forall i | 0 <= i < |host|
      ensures a[i] != '/'
    {
      assert a[i] == host[i];
      assert i < |d| ==> host[i] == d[i];
      assert |d| <= i < |d + port| ==> host[i] == port[i - |d|];
      assert |d + port| <= i ==> host[i] == dots[i - |d + port|];
    }
    if path != "" {
      assert a[|host|] == '/';
      FindAt(a, '/', |host|);
    }
  }

  lemma SchemeBefore(x: string) returns (scheme: string)
    ensures x == scheme + DropScheme(x) && (scheme == "" || scheme == "http://" || scheme == "https://")
  {
    scheme := if "http://" <= x then "http://" else if "https://" <= x then "https://" else "";
  }

  lemma HostBefore(a: string) returns (dots: string, path: string)
    ensures a == Host(a) + dots + path
    ensures (forall i :: 0 <= i < |dots| ==> dots[i] == '.') && (path == "" || path[0] == '/')
  {
    var k := Find(a, '/');
    DropDotsMeans(a[..k]);
    dots, path := a[|Host(a)|..k], a[k..];
    hide DropDots, Find;
  }

  lemma PortAfter(b: string) returns (port: string)
    ensures b == DropPort(b) + port && (port == "" || port == ":443")
  {
    port := if EndsWith(b, ":443") then ":443" else "";
  }

  /** Whatever is normalized is spelled so. */
  lemma NormalizedIsSpelled(x: string) returns (scheme: string, port: string, dots: string, path: string)
    ensures Spelled(x, scheme, DropPort(Host(DropScheme(x))), port, dots, path)
  {
    hide DropScheme, Host, DropPort;
    scheme := SchemeBefore(x);
    dots, path := HostBefore(DropScheme(x));
    port := PortAfter(Host(DropScheme(x)));
  }

  /** What is accepted: exactly a domain, in any case and with white space around
      it, after a scheme, before the port, before dots and before a path. */
  lemma DomainAcceptedIff(lower: string -> string, raw: string, d: string)
    ensures ValidateDomain(lower, raw) == Some(d) <==>
      IsDomain(d) &&
      exists scheme, port, dots, path :: Spelled(lower(Strip(raw)), scheme, d, port, dots, path)
  {
    hide IsDomain, DropScheme, Host, DropPort, Strip, Spelled;
    var x := lower(Strip(raw));
    if ValidateDomain(lower, raw) == Some(d) {
      var scheme, port, dots, path := NormalizedIsSpelled(x);
    }
    if IsDomain(d) && exists scheme, port, dots, path :: Spelled(x, scheme, d, port, dots, path) {
      var scheme, port, dots, path :| Spelled(x, scheme, d, port, dots, path);
      SpelledIsDomain(x, scheme, d, port, dots, path);
    }
  }

  /** A domain taken out of a web address, or written with its port or a final dot. */
  lemma DomainFromAddress(lower: string -> string, d: string, path: string)
    requires Lowers(lower) && IsDomain(d) && Graphic(path)
    ensures ValidateDomain(lower, "https://" + d + "/" + path) == Some(d)
    ensures ValidateDomain(lower, "http://" + d) == Some(d)
    ensures ValidateDomain(lower, d + ":443") == Some(d)
    ensures ValidateDomain(lower, d + ".") == Some(d)
  {
    DottedChars(d);
    DomainCharsPlain(d);
    hide IsDomain, IsDotted, DomainChars, ValidateDomain, Lowers, NoUpper;
    assert Graphic("/" + path);
    hide Graphic;
    assert "https://" + (d + "" + "" + ("/" + path)) == "https://" + d + "/" + path;
    assert "http://" + (d + "" + "" + "") == "http://" + d;
    assert "" + (d + ":443" + "" + "") == d + ":443";
    assert "" + (d + "" + "." + "") == d + ".";
    AddressSpelled(lower, "https://", d, "", "", "/" + path);
    AddressSpelled(lower, "http://", d, "", "", "");
    AddressSpelled(lower, "", d, ":443", "", "");
    AddressSpelled(lower, "", d, "", ".", "");
  }

  lemma AddressSpelled(lower: string -> string, scheme: string, d: string, port: string, dots: string, path: string)
    requires Lowers(lower) && IsDomain(d) && Graphic(d) && NoUpper(d) && Graphic(path)
    requires Spelled(scheme + (d + port + dots + path), scheme, d, port, dots, path)
    ensures ValidateDomain(lower, scheme + (d + port + dots + path)) == Some(d)
  {
    var named := scheme + (d + port + dots);
    var raw := scheme + (d + port + dots + path);
    hide IsDomain, Lowers, ValidateDomain, Strip;
    assert Graphic(named) && NoUpper(named);
    assert raw == named + path;
    StripOfGraphic(raw);
    LowerJoins(lower, named, path);
    var x := scheme + (d + port + dots + AsciiLower(path));
    assert x == named + AsciiLower(path);
    assert Spelled(x, scheme, d, port, dots, AsciiLower(path));
    DomainAcceptedIff(lower, raw, d);
  }

  lemma LowerJoins(lower: string -> string, a: string, b: string)
    requires Lowers(lower) && Ascii(a + b) && NoUpper(a)
    ensures lower(a + b) == a + AsciiLower(b)
  {
    assert AsciiLower(a + b) == a + AsciiLower(b);
  }

  // ----- e-mail address -----

  predicate IsLocalChar(c: char) {
    IsAlNum(c) ||
    c in {'.', '!', '#', '$', '%', '&', '\'', '*', '+', '/', '=', '?', '^', '_', '`', '{', '|', '}', '~', '-'}
  }

  /** Non-empty runs joined by single separators. */
  predicate IsJoined(s: string, sep: char) {
    && s != [] && s[0] != sep && s[|s| - 1] != sep
    && forall i :: 0 <= i < |s| - 1 ==> !(s[i] == sep && s[i + 1] == sep)
  }

  predicate IsEmail(s: string) {
    3 <= |s| <= 254 &&
    var k := Find(s, '@');
    && 0 < k < |s| && (forall i :: 0 <= i < k ==> IsLocalChar(s[i]))
    && (forall i :: k < i < |s| ==> IsAlNum(s[i]) || s[i] == '-' || s[i] == '.')
    && IsJoined(s[k + 1..], '.') && HasChar(s[k + 1..], '.')
  }

  function ValidateEmail(raw: string): (r: Option<string>)
    ensures r.Some? ==> IsEmail(r.value)
  {
    if IsEmail(Strip(raw)) then Some(Strip(raw)) else None
  }

  lemma EmailIsFixed(v: string)
    requires IsEmail(v)
    ensures ValidateEmail(v) == Some(v) && Graphic(v)
  {
    EmailIsGraphic(v);
    hide Graphic;
    StripOfGraphic(v);
    hide IsEmail;
  }

  lemma EmailIsGraphic(v: string)
    requires IsEmail(v)
    ensures Graphic(v)
  {
    var k := Find(v, '@');
    hide Find, IsJoined, HasChar;
    assert v[k] == '@';
    assert forall i :: 0 <= i < k ==> IsLocalChar(v[i]);
  }

  // ----- image reference -----

  predicate IsNameChar(c: char) {
    IsLowNum(c) || c == '.' || c == '_' || c == '-'
  }

  /** Runs of lower-case letters and digits with single separators between. */
  predicate IsComponent(s: string) {
    && s != [] && IsLowNum(s[0]) && IsLowNum(s[|s| - 1])
    && (forall i :: 0 <= i < |s| ==> IsNameChar(s[i]))
    && forall i :: 0 <= i < |s| - 1 ==> IsLowNum(s[i]) || IsLowNum(s[i + 1])
  }

  predicate IsHost(s: string) {
    var k := Find(s, ':');
    IsComponent(s[..k]) && (k < |s| ==> Decimal.Digits(s[k + 1..]))
  }

  predicate IsRest(s: string)
    decreases |s|
  {
    s == [] ||
    (s[0] == '/' &&
     var t := s[1..];
     var k := Find(t, '/');
     IsComponent(t[..k]) && IsRest(t[k..]))
  }

  predicate IsPath(s: string) {
    var k := Find(s, '/');
    IsHost(s[..k]) && IsRest(s[k..])
  }

  predicate IsTag(s: string) {
    && 2 <= |s| <= 129 && s[0] == ':' && IsAlNum(s[1])
    && forall i :: 2 <= i < |s| ==> IsAlNum(s[i]) || s[i] == '_' || s[i] == '.' || s[i] == '-'
  }

  const DIGEST: string := "@sha256:"

  predicate IsDigest(s: string) {
    && |s| == |DIGEST| + 64 && DIGEST <= s
    && forall i :: |DIGEST| <= i < |s| ==> Decimal.IsDigit(s[i]) || 'a' <= s[i] <= 'f'
  }

  predicate IsSuffix(s: string) {
    s == [] || IsTag(s) || IsDigest(s)
  }

  predicate IsImage(s: string) {
    3 <= |s| <= 512 && exists i :: 0 <= i <= |s| && IsPath(s[..i]) && IsSuffix(s[i..])
  }

  function ValidateImage(lower: string -> string, raw: string): (r: Option<string>)
    ensures r.Some? ==> IsImage(r.value)
  {
    var v := if Contains(raw, DIGEST) then lower(Strip(raw)) else Strip(raw);
    if IsImage(v) then Some(v) else None
  }

  predicate IsPathChar(c: char) {
    IsNameChar(c) || c == '/' || c == ':'
  }

  predicate PathChars(s: string) {
    forall i :: 0 <= i < |s| ==> IsPathChar(s[i])
  }

  lemma PathCharsJoin(s: string, k: nat)
    requires k <= |s| && PathChars(s[..k]) && PathChars(s[k..])
    ensures PathChars(s)
  {
    forall i | 0 <= i < |s|
      ensures IsPathChar(s[i])
    {
      if i < k {
        assert s[i] == s[..k][i];
      } else {
        assert s[i] == s[k..][i - k];
      }
    }
  }

  lemma {:induction false} RestChars(s: string)
    requires IsRest(s)
    ensures PathChars(s)
    decreases |s|
  {
    if s != [] {
      var t := s[1..];
      var k := Find(t, '/');
      RestChars(t[k..]);
      PathCharsJoin(t, k);
      assert PathChars(s[..1]);
      PathCharsJoin(s, 1);
    }
  }

  lemma HostChars(s: string)
    requires IsHost(s)
    ensures PathChars(s)
  {
    var k := Find(s, ':');
    if k < |s| {
      var t := s[k..];
      assert t[1..] == s[k + 1..];
      assert PathChars(t[1..]) by {
        forall i | 0 <= i < |t[1..]|
          ensures IsPathChar(t[1..][i])
        {
          assert Decimal.IsDigit(t[1..][i]);
        }
      }
      assert PathChars(t[..1]);
      PathCharsJoin(t, 1);
      PathCharsJoin(s, k);
    } else {
      assert s[..k] == s;
    }
  }

  lemma JoinImage(p: string, s: string)
    requires PathChars(p) && Graphic(s) && (HasChar(s, '@') ==> NoUpper(s))
    ensures Graphic(p + s) && (HasChar(p + s, '@') ==> NoUpper(p + s))
  {
    var v := p + s;
    assert forall j :: 0 <= j < |p| ==> IsPathChar(v[j]);
    assert forall j :: |p| <= j < |v| ==> v[j] == s[j - |p|];
    if HasChar(v, '@') {
      var j :| 0 <= j < |v| && v[j] == '@';
      assert s[j - |p|] == '@';
    }
  }

  lemma PathIsPathChars(p: string)
    requires IsPath(p)
    ensures PathChars(p)
  {
    var k := Find(p, '/');
    HostChars(p[..k]);
    RestChars(p[k..]);
    PathCharsJoin(p, k);
  }

  /** An image reference is graphic, and with an at sign it has no capitals. */
  lemma ImageChars(v: string)
    requires IsImage(v)
    ensures Graphic(v) && (HasChar(v, '@') ==> NoUpper(v))
  {
    hide IsPath, IsSuffix, PathChars, Graphic, HasChar, NoUpper;
    var i :| 0 <= i <= |v| && IsPath(v[..i]) && IsSuffix(v[i..]);
    PathIsPathChars(v[..i]);
    SuffixChars(v[i..]);
    JoinImage(v[..i], v[i..]);
    assert v[..i] + v[i..] == v;
  }

  lemma SuffixChars(s: string)
    requires IsSuffix(s)
    ensures Graphic(s) && (HasChar(s, '@') ==> NoUpper(s))
  {
    if IsDigest(s) {
      assert forall i :: 0 <= i < |DIGEST| ==> s[i] == DIGEST[i];
      assert DIGEST == ['@', 's', 'h', 'a', '2', '5', '6', ':'];
    }
  }

  lemma ImageIsFixed(lower: string -> string, v: string)
    requires Lowers(lower) && IsImage(v)
    ensures ValidateImage(lower, v) == Some(v) && Graphic(v)
  {
    ImageChars(v);
    StripOfGraphic(v);
    if Contains(v, DIGEST) {
      var i :| 0 <= i <= |v| - |DIGEST| && DIGEST <= v[i..];
      assert v[i] == v[i..][0] == DIGEST[0] == '@';
      LowerOfNoUpper(lower, v);
    }
  }

  // ----- stack name, time zone, log level -----

  predicate IsStack(s: string) {
    && 1 <= |s| <= 63 && IsLowNum(s[0])
    && forall i :: 0 <= i < |s| ==> IsLowNum(s[i]) || s[i] == '_' || s[i] == '-'
  }

  function ValidateStack(lower: string -> string, raw: string): (r: Option<string>)
    ensures r.Some? ==> IsStack(r.value)
  {
    var v := lower(Strip(raw));
    if IsStack(v) then Some(v) else None
  }

  lemma StackIsFixed(lower: string -> string, v: string)
    requires Lowers(lower) && IsStack(v)
    ensures ValidateStack(lower, v) == Some(v) && Graphic(v)
  {
    StripOfGraphic(v);
    LowerOfNoUpper(lower, v);
  }

  predicate IsTimezone(s: string) {
    && IsJoined(s, '/')
    && (forall i :: 0 <= i < |s| ==> IsAlNum(s[i]) || s[i] in {'_', '+', '.', '-', '/'})
    && !Contains(s, "..")
  }

  function ValidateTimezone(raw: string): (r: Option<string>)
    ensures r.Some? ==> IsTimezone(r.value)
  {
    if IsTimezone(Strip(raw)) then Some(Strip(raw)) else None
  }

  lemma TimezoneIsFixed(v: string)
    requires IsTimezone(v)
    ensures ValidateTimezone(v) == Some(v) && Graphic(v)
  {
    StripOfGraphic(v);
  }

  predicate IsLevel(s: string) {
    s in {"error", "warn", "info", "debug"}
  }

  function ValidateLevel(lower: string -> string, raw: string): (r: Option<string>)
    ensures r.Some? ==> IsLevel(r.value)
  {
    var v := lower(Strip(raw));
    if IsLevel(v) then Some(v) else None
  }

  lemma LevelIsFixed(lower: string -> string, v: string)
    requires Lowers(lower) && IsLevel(v)
    ensures ValidateLevel(lower, v) == Some(v) && Graphic(v)
  {
    assert Graphic(v) && NoUpper(v);
    StripOfGraphic(v);
    LowerOfNoUpper(lower, v);
  }

  // ----- integers -----

  /** The most digits a numeral may have. */
  const MAX_DIGITS: nat := 4300

  function DropUnderscores(s: string): (r: string) {
    if s == [] then [] else (if s[0] == '_' then [] else [s[0]]) + DropUnderscores(s[1..])
  }

  /** A numeral: white space around, a sign, digits with single underscores between. */
  function ParseInt(raw: string): (r: Option<int>) {
    var s := Strip(raw);
    var negative := s != [] && s[0] == '-';
    var t := if s != [] && (s[0] == '-' || s[0] == '+') then s[1..] else s;
    var digits := DropUnderscores(t);
    if IsJoined(t, '_') && Decimal.Digits(digits) && |digits| <= MAX_DIGITS then
      var n: int := Decimal.Number(digits);
      Some(if negative then -n else n)
    else None
  }

  lemma {:induction false} NoUnderscores(s: string)
    requires forall i :: 0 <= i < |s| ==> s[i] != '_'
    ensures DropUnderscores(s) == s
  {
    if s != [] {
      NoUnderscores(s[1..]);
    }
  }

  lemma ShortNumerals(n: nat)
    requires n <= 65535
    ensures |Decimal.Print(n)| <= 5
  {
    var a, b, c, d := n / 10, n / 100, n / 1000, n / 10000;
    assert a / 10 == b && b / 10 == c && c / 10 == d && d < 10;
    assert |Decimal.Print(d)| == 1;
    assert |Decimal.Print(c)| <= 2 && |Decimal.Print(b)| <= 3 && |Decimal.Print(a)| <= 4;
  }

  lemma IntIsFixed(n: nat)
    requires n <= 65535
    ensures ParseInt(Decimal.Print(n)) == Some(n) && Graphic(Decimal.Print(n))
  {
    var s := Decimal.Print(n);
    assert forall i :: 0 <= i < |s| ==> Decimal.IsDigit(s[i]);
    assert Graphic(s);
    hide Graphic;
    StripOfGraphic(s);
    NoUnderscores(s);
    ShortNumerals(n);
    Decimal.NumberOfPrint(n);
    hide Decimal.Print, Decimal.Number, Strip;
  }
}
