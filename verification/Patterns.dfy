/** The regular expressions that the validators of the deployment configuration
    are written with, and that the recognisers accept exactly what they match. */
module Patterns {
  import opened Common
  import opened EnvFile
  import opened Validators
  import Decimal

  datatype Re =
    | Empty
    | Many(ok: char -> bool, least: nat, most: Option<nat>)   // a character class, repeated
    | Cat(first: Re, second: Re)
    | Alt(one: Re, other: Re)
    | Star(body: Re)

  predicate All(ok: char -> bool, s: string) {
    forall i :: 0 <= i < |s| ==> ok(s[i])
  }

  /** The whole of s is matched. */
  ghost predicate Matches(re: Re, s: string)
    decreases re, |s|
  {
    match re
    case Empty => s == []
    case Many(ok, least, most) => least <= |s| && (most.Some? ==> |s| <= most.value) && All(ok, s)
    case Cat(a, b) => exists i :: 0 <= i <= |s| && Matches(a, s[..i]) && Matches(b, s[i..])
    case Alt(a, b) => Matches(a, s) || Matches(b, s)
    case Star(a) => s == [] || exists i :: 0 < i <= |s| && Matches(a, s[..i]) && Matches(re, s[i..])
  }

  function One(ok: char -> bool): (r: Re) {
    Many(ok, 1, Some(1))
  }

  function Only(c: char): (r: Re) {
    One(x => x == c)
  }

  function AtLeastOne(ok: char -> bool): (r: Re) {
    Many(ok, 1, None)
  }

  function Optional(re: Re): (r: Re) {
    Alt(re, Empty)
  }

  function Text(s: string): (r: Re) {
    if s == [] then Empty else Cat(Only(s[0]), Text(s[1..]))
  }

  /** What a look-ahead at the whole input asks for: its length, and one line. */
  predicate Ahead(s: string, least: nat, most: nat) {
    least <= |s| <= most && forall i :: 0 <= i < |s| ==> s[i] != '\n'
  }

  // ----- the patterns -----

  predicate LowerOrDigit(c: char) {
    'a' <= c <= 'z' || '0' <= c <= '9'
  }

  predicate Letter(c: char) {
    'a' <= c <= 'z' || 'A' <= c <= 'Z'
  }

  predicate LetterOrDigit(c: char) {
    Letter(c) || '0' <= c <= '9'
  }

  function LabelRe(): (r: Re) {
    Cat(One(LowerOrDigit),
        Optional(Cat(Many((c: char) => LowerOrDigit(c) || c == '-', 0, Some(61)), One(LowerOrDigit))))
  }

  function LabelDotRe(): (r: Re) {
    Cat(LabelRe(), Only('.'))
  }

  function TopLevelRe(): (r: Re) {
    Many((c: char) => 'a' <= c <= 'z', 2, Some(63))
  }

  function DomainRe(): (r: Re) {
    Cat(Cat(LabelDotRe(), Star(LabelDotRe())), TopLevelRe())
  }

  function StackRe(): (r: Re) {
    Cat(One(LowerOrDigit), Many((c: char) => LowerOrDigit(c) || c == '_' || c == '-', 0, Some(62)))
  }

  /** Runs of one class with single characters of another between them. */
  function RunsRe(ok: char -> bool, sep: char -> bool): (r: Re) {
    Cat(AtLeastOne(ok), Star(Cat(One(sep), AtLeastOne(ok))))
  }

  predicate Dot(c: char) {
    c == '.'
  }

  predicate Slash(c: char) {
    c == '/'
  }

  predicate ZoneChar(c: char) {
    LetterOrDigit(c) || c == '_' || c == '+' || c == '.' || c == '-'
  }

  function TimezoneRe(): (r: Re) {
    RunsRe(ZoneChar, Slash)
  }

  predicate LocalChar(c: char) {
    LetterOrDigit(c) || c == '.' || c == '!' || c == '#' || c == '$' || c == '%' || c == '&' || c == '\'' ||
    c == '*' || c == '+' || c == '/' || c == '=' || c == '?' || c == '^' || c == '_' || c == '`' || c == '{' ||
    c == '|' || c == '}' || c == '~' || c == '-'
  }

  predicate HostChar(c: char) {
    LetterOrDigit(c) || c == '-'
  }

  function DotHostRe(): (r: Re) {
    Cat(One(Dot), AtLeastOne(HostChar))
  }

  function EmailRe(): (r: Re) {
    Cat(AtLeastOne(LocalChar),
        Cat(Only('@'), Cat(AtLeastOne(HostChar), Cat(DotHostRe(), Star(DotHostRe())))))
  }

  predicate Between(c: char) {
    c == '.' || c == '_' || c == '-'
  }

  predicate Digit(c: char) {
    '0' <= c <= '9'
  }

  function ComponentRe(): (r: Re) {
    RunsRe(LowerOrDigit, Between)
  }

  function HostRe(): (r: Re) {
    Cat(ComponentRe(), Optional(Cat(Only(':'), AtLeastOne(Digit))))
  }

  function RestRe(): (r: Re) {
    Star(Cat(Only('/'), ComponentRe()))
  }

  function TagRe(): (r: Re) {
    Cat(Only(':'),
        Cat(One(LetterOrDigit),
            Many((c: char) => LetterOrDigit(c) || c == '_' || c == '.' || c == '-', 0, Some(127))))
  }

  predicate HexDigit(c: char) {
    'a' <= c <= 'f' || '0' <= c <= '9'
  }

  function DigestRe(): (r: Re) {
    Cat(Text("@sha256:"), Many(HexDigit, 64, Some(64)))
  }

  function ImageRe(): (r: Re) {
    Cat(Cat(HostRe(), RestRe()), Optional(Alt(TagRe(), DigestRe())))
  }

  // ----- small steps -----

  lemma CatMatches(a: Re, b: Re, s: string, i: nat)
    requires i <= |s| && Matches(a, s[..i]) && Matches(b, s[i..])
    ensures Matches(Cat(a, b), s)
  {
  }

  lemma StarMatches(a: Re, s: string, i: nat)
    requires 0 < i <= |s| && Matches(a, s[..i]) && Matches(Star(a), s[i..])
    ensures Matches(Star(a), s)
  {
  }

  lemma CatSplits(a: Re, b: Re, s: string) returns (i: nat)
    requires Matches(Cat(a, b), s)
    ensures i <= |s| && Matches(a, s[..i]) && Matches(b, s[i..])
  {
    i :| 0 <= i <= |s| && Matches(a, s[..i]) && Matches(b, s[i..]);
  }

  lemma StarSplits(a: Re, s: string) returns (i: nat)
    requires Matches(Star(a), s) && s != []
    ensures 0 < i <= |s| && Matches(a, s[..i]) && Matches(Star(a), s[i..])
  {
    i :| 0 < i <= |s| && Matches(a, s[..i]) && Matches(Star(a), s[i..]);
  }

  /** One character, then the rest. */
  lemma OneThen(ok: char -> bool, b: Re, s: string)
    ensures Matches(Cat(One(ok), b), s) <==> s != [] && ok(s[0]) && Matches(b, s[1..])
  {
    if Matches(Cat(One(ok), b), s) {
      var i := CatSplits(One(ok), b, s);
      assert i == 1 && ok(s[..1][0]);
    }
    if s != [] && ok(s[0]) && Matches(b, s[1..]) {
      assert Matches(One(ok), s[..1]);
      CatMatches(One(ok), b, s, 1);
    }
  }

  /** Something, then one character. */
  lemma ThenOne(a: Re, ok: char -> bool, t: string)
    ensures Matches(Cat(a, One(ok)), t) <==> t != [] && Matches(a, t[..|t| - 1]) && ok(t[|t| - 1])
  {
    if Matches(Cat(a, One(ok)), t) {
      var i := CatSplits(a, One(ok), t);
      assert i == |t| - 1 && ok(t[i..][0]);
    }
    if t != [] && Matches(a, t[..|t| - 1]) && ok(t[|t| - 1]) {
      assert Matches(One(ok), t[|t| - 1..]);
      CatMatches(a, One(ok), t, |t| - 1);
    }
  }

  // ----- labels and domains -----

  lemma LabelIff(s: string)
    ensures Matches(LabelRe(), s) <==> IsLabel(s)
  {
    var mid := Many((c: char) => LowerOrDigit(c) || c == '-', 0, Some(61));
    var more := Cat(mid, One(LowerOrDigit));
    OneThen(LowerOrDigit, Optional(more), s);
    if s != [] {
      var t := s[1..];
      assert forall i :: 0 <= i < |t| ==> t[i] == s[i + 1];
      ThenOne(mid, LowerOrDigit, t);
      if IsLabel(s) && t != [] {
        assert Matches(mid, t[..|t| - 1]);
      }
      if t != [] && LowerOrDigit(s[0]) && Matches(more, t) {
        forall i | 0 <= i < |s|
          ensures IsLabelChar(s[i])
        {
          assert 0 < i < |s| - 1 ==> s[i] == t[..|t| - 1][i - 1];
        }
      }
    }
  }

  lemma LabelDotIff(s: string)
    ensures Matches(LabelDotRe(), s) <==> s != [] && s[|s| - 1] == '.' && IsLabel(s[..|s| - 1])
  {
    hide LabelRe, IsLabel, Matches;
    ThenOne(LabelRe(), x => x == '.', s);
    if s != [] {
      LabelIff(s[..|s| - 1]);
    }
  }

  lemma TopLevelIff(s: string)
    ensures Matches(TopLevelRe(), s) <==> IsTopLevel(s)
  {
  }

  /** A label and a dot in front: the first dot is there. */
  lemma FirstDot(s: string, k: nat)
    requires k < |s| && s[k] == '.' && IsLabel(s[..k])
    ensures Find(s, '.') == k
  {
    assert forall i :: 0 <= i < k ==> s[i] == s[..k][i];
    FindAt(s, '.', k);
  }

  lemma TopLevelHasNoDot(s: string)
    requires IsTopLevel(s)
    ensures Find(s, '.') == |s|
  {
  }

  /** Labels with their dots, and a top-level name. */
  function DottedRe(): (r: Re) {
    Cat(Star(LabelDotRe()), TopLevelRe())
  }

  lemma TopLevelMatches(s: string)
    requires IsTopLevel(s)
    ensures Matches(DottedRe(), s)
  {
    TopLevelIff(s);
    assert s[..0] == [] && s[0..] == s;
    CatMatches(Star(LabelDotRe()), TopLevelRe(), s, 0);
  }

  /** One more label in front of what is matched. */
  lemma LabelInFront(s: string, k: nat)
    requires k < |s| && s[k] == '.' && IsLabel(s[..k]) && Matches(DottedRe(), s[k + 1..])
    ensures Matches(DottedRe(), s)
  {
    hide Matches, LabelDotRe, TopLevelRe, IsLabel;
    var u := s[k + 1..];
    var j := CatSplits(Star(LabelDotRe()), TopLevelRe(), u);
    var front := s[..k + 1 + j];
    assert front[k + 1..] == u[..j] && front[..k + 1] == s[..k + 1] && s[..k + 1][..k] == s[..k];
    LabelDotIff(s[..k + 1]);
    StarMatches(LabelDotRe(), front, k + 1);
    assert s[k + 1 + j..] == u[j..];
    CatMatches(Star(LabelDotRe()), TopLevelRe(), s, k + 1 + j);
  }

  lemma {:induction false} DottedMatches(s: string)
    requires IsDotted(s)
    ensures Matches(DottedRe(), s)
    decreases |s|
  {
    hide Matches, DottedRe, IsLabel, IsTopLevel;
    var k := Find(s, '.');
    if k == |s| {
      TopLevelMatches(s);
    } else {
      DottedMatches(s[k + 1..]);
      LabelInFront(s, k);
    }
  }

  /** The first label of what is matched, and the rest. */
  lemma FirstLabel(s: string, i: nat) returns (j: nat)
    requires 0 < i <= |s| && Matches(Star(LabelDotRe()), s[..i])
    ensures 0 < j <= i && s[j - 1] == '.' && IsLabel(s[..j - 1]) && Find(s, '.') == j - 1
    ensures Matches(Star(LabelDotRe()), s[j..][..i - j])
  {
    hide Matches, LabelDotRe, IsLabel;
    j := StarSplits(LabelDotRe(), s[..i]);
    assert s[..i][..j] == s[..j] && s[..j][..j - 1] == s[..j - 1];
    assert s[j..][..i - j] == s[..i][j..];
    LabelDotIff(s[..j]);
    FirstDot(s, j - 1);
  }

  lemma {:induction false} MatchedIsDotted(s: string, i: nat)
    requires i <= |s| && Matches(Star(LabelDotRe()), s[..i]) && Matches(TopLevelRe(), s[i..])
    ensures IsDotted(s) && (i > 0 ==> Find(s, '.') < |s|)
    decreases i
  {
    hide Matches, LabelDotRe, TopLevelRe, IsLabel, IsTopLevel, Find;
    if i == 0 {
      assert s[0..] == s;
      TopLevelIff(s);
      TopLevelHasNoDot(s);
    } else {
      var j := FirstLabel(s, i);
      assert s[j..][i - j..] == s[i..];
      MatchedIsDotted(s[j..], i - j);
    }
  }

  /** The domains are what the pattern matches. */
  lemma DomainIff(s: string)
    ensures IsDomain(s) <==> Ahead(s, 4, 253) && Matches(DomainRe(), s)
  {
    var step := LabelDotRe();
    if IsDomain(s) {
      DottedMatches(s);
      DottedChars(s);
      hide Matches, LabelDotRe, TopLevelRe, IsDotted;
      var i := CatSplits(Star(step), TopLevelRe(), s);
      TopLevelIff(s[i..]);
      if i == 0 {
        assert s[0..] == s;
        TopLevelHasNoDot(s);
      } else {
        var j := StarSplits(step, s[..i]);
        CatMatches(step, Star(step), s[..i], j);
        CatMatches(Cat(step, Star(step)), TopLevelRe(), s, i);
      }
    }
    if Ahead(s, 4, 253) && Matches(DomainRe(), s) {
      hide Matches, LabelDotRe, TopLevelRe, IsDotted;
      var i := CatSplits(Cat(step, Star(step)), TopLevelRe(), s);
      var j := CatSplits(step, Star(step), s[..i]);
      LabelDotIff(s[..i][..j]);
      StarMatches(step, s[..i], j);
      MatchedIsDotted(s, i);
    }
  }

  // ----- stack names -----

  lemma StackIff(s: string)
    ensures IsStack(s) <==> Matches(StackRe(), s)
  {
    var more := Many((c: char) => LowerOrDigit(c) || c == '_' || c == '-', 0, Some(62));
    OneThen(LowerOrDigit, more, s);
    if s != [] {
      var t := s[1..];
      assert forall i :: 0 <= i < |t| ==> t[i] == s[i + 1];
      assert forall i :: 0 < i < |s| ==> s[i] == t[i - 1];
    }
  }

  // ----- runs with single characters between -----

  predicate JoinedBy(ok: char -> bool, sep: char -> bool, t: string) {
    && t != [] && ok(t[0]) && ok(t[|t| - 1])
    && (forall i :: 0 <= i < |t| ==> ok(t[i]) || sep(t[i]))
    && forall i :: 0 < i < |t| ==> !(sep(t[i - 1]) && sep(t[i]))
  }

  /** Nothing, or one character between and then runs. */
  predicate TailJoined(ok: char -> bool, sep: char -> bool, r: string) {
    r == [] || (sep(r[0]) && JoinedBy(ok, sep, r[1..]))
  }

  ghost predicate Disjoint(ok: char -> bool, sep: char -> bool) {
    forall c :: !(ok(c) && sep(c))
  }

  lemma JoinRun(ok: char -> bool, sep: char -> bool, u: string, k: nat)
    requires Disjoint(ok, sep) && 1 <= k <= |u| && All(ok, u[..k]) && TailJoined(ok, sep, u[k..])
    ensures JoinedBy(ok, sep, u)
  {
    assert forall i :: 0 <= i < k ==> u[..k][i] == u[i];
    if k < |u| {
      var v := u[k..][1..];
      assert u[k..][0] == u[k];
      assert forall i :: k < i < |u| ==> u[i] == v[i - k - 1];
      forall i | 0 < i < |u|
        ensures !(sep(u[i - 1]) && sep(u[i]))
      {
        if i > k + 1 {
          assert !(sep(v[i - k - 2]) && sep(v[i - k - 1]));
        } else if i == k + 1 {
          assert u[i] == v[0];
        }
      }
    }
  }

  function FirstNot(ok: char -> bool, t: string): (k: nat)
    ensures k <= |t| && (forall i :: 0 <= i < k ==> ok(t[i])) && (k < |t| ==> !ok(t[k]))
  {
    if t == [] || !ok(t[0]) then 0 else 1 + FirstNot(ok, t[1..])
  }

  lemma RunSplit(ok: char -> bool, sep: char -> bool, u: string) returns (k: nat)
    requires JoinedBy(ok, sep, u) && Disjoint(ok, sep)
    ensures 1 <= k <= |u| && All(ok, u[..k]) && TailJoined(ok, sep, u[k..])
  {
    k := FirstNot(ok, u);
    hide FirstNot;
    if k < |u| {
      var v := u[k..][1..];
      assert v == u[k + 1..] && sep(u[k]) && k < |u| - 1;
      assert !(sep(u[k]) && sep(u[k + 1]));
      forall i | 0 < i < |v|
        ensures !(sep(v[i - 1]) && sep(v[i]))
      {
        assert v[i - 1] == u[i + k] && v[i] == u[i + k + 1];
        assert !(sep(u[i + k + 1 - 1]) && sep(u[i + k + 1]));
      }
    }
  }

  /** Separator and run: the first character and all others. */
  lemma StepIff(ok: char -> bool, sep: char -> bool, s: string)
    ensures Matches(Cat(One(sep), AtLeastOne(ok)), s) <==> |s| >= 2 && sep(s[0]) && All(ok, s[1..])
  {
    OneThen(sep, AtLeastOne(ok), s);
  }

  lemma {:induction false} TailMatched(ok: char -> bool, sep: char -> bool, r: string)
    requires Disjoint(ok, sep) && Matches(Star(Cat(One(sep), AtLeastOne(ok))), r)
    ensures TailJoined(ok, sep, r)
    decreases |r|
  {
    hide Matches, JoinedBy;
    if r != [] {
      var step := Cat(One(sep), AtLeastOne(ok));
      var i := StarSplits(step, r);
      StepIff(ok, sep, r[..i]);
      TailMatched(ok, sep, r[i..]);
      var u := r[1..];
      assert u[..i - 1] == r[..i][1..] && u[i - 1..] == r[i..];
      JoinRun(ok, sep, u, i - 1);
    }
  }

  lemma {:induction false} TailMatches(ok: char -> bool, sep: char -> bool, r: string)
    requires Disjoint(ok, sep) && TailJoined(ok, sep, r)
    ensures Matches(Star(Cat(One(sep), AtLeastOne(ok))), r)
    decreases |r|
  {
    if r != [] {
      var step, u := Cat(One(sep), AtLeastOne(ok)), r[1..];
      var k := RunSplit(ok, sep, u);
      hide Matches, JoinedBy;
      assert u[k..] == r[k + 1..] && r[..k + 1][1..] == u[..k];
      TailMatches(ok, sep, r[k + 1..]);
      StepIff(ok, sep, r[..k + 1]);
      StarMatches(step, r, k + 1);
    }
  }

  lemma TailIff(ok: char -> bool, sep: char -> bool, r: string)
    requires Disjoint(ok, sep)
    ensures Matches(Star(Cat(One(sep), AtLeastOne(ok))), r) <==> TailJoined(ok, sep, r)
  {
    hide Matches, TailJoined;
    if Matches(Star(Cat(One(sep), AtLeastOne(ok))), r) {
      TailMatched(ok, sep, r);
    }
    if TailJoined(ok, sep, r) {
      TailMatches(ok, sep, r);
    }
  }

  lemma RunsIff(ok: char -> bool, sep: char -> bool, t: string)
    requires Disjoint(ok, sep)
    ensures Matches(RunsRe(ok, sep), t) <==> JoinedBy(ok, sep, t)
  {
    var run, tail := AtLeastOne(ok), Star(Cat(One(sep), AtLeastOne(ok)));
    if Matches(RunsRe(ok, sep), t) {
      var i := CatSplits(run, tail, t);
      TailIff(ok, sep, t[i..]);
      assert All(ok, t[..i]) && i >= 1;
      hide Matches;
      JoinRun(ok, sep, t, i);
    }
    if JoinedBy(ok, sep, t) {
      var k := RunSplit(ok, sep, t);
      TailIff(ok, sep, t[k..]);
      assert Matches(run, t[..k]);
      hide Matches;
      CatMatches(run, tail, t, k);
    }
  }

  /** The same with one character between, in the words of the validators. */
  lemma JoinedByChar(ok: char -> bool, sep: char -> bool, c: char, t: string)
    requires Disjoint(ok, sep) && forall x :: sep(x) <==> x == c
    ensures JoinedBy(ok, sep, t) <==> IsJoined(t, c) && forall i :: 0 <= i < |t| ==> ok(t[i]) || t[i] == c
  {
    assert sep(c);
    if JoinedBy(ok, sep, t) {
      forall i | 0 <= i < |t| - 1
        ensures !(t[i] == c && t[i + 1] == c)
      {
        assert !(sep(t[i + 1 - 1]) && sep(t[i + 1]));
      }
    }
    if IsJoined(t, c) && forall i :: 0 <= i < |t| ==> ok(t[i]) || t[i] == c {
      forall i | 0 < i < |t|
        ensures !(sep(t[i - 1]) && sep(t[i]))
      {
        var j := i - 1;
        assert !(t[j] == c && t[j + 1] == c);
      }
    }
  }

  // ----- time zones -----

  /** The time zones are what the pattern matches, without two dots in a row. */
  lemma TimezoneIff(s: string)
    ensures IsTimezone(s) <==> !Contains(s, "..") && Matches(TimezoneRe(), s)
  {
    RunsIff(ZoneChar, Slash, s);
    hide Matches, Contains;
    JoinedByChar(ZoneChar, Slash, '/', s);
    hide JoinedBy, IsJoined;
  }

  // ----- e-mail addresses -----

  /** The part behind the at sign. */
  lemma HostPartIff(t: string)
    ensures Matches(Cat(AtLeastOne(HostChar), Cat(DotHostRe(), Star(DotHostRe()))), t) <==>
      JoinedBy(HostChar, Dot, t) && HasChar(t, '.')
  {
    var run, step := AtLeastOne(HostChar), DotHostRe();
    if Matches(Cat(run, Cat(step, Star(step))), t) {
      var i := CatSplits(run, Cat(step, Star(step)), t);
      var j := CatSplits(step, Star(step), t[i..]);
      assert All(HostChar, t[..i]) && i >= 1;
      StepIff(HostChar, Dot, t[i..][..j]);
      hide Matches;
      StarMatches(step, t[i..], j);
      TailIff(HostChar, Dot, t[i..]);
      JoinRun(HostChar, Dot, t, i);
      assert t[i] == t[i..][..j][0] == '.';
    }
    if JoinedBy(HostChar, Dot, t) && HasChar(t, '.') {
      var k := RunSplit(HostChar, Dot, t);
      var d :| 0 <= d < |t| && t[d] == '.';
      assert forall i :: 0 <= i < k ==> t[..k][i] == t[i];
      assert Matches(run, t[..k]);
      TailIff(HostChar, Dot, t[k..]);
      hide Matches;
      var j := StarSplits(step, t[k..]);
      CatMatches(step, Star(step), t[k..], j);
      CatMatches(run, Cat(step, Star(step)), t, k);
    }
  }

  /** The same in the words of the validators. */
  lemma HostPartMeans(t: string)
    ensures Matches(Cat(AtLeastOne(HostChar), Cat(DotHostRe(), Star(DotHostRe()))), t) <==>
      && (forall i :: 0 <= i < |t| ==> IsAlNum(t[i]) || t[i] == '-' || t[i] == '.')
      && IsJoined(t, '.') && HasChar(t, '.')
  {
    HostPartIff(t);
    hide Matches;
    JoinedByChar(HostChar, Dot, '.', t);
    hide JoinedBy, IsJoined, HasChar;
  }

  lemma AtAfter(s: string, i: nat)
    requires i < |s| && All(LocalChar, s[..i]) && s[i] == '@'
    ensures Find(s, '@') == i
  {
    assert forall j :: 0 <= j < i ==> LocalChar(s[..i][j]) && s[..i][j] == s[j];
    FindAt(s, '@', i);
  }

  lemma LocalMeans(s: string, k: nat)
    requires k <= |s|
    ensures All(LocalChar, s[..k]) <==> forall i :: 0 <= i < k ==> IsLocalChar(s[i])
  {
    assert forall c :: LocalChar(c) <==> IsLocalChar(c);
    assert forall i :: 0 <= i < k ==> s[..k][i] == s[i];
  }

  function AfterAtRe(): (r: Re) {
    Cat(AtLeastOne(HostChar), Cat(DotHostRe(), Star(DotHostRe())))
  }

  lemma AddressMatches(s: string)
    requires IsEmail(s)
    ensures Matches(EmailRe(), s)
  {
    var k := Find(s, '@');
    LocalMeans(s, k);
    assert Matches(AtLeastOne(LocalChar), s[..k]);
    var t := s[k..];
    assert t[0] == '@' && t[1..] == s[k + 1..];
    assert forall i :: 0 <= i < |t[1..]| ==> t[1..][i] == s[i + k + 1];
    hide Matches, IsJoined, Find, HasChar, LocalChar, IsLocalChar;
    HostPartMeans(t[1..]);
    OneThen(x => x == '@', AfterAtRe(), t);
    CatMatches(AtLeastOne(LocalChar), Cat(Only('@'), AfterAtRe()), s, k);
  }

  lemma MatchedIsAddress(s: string)
    requires Ahead(s, 3, 254) && Matches(EmailRe(), s)
    ensures IsEmail(s)
  {
    hide Matches, IsJoined, HasChar, LocalChar, IsLocalChar, All;
    var i := CatSplits(AtLeastOne(LocalChar), Cat(Only('@'), AfterAtRe()), s);
    assert All(LocalChar, s[..i]) && i >= 1 by {
      RunMeans(LocalChar, s[..i]);
    }
    OneThen(x => x == '@', AfterAtRe(), s[i..]);
    var t := s[i..][1..];
    assert t == s[i + 1..];
    HostPartMeans(t);
    AtAfter(s, i);
    LocalMeans(s, i);
    assert forall j :: i < j < |s| ==> s[j] == t[j - i - 1];
  }

  lemma RunMeans(ok: char -> bool, s: string)
    ensures Matches(AtLeastOne(ok), s) <==> s != [] && All(ok, s)
  {
  }

  /** The addresses are what the pattern matches. */
  lemma EmailIff(s: string)
    ensures IsEmail(s) <==> Ahead(s, 3, 254) && Matches(EmailRe(), s)
  {
    hide Matches, EmailRe;
    if IsEmail(s) {
      EmailIsGraphic(s);
      AddressMatches(s);
    }
    if Ahead(s, 3, 254) && Matches(EmailRe(), s) {
      MatchedIsAddress(s);
    }
  }

  // ----- image references -----

  lemma ComponentIff(s: string)
    ensures Matches(ComponentRe(), s) <==> IsComponent(s)
  {
    RunsIff(LowerOrDigit, Between, s);
    hide Matches;
    if JoinedBy(LowerOrDigit, Between, s) {
      forall i | 0 <= i < |s| - 1
        ensures IsLowNum(s[i]) || IsLowNum(s[i + 1])
      {
        assert !(Between(s[i + 1 - 1]) && Between(s[i + 1]));
      }
    }
    if IsComponent(s) {
      forall i | 0 < i < |s|
        ensures !(Between(s[i - 1]) && Between(s[i]))
      {
        var j := i - 1;
        assert IsLowNum(s[j]) || IsLowNum(s[j + 1]);
      }
    }
  }

  /** A component in front: what ends it is the first of its kind. */
  lemma ComponentEnds(s: string, k: nat, c: char)
    requires k <= |s| && IsComponent(s[..k]) && (c == '/' || c == ':') && (k < |s| ==> s[k] == c)
    ensures Find(s, c) == k
  {
    assert forall i :: 0 <= i < k ==> IsNameChar(s[..k][i]) && s[..k][i] == s[i];
    if k < |s| {
      FindAt(s, c, k);
    }
  }

  lemma PortIff(s: string)
    ensures Matches(Cat(Only(':'), AtLeastOne(Digit)), s) <==>
      s != [] && s[0] == ':' && Decimal.Digits(s[1..])
  {
    OneThen(x => x == ':', AtLeastOne(Digit), s);
    if s != [] {
      var t := s[1..];
      assert Matches(AtLeastOne(Digit), t) <==> Decimal.Digits(t) by {
        assert forall c :: Digit(c) <==> Decimal.IsDigit(c);
      }
    }
  }

  lemma HostIff(s: string)
    ensures Matches(HostRe(), s) <==> IsHost(s)
  {
    var port := Cat(Only(':'), AtLeastOne(Digit));
    if Matches(HostRe(), s) {
      var i := CatSplits(ComponentRe(), Optional(port), s);
      ComponentIff(s[..i]);
      PortIff(s[i..]);
      assert i < |s| ==> s[i..][1..] == s[i + 1..];
      hide IsComponent;
      ComponentEnds(s, i, ':');
    }
    if IsHost(s) {
      var k := Find(s, ':');
      ComponentIff(s[..k]);
      PortIff(s[k..]);
      assert k < |s| ==> s[k..][1..] == s[k + 1..];
      assert Matches(Optional(port), s[k..]);
      hide Matches;
      CatMatches(ComponentRe(), Optional(port), s, k);
    }
  }

  lemma StepOfRest(s: string)
    ensures Matches(Cat(Only('/'), ComponentRe()), s) <==> s != [] && s[0] == '/' && IsComponent(s[1..])
  {
    hide Matches, IsComponent, ComponentRe;
    OneThen(x => x == '/', ComponentRe(), s);
    if s != [] {
      ComponentIff(s[1..]);
    }
  }

  lemma {:induction false} RestIff(s: string)
    ensures Matches(RestRe(), s) <==> IsRest(s)
    decreases |s|
  {
    var step := Cat(Only('/'), ComponentRe());
    if s != [] {
      if Matches(RestRe(), s) {
        var i := StarSplits(step, s);
        StepOfRest(s[..i]);
        RestIff(s[i..]);
        hide Matches, IsComponent;
        var t := s[1..];
        assert s[..i][1..] == t[..i - 1] && s[i..] == t[i - 1..];
        RestStarts(s[i..]);
        ComponentEnds(t, i - 1, '/');
      }
      if IsRest(s) {
        var t := s[1..];
        var k := Find(t, '/');
        RestIff(t[k..]);
        hide Matches, IsComponent;
        assert s[..k + 1][1..] == t[..k] && s[k + 1..] == t[k..];
        StepOfRest(s[..k + 1]);
        StarMatches(step, s, k + 1);
      }
    }
  }

  lemma RestStarts(s: string)
    requires IsRest(s)
    ensures s != [] ==> s[0] == '/'
  {
  }

  lemma HostHasNoSlash(s: string)
    requires IsHost(s)
    ensures forall i :: 0 <= i < |s| ==> s[i] != '/'
  {
    var k := Find(s, ':');
    forall i | 0 <= i < |s|
      ensures s[i] != '/'
    {
      if i < k {
        assert s[i] == s[..k][i] && IsNameChar(s[..k][i]);
      } else if i > k {
        assert s[i] == s[k + 1..][i - k - 1] && Decimal.IsDigit(s[k + 1..][i - k - 1]);
      }
    }
  }

  lemma PathIff(s: string)
    ensures Matches(Cat(HostRe(), RestRe()), s) <==> IsPath(s)
  {
    hide IsHost, IsRest, HostRe, RestRe;
    if Matches(Cat(HostRe(), RestRe()), s) {
      var i := CatSplits(HostRe(), RestRe(), s);
      hide Matches;
      HostIff(s[..i]);
      RestIff(s[i..]);
      HostHasNoSlash(s[..i]);
      RestStarts(s[i..]);
      assert forall j :: 0 <= j < i ==> s[..i][j] == s[j];
      if i < |s| {
        FindAt(s, '/', i);
      }
    }
    if IsPath(s) {
      hide Matches;
      var k := Find(s, '/');
      HostIff(s[..k]);
      RestIff(s[k..]);
      CatMatches(HostRe(), RestRe(), s, k);
    }
  }

  lemma TagIff(s: string)
    ensures Matches(TagRe(), s) <==> IsTag(s)
  {
    var more := Many((c: char) => LetterOrDigit(c) || c == '_' || c == '.' || c == '-', 0, Some(127));
    OneThen(x => x == ':', Cat(One(LetterOrDigit), more), s);
    if s != [] {
      var t := s[1..];
      OneThen(LetterOrDigit, more, t);
      if t != [] {
        var u := t[1..];
        assert t[0] == s[1];
        assert forall i :: 0 <= i < |u| ==> u[i] == s[i + 2];
        assert forall i :: 2 <= i < |s| ==> s[i] == u[i - 2];
      }
    }
  }

  lemma {:induction false} TextIff(t: string, s: string)
    ensures Matches(Text(t), s) <==> s == t
  {
    if t != [] {
      OneThen(x => x == t[0], Text(t[1..]), s);
      if s != [] {
        TextIff(t[1..], s[1..]);
      }
      assert s != [] && s[0] == t[0] && s[1..] == t[1..] ==> s == t;
    }
  }

  lemma TextThen(t: string, b: Re, s: string)
    ensures Matches(Cat(Text(t), b), s) <==> t <= s && Matches(b, s[|t|..])
  {
    if Matches(Cat(Text(t), b), s) {
      var i := CatSplits(Text(t), b, s);
      TextIff(t, s[..i]);
    }
    if t <= s && Matches(b, s[|t|..]) {
      TextIff(t, s[..|t|]);
      hide Matches;
      CatMatches(Text(t), b, s, |t|);
    }
  }

  lemma HexIff(s: string, n: nat)
    requires n <= |s|
    ensures Matches(Many(HexDigit, 64, Some(64)), s[n..]) <==>
      |s| == n + 64 && forall i :: n <= i < |s| ==> Decimal.IsDigit(s[i]) || 'a' <= s[i] <= 'f'
  {
    var t := s[n..];
    assert forall i :: 0 <= i < |t| ==> t[i] == s[i + n];
    assert forall i :: n <= i < |s| ==> s[i] == t[i - n];
  }

  lemma DigestIff(s: string)
    ensures Matches(DigestRe(), s) <==> IsDigest(s)
  {
    hide Matches, Text;
    TextThen("@sha256:", Many(HexDigit, 64, Some(64)), s);
    if "@sha256:" <= s {
      HexIff(s, 8);
    }
  }

  lemma SuffixIff(s: string)
    ensures Matches(Optional(Alt(TagRe(), DigestRe())), s) <==> IsSuffix(s)
  {
    hide IsTag, TagRe, IsDigest, DigestRe;
    TagIff(s);
    DigestIff(s);
    assert Matches(Alt(TagRe(), DigestRe()), s) <==> Matches(TagRe(), s) || Matches(DigestRe(), s);
    assert Matches(Empty, s) <==> s == [];
  }

  /** The image references are what the pattern matches. */
  lemma ImageIff(s: string)
    ensures IsImage(s) <==> Ahead(s, 3, 512) && Matches(ImageRe(), s)
  {
    hide IsPath, HostRe, RestRe, IsSuffix, TagRe, DigestRe, Matches;
    var path, suffix := Cat(HostRe(), RestRe()), Optional(Alt(TagRe(), DigestRe()));
    if IsImage(s) {
      var i :| 0 <= i <= |s| && IsPath(s[..i]) && IsSuffix(s[i..]);
      ImageChars(s);
      PathIff(s[..i]);
      SuffixIff(s[i..]);
      CatMatches(path, suffix, s, i);
    }
    if Ahead(s, 3, 512) && Matches(ImageRe(), s) {
      var i := CatSplits(path, suffix, s);
      PathIff(s[..i]);
      SuffixIff(s[i..]);
    }
  }
}
