/** Environment files: lines `NAME=value`, read into a dictionary, and the
    rewriting of one of them. */
module EnvFile {
  import opened Common

  // ----- characters and lines -----

  /** White space, as stripped from the ends of a line. */
  predicate IsSpace(c: char) {
    || '\U{9}' <= c <= '\U{d}' || '\U{1c}' <= c <= ' ' || c == '\U{85}' || c == '\U{a0}'
    || c == '\U{1680}' || '\U{2000}' <= c <= '\U{200a}' || c == '\U{2028}' || c == '\U{2029}'
    || c == '\U{202f}' || c == '\U{205f}' || c == '\U{3000}'
  }

  /** Where a text is split into lines. */
  predicate IsBreak(c: char) {
    '\U{a}' <= c <= '\U{d}' || '\U{1c}' <= c <= '\U{1e}' || c == '\U{85}' || c == '\U{2028}' || c == '\U{2029}'
  }

  predicate NoBreaks(s: string) {
    forall i :: 0 <= i < |s| ==> !IsBreak(s[i])
  }

  predicate NoSpaces(s: string) {
    forall i :: 0 <= i < |s| ==> !IsSpace(s[i])
  }

  function LStrip(s: string): (r: string) {
    if s != [] && IsSpace(s[0]) then LStrip(s[1..]) else s
  }

  function RStrip(s: string): (r: string)
    ensures r <= s
    ensures r != [] ==> !IsSpace(r[|r| - 1])
    ensures forall i :: |r| <= i < |s| ==> IsSpace(s[i])
  {
    if s != [] && IsSpace(s[|s| - 1]) then RStrip(s[..|s| - 1]) else s
  }

  function Strip(s: string): (r: string) {
    LStrip(RStrip(s))
  }

  /** The position of the first c, the length if there is none. */
  function Find(s: string, c: char): (k: nat)
    ensures k <= |s| && (k < |s| ==> s[k] == c)
    ensures forall i :: 0 <= i < k ==> s[i] != c
  {
    if s == [] || s[0] == c then 0 else 1 + Find(s[1..], c)
  }

  function FirstBreak(s: string): (k: nat)
    ensures k <= |s| && (k < |s| ==> IsBreak(s[k]))
    ensures forall i :: 0 <= i < k ==> !IsBreak(s[i])
  {
    if s == [] || IsBreak(s[0]) then 0 else 1 + FirstBreak(s[1..])
  }

  /** The newline translation done when a file is read. */
  function Universal(s: string): (r: string) {
    if s == [] then []
    else if |s| >= 2 && s[0] == '\r' && s[1] == '\n' then "\n" + Universal(s[2..])
    else (if s[0] == '\r' then "\n" else [s[0]]) + Universal(s[1..])
  }

  function SplitLines(s: string): (r: seq<string>)
    ensures forall i :: 0 <= i < |r| ==> NoBreaks(r[i])
  {
    if s == [] then []
    else
      var k := FirstBreak(s);
      [s[..k]] + if k < |s| then SplitLines(s[k + 1..]) else []
  }

  function Unlines(lines: seq<string>): (r: string) {
    if lines == [] then [] else lines[0] + "\n" + Unlines(lines[1..])
  }

  lemma FirstBreakAt(line: string, rest: string)
    requires NoBreaks(line)
    ensures FirstBreak(line + "\n" + rest) == |line|
  {
    var s := line + "\n" + rest;
    assert IsBreak(s[|line|]);
    assert forall i :: 0 <= i < |line| ==> s[i] == line[i];
  }

  /** Lines that are written are read back. */
  lemma {:induction false} SplitUnlines(lines: seq<string>)
    requires forall i :: 0 <= i < |lines| ==> NoBreaks(lines[i])
    ensures SplitLines(Unlines(lines)) == lines
  {
    if lines != [] {
      var line, rest := lines[0], Unlines(lines[1..]);
      SplitUnlines(lines[1..]);
      FirstBreakAt(line, rest);
      var s := line + "\n" + rest;
      assert s[..|line|] == line && s[|line| + 1..] == rest;
    }
  }

  predicate NoReturns(s: string) {
    forall i :: 0 <= i < |s| ==> s[i] != '\r'
  }

  lemma {:induction false} UniversalIsIdentity(s: string)
    requires NoReturns(s)
    ensures Universal(s) == s
  {
    if s != [] {
      UniversalIsIdentity(s[1..]);
    }
  }

  lemma {:induction false} UnlinesHasNoReturns(lines: seq<string>)
    requires forall i :: 0 <= i < |lines| ==> NoBreaks(lines[i])
    ensures NoReturns(Unlines(lines))
  {
    if lines != [] {
      UnlinesHasNoReturns(lines[1..]);
      assert NoBreaks(lines[0]);
      assert IsBreak('\r');
    }
  }

  /** The lines of a file. */
  function LinesOf(text: string): (r: seq<string>)
    ensures forall i :: 0 <= i < |r| ==> NoBreaks(r[i])
  {
    SplitLines(Universal(text))
  }

  lemma LinesOfUnlines(lines: seq<string>)
    requires forall i :: 0 <= i < |lines| ==> NoBreaks(lines[i])
    ensures LinesOf(Unlines(lines)) == lines
  {
    UnlinesHasNoReturns(lines);
    UniversalIsIdentity(Unlines(lines));
    SplitUnlines(lines);
  }

  /** The lines, each ended by the given characters. */
  function Ended(lines: seq<string>, end: string): (r: string) {
    if lines == [] then [] else lines[0] + (end + Ended(lines[1..], end))
  }

  lemma {:induction false} UniversalPrefix(line: string, rest: string)
    requires NoReturns(line)
    ensures Universal(line + rest) == line + Universal(rest)
  {
    if line == [] {
      assert line + rest == rest;
    } else {
      UniversalPrefix(line[1..], rest);
      assert (line + rest)[1..] == line[1..] + rest;
    }
  }

  /** Each way to end a line is one line break. */
  lemma EndIsOneBreak(end: string, rest: string)
    requires end == "\n" || end == "\r\n" || (end == "\r" && (rest != [] ==> rest[0] != '\n'))
    ensures Universal(end + rest) == "\n" + Universal(rest)
  {
    var s := end + rest;
    assert s[|end|..] == rest;
  }

  /** Files with any of the three line ends have the same lines. */
  lemma {:induction false} LinesOfEnded(lines: seq<string>, end: string)
    requires forall i :: 0 <= i < |lines| ==> NoBreaks(lines[i])
    requires end == "\n" || end == "\r" || end == "\r\n"
    ensures Universal(Ended(lines, end)) == Unlines(lines) && LinesOf(Ended(lines, end)) == lines
  {
    if lines != [] {
      var rest := Ended(lines[1..], end);
      LinesOfEnded(lines[1..], end);
      assert NoBreaks(lines[0]) && IsBreak('\r') && IsBreak('\n');
      if |lines| > 1 {
        assert NoBreaks(lines[1]);
      }
      EndIsOneBreak(end, rest);
      UniversalPrefix(lines[0], end + rest);
      assert lines[0] + ("\n" + Unlines(lines[1..])) == Unlines(lines);
      SplitUnlines(lines);
    }
  }

  // ----- entries -----

  predicate IsKey(k: string) {
    k != [] && 'A' <= k[0] <= 'Z' && forall i :: 0 <= i < |k| ==> IsKeyChar(k[i])
  }

  predicate IsKeyChar(c: char) {
    'A' <= c <= 'Z' || '0' <= c <= '9' || c == '_'
  }

  /** What one line says, if anything. */
  function Entry(raw: string): (r: Option<(string, string)>) {
    var line := Strip(raw);
    if line == [] || line[0] == '#' || Find(line, '=') == |line| then None
    else
      var k := Find(line, '=');
      if IsKey(line[..k]) then Some((line[..k], line[k + 1..])) else None
  }

  function EnvOf(lines: seq<string>): (m: map<string, string>) {
    if lines == [] then map[]
    else
      var m := EnvOf(lines[..|lines| - 1]);
      match Entry(lines[|lines| - 1])
      case None => m
      case Some(e) => m[e.0 := e.1]
  }

  function Line(key: string, value: string): (r: string) {
    key + "=" + value
  }

  lemma StripIsIdentity(s: string)
    requires s != [] && !IsSpace(s[0]) && !IsSpace(s[|s| - 1])
    ensures Strip(s) == s
  {
  }

  predicate AllSpaces(s: string) {
    forall i :: 0 <= i < |s| ==> IsSpace(s[i])
  }

  lemma {:induction false} LStripDrops(lead: string, core: string)
    requires AllSpaces(lead) && core != [] && !IsSpace(core[0])
    ensures LStrip(lead + core) == core
  {
    if lead == [] {
      assert lead + core == core;
    } else {
      LStripDrops(lead[1..], core);
      assert (lead + core)[1..] == lead[1..] + core;
    }
  }

  lemma RStripDrops(s: string, trail: string)
    requires AllSpaces(trail) && s != [] && !IsSpace(s[|s| - 1])
    ensures RStrip(s + trail) == s
  {
    var all := s + trail;
    var r := RStrip(all);
    assert all[|s| - 1] == s[|s| - 1];
    assert forall i :: |s| <= i < |all| ==> all[i] == trail[i - |s|];
    assert |r| == |s|;
    assert all[..|s|] == s;
  }

  /** White space at both ends is dropped, and nothing else. */
  lemma StripDrops(lead: string, core: string, trail: string)
    requires AllSpaces(lead) && AllSpaces(trail)
    requires core != [] && !IsSpace(core[0]) && !IsSpace(core[|core| - 1])
    ensures Strip(lead + core + trail) == core
  {
    RStripDrops(lead + core, trail);
    LStripDrops(lead, core);
  }

  lemma FindAt(s: string, c: char, k: nat)
    requires k < |s| && s[k] == c && forall i :: 0 <= i < k ==> s[i] != c
    ensures Find(s, c) == k
  {
  }

  /** A line that is written says what it should. */
  lemma EntryOfLine(key: string, value: string)
    requires IsKey(key) && NoSpaces(value)
    ensures Entry(Line(key, value)) == Some((key, value))
  {
    var s := Line(key, value);
    StripIsIdentity(s);
    assert forall i :: 0 <= i < |key| ==> s[i] == key[i];
    FindAt(s, '=', |key|);
    assert s[..|key|] == key && s[|key| + 1..] == value;
  }

  /** A line is an entry exactly if, without the white space around it, it is a
      name, an equals sign and the value. */
  lemma EntryIff(raw: string, key: string, value: string)
    ensures Entry(raw) == Some((key, value)) <==> IsKey(key) && Strip(raw) == Line(key, value)
  {
    var s := Strip(raw);
    if IsKey(key) && s == Line(key, value) {
      assert forall i :: 0 <= i < |key| ==> s[i] == key[i];
      FindAt(s, '=', |key|);
      assert s[..|key|] == key && s[|key| + 1..] == value;
    }
  }

  /** Read an environment file; a missing file has no entries. */
  method ReadEnv(file: Option<string>) returns (values: map<string, string>)
    ensures values == if file.Some? then EnvOf(LinesOf(file.value)) else map[]
  {
    values := map[];
    if file.None? {
      return;
    }
    var lines := LinesOf(file.value);
    for i := 0 to |lines|
      invariant values == EnvOf(lines[..i])
    {
      assert lines[..i + 1][..i] == lines[..i];
      var line := Strip(lines[i]);
      if line == [] || line[0] == '#' || Find(line, '=') == |line| {
        continue;
      }
      var k := Find(line, '=');
      if IsKey(line[..k]) {
        values := values[line[..k] := line[k + 1..]];
      }
    }
    assert lines[..|lines|] == lines;
  }

  // ----- rewriting one entry -----

  /** Whether a line starts with the name and the equals sign. */
  predicate Plain(line: string, key: string) {
    key + "=" <= line
  }

  function Replaced(lines: seq<string>, key: string, value: string): (r: seq<string>)
    ensures |r| == |lines|
    ensures forall i :: 0 <= i < |r| ==> r[i] == if Plain(lines[i], key) then Line(key, value) else lines[i]
  {
    if lines == [] then []
    else
      var last := lines[|lines| - 1];
      Replaced(lines[..|lines| - 1], key, value) + [if Plain(last, key) then Line(key, value) else last]
  }

  predicate HasPlain(lines: seq<string>, key: string) {
    lines != [] && (Plain(lines[|lines| - 1], key) || HasPlain(lines[..|lines| - 1], key))
  }

  function Updated(lines: seq<string>, key: string, value: string): (r: seq<string>) {
    Replaced(lines, key, value) + if HasPlain(lines, key) then [] else [Line(key, value)]
  }

  /** Rewrite the lines: each that starts with the name, or a new one at the end. */
  method UpdateLines(lines: seq<string>, key: string, value: string) returns (output: seq<string>)
    ensures output == Updated(lines, key, value)
  {
    var replaced := false;
    output := [];
    for i := 0 to |lines|
      invariant output == Replaced(lines[..i], key, value)
      invariant replaced == HasPlain(lines[..i], key)
    {
      assert lines[..i + 1][..i] == lines[..i];
      if Plain(lines[i], key) {
        output := output + [Line(key, value)];
        replaced := true;
      } else {
        output := output + [lines[i]];
      }
    }
    assert lines[..|lines|] == lines;
    if !replaced {
      output := output + [Line(key, value)];
    }
  }

  /** A line that starts with the name is an entry for it. */
  lemma PlainEntry(line: string, key: string)
    requires IsKey(key) && Plain(line, key)
    ensures Entry(line).Some? && Entry(line).value.0 == key
  {
    var s := RStrip(line);
    assert forall i :: 0 <= i < |key| ==> (key + "=")[i] == key[i];
    assert line[|key|] == (key + "=")[|key|] == '=';
    assert |s| > |key|;
    assert Strip(line) == s;
    FindAt(s, '=', |key|);
    assert s[..|key|] == key;
  }

  /** Whether the last entry for the name is on a line that starts with it. */
  predicate LastIsPlain(lines: seq<string>, key: string) {
    lines != [] &&
    var last := lines[|lines| - 1];
    var e := Entry(last);
    if e.Some? && e.value.0 == key then Plain(last, key) else LastIsPlain(lines[..|lines| - 1], key)
  }

  /** Replacing lines leaves all other names alone, and changes the name itself
      exactly if its last entry was on a line that starts with it. */
  lemma {:induction false} EnvOfReplaced(lines: seq<string>, key: string, value: string)
    requires IsKey(key) && NoSpaces(value)
    ensures
      var before, after := EnvOf(lines), EnvOf(Replaced(lines, key, value));
      after == if LastIsPlain(lines, key) then before[key := value] else before
  {
    hide Entry, Line, Plain, Replaced, IsKey;
    ReplacedParts(lines, key, value);
    if lines != [] {
      var n := |lines| - 1;
      var init, last := lines[..n], lines[n];
      EnvOfReplaced(init, key, value);
      var before, after := EnvOf(init), EnvOf(Replaced(init, key, value));
      if Plain(last, key) {
        EntryOfLine(key, value);
        PlainEntry(last, key);
        assert after[key := value] == before[key := value];
      } else if Entry(last).Some? {
        OverwriteCommutes(before, key, value, Entry(last).value.0, Entry(last).value.1);
      }
    }
  }

  lemma ReplacedParts(lines: seq<string>, key: string, value: string)
    ensures lines == [] ==> Replaced(lines, key, value) == []
    ensures lines != [] ==>
      var n, r := |lines| - 1, Replaced(lines, key, value);
      r[..n] == Replaced(lines[..n], key, value) && r[n] == if Plain(lines[n], key) then Line(key, value) else lines[n]
  {
    hide Line, Plain;
  }

  lemma OverwriteCommutes(m: map<string, string>, key: string, value: string, k: string, v: string)
    ensures m[key := value][k := v] == if k == key then m[k := v] else m[k := v][key := value]
  {
  }

  /** The effect of a rewrite, exactly: no other name changes, and the name has
      the new value unless some line starts with it but its last entry is on a
      line that does not. */
  lemma UpdateEffect(lines: seq<string>, key: string, value: string)
    requires IsKey(key) && NoSpaces(value)
    ensures
      var before, after := EnvOf(lines), EnvOf(Updated(lines, key, value));
      after == if HasPlain(lines, key) && !LastIsPlain(lines, key) then before else before[key := value]
  {
    hide Entry, Line, Plain, Replaced, IsKey, HasPlain, LastIsPlain, NoSpaces;
    EnvOfReplaced(lines, key, value);
    var r := Replaced(lines, key, value);
    if HasPlain(lines, key) {
      assert Updated(lines, key, value) == r;
    } else {
      NoPlain(lines, key);
      EntryOfLine(key, value);
      assert (r + [Line(key, value)])[..|r|] == r;
    }
  }

  lemma {:induction false} NoPlain(lines: seq<string>, key: string)
    requires !HasPlain(lines, key)
    ensures !LastIsPlain(lines, key)
  {
    if lines != [] {
      var n := |lines| - 1;
      NoPlain(lines[..n], key);
    }
  }

  /** A rewritten file, as text. */
  function UpdatedText(text: string, key: string, value: string): (r: string) {
    Unlines(Updated(LinesOf(text), key, value))
  }

  lemma UpdatedTextLines(text: string, key: string, value: string)
    requires IsKey(key) && NoSpaces(value)
    ensures LinesOf(UpdatedText(text, key, value)) == Updated(LinesOf(text), key, value)
  {
    var line := Line(key, value);
    assert NoBreaks(line) by {
      forall i | 0 <= i < |line|
        ensures !IsBreak(line[i])
      {
        assert i < |key| ==> IsKeyChar(key[i]);
      }
    }
    LinesOfUnlines(Updated(LinesOf(text), key, value));
  }

  lemma IndentedEntry(s: string)
    requires s != [] && !IsSpace(s[0]) && !IsSpace(s[|s| - 1])
    ensures Entry(" " + s) == Entry(s)
  {
    var t := " " + s;
    assert RStrip(t) == t && t[1..] == s;
    StripIsIdentity(s);
    assert LStrip(t) == LStrip(s);
  }

  /** An indented last entry hides the new value. */
  lemma HiddenUpdate(key: string, a: string, b: string, value: string)
    requires IsKey(key) && NoSpaces(b) && NoSpaces(value)
    ensures
      var lines := [Line(key, a), " " + Line(key, b)];
      EnvOf(Updated(lines, key, value)) == EnvOf(lines) && key in EnvOf(lines) && EnvOf(lines)[key] == b
  {
    var first, second := Line(key, a), " " + Line(key, b);
    var lines := [first, second];
    EntryOfLine(key, b);
    IndentedEntry(Line(key, b));
    assert first[..|key| + 1] == key + "=";
    assert second[0] == ' ' && (key + "=")[0] == key[0];
    hide Line, Entry, Plain;
    assert lines[..1] == [first];
    assert HasPlain([first], key) && HasPlain(lines, key);
    assert !LastIsPlain(lines, key);
    UpdateEffect(lines, key, value);
  }
}
