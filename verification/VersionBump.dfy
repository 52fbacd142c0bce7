/** Versions of the project: printed, parsed, bumped and written to its files
    (scripts/light_version_bump.py). */
module VersionBump {
  import opened Decimal

  datatype Version = Version(major: nat, minor: nat, patch: nat)

  datatype Level = Patch | Minor | Major

  /* ---- printing and parsing ---- */

  function FormatPublic(v: Version): string {
    Digits(v.major) + ("." + (Digits(v.minor) + ("." + Digits(v.patch))))
  }

  function FormatFull(v: Version, sha: string): string {
    if sha == "" then FormatPublic(v) else FormatPublic(v) + ("+g" + sha)
  }

  /** `version.split("+", 1)[0]`. */
  function BeforePlus(s: string): string {
    if s == "" || s[0] == '+' then "" else [s[0]] + BeforePlus(s[1..])
  }

  /** What `str.strip` takes off. */
  predicate IsSpace(c: char) {
    var n := c as int;
    || 9 <= n <= 13 || 28 <= n <= 32 || n == 0x85 || n == 0xA0 || n == 0x1680 || 0x2000 <= n <= 0x200A
    || n == 0x2028 || n == 0x2029 || n == 0x202F || n == 0x205F || n == 0x3000
  }

  function StripLeft(s: string): string {
    if s != "" && IsSpace(s[0]) then StripLeft(s[1..]) else s
  }

  function StripRight(s: string): string {
    if s != "" && IsSpace(s[|s| - 1]) then StripRight(s[..|s| - 1]) else s
  }

  function Strip(s: string): string {
    StripRight(StripLeft(s))
  }

  predicate AllSpace(s: string) {
    forall i | 0 <= i < |s| :: IsSpace(s[i])
  }

  /** Stripping takes white space off both ends, and nothing else. */
  lemma StripExactly(s: string) returns (left: string, right: string)
    ensures s == left + Strip(s) + right && AllSpace(left) && AllSpace(right)
    ensures Strip(s) != "" ==> !IsSpace(Strip(s)[0]) && !IsSpace(Strip(s)[|Strip(s)| - 1])
  {
    left := StrippedLeft(s);
    right := StrippedRight(StripLeft(s));
    assert StripRight(StripLeft(s)) != "" ==> StripRight(StripLeft(s))[0] == StripLeft(s)[0];
  }

  lemma {:induction false} StrippedLeft(s: string) returns (left: string)
    ensures s == left + StripLeft(s) && AllSpace(left) && (StripLeft(s) != "" ==> !IsSpace(StripLeft(s)[0]))
  {
    if s != "" && IsSpace(s[0]) {
      left := StrippedLeft(s[1..]);
      left := [s[0]] + left;
    } else {
      left := "";
    }
  }

  lemma {:induction false} StrippedRight(s: string) returns (right: string)
    ensures s == StripRight(s) + right && AllSpace(right) && (StripRight(s) != "" ==> !IsSpace(StripRight(s)[|StripRight(s)| - 1]))
  {
    if s != "" && IsSpace(s[|s| - 1]) {
      right := StrippedRight(s[..|s| - 1]);
      right := right + [s[|s| - 1]];
    } else {
      right := "";
    }
  }

  /** The digits a text begins with. */
  function Leading(s: string): (n: nat)
    ensures n <= |s| && AllDigits(s[..n]) && (n < |s| ==> !IsDigit(s[n]))
  {
    if s == "" || !IsDigit(s[0]) then 0
    else
      assert s[1..][..Leading(s[1..])] == s[1..Leading(s[1..]) + 1];
      1 + Leading(s[1..])
  }

  /** A number and what follows it. */
  function ReadNumber(s: string): Option<(nat, string)> {
    var n := Leading(s);
    if n == 0 then None else Some((Value(s[..n]), s[n..]))
  }

  /** `^(\d+)\.(\d+)\.(\d+)`: whatever follows the third number is dropped. */
  function ReadTriple(s: string): Option<Version> {
    var a := ReadNumber(s);
    if a.None? || a.value.1 == "" || a.value.1[0] != '.' then None
    else
      var b := ReadNumber(a.value.1[1..]);
      if b.None? || b.value.1 == "" || b.value.1[0] != '.' then None
      else
        var c := ReadNumber(b.value.1[1..]);
        if c.None? then None else Some(Version(a.value.0, b.value.0, c.value.0))
  }

  /** `parse_base`; None where it raises. */
  function ParseBase(version: string): Option<Version> {
    ReadTriple(Strip(BeforePlus(version)))
  }

  lemma {:induction false} LeadingDigits(a: string, b: string)
    requires AllDigits(a) && (b != "" ==> !IsDigit(b[0]))
    ensures Leading(a + b) == |a|
  {
    if a == "" {
      assert a + b == b;
    } else {
      LeadingDigits(a[1..], b);
      assert (a + b)[1..] == a[1..] + b;
    }
  }

  lemma ReadPrinted(n: nat, rest: string)
    requires rest != "" ==> !IsDigit(rest[0])
    ensures ReadNumber(Digits(n) + rest) == Some((n, rest))
  {
    LeadingDigits(Digits(n), rest);
    ValueOfDigits(n);
    assert (Digits(n) + rest)[..|Digits(n)|] == Digits(n) && (Digits(n) + rest)[|Digits(n)|..] == rest;
  }

  lemma ReadPublic(v: Version, rest: string)
    requires rest != "" ==> !IsDigit(rest[0])
    ensures ReadTriple(FormatPublic(v) + rest) == Some(v)
  {
    hide Digits, ReadNumber;
    var third := Digits(v.patch) + rest;
    var second := Digits(v.minor) + ("." + third);
    var s := FormatPublic(v) + rest;
    assert s == Digits(v.major) + ("." + second);
    ReadPrinted(v.major, "." + second);
    ReadPrinted(v.minor, "." + third);
    ReadPrinted(v.patch, rest);
    assert ("." + second)[1..] == second && ("." + third)[1..] == third;
  }

  lemma {:induction false} BeforePlusOf(a: string, b: string)
    requires '+' !in a && (b != "" ==> b[0] == '+')
    ensures BeforePlus(a + b) == a
  {
    if a == "" {
      assert a + b == b;
    } else {
      BeforePlusOf(a[1..], b);
      assert (a + b)[1..] == a[1..] + b;
    }
  }

  /** A public version is digits and dots, and begins and ends with a digit. */
  lemma PublicCharacters(v: Version)
    ensures var s := FormatPublic(v);
            && s != "" && IsDigit(s[0]) && IsDigit(s[|s| - 1])
            && forall i | 0 <= i < |s| :: IsDigit(s[i]) || s[i] == '.'
  {
    hide Digits;
    var a, b, c := Digits(v.major), Digits(v.minor), Digits(v.patch);
    var s := FormatPublic(v);
    assert s[0] == a[0] && s[|s| - 1] == c[|c| - 1];
    forall i | 0 <= i < |s| ensures IsDigit(s[i]) || s[i] == '.' {
      if |a| < i < |a| + 1 + |b| {
        assert s[i] == b[i - |a| - 1];
      } else if i > |a| + 1 + |b| {
        assert s[i] == c[i - |a| - |b| - 2];
      }
    }
  }

  /** Parsing what was printed gives the version back, whatever commit is
      behind it. */
  lemma ParseFormat(v: Version, sha: string)
    ensures ParseBase(FormatPublic(v)) == Some(v) && ParseBase(FormatFull(v, sha)) == Some(v)
    ensures Strip(FormatPublic(v)) == FormatPublic(v)
  {
    hide Digits, ReadTriple;
    var s := FormatPublic(v);
    PublicCharacters(v);
    hide FormatPublic;
    BeforePlusOf(s, "");
    BeforePlusOf(s, "+g" + sha);
    assert s + "" == s;
    assert Strip(s) == s;
    ReadPublic(v, "");
  }

  /** The full form names version and commit: no two share one. */
  lemma FullNamesBoth(v: Version, a: string, w: Version, b: string)
    requires FormatFull(v, a) == FormatFull(w, b)
    ensures v == w && a == b
  {
    ParseFormat(v, a);
    ParseFormat(w, b);
    PublicCharacters(v);
    hide FormatPublic, ParseBase;
    var s := FormatPublic(v);
    assert a != "" ==> FormatFull(v, a)[|s|..] == "+g" + a;
    assert b != "" ==> FormatFull(w, b)[|s|..] == "+g" + b;
    assert a != "" && b != "" ==> ("+g" + a)[2..] == a && ("+g" + b)[2..] == b;
  }

  /* ---- bumping ---- */

  /** The precedence of section 11 of Semantic Versioning 2.0.0, for versions
      without a pre-release. */
  predicate Less(v: Version, w: Version) {
    v.major < w.major || (v.major == w.major && (v.minor < w.minor || (v.minor == w.minor && v.patch < w.patch)))
  }

  function Bump(v: Version, level: Level): Version {
    match level
    case Patch => v.(patch := v.patch + 1)
    case Minor => Version(v.major, v.minor + 1, 0)
    case Major => Version(v.major + 1, 0, 0)
  }

  /** Two versions share the numbers above the level. */
  predicate SameAbove(v: Version, w: Version, level: Level) {
    match level
    case Patch => v.major == w.major && v.minor == w.minor
    case Minor => v.major == w.major
    case Major => true
  }

  /** A version that moved at the level or above, counted from another. */
  predicate Moved(v: Version, w: Version, level: Level) {
    Less(v, w) && !(level != Patch && SameAbove(v, w, if level == Minor then Patch else Minor))
  }

  /** A bump is the least version greater at its level: nothing is skipped. */
  lemma BumpIsLeast(v: Version, level: Level, w: Version)
    ensures Moved(v, Bump(v, level), level)
    ensures Moved(v, w, level) ==> w == Bump(v, level) || Less(Bump(v, level), w)
  {
  }

  function BumpAll(v: Version, levels: seq<Level>): Version {
    if levels == [] then v else Bump(BumpAll(v, levels[..|levels| - 1]), levels[|levels| - 1])
  }

  /** Over any sequence of bumps each version is greater than all before it. */
  lemma {:induction false} BumpsIncrease(v: Version, levels: seq<Level>, i: nat, j: nat)
    requires i < j <= |levels|
    ensures Less(BumpAll(v, levels[..i]), BumpAll(v, levels[..j]))
  {
    assert levels[..j][..j - 1] == levels[..j - 1];
    if i < j - 1 {
      BumpsIncrease(v, levels, i, j - 1);
    }
  }

  /* ---- the files ---- */

  /** A line of pyproject.toml: the version's, with what stands around its
      quoted value, or another.  Only the first version line counts. */
  datatype Line = VersionLine(before: string, value: string, after: string) | OtherLine(text: string)

  function FirstVersion(lines: seq<Line>): (i: nat)
    ensures i <= |lines| && (i < |lines| ==> lines[i].VersionLine?)
    ensures forall k | 0 <= k < i :: lines[k].OtherLine?
  {
    if lines == [] || lines[0].VersionLine? then 0 else 1 + FirstVersion(lines[1..])
  }

  function WithVersion(lines: seq<Line>, version: string): seq<Line> {
    var i := FirstVersion(lines);
    if i < |lines| then lines[i := lines[i].(value := version)] else lines
  }

  method FindVersion(lines: seq<Line>) returns (i: nat)
    ensures i == FirstVersion(lines)
  {
    i := 0;
    while i < |lines| && lines[i].OtherLine?
      invariant i <= |lines| && FirstVersion(lines) == i + FirstVersion(lines[i..])
    {
      assert lines[i..][1..] == lines[i + 1..];
      i := i + 1;
    }
  }

  /** pyproject.toml, and kazma.yaml where there is one. */
  class ProjectFiles {
    var pyproject: seq<Line>
    var yaml: Option<seq<Line>>

    /** `read_pyproject_version`; None where it raises. */
    method ReadVersion() returns (version: Option<string>)
      ensures version == var i := FirstVersion(pyproject); if i < |pyproject| then Some(Strip(pyproject[i].value)) else None
    {
      var i := FindVersion(pyproject);
      if i < |pyproject| {
        return Some(Strip(pyproject[i].value));
      }
      return None;
    }

    /** Without a version line in pyproject.toml it raises, and neither file is
        changed; a kazma.yaml without one is left as it is. */
    method WriteVersion(version: string) returns (ok: bool)
      modifies this
      ensures ok <==> FirstVersion(old(pyproject)) < |old(pyproject)|
      ensures pyproject == WithVersion(old(pyproject), version)
      ensures yaml == if ok && old(yaml).Some? then Some(WithVersion(old(yaml).value, version)) else old(yaml)
    {
      var i := FindVersion(pyproject);
      if i == |pyproject| {
        return false;
      }
      pyproject := pyproject[i := pyproject[i].(value := version)];
      if yaml.Some? {
        var k := FindVersion(yaml.value);
        if k < |yaml.value| {
          yaml := Some(yaml.value[k := yaml.value[k].(value := version)]);
        }
      }
      return true;
    }

    /** An operator's bump of the files: read, parse, bump, write.  Both then
        state one version, if kazma.yaml states any. */
    method BumpFiles(level: Level) returns (bumped: Option<Version>)
      modifies this
      ensures bumped == match Reads(old(pyproject)) case None => None case Some(v) => Some(Bump(v, level))
      ensures bumped.None? ==> pyproject == old(pyproject) && yaml == old(yaml)
      ensures bumped.Some? ==>
                && pyproject == WithVersion(old(pyproject), FormatPublic(bumped.value)) && Reads(pyproject) == bumped
                && Less(Reads(old(pyproject)).value, bumped.value)
                && yaml == (if old(yaml).Some? then Some(WithVersion(old(yaml).value, FormatPublic(bumped.value))) else None)
                && (yaml.Some? && FirstVersion(yaml.value) < |yaml.value| ==> Reads(yaml.value) == bumped)
    {
      hide FormatPublic, ParseBase, Strip, FirstVersion;
      var version := ReadVersion();
      if version.None? {
        return None;
      }
      var v := ParseBase(version.value);
      if v.None? {
        return None;
      }
      bumped := Some(Bump(v.value, level));
      ReadAfterWrite(pyproject, bumped.value);
      if yaml.Some? {
        FirstVersionKept(yaml.value, FormatPublic(bumped.value));
        if FirstVersion(yaml.value) < |yaml.value| {
          ReadAfterWrite(yaml.value, bumped.value);
        }
      }
      var ok := WriteVersion(FormatPublic(bumped.value));
    }
  }

  /** The version the files state, if it can be read and parsed. */
  function Reads(lines: seq<Line>): Option<Version> {
    var i := FirstVersion(lines);
    if i < |lines| then ParseBase(Strip(lines[i].value)) else None
  }

  lemma FirstVersionKept(lines: seq<Line>, version: string)
    ensures FirstVersion(WithVersion(lines, version)) == FirstVersion(lines) && |WithVersion(lines, version)| == |lines|
  {
    hide FirstVersion;
    var i, j := FirstVersion(lines), FirstVersion(WithVersion(lines, version));
    assert forall k | 0 <= k < |lines| :: WithVersion(lines, version)[k].VersionLine? == lines[k].VersionLine?;
  }

  /** Reading after writing gives the version written, and every other line is
      as it was. */
  lemma ReadAfterWrite(lines: seq<Line>, v: Version)
    requires FirstVersion(lines) < |lines|
    ensures var written := WithVersion(lines, FormatPublic(v));
            var i := FirstVersion(written);
            && i == FirstVersion(lines) && |written| == |lines|
            && Strip(written[i].value) == FormatPublic(v) && Reads(written) == Some(v)
            && written[i] == lines[i].(value := FormatPublic(v))
            && forall k | 0 <= k < |lines| && k != i :: written[k] == lines[k]
  {
    hide FormatPublic, ParseBase, Strip, FirstVersion;
    FirstVersionKept(lines, FormatPublic(v));
    ParseFormat(v, "");
  }
}
