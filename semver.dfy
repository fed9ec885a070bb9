/**
 * Semantic-version comparison as Go's golang.org/x/mod/semver package does it:
 * a leading `v`, the shorthands vMAJOR and vMAJOR.MINOR, Semantic Versioning 2.0.0
 * precedence (section 11) for prereleases, build metadata accepted but ignored.
 * A string that does not parse compares below every valid version and equal to
 * every other invalid string.
 */
module Semver {
  import opened Wrappers

  /** A parsed version. Numbers stay decimal strings, as in the Go package. */
  datatype Version = Version(major: string, minor: string, patch: string, prerelease: seq<string>)

  predicate IsDigit(c: char) { '0' <= c <= '9' }

  /** [0-9A-Za-z-], the characters of a prerelease or build identifier. */
  predicate IsIdentChar(c: char)
  {
    IsDigit(c) || 'A' <= c <= 'Z' || 'a' <= c <= 'z' || c == '-'
  }

  predicate IsNum(s: string)
  {
    forall i :: 0 <= i < |s| ==> IsDigit(s[i])
  }

  /** A numeric identifier with a leading zero, which the grammar forbids. */
  predicate IsBadNum(s: string)
  {
    IsNum(s) && |s| > 1 && s[0] == '0'
  }

  /** A decimal numeral without leading zeros. */
  predicate IsNumeral(s: string)
  {
    s != [] && IsNum(s) && !IsBadNum(s)
  }

  /** The length of the longest run of digits at the start of `s`. */
  function LeadingDigits(s: string): (k: nat)
    ensures k <= |s|
    ensures forall i :: 0 <= i < k ==> IsDigit(s[i])
    ensures k < |s| ==> !IsDigit(s[k])
  {
    if s == [] || !IsDigit(s[0]) then 0 else 1 + LeadingDigits(s[1..])
  }

  /** parseInt: a numeral without leading zeros, and what follows it. */
  function ParseInt(s: string): (r: Option<(string, string)>)
    ensures r.Some? ==> r.value.0 + r.value.1 == s && IsNumeral(r.value.0)
    ensures r.Some? ==> r.value.1 == [] || !IsDigit(r.value.1[0])
    ensures r.None? ==> s == [] || !IsDigit(s[0]) || (s[0] == '0' && 1 < |s| && IsDigit(s[1]))
  {
    var k := LeadingDigits(s);
    if k == 0 || (s[0] == '0' && k != 1) then None
    else
      assert s[..k] + s[k..] == s;
      Some((s[..k], s[k..]))
  }

  /** The pieces of `s` between '.' separators. */
  function Split(s: string): (parts: seq<string>)
    ensures |parts| >= 1
    ensures forall k, i :: 0 <= k < |parts| && 0 <= i < |parts[k]| ==> parts[k][i] != '.' && parts[k][i] in s
  {
    if s == [] then [[]]
    else
      var rest := Split(s[1..]);
      if s[0] == '.' then [[]] + rest
      else [[s[0]] + rest[0]] + rest[1..]
  }

  /** Only identifier characters and dots. */
  predicate IdentCharsOrDots(s: string)
  {
    forall i :: 0 <= i < |s| ==> IsIdentChar(s[i]) || s[i] == '.'
  }

  /** The index of the first '+' in `s`, or |s|. */
  function IndexOfPlus(s: string): (i: nat)
    ensures i <= |s|
    ensures forall j :: 0 <= j < i ==> s[j] != '+'
    ensures i < |s| ==> s[i] == '+'
  {
    if s == [] || s[0] == '+' then 0 else 1 + IndexOfPlus(s[1..])
  }

  predicate ValidPrereleaseIdents(ids: seq<string>)
  {
    forall k :: 0 <= k < |ids| ==> ids[k] != [] && !IsBadNum(ids[k])
  }

  /** parsePrerelease: '-' then dot-separated identifiers up to a '+' or the end. */
  function ParsePrerelease(s: string): (r: Option<(seq<string>, string)>)
    ensures r.Some? ==> r.value.0 != [] && ValidPrereleaseIdents(r.value.0)
    ensures r.Some? ==> r.value.1 == [] || r.value.1[0] == '+'
  {
    if s == [] || s[0] != '-' then None
    else
      var i := 1 + IndexOfPlus(s[1..]);
      var body := s[1..i];
      var ids := Split(body);
      if IdentCharsOrDots(body) && ValidPrereleaseIdents(ids) then Some((ids, s[i..])) else None
  }

  /** parseBuild: '+' then dot-separated non-empty identifiers to the end of the string. */
  predicate ValidBuild(s: string)
  {
    s != [] && s[0] == '+' && IdentCharsOrDots(s[1..])
    && forall p :: p in Split(s[1..]) ==> p != []
  }

  /** What every parsed version satisfies: three numerals and well-formed prerelease identifiers. */
  predicate WellFormed(ver: Version)
  {
    IsNumeral(ver.major) && IsNumeral(ver.minor) && IsNumeral(ver.patch) && ValidPrereleaseIdents(ver.prerelease)
  }

  /** parse: the whole string must be consumed. */
  function Parse(v: string): (r: Option<Version>)
    ensures r.Some? ==> v != [] && v[0] == 'v' && WellFormed(r.value)
    ensures r.Some? ==> ParseInt(v[1..]).Some? && r.value.major == ParseInt(v[1..]).value.0
  {
    if v == [] || v[0] != 'v' then None else ParseNumbers(v[1..])
  }

  function ParseNumbers(t: string): (r: Option<Version>)
    ensures r.Some? ==> WellFormed(r.value)
  {
    match ParseInt(t)
    case None => None
    case Some((major, rest)) => ParseAfterMajor(major, rest)
  }

  /** Everything after the major number; the shorthands fill in "0". */
  function ParseAfterMajor(major: string, r1: string): (r: Option<Version>)
    ensures r.Some? ==> r.value.major == major && IsNumeral(r.value.minor) && IsNumeral(r.value.patch)
    ensures r.Some? ==> ValidPrereleaseIdents(r.value.prerelease)
  {
    if r1 == [] then Some(Version(major, "0", "0", []))
    else if r1[0] != '.' then None
    else
      match ParseInt(r1[1..])
      case None => None
      case Some((minor, r2)) =>
        if r2 == [] then Some(Version(major, minor, "0", []))
        else if r2[0] != '.' then None
        else
          match ParseInt(r2[1..])
          case None => None
          case Some((patch, r3)) => ParseSuffix(major, minor, patch, r3)
  }

  function ParseSuffix(major: string, minor: string, patch: string, r3: string): (r: Option<Version>)
    ensures r.Some? ==> r.value == Version(major, minor, patch, r.value.prerelease)
    ensures r.Some? ==> ValidPrereleaseIdents(r.value.prerelease)
  {
    var pre := if r3 != [] && r3[0] == '-' then ParsePrerelease(r3) else Some(([], r3));
    match pre
    case None => None
    case Some((ids, r4)) =>
      if r4 == [] || ValidBuild(r4) then Some(Version(major, minor, patch, ids)) else None
  }

  predicate IsValid(v: string) { Parse(v).Some? }

  /** Byte-wise string order, Go's `<` on strings. */
  predicate LexLess(a: string, b: string)
  {
    if a == [] then b != []
    else if b == [] then false
    else if a[0] != b[0] then a[0] < b[0]
    else LexLess(a[1..], b[1..])
  }

  /** compareInt: the shorter numeral is smaller, equal lengths compare byte-wise. */
  function CompareInt(x: string, y: string): int
  {
    if x == y then 0
    else if |x| < |y| then -1
    else if |x| > |y| then 1
    else if LexLess(x, y) then -1
    else 1
  }

  /** One prerelease identifier: numeric ones first, numerically; the rest byte-wise. */
  function CompareIdent(x: string, y: string): int
  {
    if x == y then 0
    else if IsNum(x) != IsNum(y) then (if IsNum(x) then -1 else 1)
    else if IsNum(x) then CompareInt(x, y)
    else if LexLess(x, y) then -1
    else 1
  }

  /** Identifier by identifier; a list that runs out first is smaller. */
  function CompareIdents(x: seq<string>, y: seq<string>): int
  {
    if x == [] && y == [] then 0
    else if x == [] then -1
    else if y == [] then 1
    else
      var c := CompareIdent(x[0], y[0]);
      if c != 0 then c else CompareIdents(x[1..], y[1..])
  }

  /** comparePrerelease: a version without prerelease is above every prerelease. */
  function ComparePrerelease(x: seq<string>, y: seq<string>): int
  {
    if x == y then 0
    else if x == [] then 1
    else if y == [] then -1
    else CompareIdents(x, y)
  }

  function CompareVersions(a: Version, b: Version): int
  {
    var c1 := CompareInt(a.major, b.major);
    if c1 != 0 then c1
    else
      var c2 := CompareInt(a.minor, b.minor);
      if c2 != 0 then c2
      else
        var c3 := CompareInt(a.patch, b.patch);
        if c3 != 0 then c3 else ComparePrerelease(a.prerelease, b.prerelease)
  }

  /**
   * semver.Compare: -1, 0 or +1; zero exactly when both strings parse to the
   * same version (build metadata ignored) or neither parses.
   */
  function Compare(v: string, w: string): (c: int)
    ensures c in {-1, 0, 1}
    ensures c == 0 <==> Parse(v) == Parse(w)
  {
    match (Parse(v), Parse(w))
    case (None, None) => 0
    case (None, Some(_)) => -1
    case (Some(_), None) => 1
    case (Some(a), Some(b)) => CompareVersionsProps(a, b); CompareVersions(a, b)
  }

  // ---------------------------------------------------------------------
  // What parses to what.

  lemma {:induction false} LeadingDigitsOf(a: string, rest: string)
    requires IsNum(a) && (rest == [] || !IsDigit(rest[0]))
    ensures LeadingDigits(a + rest) == |a|
  {
    if a == [] {
      assert a + rest == rest;
    } else {
      assert (a + rest)[1..] == a[1..] + rest;
      LeadingDigitsOf(a[1..], rest);
    }
  }

  /** A numeral followed by a non-digit is read as exactly that numeral. */
  lemma ParseIntOf(a: string, rest: string)
    requires IsNumeral(a) && (rest == [] || !IsDigit(rest[0]))
    ensures ParseInt(a + rest) == Some((a, rest))
  {
    LeadingDigitsOf(a, rest);
    assert (a + rest)[..|a|] == a && (a + rest)[|a|..] == rest;
  }

  /** A string of "v", a numeral and a rest not starting with a digit parses through that major number. */
  lemma ParseAfterV(v: string, major: string, rest: string)
    requires v != [] && v[0] == 'v' && v[1..] == major + rest
    requires IsNumeral(major) && (rest == [] || !IsDigit(rest[0]))
    ensures Parse(v) == ParseAfterMajor(major, rest)
  {
    ParseIntOf(major, rest);
  }

  lemma ParseWithMajor(major: string, rest: string)
    requires IsNumeral(major) && (rest == [] || !IsDigit(rest[0]))
    ensures Parse("v" + major + rest) == ParseAfterMajor(major, rest)
  {
    var v := "v" + major + rest;
    assert v[0] == 'v' && v[1..] == major + rest;
    ParseAfterV(v, major, rest);
  }

  /** After the "v", a valid parse starts with the major number. */
  lemma NumbersOf(t: string) returns (major: string, rest: string)
    requires ParseNumbers(t).Some?
    ensures t == major + rest && IsNumeral(major) && (rest == [] || !IsDigit(rest[0]))
    ensures ParseNumbers(t) == ParseAfterMajor(major, rest)
  {
    major, rest := ParseInt(t).value.0, ParseInt(t).value.1;
  }

  /** A valid version string splits into "v", the major number, and what the rest of the parse reads. */
  lemma ParseMajorOf(v: string) returns (major: string, rest: string)
    requires Parse(v).Some?
    ensures v != [] && v[0] == 'v' && v[1..] == major + rest && IsNumeral(major) && (rest == [] || !IsDigit(rest[0]))
    ensures Parse(v) == ParseAfterMajor(major, rest)
  {
    major, rest := NumbersOf(v[1..]);
  }

  /** ".MINOR.PATCH" after the major number gives that release. */
  lemma AfterMajorRelease(major: string, minor: string, patch: string)
    requires IsNumeral(minor) && IsNumeral(patch)
    ensures ParseAfterMajor(major, "." + minor + "." + patch) == Some(Version(major, minor, patch, []))
  {
    var r1 := "." + minor + "." + patch;
    assert r1[0] == '.' && r1[1..] == minor + ("." + patch);
    ParseIntOf(minor, "." + patch);
    var r2 := "." + patch;
    assert r2[0] == '.' && r2[1..] == patch + "" && patch + "" == patch;
    ParseIntOf(patch, "");
  }

  /** vMAJOR.MINOR.PATCH with three numerals parses to those numerals and no prerelease. */
  lemma ParseReleaseOf(major: string, minor: string, patch: string)
    requires IsNumeral(major) && IsNumeral(minor) && IsNumeral(patch)
    ensures Parse("v" + major + "." + minor + "." + patch) == Some(Version(major, minor, patch, []))
  {
    var rest := "." + minor + "." + patch;
    assert "v" + major + "." + minor + "." + patch == "v" + major + rest;
    ParseWithMajor(major, rest);
    AfterMajorRelease(major, minor, patch);
  }

  /** Parsing after a different major number gives the same version with that major number. */
  lemma ParseAfterMajorRelabel(major: string, other: string, r1: string)
    ensures ParseAfterMajor(other, r1) ==
      if ParseAfterMajor(major, r1).Some? then Some(ParseAfterMajor(major, r1).value.(major := other)) else None
  {
  }

  // ---------------------------------------------------------------------
  // Byte-wise order is a strict total order.

  lemma {:induction false} LexLessIrreflexive(a: string)
    ensures !LexLess(a, a)
  {
    if a != [] { LexLessIrreflexive(a[1..]); }
  }

  lemma {:induction false} LexLessAsymmetric(a: string, b: string)
    ensures !(LexLess(a, b) && LexLess(b, a))
  {
    if a != [] && b != [] && a[0] == b[0] { LexLessAsymmetric(a[1..], b[1..]); }
  }

  lemma {:induction false} LexLessTotal(a: string, b: string)
    requires a != b
    ensures LexLess(a, b) || LexLess(b, a)
  {
    if a != [] && b != [] && a[0] == b[0] {
      assert a == [a[0]] + a[1..] && b == [b[0]] + b[1..];
      LexLessTotal(a[1..], b[1..]);
    }
  }

  lemma {:induction false} LexLessTransitive(a: string, b: string, c: string)
    requires LexLess(a, b) && LexLess(b, c)
    ensures LexLess(a, c)
  {
    if a != [] && b != [] && c != [] && a[0] == b[0] && b[0] == c[0] {
      LexLessTransitive(a[1..], b[1..], c[1..]);
    }
  }

  // ---------------------------------------------------------------------
  // Each comparison is antisymmetric, zero exactly on equal arguments, and transitive.

  lemma CompareIntProps(x: string, y: string)
    ensures CompareInt(x, y) in {-1, 0, 1}
    ensures CompareInt(x, y) == 0 <==> x == y
    ensures CompareInt(x, y) == -CompareInt(y, x)
  {
    if x != y && |x| == |y| {
      LexLessTotal(x, y);
      LexLessAsymmetric(x, y);
    }
  }

  lemma CompareIntTransitive(x: string, y: string, z: string)
    requires CompareInt(x, y) < 0 && CompareInt(y, z) < 0
    ensures CompareInt(x, z) < 0
  {
    CompareIntProps(x, y);
    CompareIntProps(y, z);
    if |x| == |y| == |z| {
      LexLessTransitive(x, y, z);
      LexLessIrreflexive(x);
    }
  }

  lemma CompareIdentProps(x: string, y: string)
    ensures CompareIdent(x, y) in {-1, 0, 1}
    ensures CompareIdent(x, y) == 0 <==> x == y
    ensures CompareIdent(x, y) == -CompareIdent(y, x)
  {
    CompareIntProps(x, y);
    if x != y {
      LexLessTotal(x, y);
      LexLessAsymmetric(x, y);
    }
  }

  lemma CompareIdentTransitive(x: string, y: string, z: string)
    requires CompareIdent(x, y) < 0 && CompareIdent(y, z) < 0
    ensures CompareIdent(x, z) < 0
  {
    CompareIdentProps(x, y);
    CompareIdentProps(y, z);
    CompareIdentProps(x, z);
    if IsNum(x) == IsNum(y) == IsNum(z) {
      if IsNum(x) {
        CompareIntTransitive(x, y, z);
      } else {
        LexLessTransitive(x, y, z);
        LexLessIrreflexive(x);
      }
    }
  }

  lemma {:induction false} CompareIdentsProps(x: seq<string>, y: seq<string>)
    ensures CompareIdents(x, y) in {-1, 0, 1}
    ensures CompareIdents(x, y) == 0 <==> x == y
    ensures CompareIdents(x, y) == -CompareIdents(y, x)
  {
    if x != [] && y != [] {
      CompareIdentProps(x[0], y[0]);
      CompareIdentsProps(x[1..], y[1..]);
      assert x == [x[0]] + x[1..] && y == [y[0]] + y[1..];
    }
  }

  lemma {:induction false} CompareIdentsTransitive(x: seq<string>, y: seq<string>, z: seq<string>)
    requires CompareIdents(x, y) < 0 && CompareIdents(y, z) < 0
    ensures CompareIdents(x, z) < 0
  {
    if x != [] && y != [] && z != [] {
      CompareIdentProps(x[0], y[0]);
      CompareIdentProps(y[0], z[0]);
      CompareIdentProps(x[0], z[0]);
      if CompareIdent(x[0], y[0]) == 0 && CompareIdent(y[0], z[0]) == 0 {
        CompareIdentsTransitive(x[1..], y[1..], z[1..]);
      } else if CompareIdent(x[0], y[0]) < 0 && CompareIdent(y[0], z[0]) < 0 {
        CompareIdentTransitive(x[0], y[0], z[0]);
      }
    }
  }

  lemma ComparePrereleaseProps(x: seq<string>, y: seq<string>)
    ensures ComparePrerelease(x, y) in {-1, 0, 1}
    ensures ComparePrerelease(x, y) == 0 <==> x == y
    ensures ComparePrerelease(x, y) == -ComparePrerelease(y, x)
  {
    CompareIdentsProps(x, y);
  }

  lemma ComparePrereleaseTransitive(x: seq<string>, y: seq<string>, z: seq<string>)
    requires ComparePrerelease(x, y) < 0 && ComparePrerelease(y, z) < 0
    ensures ComparePrerelease(x, z) < 0
  {
    ComparePrereleaseProps(x, y);
    ComparePrereleaseProps(y, z);
    ComparePrereleaseProps(x, z);
    if x != [] && y != [] && z != [] {
      CompareIdentsTransitive(x, y, z);
    }
  }

  lemma CompareVersionsProps(a: Version, b: Version)
    ensures CompareVersions(a, b) in {-1, 0, 1}
    ensures CompareVersions(a, b) == 0 <==> a == b
    ensures CompareVersions(a, b) == -CompareVersions(b, a)
  {
    CompareIntProps(a.major, b.major);
    CompareIntProps(a.minor, b.minor);
    CompareIntProps(a.patch, b.patch);
    ComparePrereleaseProps(a.prerelease, b.prerelease);
  }

  lemma CompareVersionsTransitive(a: Version, b: Version, c: Version)
    requires CompareVersions(a, b) < 0 && CompareVersions(b, c) < 0
    ensures CompareVersions(a, c) < 0
  {
    CompareVersionsProps(a, b);
    CompareVersionsProps(b, c);
    CompareVersionsProps(a, c);
    CompareIntProps(a.major, c.major);
    CompareIntProps(a.minor, c.minor);
    CompareIntProps(a.patch, c.patch);
    if CompareInt(a.major, b.major) != 0 || CompareInt(b.major, c.major) != 0 {
      if CompareInt(a.major, b.major) < 0 && CompareInt(b.major, c.major) < 0 {
        CompareIntTransitive(a.major, b.major, c.major);
      }
    } else if CompareInt(a.minor, b.minor) != 0 || CompareInt(b.minor, c.minor) != 0 {
      if CompareInt(a.minor, b.minor) < 0 && CompareInt(b.minor, c.minor) < 0 {
        CompareIntTransitive(a.minor, b.minor, c.minor);
      }
    } else if CompareInt(a.patch, b.patch) != 0 || CompareInt(b.patch, c.patch) != 0 {
      if CompareInt(a.patch, b.patch) < 0 && CompareInt(b.patch, c.patch) < 0 {
        CompareIntTransitive(a.patch, b.patch, c.patch);
      }
    } else {
      ComparePrereleaseTransitive(a.prerelease, b.prerelease, c.prerelease);
    }
  }

  // ---------------------------------------------------------------------
  // semver.Compare is a total preorder: with the contract of Compare (every
  // string is comparable, and equal to itself), it is antisymmetric in sign
  // and transitive.

  lemma CompareAntisymmetric(v: string, w: string)
    ensures Compare(v, w) == -Compare(w, v)
  {
    if Parse(v).Some? && Parse(w).Some? { CompareVersionsProps(Parse(v).value, Parse(w).value); }
  }

  lemma CompareTransitive(u: string, v: string, w: string)
    requires Compare(u, v) <= 0 && Compare(v, w) <= 0
    ensures Compare(u, w) <= 0
  {
    if Parse(u).Some? && Parse(v).Some? && Parse(w).Some? && Compare(u, v) < 0 && Compare(v, w) < 0 {
      CompareVersionsTransitive(Parse(u).value, Parse(v).value, Parse(w).value);
    }
  }

  /** A prerelease of a version sorts below the version itself. */
  lemma PrereleaseBelowRelease(v: string, w: string)
    requires Parse(v).Some? && Parse(w).Some?
    requires Parse(v).value.(prerelease := []) == Parse(w).value
    requires Parse(v).value.prerelease != []
    ensures Compare(v, w) < 0
  {
  }
}
