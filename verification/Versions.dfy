/** Stable release versions as the agent reads and compares them. */
module Versions {
  import opened Basics
  import opened Text

  datatype Version = Version(major: nat, minor: nat, patch: nat)

  datatype VersionError = NotStable | OutOfRange

  /** The two widths of Go's int: 32 bits on the armv6 agent, 64 on the others. */
  type IntLimit = n: nat | n == 0x7FFF_FFFF || n == 0x7FFF_FFFF_FFFF_FFFF witness 0x7FFF_FFFF

  // The largest int of the agent's platform, whichever it is; Atoi refuses a numeral above it.
  const MAX_INT: IntLimit

  /** The three numerals of vMAJOR.MINOR.PATCH, as they stand in the text. */
  function StableParts(s: string): (r: Option<(string, string, string)>)
    ensures r.Some? ==> IsNumeral(r.value.0) && IsNumeral(r.value.1) && IsNumeral(r.value.2)
  {
    if s == "" || s[0] != 'v' then None
    else
      var parts := SplitN(s[1..], '.', 4);
      if |parts| == 3 && IsNumeral(parts[0]) && IsNumeral(parts[1]) && IsNumeral(parts[2])
      then Some((parts[0], parts[1], parts[2]))
      else None
  }

  function ParseStableVersion(s: string): Result<Version, VersionError> {
    match StableParts(s)
    case None => Err(NotStable)
    case Some((a, b, c)) =>
      if NumeralValue(a) > MAX_INT || NumeralValue(b) > MAX_INT || NumeralValue(c) > MAX_INT
      then Err(OutOfRange)
      else Ok(Version(NumeralValue(a), NumeralValue(b), NumeralValue(c)))
  }

  function CompareInt(a: int, b: int): int {
    if a < b then -1 else if a > b then 1 else 0
  }

  function Compare(v: Version, other: Version): int {
    if v.major != other.major then CompareInt(v.major, other.major)
    else if v.minor != other.minor then CompareInt(v.minor, other.minor)
    else CompareInt(v.patch, other.patch)
  }

  function IsNewerStableVersion(candidate: string, installed: string): Result<bool, VersionError> {
    match ParseStableVersion(candidate)
    case Err(e) => Err(e)
    case Ok(c) =>
      match ParseStableVersion(installed)
      case Err(e) => Err(e)
      case Ok(i) => Ok(Compare(c, i) > 0)
  }

  /** The comparison is a total order on versions: what the upgrade gate rests on. */
  lemma CompareIsTotalOrder(a: Version, b: Version, c: Version)
    ensures Compare(a, b) == -Compare(b, a)
    ensures Compare(a, b) == 0 <==> a == b
    ensures Compare(a, b) <= 0 && Compare(b, c) <= 0 ==> Compare(a, c) <= 0
    ensures Compare(a, b) < 0 && Compare(b, c) <= 0 ==> Compare(a, c) < 0
  {
  }

  /** The major number decides, then the minor, then the patch. */
  lemma CompareIsLexicographic(a: Version, b: Version)
    ensures Compare(a, b) > 0 <==>
            || a.major > b.major
            || (a.major == b.major && a.minor > b.minor)
            || (a.major == b.major && a.minor == b.minor && a.patch > b.patch)
  {
  }

  lemma NumeralLacks(s: string, c: char)
    requires IsNumeral(s) && !IsDigit(c)
    ensures c !in s
  {
  }

  lemma SplitThree(a: string, b: string, c: string)
    requires '.' !in a && '.' !in b && '.' !in c
    ensures SplitN(a + "." + b + "." + c, '.', 4) == [a, b, c]
  {
    hide IndexOf;
    assert a + "." + b + "." + c == a + ['.'] + (b + ['.'] + c);
    SplitNCons(a, '.', b + ['.'] + c, 4);
    SplitNCons(b, '.', c, 3);
    IndexOfNone(c, '.');
  }

  function VersionText(a: string, b: string, c: string): string {
    "v" + (a + "." + b + "." + c)
  }

  lemma StablePartsOf(a: string, b: string, c: string)
    requires IsNumeral(a) && IsNumeral(b) && IsNumeral(c)
    ensures StableParts(VersionText(a, b, c)) == Some((a, b, c))
  {
    NumeralLacks(a, '.');
    NumeralLacks(b, '.');
    NumeralLacks(c, '.');
    SplitThree(a, b, c);
    hide SplitN, IsNumeral;
    assert VersionText(a, b, c)[1..] == a + "." + b + "." + c;
  }

  /** Any three numerals after a v parse to their numbers, unless one is too large. */
  lemma NumeralsParse(a: string, b: string, c: string)
    requires IsNumeral(a) && IsNumeral(b) && IsNumeral(c)
    ensures ParseStableVersion(VersionText(a, b, c)) ==
            if NumeralValue(a) > MAX_INT || NumeralValue(b) > MAX_INT || NumeralValue(c) > MAX_INT then Err(OutOfRange)
            else Ok(Version(NumeralValue(a), NumeralValue(b), NumeralValue(c)))
  {
    hide NumeralValue, IsNumeral, VersionText, StableParts;
    StablePartsOf(a, b, c);
  }

  /** And nothing else is a stable version. */
  lemma OnlyNumeralsParse(s: string) returns (a: string, b: string, c: string)
    requires ParseStableVersion(s) != Err(NotStable)
    ensures IsNumeral(a) && IsNumeral(b) && IsNumeral(c) && s == VersionText(a, b, c)
  {
    hide SplitN, NumeralValue, IsNumeral;
    a, b, c := StableParts(s).value.0, StableParts(s).value.1, StableParts(s).value.2;
    JoinThree(s[1..]);
    assert s == [s[0]] + s[1..];
  }

  /** What is split into three parts is their join. */
  lemma JoinThree(s: string)
    requires |SplitN(s, '.', 4)| == 3
    ensures var parts := SplitN(s, '.', 4); s == parts[0] + "." + parts[1] + "." + parts[2]
  {
    hide SplitN;
    SplitNJoins(s, '.', 4);
    ThreeJoined(SplitN(s, '.', 4));
  }

  lemma ThreeJoined(parts: seq<string>)
    requires |parts| == 3
    ensures Join(parts, '.') == parts[0] + "." + parts[1] + "." + parts[2]
  {
    assert Join(parts[1..][1..], '.') == parts[2];
    assert Join(parts[1..], '.') == parts[1] + ['.'] + parts[2];
    assert parts[0] + ['.'] + (parts[1] + ['.'] + parts[2]) == parts[0] + "." + parts[1] + "." + parts[2];
  }
}
