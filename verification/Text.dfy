/** The string library calls the Go and Python sources rely on, over sequences of characters:
    trimming, splitting, lines, decimal numerals and the order used by the sort calls. */
module Text {
  import opened Basics

  // ---------- White space ----------

  /** The characters trimmed by strings.TrimSpace and split on by strings.Fields. */
  predicate IsSpace(c: char) {
    || '\t' <= c <= '\r' || c == ' ' || c == '\U{85}' || c == '\U{A0}' || c == '\U{1680}'
    || '\U{2000}' <= c <= '\U{200A}' || c == '\U{2028}' || c == '\U{2029}' || c == '\U{202F}'
    || c == '\U{205F}' || c == '\U{3000}'
  }

  predicate NoSpaces(s: string) {
    forall i | 0 <= i < |s| :: !IsSpace(s[i])
  }

  /** Non-empty and free of white space. */
  predicate IsWord(s: string) {
    s != "" && NoSpaces(s)
  }

  function TrimLeft(s: string): string {
    if s != "" && IsSpace(s[0]) then TrimLeft(s[1..]) else s
  }

  function TrimRight(s: string): string {
    if s != "" && IsSpace(s[|s| - 1]) then TrimRight(s[..|s| - 1]) else s
  }

  function TrimSpace(s: string): string {
    TrimRight(TrimLeft(s))
  }

  /** The first value that is not blank, trimmed. */
  function FirstNonEmpty(values: seq<string>): string {
    if values == [] then ""
    else if TrimSpace(values[0]) != "" then TrimSpace(values[0])
    else FirstNonEmpty(values[1..])
  }

  lemma TrimKeepsTight(s: string)
    requires s != "" ==> !IsSpace(s[0]) && !IsSpace(s[|s| - 1])
    ensures TrimSpace(s) == s
  {
  }

  lemma NothingToTrim()
    ensures TrimSpace("") == ""
  {
    TrimKeepsTight("");
  }

  ghost predicate AllSpaces(s: string) {
    forall i | 0 <= i < |s| :: IsSpace(s[i])
  }

  lemma {:induction false} TrimLeftMeans(s: string) returns (a: string)
    ensures AllSpaces(a) && s == a + TrimLeft(s)
    ensures TrimLeft(s) != "" ==> !IsSpace(TrimLeft(s)[0])
  {
    if s != "" && IsSpace(s[0]) {
      var rest := TrimLeftMeans(s[1..]);
      a := [s[0]] + rest;
      assert s == [s[0]] + s[1..];
    } else {
      a := "";
    }
  }

  lemma {:induction false} TrimRightMeans(s: string) returns (b: string)
    ensures AllSpaces(b) && s == TrimRight(s) + b
    ensures TrimRight(s) != "" ==> !IsSpace(TrimRight(s)[|TrimRight(s)| - 1])
  {
    if s != "" && IsSpace(s[|s| - 1]) {
      var rest := TrimRightMeans(s[..|s| - 1]);
      b := rest + [s[|s| - 1]];
      assert s == s[..|s| - 1] + [s[|s| - 1]];
    } else {
      b := "";
    }
  }

  lemma TrimmedWithin(s: string, a: string, rest: string, t: string, b: string)
    requires s == a + rest && rest == t + b
    ensures s == a + t + b && (t != "" ==> rest[0] == t[0])
  {
  }

  /** Trimming takes white space, all of it, off both ends and nothing else. */
  lemma TrimSpaceMeans(s: string) returns (a: string, b: string)
    ensures AllSpaces(a) && AllSpaces(b) && s == a + TrimSpace(s) + b
    ensures TrimSpace(s) != "" ==> !IsSpace(TrimSpace(s)[0]) && !IsSpace(TrimSpace(s)[|TrimSpace(s)| - 1])
  {
    hide AllSpaces, IsSpace, TrimLeft, TrimRight;
    a := TrimLeftMeans(s);
    b := TrimRightMeans(TrimLeft(s));
    var t := TrimSpace(s);
    TrimmedWithin(s, a, TrimLeft(s), t, b);
  }

  lemma {:induction false} TrimLeftLacks(s: string, c: char)
    requires c !in s
    ensures c !in TrimLeft(s)
  {
    if s != "" && IsSpace(s[0]) {
      TrimLeftLacks(s[1..], c);
    }
  }

  lemma {:induction false} TrimRightLacks(s: string, c: char)
    requires c !in s
    ensures c !in TrimRight(s)
  {
    if s != "" && IsSpace(s[|s| - 1]) {
      TrimRightLacks(s[..|s| - 1], c);
    }
  }

  lemma {:induction false} FirstNonEmptyLacks(values: seq<string>, c: char)
    requires forall i | 0 <= i < |values| :: c !in values[i]
    ensures c !in FirstNonEmpty(values)
  {
    if values != [] {
      TrimLeftLacks(values[0], c);
      TrimRightLacks(TrimLeft(values[0]), c);
      FirstNonEmptyLacks(values[1..], c);
    }
  }

  predicate Contains(s: string, part: string) {
    exists i | 0 <= i <= |s| :: part <= s[i..]
  }

  /** Some text before and some after make it up. */
  lemma ContainsMeans(s: string, part: string)
    ensures Contains(s, part) <==> exists a: string, b: string :: s == a + part + b
  {
    if i :| 0 <= i <= |s| && part <= s[i..] {
      assert s == s[..i] + part + s[i..][|part|..];
    }
    if a: string, b: string :| s == a + part + b {
      assert s[|a|..] == part + b;
      assert part <= s[|a|..];
    }
  }

  // ---------- Splitting ----------

  /** Where c first occurs in s, or |s| when it does not. */
  function IndexOf(s: string, c: char): (i: nat)
    ensures i <= |s|
    ensures i < |s| ==> s[i] == c
    ensures c !in s[..i]
  {
    if s == "" || s[0] == c then 0 else 1 + IndexOf(s[1..], c)
  }

  lemma {:induction false} IndexOfFirst(a: string, c: char, b: string)
    requires c !in a
    ensures IndexOf(a + [c] + b, c) == |a|
  {
    if a == "" {
      assert (a + [c] + b)[0] == c;
    } else {
      assert (a + [c] + b)[1..] == a[1..] + [c] + b;
      IndexOfFirst(a[1..], c, b);
    }
  }

  lemma {:induction false} IndexOfNone(s: string, c: char)
    requires c !in s
    ensures IndexOf(s, c) == |s|
  {
    if s != "" {
      IndexOfNone(s[1..], c);
    }
  }

  /** strings.SplitN for a one-character separator. */
  function SplitN(s: string, sep: char, n: nat): (parts: seq<string>)
    requires n >= 1
    ensures 1 <= |parts| <= n
    decreases n
  {
    var i := IndexOf(s, sep);
    if n == 1 || i == |s| then [s] else [s[..i]] + SplitN(s[i + 1..], sep, n - 1)
  }

  lemma SplitNCons(a: string, sep: char, b: string, n: nat)
    requires n >= 2 && sep !in a
    ensures SplitN(a + [sep] + b, sep, n) == [a] + SplitN(b, sep, n - 1)
  {
    IndexOfFirst(a, sep, b);
    assert (a + [sep] + b)[..|a|] == a;
    assert (a + [sep] + b)[|a| + 1..] == b;
  }

  function Join(parts: seq<string>, sep: char): string
    requires parts != []
  {
    if |parts| == 1 then parts[0] else parts[0] + [sep] + Join(parts[1..], sep)
  }

  /** Splitting loses nothing. */
  lemma {:induction false} SplitNJoins(s: string, sep: char, n: nat)
    requires n >= 1
    ensures Join(SplitN(s, sep, n), sep) == s
    decreases n
  {
    hide IndexOf;
    var i := IndexOf(s, sep);
    if n > 1 && i < |s| {
      var rest := SplitN(s[i + 1..], sep, n - 1);
      SplitNJoins(s[i + 1..], sep, n - 1);
      assert SplitN(s, sep, n) == [s[..i]] + rest;
      assert ([s[..i]] + rest)[1..] == rest;
      assert s == s[..i] + [sep] + s[i + 1..];
    }
  }

  /** The longest prefix without white space. */
  function Word(s: string): (w: string)
    ensures |w| <= |s| && w == s[..|w|]
    ensures s != "" && !IsSpace(s[0]) ==> w != ""
  {
    if s == "" || IsSpace(s[0]) then "" else [s[0]] + Word(s[1..])
  }

  lemma {:induction false} TrimLeftLength(s: string)
    ensures |TrimLeft(s)| <= |s|
    ensures TrimLeft(s) != "" ==> !IsSpace(TrimLeft(s)[0])
  {
    if s != "" && IsSpace(s[0]) {
      TrimLeftLength(s[1..]);
    }
  }

  /** strings.Fields: the maximal runs of non-space characters. */
  function Fields(s: string): seq<string>
    decreases |s|
  {
    TrimLeftLength(s);
    var t := TrimLeft(s);
    if t == "" then [] else [Word(t)] + Fields(t[|Word(t)|..])
  }

  lemma {:induction false} WordOf(w: string, rest: string)
    requires NoSpaces(w)
    requires rest == "" || IsSpace(rest[0])
    ensures Word(w + rest) == w
  {
    if w != "" {
      assert (w + rest)[1..] == w[1..] + rest;
      WordOf(w[1..], rest);
    }
  }

  lemma FieldsCons(w: string, rest: string)
    requires IsWord(w)
    requires rest == "" || IsSpace(rest[0])
    ensures Fields(w + rest) == [w] + Fields(rest)
  {
    WordOf(w, rest);
    assert (w + rest)[|w|..] == rest;
  }

  lemma FieldsSkip(s: string)
    requires s != "" && IsSpace(s[0])
    ensures Fields(s) == Fields(s[1..])
  {
  }

  // ---------- Lines ----------

  /** bufio.Reader.ReadString up to a newline: the line without it and what is left to read. */
  function ReadLine(s: string): (r: Option<(string, string)>)
    ensures r.Some? ==> '\n' !in r.value.0 && s == r.value.0 + "\n" + r.value.1
    ensures r.None? <==> '\n' !in s
  {
    var i := IndexOf(s, '\n');
    if i == |s| then None
    else
      assert s == s[..i] + "\n" + s[i + 1..];
      Some((s[..i], s[i + 1..]))
  }

  /** Every line followed by a newline. */
  function Unlines(lines: seq<string>): string {
    if lines == [] then "" else lines[0] + "\n" + Unlines(lines[1..])
  }

  lemma ReadLineFirst(line: string, rest: string)
    requires '\n' !in line
    ensures ReadLine(line + "\n" + rest) == Some((line, rest))
  {
    IndexOfFirst(line, '\n', rest);
    assert (line + "\n" + rest)[..|line|] == line;
    assert (line + "\n" + rest)[|line| + 1..] == rest;
  }

  lemma {:induction false} UnlinesAppend(a: seq<string>, b: seq<string>)
    ensures Unlines(a + b) == Unlines(a) + Unlines(b)
  {
    if a == [] {
      assert a + b == b;
    } else {
      assert (a + b)[1..] == a[1..] + b;
      UnlinesAppend(a[1..], b);
    }
  }

  // ---------- Case ----------

  function LowerChar(c: char): char {
    if 'A' <= c <= 'Z' then ((c as int) + 32) as char else c
  }

  function UpperChar(c: char): char {
    if 'a' <= c <= 'z' then ((c as int) - 32) as char else c
  }

  function Lower(s: string): string {
    seq(|s|, i requires 0 <= i < |s| => LowerChar(s[i]))
  }

  function Upper(s: string): string {
    seq(|s|, i requires 0 <= i < |s| => UpperChar(s[i]))
  }

  /** Case is all that Upper and Lower change. */
  lemma CaseLaws(s: string)
    ensures Upper(Lower(s)) == Upper(s) && Lower(Upper(s)) == Lower(s) && |Upper(s)| == |Lower(s)| == |s|
    ensures forall i | 0 <= i < |s| && !('a' <= s[i] <= 'z') && !('A' <= s[i] <= 'Z') ::
              Upper(s)[i] == s[i] == Lower(s)[i]
    ensures forall i | 0 <= i < |s| :: !('a' <= Upper(s)[i] <= 'z') && !('A' <= Lower(s)[i] <= 'Z')
    ensures forall i | 0 <= i < |s| && ('a' <= s[i] <= 'z' || 'A' <= s[i] <= 'Z') ::
              && Lower(s)[i] as int == Upper(s)[i] as int + 32
              && (s[i] == Lower(s)[i] || s[i] == Upper(s)[i])
  {
  }

  // ---------- Decimal numerals ----------

  predicate IsDigit(c: char) {
    '0' <= c <= '9'
  }

  /** A regular expression's \d+ over ASCII. */
  predicate IsNumeral(s: string) {
    s != "" && forall i | 0 <= i < |s| :: IsDigit(s[i])
  }

  function DigitChar(d: nat): (c: char)
    requires d < 10
    ensures IsDigit(c) && DigitValue(c) == d
  {
    (d + 48) as char
  }

  function DigitValue(c: char): (d: nat)
    requires IsDigit(c)
    ensures d < 10
  {
    (c as int) - 48
  }

  /** The decimal numeral of n, as Itoa and %d print it. */
  function Decimal(n: nat): (s: string)
    ensures IsNumeral(s)
  {
    if n < 10 then [DigitChar(n)] else Decimal(n / 10) + [DigitChar(n % 10)]
  }

  /** The number a numeral denotes; leading zeros are allowed. */
  function NumeralValue(s: string): nat
    requires IsNumeral(s)
  {
    var last := DigitValue(s[|s| - 1]);
    if |s| == 1 then last else 10 * NumeralValue(s[..|s| - 1]) + last
  }

  lemma {:induction false} DecimalValue(n: nat)
    ensures NumeralValue(Decimal(n)) == n
  {
    if n >= 10 {
      DecimalValue(n / 10);
      assert Decimal(n)[..|Decimal(n)| - 1] == Decimal(n / 10);
    }
  }

  function Pow10(k: nat): (p: nat)
    ensures p >= 1
  {
    if k == 0 then 1 else 10 * Pow10(k - 1)
  }

  /** Exactly the numbers below 10^k print in k digits or fewer. */
  lemma {:induction false} DecimalLength(n: nat, k: nat)
    requires k >= 1
    ensures |Decimal(n)| <= k <==> n < Pow10(k)
  {
    if n >= 10 && k > 1 {
      DecimalLength(n / 10, k - 1);
    }
  }

  // ---------- Order ----------

  /** Go's < on strings. */
  predicate Less(a: string, b: string) {
    b != "" && (a == "" || a[0] < b[0] || (a[0] == b[0] && Less(a[1..], b[1..])))
  }

  /** The first difference decides, and a proper prefix comes first. */
  lemma {:induction false} LessMeans(a: string, b: string)
    ensures Less(a, b) <==>
            exists i :: 0 <= i <= |a| && i < |b| && a[..i] == b[..i] && (i == |a| || a[i] < b[i])
  {
    if Less(a, b) {
      if a == "" || a[0] < b[0] {
        assert a[..0] == b[..0];
      } else {
        LessMeans(a[1..], b[1..]);
        var c, d := a[1..], b[1..];
        var i :| 0 <= i <= |c| && i < |d| && c[..i] == d[..i] && (i == |c| || c[i] < d[i]);
        assert a[..i + 1] == [a[0]] + a[1..][..i] && b[..i + 1] == [b[0]] + b[1..][..i];
      }
    }
    if i :| 0 <= i <= |a| && i < |b| && a[..i] == b[..i] && (i == |a| || a[i] < b[i]) {
      if i > 0 {
        assert a[0] == a[..i][0] == b[..i][0] == b[0];
        assert a[1..][..i - 1] == a[..i][1..] && b[1..][..i - 1] == b[..i][1..];
        LessMeans(a[1..], b[1..]);
      }
    }
  }

  lemma {:induction false} LessTransitive(a: string, b: string, c: string)
    requires Less(a, b) && Less(b, c)
    ensures Less(a, c)
  {
    if a != "" && a[0] == b[0] == c[0] {
      LessTransitive(a[1..], b[1..], c[1..]);
    }
  }

  lemma {:induction false} LessTrichotomy(a: string, b: string)
    ensures Less(a, b) || Less(b, a) || a == b
    ensures !(Less(a, b) && Less(b, a))
    ensures !Less(a, a)
  {
    if a != "" {
      LessIrreflexive(a);
      if b != "" {
        if a[0] == b[0] {
          LessTrichotomy(a[1..], b[1..]);
          assert a == [a[0]] + a[1..] && b == [b[0]] + b[1..];
        }
      }
    }
  }

  lemma {:induction false} LessIrreflexive(a: string)
    ensures !Less(a, a)
  {
    if a != "" {
      LessIrreflexive(a[1..]);
    }
  }
}
