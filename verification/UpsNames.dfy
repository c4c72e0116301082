/** Names for detected UPSes: the search for a free name and its stability from scan to scan. */
module UpsNames {
  import opened Text
  import opened Sorting

  datatype DetectedUPS = DetectedUPS(name: string, driver: string, port: string, vendorID: string,
                                     productID: string, product: string, serial: string, vendor: string, bus: string)
  {
    /** What identifies a device from scan to scan. */
    function StableKey(): string {
      if serial != "" then "serial:" + Lower(serial)
      else "fallback:" + Lower(bus) + ":" + Lower(vendorID) + ":" + Lower(productID)
    }
  }

  /** An entry of upsd.users. */
  datatype UPSDUser = UPSDUser(username: string, password: string)

  function KeyOf(d: DetectedUPS): string { d.StableKey() }

  const MAX_UPS_NAME_LENGTH: nat := 20

  function StableNameSource(d: DetectedUPS): string {
    if d.serial != "" then d.serial else d.bus + d.vendorID + d.productID
  }

  lemma {:induction false} SplitAtColon(a: string, x: string, b: string, y: string)
    requires ':' !in a && ':' !in b
    ensures a + ":" + x == b + ":" + y <==> a == b && x == y
  {
    hide IndexOf;
    IndexOfFirst(a, ':', x);
    IndexOfFirst(b, ':', y);
    assert (a + ":" + x)[..|a|] == a && (b + ":" + y)[..|b|] == b;
    assert (a + ":" + x)[|a| + 1..] == x && (b + ":" + y)[|b| + 1..] == y;
  }

  lemma LowerLacksColon(s: string)
    requires ':' !in s
    ensures ':' !in Lower(s)
  {
    assert forall i | 0 <= i < |s| :: Lower(s)[i] == LowerChar(s[i]) != ':';
  }

  lemma SameTail(prefix: string, a: string, b: string)
    ensures prefix + a == prefix + b <==> a == b
  {
    assert (prefix + a)[|prefix|..] == a && (prefix + b)[|prefix|..] == b;
  }

  lemma FallbackKeys(d: DetectedUPS, e: DetectedUPS)
    requires d.serial == "" && e.serial == ""
    requires ':' !in d.bus && ':' !in e.bus && ':' !in d.vendorID && ':' !in e.vendorID
    ensures KeyOf(d) == KeyOf(e) <==>
            Lower(d.bus) == Lower(e.bus) && Lower(d.vendorID) == Lower(e.vendorID)
            && Lower(d.productID) == Lower(e.productID)
  {
    hide Lower;
    LowerLacksColon(d.bus);
    LowerLacksColon(e.bus);
    LowerLacksColon(d.vendorID);
    LowerLacksColon(e.vendorID);
    var ours, theirs := Lower(d.vendorID) + ":" + Lower(d.productID), Lower(e.vendorID) + ":" + Lower(e.productID);
    assert KeyOf(d) == "fallback:" + (Lower(d.bus) + ":" + ours);
    assert KeyOf(e) == "fallback:" + (Lower(e.bus) + ":" + theirs);
    SameTail("fallback:", Lower(d.bus) + ":" + ours, Lower(e.bus) + ":" + theirs);
    SplitAtColon(Lower(d.bus), ours, Lower(e.bus), theirs);
    SplitAtColon(Lower(d.vendorID), Lower(d.productID), Lower(e.vendorID), Lower(e.productID));
  }

  /** Whether two devices count as one: by the serial number when there is one, whatever its case; by bus, vendor
      and product when there is none, none of which has a colon in a scan; never one by the one and one by the
      other. */
  lemma SameDeviceMeans(d: DetectedUPS, e: DetectedUPS)
    requires ':' !in d.bus && ':' !in e.bus && ':' !in d.vendorID && ':' !in e.vendorID
    ensures KeyOf(d) == KeyOf(e) <==>
            if d.serial != "" || e.serial != "" then Lower(d.serial) == Lower(e.serial)
            else
              && Lower(d.bus) == Lower(e.bus) && Lower(d.vendorID) == Lower(e.vendorID)
              && Lower(d.productID) == Lower(e.productID)
  {
    hide Lower;
    assert |Lower(d.serial)| == |d.serial| && |Lower(e.serial)| == |e.serial| by {
      CaseLaws(d.serial);
      CaseLaws(e.serial);
    }
    if d.serial == "" && e.serial == "" {
      FallbackKeys(d, e);
    } else if d.serial != "" && e.serial != "" {
      SameTail("serial:", Lower(d.serial), Lower(e.serial));
    } else {
      assert KeyOf(d)[0] != KeyOf(e)[0] by {
        assert d.serial == "" ==> KeyOf(d)[0] == 'f' && KeyOf(e)[0] == 's';
        assert e.serial == "" ==> KeyOf(e)[0] == 'f' && KeyOf(d)[0] == 's';
      }
    }
  }

  // ---------- Candidates ----------

  predicate IsNameChar(c: char) {
    IsDigit(c) || 'a' <= c <= 'z'
  }

  function NameChars(source: string): (s: string)
    ensures forall i | 0 <= i < |s| :: IsNameChar(s[i])
  {
    if source == "" then ""
    else
      var c := LowerChar(source[0]);
      (if IsNameChar(c) then [c] else []) + NameChars(source[1..])
  }

  function NormalizeUPSName(source: string): string {
    var name := if NameChars(source) == "" then "ups-device" else "ups-" + NameChars(source);
    if |name| > MAX_UPS_NAME_LENGTH then name[..MAX_UPS_NAME_LENGTH] else name
  }

  /** The form of every normalized name: ups- and then letters and digits, 5 to 20 characters in all. */
  predicate IsBase(name: string) {
    && 4 < |name| <= MAX_UPS_NAME_LENGTH && name[..4] == "ups-"
    && forall i | 4 <= i < |name| :: IsNameChar(name[i])
  }

  lemma NormalizedIsBase(source: string)
    ensures IsBase(NormalizeUPSName(source))
  {
    var s := if NameChars(source) == "" then "device" else NameChars(source);
    var name := "ups-" + s;
    assert "ups-" + "device" == "ups-device";
    assert forall i | 4 <= i < |name| :: name[i] == s[i - 4];
  }

  predicate IsAlphanumeric(c: char) {
    '0' <= c <= '9' || 'a' <= c <= 'z' || 'A' <= c <= 'Z'
  }

  lemma {:induction false} NameCharsOf(source: string)
    requires forall i | 0 <= i < |source| :: IsAlphanumeric(source[i])
    ensures NameChars(source) == Lower(source)
  {
    if source != "" {
      NameCharsOf(source[1..]);
      assert Lower(source) == [LowerChar(source[0])] + Lower(source[1..]);
    }
  }

  lemma {:induction false} NameCharsDrop(a: string, c: char, b: string)
    requires !IsAlphanumeric(c)
    ensures NameChars(a + [c] + b) == NameChars(a + b)
  {
    if a == "" {
      assert a + [c] + b == [c] + b && a + b == b;
      assert ([c] + b)[1..] == b;
    } else {
      assert (a + [c] + b)[1..] == a[1..] + [c] + b && (a + b)[1..] == a[1..] + b;
      NameCharsDrop(a[1..], c, b);
    }
  }

  /** A source of letters and digits is kept in lower case as far as there is room. */
  lemma NormalizeKeeps(source: string)
    requires forall i | 0 <= i < |source| :: IsAlphanumeric(source[i])
    ensures NormalizeUPSName(source) == if source == "" then "ups-device"
                                        else "ups-" + Lower(source)[..if |source| <= 16 then |source| else 16]
  {
    NameCharsOf(source);
    CaseLaws(source);
    var name := "ups-" + Lower(source);
    if |source| > 16 {
      assert name[..20] == "ups-" + Lower(source)[..16];
    } else {
      assert Lower(source)[..|source|] == Lower(source);
    }
  }

  /** All other characters count for nothing. Together with NormalizeKeeps this settles every name. */
  lemma NormalizeDrops(a: string, c: char, b: string)
    requires !IsAlphanumeric(c)
    ensures NormalizeUPSName(a + [c] + b) == NormalizeUPSName(a + b)
  {
    NameCharsDrop(a, c, b);
  }

  function TrimNameBase(base: string, suffixLength: nat): string {
    var maxBaseLength := if MAX_UPS_NAME_LENGTH - suffixLength < 4 then 4 else MAX_UPS_NAME_LENGTH - suffixLength;
    if |base| > maxBaseLength then base[..maxBaseLength] else base
  }

  function Suffix(k: nat): string {
    "-" + Decimal(k)
  }

  /** The k-th name tried. */
  function Candidate(base: string, k: nat): string
    requires k >= 1
  {
    if k == 1 then base else TrimNameBase(base, |Suffix(k)|) + Suffix(k)
  }

  /** The first name tried is the base; the k-th is the base and -k, the base cut just as far as is needed to keep
      within 20 characters, though never into ups-. */
  lemma CandidateForm(base: string, k: nat) returns (cut: nat)
    requires IsBase(base) && k >= 1
    ensures k == 1 ==> Candidate(base, k) == base
    ensures k > 1 ==> 4 <= cut <= |base| && Candidate(base, k) == base[..cut] + "-" + Decimal(k)
                      && (|Candidate(base, k)| <= 20 || cut == 4)
                      && (cut < |base| ==> cut == 4 || |Candidate(base, k)| == 20)
  {
    hide Decimal;
    cut := |TrimNameBase(base, |Suffix(k)|)|;
    assert base[..|base|] == base;
    assert k > 1 ==> Candidate(base, k) == base[..cut] + "-" + Decimal(k);
  }

  /** What stands after the last hyphen. */
  function AfterHyphen(s: string): string {
    if s == "" || s[|s| - 1] == '-' then "" else AfterHyphen(s[..|s| - 1]) + [s[|s| - 1]]
  }

  lemma {:induction false} AfterHyphenOf(a: string, b: string)
    requires '-' !in b
    ensures AfterHyphen(a + "-" + b) == b
  {
    var s := a + "-" + b;
    if b != "" {
      AfterHyphenOf(a, b[..|b| - 1]);
      assert s[..|s| - 1] == a + "-" + b[..|b| - 1];
    }
  }

  /** No name is tried twice. */
  lemma CandidatesDistinct(base: string, j: nat, k: nat)
    requires IsBase(base) && 1 <= j < k
    ensures Candidate(base, j) != Candidate(base, k)
  {
    var trimmed := TrimNameBase(base, |Suffix(k)|);
    if j == 1 {
      assert Candidate(base, k)[|trimmed|] == '-' && |trimmed| >= 4;
    } else {
      var other := TrimNameBase(base, |Suffix(j)|);
      assert Candidate(base, k) == trimmed + "-" + Decimal(k);
      assert Candidate(base, j) == other + "-" + Decimal(j);
      AfterHyphenOf(trimmed, Decimal(k));
      AfterHyphenOf(other, Decimal(j));
      DecimalValue(j);
      DecimalValue(k);
    }
  }

  lemma OneIsSmall(k: nat)
    requires k >= 1
    ensures 1 < Pow10(k)
  {
    DecimalLength(1, k);
  }

  /** Every candidate starts with ups-; exactly those below 10^15 fit the length limit. */
  lemma CandidateFits(base: string, k: nat)
    requires IsBase(base) && k >= 1
    ensures |Candidate(base, k)| > 4 && Candidate(base, k)[..4] == "ups-"
    ensures |Candidate(base, k)| <= MAX_UPS_NAME_LENGTH <==> k < Pow10(15)
  {
    hide Pow10, Decimal;
    if k == 1 {
      OneIsSmall(15);
    } else {
      DecimalLength(k, 15);
      var trimmed := TrimNameBase(base, |Suffix(k)|);
      assert Candidate(base, k)[..4] == trimmed[..4] == base[..4];
    }
  }

  // ---------- The search ----------

  function Tried(base: string, n: nat): set<string> {
    set k | 1 <= k <= n :: Candidate(base, k)
  }

  lemma {:induction false} TriedCount(base: string, n: nat)
    requires IsBase(base)
    ensures |Tried(base, n)| == n
  {
    if n > 0 {
      TriedCount(base, n - 1);
      forall j | 1 <= j < n ensures Candidate(base, j) != Candidate(base, n) {
        CandidatesDistinct(base, j, n);
      }
      assert Tried(base, n) == Tried(base, n - 1) + {Candidate(base, n)};
    }
  }

  lemma SubsetCount(a: set<string>, b: set<string>)
    requires a <= b
    ensures |a| <= |b|
  {
    assert b == a + (b - a);
  }

  /** The pigeonhole that bounds the search: n taken candidates need n used names. */
  lemma TriedAreUsed(base: string, n: nat, used: set<string>)
    requires IsBase(base) && Tried(base, n) <= used
    ensures n <= |used|
  {
    TriedCount(base, n);
    SubsetCount(Tried(base, n), used);
  }

  /** The place of the first free candidate from the k-th on. */
  function FirstFree(base: string, used: set<string>, k: nat): (n: nat)
    requires IsBase(base) && k >= 1 && Tried(base, k - 1) <= used
    ensures k <= n <= |used| + 1
    ensures Candidate(base, n) !in used && Tried(base, n - 1) <= used
    decreases |used| + 1 - k
  {
    TriedAreUsed(base, k - 1, used);
    if Candidate(base, k) !in used then k
    else
      assert Tried(base, k) == Tried(base, k - 1) + {Candidate(base, k)};
      TriedAreUsed(base, k, used);
      FirstFree(base, used, k + 1)
  }

  function FreeName(source: string, used: set<string>): string {
    NormalizedIsBase(source);
    Candidate(NormalizeUPSName(source), FirstFree(NormalizeUPSName(source), used, 1))
  }

  /** The search ends after at most |used| + 1 candidates, with the first of them that is not used. */
  method NextAvailableUPSName(source: string, used: set<string>) returns (name: string)
    ensures name == FreeName(source, used) && name !in used
    ensures exists n :: 1 <= n <= |used| + 1 && name == Candidate(NormalizeUPSName(source), n)
                        && Tried(NormalizeUPSName(source), n - 1) <= used
  {
    var base := NormalizeUPSName(source);
    NormalizedIsBase(source);
    name := base;
    var suffix := 2;
    while name in used
      invariant suffix >= 2 && name == Candidate(base, suffix - 1)
      invariant Tried(base, suffix - 2) <= used
      invariant FirstFree(base, used, 1) == FirstFree(base, used, suffix - 1)
      decreases |used| + 2 - suffix
    {
      assert Tried(base, suffix - 1) == Tried(base, suffix - 2) + {name};
      TriedAreUsed(base, suffix - 1, used);
      var suffixText := Suffix(suffix);
      var trimmedBase := TrimNameBase(base, |suffixText|);
      name := trimmedBase + suffixText;
      suffix := suffix + 1;
    }
    assert name == Candidate(base, suffix - 1) && Tried(base, suffix - 1 - 1) <= used;
    assert FirstFree(base, used, suffix - 1) == suffix - 1;
  }

  /** Every name handed out starts with ups- and, while fewer than 10^15 - 1 names are in use, fits the limit. */
  lemma FreeNameFits(source: string, used: set<string>)
    ensures FreeName(source, used) !in used
    ensures |FreeName(source, used)| > 4 && FreeName(source, used)[..4] == "ups-"
    ensures |used| + 1 < Pow10(15) ==> |FreeName(source, used)| <= MAX_UPS_NAME_LENGTH
  {
    NormalizedIsBase(source);
    CandidateFits(NormalizeUPSName(source), FirstFree(NormalizeUPSName(source), used, 1));
  }

  // ---------- Stable names ----------

  function Preferred(d: DetectedUPS, persisted: map<string, string>): string {
    if KeyOf(d) in persisted then persisted[KeyOf(d)] else ""
  }

  function Elements(names: seq<string>): set<string> {
    set n | n in names
  }

  /** The names of a scan, device by device; each device sees the names given before it. */
  function StableNames(devices: seq<DetectedUPS>, persisted: map<string, string>): (names: seq<string>)
    ensures |names| == |devices|
  {
    if devices == [] then []
    else
      var before := StableNames(devices[..|devices| - 1], persisted);
      var d := devices[|devices| - 1];
      var preferred := Preferred(d, persisted);
      before + [if preferred == "" || preferred in Elements(before)
                then FreeName(StableNameSource(d), Elements(before)) else preferred]
  }

  /** The map saved for the next scan; a later device overwrites an earlier one of the same key. */
  function NameMap(devices: seq<DetectedUPS>, names: seq<string>): (m: map<string, string>)
    requires |names| == |devices|
    ensures forall k :: k in m <==> exists i :: 0 <= i < |devices| && KeyOf(devices[i]) == k
  {
    if devices == [] then map[]
    else
      var last := |devices| - 1;
      assert forall i | 0 <= i < last :: devices[..last][i] == devices[i];
      NameMap(devices[..last], names[..last])[KeyOf(devices[last]) := names[last]]
  }

  function WithNames(devices: seq<DetectedUPS>, names: seq<string>): seq<DetectedUPS>
    requires |names| == |devices|
  {
    seq(|devices|, i requires 0 <= i < |devices| => devices[i].(name := names[i]))
  }

  /** What one more device adds to the map and to the list. */
  lemma NamesGrow(devices: seq<DetectedUPS>, names: seq<string>, n: nat)
    requires n < |devices| && |names| == n + 1
    ensures NameMap(devices[..n + 1], names) == NameMap(devices[..n], names[..n])[KeyOf(devices[n]) := names[n]]
    ensures WithNames(devices[..n + 1], names) ==
            WithNames(devices[..n], names[..n]) + [devices[n].(name := names[n])]
  {
    assert devices[..n + 1][..n] == devices[..n];
  }

  /** The name at place i, from the names before it. */
  lemma {:induction false} StableNameAt(devices: seq<DetectedUPS>, persisted: map<string, string>, i: nat)
    requires i < |devices|
    ensures StableNames(devices, persisted)[..i] == StableNames(devices[..i], persisted)
    ensures StableNames(devices, persisted)[i] ==
            var preferred := Preferred(devices[i], persisted);
            var before := Elements(StableNames(devices, persisted)[..i]);
            if preferred == "" || preferred in before then FreeName(StableNameSource(devices[i]), before)
            else preferred
  {
    hide FreeName;
    var last := |devices| - 1;
    var names := StableNames(devices, persisted);
    assert names[..last] == StableNames(devices[..last], persisted);
    if i < last {
      StableNameAt(devices[..last], persisted, i);
      assert devices[..last][..i] == devices[..i];
      assert names[..last][..i] == names[..i];
    }
  }

  /** Devices from place i on are still as scanned. */
  lemma Overwrite(named: seq<DetectedUPS>, devices: seq<DetectedUPS>, i: nat, d: DetectedUPS)
    requires i < |named| == |devices| && named[i..] == devices[i..]
    ensures named[i] == devices[i]
    ensures named[i := d][..i + 1] == named[..i] + [d] && named[i := d][i + 1..] == devices[i + 1..]
  {
    assert named[i] == named[i..][0] == devices[i];
    assert named[i + 1..] == named[i..][1..] == devices[i..][1..];
  }

  method AssignStableNames(devices: seq<DetectedUPS>, persisted: map<string, string>)
    returns (named: seq<DetectedUPS>, nextMap: map<string, string>)
    ensures named == WithNames(devices, StableNames(devices, persisted))
    ensures |named| == |devices|
    ensures forall i | 0 <= i < |devices| :: named[i] == devices[i].(name := StableNames(devices, persisted)[i])
    ensures nextMap == NameMap(devices, StableNames(devices, persisted))
  {
    hide StableNames, NameMap, WithNames, Elements, FreeName, Tried, StableNameSource;
    ghost var names := StableNames(devices, persisted);
    named, nextMap := devices, map[];
    var usedNames := {};
    NoDevices();
    assert devices[..0] == [] && names[..0] == [] && named[..0] == [];
    for index := 0 to |devices|
      invariant |named| == |devices| && named[index..] == devices[index..]
      invariant named[..index] == WithNames(devices[..index], names[..index])
      invariant nextMap == NameMap(devices[..index], names[..index])
      invariant usedNames == Elements(names[..index])
    {
      StableNameAt(devices, persisted, index);
      NamesGrow(devices, names[..index + 1], index);
      assert names[..index + 1][..index] == names[..index];
      Overwrite(named, devices, index, named[index]);
      var device := named[index];
      var key := device.StableKey();
      var name := if key in persisted then persisted[key] else "";
      if name == "" {
        name := NextAvailableUPSName(StableNameSource(device), usedNames);
      } else if name in usedNames {
        name := NextAvailableUPSName(StableNameSource(device), usedNames);
      }
      assert name == names[index];
      Include(names, index);
      Overwrite(named, devices, index, device.(name := name));
      named := named[index := device.(name := name)];
      nextMap := nextMap[key := name];
      usedNames := usedNames + {name};
    }
    assert devices[..|devices|] == devices && names[..|devices|] == names;
    assert named[..|devices|] == named;
    NamedInPlace(devices, names);
  }

  lemma NamedInPlace(devices: seq<DetectedUPS>, names: seq<string>)
    requires |names| == |devices|
    ensures forall i | 0 <= i < |devices| :: WithNames(devices, names)[i] == devices[i].(name := names[i])
  {
  }

  lemma NoDevices()
    ensures NameMap([], []) == map[] && WithNames([], []) == [] && Elements([]) == {}
  {
  }

  lemma Include(names: seq<string>, i: nat)
    requires i < |names|
    ensures Elements(names[..i + 1]) == Elements(names[..i]) + {names[i]}
  {
    assert names[..i + 1] == names[..i] + [names[i]];
  }

  /** Names of which none is empty and none occurs twice. */
  ghost predicate AllDistinct(names: seq<string>) {
    && (forall i | 0 <= i < |names| :: names[i] != "")
    && (forall i, j | 0 <= i < j < |names| :: names[i] != names[j])
  }

  /** Every device list gets non-empty names without a repetition, whatever was persisted. */
  lemma NamesAreDistinct(devices: seq<DetectedUPS>, persisted: map<string, string>)
    ensures AllDistinct(StableNames(devices, persisted))
  {
    hide StableNames, FreeName;
    var names := StableNames(devices, persisted);
    forall j | 0 <= j < |names| ensures names[j] != "" && names[j] !in names[..j] {
      StableNameAt(devices, persisted, j);
      FreeNameFits(StableNameSource(devices[j]), Elements(names[..j]));
    }
    forall i, j | 0 <= i < j < |names| ensures names[i] != names[j] {
      assert names[..j][i] == names[i];
    }
  }

  /** With distinct keys the saved map holds every device's name. */
  lemma {:induction false} NameMapAt(devices: seq<DetectedUPS>, names: seq<string>, i: nat)
    requires |names| == |devices| && i < |devices|
    requires forall j | i < j < |devices| :: KeyOf(devices[j]) != KeyOf(devices[i])
    ensures KeyOf(devices[i]) in NameMap(devices, names) && NameMap(devices, names)[KeyOf(devices[i])] == names[i]
  {
    if i < |devices| - 1 {
      NameMapAt(devices[..|devices| - 1], names[..|devices| - 1], i);
    }
  }

  /** A device keeps its persisted name exactly when no device listed before it has that name. */
  lemma KeepsName(devices: seq<DetectedUPS>, persisted: map<string, string>, i: nat)
    requires i < |devices| && Preferred(devices[i], persisted) != ""
    ensures var names := StableNames(devices, persisted);
            names[i] == persisted[KeyOf(devices[i])] <==> persisted[KeyOf(devices[i])] !in names[..i]
  {
    StableNameAt(devices, persisted, i);
    FreeNameFits(StableNameSource(devices[i]), Elements(StableNames(devices, persisted)[..i]));
  }

  /** A device without a persisted name gets the first name free of those made from its serial number or, without
      one, from its bus, vendor and product: the plain one unless an earlier device took it. */
  lemma NamedAfterItself(devices: seq<DetectedUPS>, persisted: map<string, string>, i: nat) returns (n: nat)
    requires i < |devices| && (KeyOf(devices[i]) in persisted ==> persisted[KeyOf(devices[i])] == "")
    ensures var names := StableNames(devices, persisted);
            var d := devices[i];
            var base := NormalizeUPSName(if d.serial == "" then d.bus + d.vendorID + d.productID else d.serial);
            && 1 <= n <= i + 1 && names[i] == Candidate(base, n) && names[i] !in names[..i]
            && (forall k :: 1 <= k < n ==> Candidate(base, k) in names[..i])
            && (base !in names[..i] ==> names[i] == base)
  {
    hide StableNames, NormalizeUPSName;
    var names := StableNames(devices, persisted);
    StableNameAt(devices, persisted, i);
    var base := NormalizeUPSName(StableNameSource(devices[i]));
    NormalizedIsBase(StableNameSource(devices[i]));
    var used := Elements(names[..i]);
    n := FirstFree(base, used, 1);
    ElementsCount(names[..i]);
    forall k | 1 <= k < n ensures Candidate(base, k) in names[..i] {
      assert Candidate(base, k) in Tried(base, n - 1);
    }
  }

  lemma {:induction false} ElementsCount(names: seq<string>)
    ensures |Elements(names)| <= |names|
  {
    if names != [] {
      var last := |names| - 1;
      ElementsCount(names[..last]);
      assert Elements(names) == Elements(names[..last]) + {names[last]};
    }
  }

  ghost predicate Injective(m: map<string, string>) {
    && (forall k | k in m :: m[k] != "")
    && (forall k, l | k in m && l in m && k != l :: m[k] != m[l])
  }

  /** The map a scan saves never gives two devices one name. */
  lemma {:induction false} SavedMapIsInjective(devices: seq<DetectedUPS>, names: seq<string>)
    requires |names| == |devices| && AllDistinct(names)
    ensures Injective(NameMap(devices, names))
    ensures forall k | k in NameMap(devices, names) :: NameMap(devices, names)[k] in names
  {
    if devices != [] {
      var last := |devices| - 1;
      SavedMapIsInjective(devices[..last], names[..last]);
      var before := NameMap(devices[..last], names[..last]);
      forall k | k in before ensures before[k] in names && before[k] != names[last] {
        assert before[k] in names[..last];
      }
    }
  }

  /** Devices with distinct keys that are all in the map get just the map's names. */
  lemma {:induction false} KnownDevicesKeepNames(devices: seq<DetectedUPS>, m: map<string, string>)
    requires DistinctKeys(devices, KeyOf) && Injective(m)
    requires forall i | 0 <= i < |devices| :: KeyOf(devices[i]) in m
    ensures forall i | 0 <= i < |devices| :: StableNames(devices, m)[i] == m[KeyOf(devices[i])]
  {
    if devices != [] {
      var last := |devices| - 1;
      KnownDevicesKeepNames(devices[..last], m);
      var before := StableNames(devices[..last], m);
      forall i | 0 <= i < last ensures before[i] != m[KeyOf(devices[last])] {
        assert KeyOf(devices[i]) != KeyOf(devices[last]);
      }
    }
  }

  ghost predicate WasScanned(devices: seq<DetectedUPS>, key: string) {
    exists l :: 0 <= l < |devices| && KeyOf(devices[l]) == key
  }

  /** Naming is stable: after a scan of devices with distinct keys, a later scan of any of them, in any
      order and with any other properties changed, gives each the name it had. */
  lemma NamingIsStable(devices: seq<DetectedUPS>, persisted: map<string, string>, again: seq<DetectedUPS>,
                       i: nat, j: nat)
    requires DistinctKeys(devices, KeyOf) && DistinctKeys(again, KeyOf)
    requires forall k | 0 <= k < |again| :: WasScanned(devices, KeyOf(again[k]))
    requires i < |devices| && j < |again| && KeyOf(devices[i]) == KeyOf(again[j])
    ensures var names := StableNames(devices, persisted);
            StableNames(again, NameMap(devices, names))[j] == names[i]
  {
    hide StableNames, NameMap;
    var names := StableNames(devices, persisted);
    NamesAreDistinct(devices, persisted);
    SavedMapIsInjective(devices, names);
    var m := NameMap(devices, names);
    assert forall k | 0 <= k < |again| :: KeyOf(again[k]) in m by {
      assert forall k | 0 <= k < |again| :: WasScanned(devices, KeyOf(again[k]));
    }
    KnownDevicesKeepNames(again, m);
    NameMapAt(devices, names, i);
  }

  /** The last device with a given device's key. */
  lemma {:induction false} LastTwin(devices: seq<DetectedUPS>, i: nat) returns (l: nat)
    requires i < |devices|
    ensures i <= l < |devices| && KeyOf(devices[l]) == KeyOf(devices[i])
    ensures forall j | l < j < |devices| :: KeyOf(devices[j]) != KeyOf(devices[l])
  {
    l := |devices| - 1;
    while KeyOf(devices[l]) != KeyOf(devices[i])
      invariant i <= l < |devices|
      invariant forall j | l < j < |devices| :: KeyOf(devices[j]) != KeyOf(devices[i])
      decreases l
    {
      l := l - 1;
    }
  }

  /** The first device that shares its key with a later one, and the last such one. */
  lemma FirstTwin(devices: seq<DetectedUPS>) returns (f: nat, l: nat)
    requires !DistinctKeys(devices, KeyOf)
    ensures f < l < |devices| && KeyOf(devices[f]) == KeyOf(devices[l])
    ensures forall j | l < j < |devices| :: KeyOf(devices[j]) != KeyOf(devices[l])
    ensures forall i, j | 0 <= i < f && i < j < |devices| :: KeyOf(devices[i]) != KeyOf(devices[j])
  {
    f := 0;
    while forall j | f < j < |devices| :: KeyOf(devices[f]) != KeyOf(devices[j])
      invariant forall i, j | 0 <= i < f && i < j < |devices| :: KeyOf(devices[i]) != KeyOf(devices[j])
      invariant f < |devices|
      decreases |devices| - f
    {
      f := f + 1;
    }
    l := LastTwin(devices, f);
  }

  /** Where two devices share a key, the first of them takes over the name the last one had, and the last
      one loses it. */
  lemma FirstTwinTakesOver(devices: seq<DetectedUPS>, persisted: map<string, string>) returns (f: nat, l: nat)
    requires !DistinctKeys(devices, KeyOf)
    ensures f < l < |devices|
    ensures var names := StableNames(devices, persisted);
            var m := NameMap(devices, names);
            && StableNames(devices, m)[f] == names[l] != names[f]
            && NameMap(devices, StableNames(devices, m)) != m
  {
    hide StableNames, NameMap, FreeName;
    f, l := FirstTwin(devices);
    var names := StableNames(devices, persisted);
    var m := NameMap(devices, names);
    var again := StableNames(devices, m);
    NamesAreDistinct(devices, persisted);
    SavedMapIsInjective(devices, names);
    forall i | 0 <= i < f ensures KeyOf(devices[i]) in m && m[KeyOf(devices[i])] == names[i] {
      NameMapAt(devices, names, i);
    }
    KnownDevicesKeepNames(devices[..f], m);
    NameMapAt(devices, names, l);
    StableNameAt(devices, m, f);
    assert again[f] == names[l];
    StableNameAt(devices, m, l);
    FreeNameFits(StableNameSource(devices[l]), Elements(again[..l]));
    assert again[..l][f] == names[l];
    assert again[l] != names[l];
    NameMapAt(devices, again, l);
  }

  /** Scanning the same devices again keeps every name, and the map, exactly when no two share a key. */
  lemma RescanIsStable(devices: seq<DetectedUPS>, persisted: map<string, string>)
    ensures var names := StableNames(devices, persisted);
            var m := NameMap(devices, names);
            && (StableNames(devices, m) == names <==> DistinctKeys(devices, KeyOf))
            && (NameMap(devices, StableNames(devices, m)) == m <==> DistinctKeys(devices, KeyOf))
  {
    hide StableNames, NameMap;
    var names := StableNames(devices, persisted);
    var m := NameMap(devices, names);
    if DistinctKeys(devices, KeyOf) {
      assert forall k | 0 <= k < |devices| :: WasScanned(devices, KeyOf(devices[k]));
      forall i | 0 <= i < |devices| ensures StableNames(devices, m)[i] == names[i] {
        NamingIsStable(devices, persisted, devices, i, i);
      }
    } else {
      var f, l := FirstTwinTakesOver(devices, persisted);
    }
  }
}
