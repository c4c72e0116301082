/** Release numbering: how the next tag of a train is computed, and what the agent makes of it. */
module ReleaseTags {
  import opened Basics
  import opened Text
  import opened Versions

  datatype Tag = Tag(major: nat, minor: nat, patch: nat, rc: Option<nat>)

  /** PATCH or PATCH-rcN. */
  function ParsePatch(s: string): Option<(nat, Option<nat>)> {
    var dash := IndexOf(s, '-');
    if !IsNumeral(s[..dash]) then None
    else if dash == |s| then Some((NumeralValue(s[..dash]), None))
    else if "-rc" <= s[dash..] && IsNumeral(s[dash + 3..])
    then Some((NumeralValue(s[..dash]), Some(NumeralValue(s[dash + 3..]))))
    else None
  }

  function ParseTag(tag: string): Option<Tag> {
    var t := TrimSpace(tag);
    if t == "" || t[0] != 'v' then None
    else
      var parts := SplitN(t[1..], '.', 4);
      if |parts| != 3 || !IsNumeral(parts[0]) || !IsNumeral(parts[1]) then None
      else
        match ParsePatch(parts[2])
        case None => None
        case Some((patch, rc)) => Some(Tag(NumeralValue(parts[0]), NumeralValue(parts[1]), patch, rc))
  }

  function PatchText(patch: nat, rc: Option<nat>): string {
    Decimal(patch) + if rc.Some? then "-rc" + Decimal(rc.value) else ""
  }

  function RenderTag(t: Tag): string {
    "v" + Decimal(t.major) + "." + Decimal(t.minor) + "." + PatchText(t.patch, t.rc)
  }

  // ---------- Computing the next tag ----------

  function Max(xs: seq<nat>, default: int): (m: int)
    ensures xs == [] ==> m == default
    ensures xs != [] ==> m in xs
    ensures forall x | x in xs :: x <= m
  {
    if xs == [] then default
    else if |xs| == 1 then xs[0]
    else
      var m := Max(xs[1..], default);
      assert xs == [xs[0]] + xs[1..];
      if xs[0] >= m then xs[0] else m
  }

  function ParseAll(tags: seq<string>): seq<Option<Tag>> {
    seq(|tags|, i requires 0 <= i < |tags| => ParseTag(tags[i]))
  }

  predicate IsStableOn(tag: Option<Tag>, major: nat, minor: nat) {
    tag.Some? && tag.value.major == major && tag.value.minor == minor && tag.value.rc.None?
  }

  predicate IsCandidateFor(tag: Option<Tag>, major: nat, minor: nat, patch: nat) {
    tag.Some? && tag.value == Tag(major, minor, patch, tag.value.rc) && tag.value.rc.Some?
  }

  /** The patch numbers released on a train, in tag order. */
  function StablePatches(major: nat, minor: nat, tags: seq<Option<Tag>>): seq<nat> {
    if tags == [] then []
    else
      var before, last := StablePatches(major, minor, tags[..|tags| - 1]), tags[|tags| - 1];
      if IsStableOn(last, major, minor) then before + [last.value.patch] else before
  }

  /** The candidate numbers already used for one patch of a train. */
  function Candidates(major: nat, minor: nat, patch: nat, tags: seq<Option<Tag>>): seq<nat> {
    if tags == [] then []
    else
      var before, last := Candidates(major, minor, patch, tags[..|tags| - 1]), tags[|tags| - 1];
      if IsCandidateFor(last, major, minor, patch) then before + [last.value.rc.value] else before
  }

  function NextPatch(major: nat, minor: nat, tags: seq<string>): nat {
    Max(StablePatches(major, minor, ParseAll(tags)), -1) + 1
  }

  function NextTag(major: nat, minor: nat, tags: seq<string>, rc: bool): Tag {
    var patch := NextPatch(major, minor, tags);
    Tag(major, minor, patch, if rc then Some(Max(Candidates(major, minor, patch, ParseAll(tags)), 0) + 1) else None)
  }

  function Lookup(numbers: map<nat, seq<nat>>, patch: nat): seq<nat> {
    if patch in numbers then numbers[patch] else []
  }

  /** compute_next_version: one pass over the tags fills a list and a dictionary of lists. */
  method ComputeNextVersion(major: nat, minor: nat, existingTags: seq<string>, rc: bool) returns (version: string)
    ensures version == RenderTag(NextTag(major, minor, existingTags, rc))
  {
    hide ParseTag, RenderTag, Max;
    var stablePatches: seq<nat> := [];
    var rcByPatch: map<nat, seq<nat>> := map[];
    ghost var tags := ParseAll(existingTags);
    for i := 0 to |existingTags|
      invariant stablePatches == StablePatches(major, minor, tags[..i])
      invariant forall p: nat :: Candidates(major, minor, p, tags[..i]) == Lookup(rcByPatch, p)
    {
      assert tags[..i + 1][..i] == tags[..i] && tags[..i + 1][i] == tags[i];
      var parsed := ParseTag(existingTags[i]);
      assert parsed == tags[i];
      if parsed.None? || parsed.value.major != major || parsed.value.minor != minor {
        continue;
      }
      var Tag(_, _, patch, candidate) := parsed.value;
      match candidate {
        case None => stablePatches := stablePatches + [patch];
        case Some(n) =>
          rcByPatch := rcByPatch[patch := Lookup(rcByPatch, patch) + [n]];
      }
    }
    assert tags[..|existingTags|] == tags;
    var nextPatch: nat := Max(stablePatches, -1) + 1;
    if !rc {
      return RenderTag(Tag(major, minor, nextPatch, None));
    }
    version := RenderTag(Tag(major, minor, nextPatch, Some(Max(Lookup(rcByPatch, nextPatch), 0) + 1)));
  }

  // ---------- Reading back what was printed ----------

  function PatchNumerals(c: string, rc: Option<string>): string {
    c + if rc.Some? then "-rc" + rc.value else ""
  }

  /** The form of a tag: vMAJOR.MINOR.PATCH or vMAJOR.MINOR.PATCH-rcN, of any numerals. */
  ghost predicate IsTagText(text: string, a: string, b: string, c: string, rc: Option<string>) {
    && IsNumeral(a) && IsNumeral(b) && IsNumeral(c) && (rc.Some? ==> IsNumeral(rc.value))
    && text == "v" + (a + "." + b + "." + PatchNumerals(c, rc))
  }

  lemma PatchNumeralsParse(c: string, rc: Option<string>)
    requires IsNumeral(c) && (rc.Some? ==> IsNumeral(rc.value))
    ensures '.' !in PatchNumerals(c, rc)
    ensures ParsePatch(PatchNumerals(c, rc)) ==
            Some((NumeralValue(c), if rc.Some? then Some(NumeralValue(rc.value)) else None))
  {
    hide NumeralValue, IndexOf, IsNumeral;
    var s := PatchNumerals(c, rc);
    NumeralLacks(c, '-');
    NumeralLacks(c, '.');
    if rc.None? {
      assert s == c;
      IndexOfNone(c, '-');
    } else {
      NumeralLacks(rc.value, '.');
      assert s == c + ['-'] + ("rc" + rc.value) == (c + "-rc") + rc.value;
      IndexOfFirst(c, '-', "rc" + rc.value);
      CutAt(c, "-rc" + rc.value);
      CutAt(c + "-rc", rc.value);
    }
  }

  lemma CutAt(a: string, b: string)
    ensures (a + b)[..|a|] == a && (a + b)[|a|..] == b
  {
  }

  lemma ParsePatchText(patch: nat, rc: Option<nat>)
    ensures ParsePatch(PatchText(patch, rc)) == Some((patch, rc))
    ensures '.' !in PatchText(patch, rc)
  {
    hide Decimal, NumeralValue, ParsePatch;
    DecimalValue(patch);
    if rc.Some? {
      DecimalValue(rc.value);
    }
    PatchNumeralsParse(Decimal(patch), if rc.Some? then Some(Decimal(rc.value)) else None);
  }

  lemma RenderedSplits(t: Tag)
    ensures SplitN(RenderTag(t)[1..], '.', 4) == [Decimal(t.major), Decimal(t.minor), PatchText(t.patch, t.rc)]
  {
    hide SplitN, Decimal, PatchText, ParsePatch;
    var a, b, c := Decimal(t.major), Decimal(t.minor), PatchText(t.patch, t.rc);
    ParsePatchText(t.patch, t.rc);
    NumeralLacks(a, '.');
    NumeralLacks(b, '.');
    SplitThree(a, b, c);
    assert RenderTag(t)[1..] == a + "." + b + "." + c;
  }

  lemma RenderedIsTight(t: Tag)
    ensures TrimSpace(RenderTag(t)) == RenderTag(t)
  {
    var s, c := RenderTag(t), PatchText(t.patch, t.rc);
    assert IsDigit(c[|c| - 1]);
    assert s[|s| - 1] == c[|c| - 1];
    TrimKeepsTight(s);
  }

  /** Every printed tag parses back to the numbers it was printed from. */
  lemma TagRoundTrip(t: Tag)
    ensures ParseTag(RenderTag(t)) == Some(t)
  {
    RenderedIsTight(t);
    RenderedSplits(t);
    ParsePatchText(t.patch, t.rc);
    DecimalValue(t.major);
    DecimalValue(t.minor);
  }

  /** Every text of that form is a tag of just its numbers, whatever white space stands around it. */
  lemma TagTextsParse(text: string, a: string, b: string, c: string, rc: Option<string>)
    requires IsTagText(TrimSpace(text), a, b, c, rc)
    ensures ParseTag(text) == Some(Tag(NumeralValue(a), NumeralValue(b), NumeralValue(c),
                                       if rc.Some? then Some(NumeralValue(rc.value)) else None))
  {
    hide SplitN, NumeralValue, IsNumeral, ParsePatch, PatchNumerals, TrimSpace;
    NumeralLacks(a, '.');
    NumeralLacks(b, '.');
    PatchNumeralsParse(c, rc);
    SplitThree(a, b, PatchNumerals(c, rc));
    assert TrimSpace(text)[1..] == a + "." + b + "." + PatchNumerals(c, rc);
  }

  /** And no other text is a tag. */
  lemma OnlyTagTextsParse(text: string) returns (a: string, b: string, c: string, rc: Option<string>)
    requires ParseTag(text).Some?
    ensures IsTagText(TrimSpace(text), a, b, c, rc)
  {
    hide SplitN, NumeralValue, IsNumeral, TrimSpace, IndexOf;
    var t := TrimSpace(text);
    var parts := SplitN(t[1..], '.', 4);
    JoinThree(t[1..]);
    assert t == "v" + t[1..];
    a, b := parts[0], parts[1];
    var patch := parts[2];
    var dash := IndexOf(patch, '-');
    c := patch[..dash];
    if dash == |patch| {
      rc := None;
      assert patch == c;
    } else {
      rc := Some(patch[dash + 3..]);
      assert patch[dash..] == "-rc" + patch[dash..][3..];
      assert patch == c + patch[dash..];
    }
    assert patch == PatchNumerals(c, rc);
  }

  /** The agent reads exactly the stable tags whose numbers fit its integers, and no candidate. */
  lemma AgentReadsTag(t: Tag)
    ensures ParseStableVersion(RenderTag(t)) ==
            if t.rc.Some? then Err(NotStable)
            else if t.major > MAX_INT || t.minor > MAX_INT || t.patch > MAX_INT then Err(OutOfRange)
            else Ok(Version(t.major, t.minor, t.patch))
  {
    RenderedSplits(t);
    DecimalValue(t.major);
    DecimalValue(t.minor);
    DecimalValue(t.patch);
    if t.rc.Some? {
      var p := PatchText(t.patch, t.rc);
      assert p[|Decimal(t.patch)|] == '-';
      assert !IsNumeral(p);
    } else {
      assert PatchText(t.patch, t.rc) == Decimal(t.patch);
    }
  }

  lemma StableVersionIsTight(s: string)
    requires StableParts(s).Some?
    ensures TrimSpace(s) == s
  {
    hide SplitN, NumeralValue, StableParts, TrimSpace, IsSpace;
    var a, b, c := OnlyNumeralsParse(s);
    assert s[0] == 'v' && s[|s| - 1] == c[|c| - 1] && IsDigit(c[|c| - 1]);
    DigitIsNoSpace(c[|c| - 1]);
    TrimKeepsTight(s);
  }

  lemma DigitIsNoSpace(c: char)
    requires IsDigit(c)
    ensures !IsSpace(c) && !IsSpace('v')
  {
  }

  /** Whatever the agent can compare, the release tooling reads as the same stable tag. */
  lemma ToolReadsAgentVersion(s: string)
    requires ParseStableVersion(s).Ok?
    ensures var v := ParseStableVersion(s).value; ParseTag(s) == Some(Tag(v.major, v.minor, v.patch, None))
  {
    StableVersionIsTight(s);
    var c := SplitN(s[1..], '.', 4)[2];
    NumeralLacks(c, '-');
    IndexOfNone(c, '-');
    assert c[..|c|] == c;
  }

  // ---------- The next tag is new, and newer ----------

  lemma {:induction false} PatchesSound(major: nat, minor: nat, tags: seq<Option<Tag>>, p: nat)
    ensures p in StablePatches(major, minor, tags) <==> Some(Tag(major, minor, p, None)) in tags
  {
    if tags != [] {
      var last := |tags| - 1;
      PatchesSound(major, minor, tags[..last], p);
      assert tags == tags[..last] + [tags[last]];
    }
  }

  lemma {:induction false} CandidatesSound(major: nat, minor: nat, patch: nat, tags: seq<Option<Tag>>, n: nat)
    ensures n in Candidates(major, minor, patch, tags) <==> Some(Tag(major, minor, patch, Some(n))) in tags
  {
    if tags != [] {
      var last := |tags| - 1;
      CandidatesSound(major, minor, patch, tags[..last], n);
      assert tags == tags[..last] + [tags[last]];
    }
  }

  /** Some existing tag reads as the given numbers. */
  ghost predicate Exists(tags: seq<string>, tag: Tag) {
    exists t :: t in tags && ParseTag(t) == Some(tag)
  }

  lemma ExistsIsParsed(tags: seq<string>, tag: Tag)
    ensures Exists(tags, tag) <==> Some(tag) in ParseAll(tags)
  {
    hide ParseTag;
    if Exists(tags, tag) {
      var t :| t in tags && ParseTag(t) == Some(tag);
      var i :| 0 <= i < |tags| && tags[i] == t;
      assert ParseAll(tags)[i] == Some(tag);
    }
    if Some(tag) in ParseAll(tags) {
      var i :| 0 <= i < |tags| && ParseAll(tags)[i] == Some(tag);
      assert tags[i] in tags;
    }
  }

  /** The first release of a train is patch 0, each other one follows the highest patch released. */
  lemma PatchFollows(major: nat, minor: nat, tags: seq<string>)
    ensures var patch := NextTag(major, minor, tags, false).patch;
            && NextTag(major, minor, tags, false) == Tag(major, minor, patch, None)
            && (forall p: nat | Exists(tags, Tag(major, minor, p, None)) :: p < patch)
            && (patch > 0 ==> Exists(tags, Tag(major, minor, patch - 1, None)))
  {
    hide ParseTag, ParseAll, Exists;
    var patches := StablePatches(major, minor, ParseAll(tags));
    forall p: nat ensures Exists(tags, Tag(major, minor, p, None)) <==> p in patches {
      ExistsIsParsed(tags, Tag(major, minor, p, None));
      PatchesSound(major, minor, ParseAll(tags), p);
    }
  }

  /** A candidate is for the next patch; the first is rc1, each other one follows the highest candidate. */
  lemma CandidateFollows(major: nat, minor: nat, tags: seq<string>)
    ensures var next := NextTag(major, minor, tags, true);
            var patch := NextTag(major, minor, tags, false).patch;
            && next.rc.Some? && next.rc.value >= 1 && next == Tag(major, minor, patch, next.rc)
            && (forall n: nat | Exists(tags, Tag(major, minor, patch, Some(n))) :: n < next.rc.value)
            && (next.rc.value > 1 ==> Exists(tags, Tag(major, minor, patch, Some(next.rc.value - 1))))
  {
    hide ParseTag, ParseAll, Exists, NextPatch;
    var patch := NextPatch(major, minor, tags);
    var candidates := Candidates(major, minor, patch, ParseAll(tags));
    forall n: nat ensures Exists(tags, Tag(major, minor, patch, Some(n))) <==> n in candidates {
      ExistsIsParsed(tags, Tag(major, minor, patch, Some(n)));
      CandidatesSound(major, minor, patch, ParseAll(tags), n);
    }
  }

  lemma {:induction false} PatchesComplete(major: nat, minor: nat, tags: seq<Option<Tag>>, i: nat)
    requires i < |tags|
    ensures IsStableOn(tags[i], major, minor) ==> tags[i].value.patch in StablePatches(major, minor, tags)
    ensures forall p: nat | IsCandidateFor(tags[i], major, minor, p) ::
              tags[i].value.rc.value in Candidates(major, minor, p, tags)
  {
    if i < |tags| - 1 {
      PatchesComplete(major, minor, tags[..|tags| - 1], i);
    }
  }

  /** No existing tag reads as the numbers of the next one, so the tag itself is new too. */
  lemma NextTagIsNew(major: nat, minor: nat, tags: seq<string>, rc: bool)
    ensures var next := RenderTag(NextTag(major, minor, tags, rc));
            && next !in tags
            && forall t | t in tags :: ParseTag(t) != ParseTag(next)
  {
    var next := NextTag(major, minor, tags, rc);
    TagRoundTrip(next);
    forall t | t in tags ensures ParseTag(t) != Some(next) {
      var i :| 0 <= i < |tags| && tags[i] == t;
      PatchesComplete(major, minor, ParseAll(tags), i);
    }
  }

  /** The agent takes the next stable tag for newer than any stable tag of the train it can read,
      exactly when the new patch number still fits its integers. */
  lemma NextTagIsNewer(major: nat, minor: nat, tags: seq<string>, installed: string)
    requires installed in tags && ParseStableVersion(installed).Ok?
    requires ParseStableVersion(installed).value.major == major
    requires ParseStableVersion(installed).value.minor == minor
    ensures IsNewerStableVersion(RenderTag(NextTag(major, minor, tags, false)), installed) == Ok(true)
            <==> NextPatch(major, minor, tags) <= MAX_INT
  {
    hide ParseTag, RenderTag, StableParts;
    var next := NextTag(major, minor, tags, false);
    AgentReadsTag(next);
    ToolReadsAgentVersion(installed);
    var i :| 0 <= i < |tags| && tags[i] == installed;
    PatchesComplete(major, minor, ParseAll(tags), i);
  }

  /** Publishing n stable releases of a train one after the other, each tagged before the next. */
  function Publish(major: nat, minor: nat, tags: seq<string>, n: nat): (published: seq<string>)
    ensures |published| == n
    decreases n
  {
    if n == 0 then []
    else
      var next := RenderTag(NextTag(major, minor, tags, false));
      [next] + Publish(major, minor, tags + [next], n - 1)
  }

  lemma NextPatchAfter(major: nat, minor: nat, tags: seq<string>)
    ensures NextPatch(major, minor, tags + [RenderTag(NextTag(major, minor, tags, false))])
            == NextPatch(major, minor, tags) + 1
  {
    hide ParseTag, RenderTag;
    var next := NextTag(major, minor, tags, false);
    var more := ParseAll(tags + [RenderTag(next)]);
    TagRoundTrip(next);
    assert more == ParseAll(tags) + [Some(next)];
    assert more[..|more| - 1] == ParseAll(tags);
    var patches := StablePatches(major, minor, more);
    assert patches == StablePatches(major, minor, ParseAll(tags)) + [next.patch];
    assert next.patch in patches;
  }

  /** Successive releases number the patches without a gap. */
  lemma {:induction false} PublishedPatches(major: nat, minor: nat, tags: seq<string>, n: nat, i: nat)
    requires i < n
    ensures Publish(major, minor, tags, n)[i] == RenderTag(Tag(major, minor, NextPatch(major, minor, tags) + i, None))
    decreases n
  {
    if i > 0 {
      var more := tags + [RenderTag(NextTag(major, minor, tags, false))];
      NextPatchAfter(major, minor, tags);
      PublishedPatches(major, minor, more, n - 1, i - 1);
    }
  }

  /** A train's releases strictly increase under the agent's comparison while their numbers fit. */
  lemma PublishedIncrease(major: nat, minor: nat, tags: seq<string>, n: nat, i: nat, j: nat)
    requires i < j < n && major <= MAX_INT && minor <= MAX_INT
    ensures var published := Publish(major, minor, tags, n);
            IsNewerStableVersion(published[j], published[i]) == Ok(true)
            <==> NextPatch(major, minor, tags) + j <= MAX_INT
  {
    PublishedPatches(major, minor, tags, n, i);
    PublishedPatches(major, minor, tags, n, j);
    AgentReadsTag(Tag(major, minor, NextPatch(major, minor, tags) + i, None));
    AgentReadsTag(Tag(major, minor, NextPatch(major, minor, tags) + j, None));
  }
}
