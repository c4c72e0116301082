/** Applying a scan: the NUT configuration files the agent keeps, and what it reports as changed. */
module AgentConfig {
  import opened Basics
  import opened Text
  import opened Sorting
  import opened UpsNames

  datatype Path = NamesJson | UpsConf | NutConf | UpsdConf | UpsdUsers

  /** A file's bytes; for the name map the value its JSON denotes and whether it is laid out as the agent
      lays it out. */
  datatype Content = Plain(text: string) | Json(names: map<string, string>, canonical: bool)

  type Files = map<Path, Content>

  /** What can go wrong: a file that cannot be read, or a write that fails before or after its rename. */
  datatype Fault = BeforeRename | AfterRename
  datatype Faults = Faults(unreadable: set<Path>, writes: map<Path, Fault>)

  datatype CredentialsFile = Missing | Unreadable | Garbled | Credentials(user: UPSDUser)

  datatype ApplyError =
    | AgentConfigUnreadable | AgentConfigGarbled | AgentConfigIncomplete
    | AdoptionUnreadable | AdoptionGarbled | AdoptionIncomplete
    | NamesUnreadable | NamesGarbled
    | WriteFailed(path: Path)

  datatype Applied = Applied(devices: seq<DetectedUPS>, changed: bool, restart: seq<string>, user: UPSDUser)

  // ---------- Reading ----------

  function LoadAgentUser(file: CredentialsFile): Result<UPSDUser, ApplyError> {
    match file
    case Missing => Err(AgentConfigUnreadable)
    case Unreadable => Err(AgentConfigUnreadable)
    case Garbled => Err(AgentConfigGarbled)
    case Credentials(user) =>
      if user.username == "" || user.password == "" then Err(AgentConfigIncomplete) else Ok(user)
  }

  predicate Complete(file: CredentialsFile) {
    file.Credentials? && file.user.username != "" && file.user.password != ""
  }

  /** The adoption record's user; the agent's own only when there is no record, never instead of a bad one. */
  function LoadRuntimeNUTUser(agentConfig: CredentialsFile, adoption: CredentialsFile)
    : (r: Result<UPSDUser, ApplyError>)
    ensures r.Ok? <==> Complete(adoption) || (adoption.Missing? && Complete(agentConfig))
    ensures r.Ok? ==> r.value == if adoption.Missing? then agentConfig.user else adoption.user
    ensures r.Err? ==> (r.error in {AdoptionUnreadable, AdoptionGarbled, AdoptionIncomplete} <==> !adoption.Missing?)
  {
    match adoption
    case Missing => LoadAgentUser(agentConfig)
    case Unreadable => Err(AdoptionUnreadable)
    case Garbled => Err(AdoptionGarbled)
    case Credentials(user) =>
      if user.username == "" || user.password == "" then Err(AdoptionIncomplete) else Ok(user)
  }

  /** No map and an empty file count as an empty map; anything else that is no map is an error. */
  function LoadNameMap(files: Files, faults: Faults): (r: Result<map<string, string>, ApplyError>)
    ensures r.Ok? <==>
            && NamesJson !in faults.unreadable
            && (NamesJson in files && files[NamesJson].Plain? ==> files[NamesJson].text == "")
    ensures r.Ok? && NamesJson in files && files[NamesJson].Json? ==> r.value == files[NamesJson].names
    ensures r.Ok? && (NamesJson !in files || files[NamesJson].Plain?) ==> r.value == map[]
  {
    if NamesJson in faults.unreadable then Err(NamesUnreadable)
    else if NamesJson !in files || files[NamesJson] == Plain("") then Ok(map[])
    else match files[NamesJson]
      case Plain(_) => Err(NamesGarbled)
      case Json(names, _) => Ok(names)
  }

  // ---------- Rendering ----------

  function SortName(d: DetectedUPS): string {
    if d.name != "" then d.name else d.StableKey()
  }

  function UPSDescription(d: DetectedUPS): string {
    TrimSpace(if d.vendor == "" then d.product else if d.product == "" then d.vendor
              else d.vendor + " " + d.product)
  }

  function SectionName(d: DetectedUPS): string {
    if d.name != "" then d.name else FreeName(StableNameSource(d), {})
  }

  function Section(d: DetectedUPS): seq<string> {
    ["[" + SectionName(d) + "]", "  driver = " + d.driver, "  port = " + d.port]
    + if UPSDescription(d) == "" then [] else ["  desc = " + UPSDescription(d)]
  }

  /** The sections of ups.conf, an empty line between each two. */
  function Sections(devices: seq<DetectedUPS>): seq<string> {
    if devices == [] then []
    else Section(devices[0]) + (if |devices| == 1 then [] else [""]) + Sections(devices[1..])
  }

  function UPSConf(devices: seq<DetectedUPS>): string {
    Unlines(Sections(SortBy(devices, SortName)))
  }

  /** Writes one section, and the empty line after it unless it is the last. */
  method RenderSection(device: DetectedUPS, last: bool) returns (text: string)
    ensures text == Unlines(Section(device) + if last then [] else [""])
  {
    hide UPSDescription, FreeName, Unlines;
    var name := device.name;
    if name == "" {
      name := NextAvailableUPSName(StableNameSource(device), {});
    }
    text := ("[" + name + "]") + "\n";
    ghost var lines := ["[" + name + "]"];
    FirstLine(lines[0]);
    AddLine(lines, "  driver = " + device.driver);
    text := text + ("  driver = " + device.driver) + "\n";
    lines := lines + ["  driver = " + device.driver];
    AddLine(lines, "  port = " + device.port);
    text := text + ("  port = " + device.port) + "\n";
    lines := lines + ["  port = " + device.port];
    var desc := UPSDescription(device);
    if desc != "" {
      AddLine(lines, "  desc = " + desc);
      text := text + ("  desc = " + desc) + "\n";
      lines := lines + ["  desc = " + desc];
    }
    assert lines == Section(device);
    if !last {
      AddLine(lines, "");
      text := text + "" + "\n";
    }
    assert Section(device) + [] == Section(device);
  }

  method RenderUPSConf(devices: seq<DetectedUPS>) returns (text: string)
    ensures text == UPSConf(devices)
  {
    hide Unlines, Section, Sections, SortBy;
    var sorted := SortBy(devices, SortName);
    text := "";
    ghost var lines: seq<string> := [];
    NoLines();
    for index := 0 to |sorted|
      invariant text == Unlines(lines)
      invariant lines + Sections(sorted[index..]) == Sections(sorted)
    {
      var section := RenderSection(sorted[index], index == |sorted| - 1);
      text := text + section;
      lines := NextSection(sorted, index, lines);
    }
    assert sorted[|sorted|..] == [] && lines + [] == lines;
  }

  lemma NoLines()
    ensures Unlines([]) == "" && Sections([]) == []
  {
  }

  lemma NextSection(devices: seq<DetectedUPS>, i: nat, lines: seq<string>) returns (more: seq<string>)
    requires i < |devices|
    ensures more + Sections(devices[i + 1..]) == lines + Sections(devices[i..])
    ensures Unlines(more) == Unlines(lines) + Unlines(Section(devices[i]) + if i == |devices| - 1 then [] else [""])
  {
    hide Section, Unlines;
    var section := Section(devices[i]) + if i == |devices| - 1 then [] else [""];
    assert devices[i..][1..] == devices[i + 1..];
    more := lines + section;
    UnlinesAppend(lines, section);
    assert lines + section + Sections(devices[i + 1..]) == lines + (section + Sections(devices[i + 1..]));
  }

  lemma FirstLine(line: string)
    ensures Unlines([line]) == line + "\n"
  {
    assert [line][1..] == [];
  }

  lemma AddLine(lines: seq<string>, line: string)
    ensures Unlines(lines + [line]) == Unlines(lines) + line + "\n"
  {
    UnlinesAppend(lines, [line]);
    FirstLine(line);
  }

  const NUT_CONF: string := "MODE=netserver\n"
  const UPSD_CONF: string := "LISTEN 0.0.0.0 3493\nLISTEN :: 3493\n"

  const PROVISIONING_NOTE: string :=
    "# TODO: replace this " + "local plaintext " + "credential with " + "controller " + "provisioning in " + "Phase 3."

  function UPSDUsers(user: UPSDUser): string {
    Unlines([PROVISIONING_NOTE, "[" + user.username + "]", "  password = " + user.password, "  actions = SET",
             "  instcmds = ALL"])
  }

  // ---------- Writing ----------

  datatype Outcome = Outcome(files: Files, changed: set<Path>, failed: Option<Path>)
  {
    /** This outcome with earlier changes counted in. */
    function After(earlier: set<Path>): Outcome {
      this.(changed := earlier + changed)
    }
  }

  predicate Holds(files: Files, faults: Faults, path: Path, content: Content) {
    path in files && files[path] == content && path !in faults.unreadable
  }

  /** The effect of writing each file in turn, up to the first failure. */
  function WriteAll(files: Files, faults: Faults, writes: seq<(Path, Content)>): Outcome
    decreases |writes|
  {
    if writes == [] then Outcome(files, {}, None)
    else
      var (path, content) := writes[0];
      if Holds(files, faults, path, content) then WriteAll(files, faults, writes[1..])
      else if path in faults.unreadable then Outcome(files, {}, Some(path))
      else if path in faults.writes then
        Outcome(if faults.writes[path].AfterRename? then files[path := content] else files, {}, Some(path))
      else
        WriteAll(files[path := content], faults, writes[1..]).After({path})
  }

  /** The first write and the others. */
  lemma WriteFirst(files: Files, faults: Faults, writes: seq<(Path, Content)>, earlier: set<Path>)
    requires writes != []
    ensures var first := WriteAll(files, faults, [writes[0]]);
            && (first.failed.Some? ==> first.failed.value == writes[0].0 && first.changed == {})
            && first.changed <= {writes[0].0}
            && WriteAll(files, faults, writes).After(earlier) ==
            if first.failed.Some? then first.After(earlier)
            else WriteAll(first.files, faults, writes[1..]).After(earlier + first.changed)
  {
    assert [writes[0]][1..] == [];
  }

  lemma WriteNone(files: Files, faults: Faults)
    ensures WriteAll(files, faults, []) == Outcome(files, {}, None)
  {
  }

  lemma {:induction false} ChangesAreWritten(files: Files, faults: Faults, writes: seq<(Path, Content)>)
    ensures forall p | p in WriteAll(files, faults, writes).changed :: exists i :: 0 <= i < |writes| && writes[i].0 == p
    decreases |writes|
  {
    if writes != [] {
      var (path, content) := writes[0];
      ChangesAreWritten(files, faults, writes[1..]);
      ChangesAreWritten(files[path := content], faults, writes[1..]);
    }
  }

  /** The name map, then ups.conf, then the other files. */
  lemma WriteInTurn(files: Files, faults: Faults, writes: seq<(Path, Content)>)
    requires |writes| >= 2 && writes[0].0 == NamesJson && writes[1].0 == UpsConf
    requires forall i | 2 <= i < |writes| :: writes[i].0 != UpsConf
    ensures var first := WriteAll(files, faults, [writes[0]]);
            var second := WriteAll(first.files, faults, [writes[1]]);
            var rest := WriteAll(second.files, faults, writes[2..]);
            var all := WriteAll(files, faults, writes);
            && first.failed in {None, Some(NamesJson)} && second.failed in {None, Some(UpsConf)}
            && (if first.failed.Some? then all == first
                else if second.failed.Some? then all == second.After(first.changed)
                else all == rest.After(first.changed + second.changed))
            && first.changed <= {NamesJson} && second.changed <= {UpsConf} && UpsConf !in rest.changed
  {
    hide WriteAll;
    var first := WriteAll(files, faults, [writes[0]]);
    var second := WriteAll(first.files, faults, [writes[1]]);
    var all := WriteAll(files, faults, writes);
    assert all.After({}) == all && first.After({}) == first;
    WriteFirst(files, faults, writes, {});
    WriteFirst(first.files, faults, writes[1..], first.changed);
    assert writes[1..][1..] == writes[2..];
    ChangesAreWritten(second.files, faults, writes[2..]);
  }

  function Others(user: UPSDUser): seq<(Path, Content)> {
    [(NutConf, Plain(NUT_CONF)), (UpsdConf, Plain(UPSD_CONF)), (UpsdUsers, Plain(UPSDUsers(user)))]
  }

  function NewUPSConf(devices: seq<DetectedUPS>, names: seq<string>): Content
    requires |names| == |devices|
  {
    Plain(UPSConf(WithNames(devices, names)))
  }

  /** The files of a scan in the order they are written. */
  function Writes(devices: seq<DetectedUPS>, persisted: map<string, string>, user: UPSDUser): seq<(Path, Content)> {
    var names := StableNames(devices, persisted);
    [(NamesJson, Json(NameMap(devices, names), true)), (UpsConf, NewUPSConf(devices, names))] + Others(user)
  }

  /** The drivers to restart: every device's, in order, when ups.conf changed. */
  ghost function Restart(upsChanged: bool, devices: seq<DetectedUPS>): seq<string> {
    if upsChanged then Listing(set d | d in devices && d.name != "" :: d.name) else []
  }

  method RestartUnitsForUPSChange(upsChanged: bool, devices: seq<DetectedUPS>) returns (names: seq<string>)
    ensures names == Restart(upsChanged, devices)
  {
    if !upsChanged {
      return [];
    }
    var seen := {};
    names := [];
    for i := 0 to |devices|
      invariant seen == (set d | d in devices[..i] && d.name != "" :: d.name)
      invariant forall n :: n in names <==> n in seen
      invariant DistinctKeys(names, Itself)
    {
      var device := devices[i];
      assert devices[..i + 1] == devices[..i] + [device];
      if device.name == "" {
        continue;
      }
      if device.name in seen {
        continue;
      }
      seen := seen + {device.name};
      forall j | 0 <= j < |names| ensures Itself(names[j]) != Itself(device.name) {
        assert names[j] in names;
      }
      names := names + [device.name];
    }
    assert devices[..|devices|] == devices;
    SortBySorted(names, Itself);
    SortByElements(names, Itself);
    names := SortStrings(names);
    StrictlySortedUnique(names, Restart(upsChanged, devices), Itself);
  }

  /** One apply: the files it leaves and what it returns. */
  ghost function Apply(files: Files, user: Result<UPSDUser, ApplyError>, devices: seq<DetectedUPS>, faults: Faults)
    : (Files, Result<Applied, ApplyError>)
  {
    match user
    case Err(e) => (files, Err(e))
    case Ok(u) =>
      match LoadNameMap(files, faults)
      case Err(e) => (files, Err(e))
      case Ok(persisted) =>
        var outcome := WriteAll(files, faults, Writes(devices, persisted, u));
        var named := WithNames(devices, StableNames(devices, persisted));
        (outcome.files,
         if outcome.failed.Some? then Err(WriteFailed(outcome.failed.value))
         else Ok(Applied(named, outcome.changed != {}, Restart(UpsConf in outcome.changed, named), u)))
  }

  class AgentRuntime {
    var files: Files
    var agentConfig: CredentialsFile
    var adoption: CredentialsFile

    constructor (files: Files, agentConfig: CredentialsFile, adoption: CredentialsFile)
      ensures this.files == files && this.agentConfig == agentConfig && this.adoption == adoption
    {
      this.files, this.agentConfig, this.adoption := files, agentConfig, adoption;
    }

    /** Replaces a file unless it has the content already; None on failure. */
    method WriteIfChanged(path: Path, content: Content, faults: Faults) returns (changed: Option<bool>)
      modifies `files
      ensures var outcome := WriteAll(old(files), faults, [(path, content)]);
              && files == outcome.files
              && changed == if outcome.failed.Some? then None else Some(path in outcome.changed)
    {
      if path !in faults.unreadable && path in files && files[path] == content {
        return Some(false);
      }
      if path in faults.unreadable {
        return None;
      }
      if path in faults.writes && faults.writes[path].BeforeRename? {
        return None;
      }
      files := files[path := content];
      if path in faults.writes {
        return None;
      }
      changed := Some(true);
    }

    /** Writes each file that differs, up to the first failure. */
    method WriteEach(writes: seq<(Path, Content)>, faults: Faults) returns (changed: bool, failed: Option<Path>)
      modifies `files
      ensures var outcome := WriteAll(old(files), faults, writes);
              files == outcome.files && failed == outcome.failed && changed == (outcome.changed != {})
    {
      hide WriteAll;
      ghost var outcome := WriteAll(files, faults, writes);
      ghost var done: set<Path> := {};
      changed := false;
      assert outcome.After({}) == outcome;
      for i := 0 to |writes|
        invariant outcome == WriteAll(files, faults, writes[i..]).After(done)
        invariant changed == (done != {})
      {
        WriteFirst(files, faults, writes[i..], done);
        assert writes[i..][1..] == writes[i + 1..];
        var fileChanged := WriteIfChanged(writes[i].0, writes[i].1, faults);
        if fileChanged.None? {
          return changed, Some(writes[i].0);
        }
        changed := changed || fileChanged.value;
        done := done + if fileChanged.value then {writes[i].0} else {};
      }
      WriteNone(files, faults);
      failed := None;
    }

    method ApplyScan(devices: seq<DetectedUPS>, faults: Faults) returns (result: Result<Applied, ApplyError>)
      modifies `files
      ensures (files, result) == Apply(old(files), LoadRuntimeNUTUser(agentConfig, adoption), devices, faults)
    {
      hide StableNames, NameMap, UPSConf, UPSDUsers, Restart, WriteAll, Unlines;
      var loaded := LoadRuntimeNUTUser(agentConfig, adoption);
      if loaded.Err? {
        return Err(loaded.error);
      }
      var user := loaded.value;
      var persisted := LoadNameMap(files, faults);
      if persisted.Err? {
        return Err(persisted.error);
      }
      var named, nextMap := AssignStableNames(devices, persisted.value);
      ghost var writes := Writes(devices, persisted.value, user);
      WriteInTurn(files, faults, writes);
      var namesChanged := WriteIfChanged(NamesJson, Json(nextMap, true), faults);
      if namesChanged.None? {
        return Err(WriteFailed(NamesJson));
      }
      var conf := RenderUPSConf(named);
      var upsChanged := WriteIfChanged(UpsConf, Plain(conf), faults);
      if upsChanged.None? {
        return Err(WriteFailed(UpsConf));
      }
      var othersChanged, failed := WriteEach(Others(user), faults);
      if failed.Some? {
        return Err(WriteFailed(failed.value));
      }
      var changed := namesChanged.value || upsChanged.value || othersChanged;
      var restart := RestartUnitsForUPSChange(upsChanged.value, named);
      result := Ok(Applied(named, changed, restart, user));
    }
  }

  // ---------- What an apply reports ----------

  ghost predicate DistinctPaths(writes: seq<(Path, Content)>) {
    forall i, j | 0 <= i < j < |writes| :: writes[i].0 != writes[j].0
  }

  ghost predicate AllHold(files: Files, faults: Faults, writes: seq<(Path, Content)>) {
    forall i | 0 <= i < |writes| :: Holds(files, faults, writes[i].0, writes[i].1)
  }

  predicate Differs(files: Files, other: Files, p: Path) {
    (p in files) != (p in other) || (p in files && files[p] != other[p])
  }

  /** When every write succeeds the files have the new contents, all others are untouched, and the paths
      counted as changed are those whose content differs from before. */
  lemma {:induction false} WritesTakeEffect(files: Files, faults: Faults, writes: seq<(Path, Content)>)
    requires DistinctPaths(writes) && WriteAll(files, faults, writes).failed.None?
    ensures var outcome := WriteAll(files, faults, writes);
            && AllHold(outcome.files, faults, writes)
            && (forall p | Differs(files, outcome.files, p) :: exists i :: 0 <= i < |writes| && writes[i].0 == p)
            && (forall p :: p in outcome.changed <==> Differs(files, outcome.files, p))
    decreases |writes|
  {
    if writes != [] {
      var (path, content) := writes[0];
      var holds := Holds(files, faults, path, content);
      var next := if holds then files else files[path := content];
      WritesTakeEffect(next, faults, writes[1..]);
      var outcome := WriteAll(files, faults, writes);
      assert !Differs(next, outcome.files, path);
      forall i | 0 <= i < |writes| ensures Holds(outcome.files, faults, writes[i].0, writes[i].1) {
        if i > 0 {
          assert writes[i] == writes[1..][i - 1];
        }
      }
      forall p | Differs(files, outcome.files, p) ensures exists i :: 0 <= i < |writes| && writes[i].0 == p {
        if Differs(next, outcome.files, p) {
          var i :| 0 <= i < |writes[1..]| && writes[1..][i].0 == p;
          assert writes[i + 1].0 == p;
        } else {
          assert writes[0].0 == p;
        }
      }
    }
  }

  /** The file has the content already, or nothing stands in the way of writing it. */
  predicate Writable(files: Files, faults: Faults, write: (Path, Content)) {
    Holds(files, faults, write.0, write.1) || (write.0 !in faults.unreadable && write.0 !in faults.writes)
  }

  /** The writes fail at the first one that is needed and cannot be done. */
  lemma {:induction false} FailsAtTheFirst(files: Files, faults: Faults, writes: seq<(Path, Content)>)
    requires DistinctPaths(writes)
    ensures var failed := WriteAll(files, faults, writes).failed;
            && (failed.None? <==> forall i | 0 <= i < |writes| :: Writable(files, faults, writes[i]))
            && (failed.Some? ==>
                  exists i :: 0 <= i < |writes| && writes[i].0 == failed.value && !Writable(files, faults, writes[i])
                              && forall j | 0 <= j < i :: Writable(files, faults, writes[j]))
    decreases |writes|
  {
    if writes != [] && Writable(files, faults, writes[0]) {
      var (path, content) := writes[0];
      var next := if Holds(files, faults, path, content) then files else files[path := content];
      FailsAtTheFirst(next, faults, writes[1..]);
      forall i | 1 <= i < |writes|
        ensures Writable(files, faults, writes[i]) <==> Writable(next, faults, writes[1..][i - 1])
      {
      }
      var failed := WriteAll(files, faults, writes).failed;
      assert failed == WriteAll(next, faults, writes[1..]).failed;
      if failed.Some? {
        var i :| 0 <= i < |writes[1..]| && writes[1..][i].0 == failed.value && !Writable(next, faults, writes[1..][i])
                 && forall j | 0 <= j < i :: Writable(next, faults, writes[1..][j]);
        assert writes[i + 1] == writes[1..][i];
        forall j | 0 <= j < i + 1 ensures Writable(files, faults, writes[j]) {
          if j > 0 {
            assert Writable(next, faults, writes[1..][j - 1]);
          }
        }
      }
    }
  }

  /** Contents that are already there cause no write, so no fault can occur. */
  lemma {:induction false} NothingToWrite(files: Files, faults: Faults, writes: seq<(Path, Content)>)
    requires AllHold(files, faults, writes)
    ensures WriteAll(files, faults, writes) == Outcome(files, {}, None)
    decreases |writes|
  {
    if writes != [] {
      NothingToWrite(files, faults, writes[1..]);
    }
  }

  lemma SameFiles(files: Files, other: Files)
    requires forall p | p in files || p in other :: !Differs(files, other, p)
    ensures files == other
  {
    assert forall p :: p in files <==> p in other by {
      forall p ensures p in files <==> p in other {
        assert p in files || p in other ==> !Differs(files, other, p);
      }
    }
  }

  /** A successful apply reports a change exactly when some file changed, and asks for driver restarts only
      when ups.conf did: then for every device, each once. */
  lemma ReportIsExact(files: Files, user: Result<UPSDUser, ApplyError>, devices: seq<DetectedUPS>, faults: Faults)
    requires Apply(files, user, devices, faults).1.Ok?
    ensures var (after, result) := Apply(files, user, devices, faults);
            && (result.value.changed <==> after != files)
            && var names := StableNames(devices, LoadNameMap(files, faults).value);
               result.value.restart == if Differs(files, after, UpsConf) then Listing(Elements(names)) else []
  {
    hide UPSConf, StableNames, NameMap, Unlines, WriteAll, WithNames, UPSDUsers;
    var persisted := LoadNameMap(files, faults).value;
    var writes := Writes(devices, persisted, user.value);
    var outcome := WriteAll(files, faults, writes);
    WritesTakeEffect(files, faults, writes);
    if outcome.changed == {} {
      assert forall p | p in files || p in outcome.files :: !Differs(files, outcome.files, p);
      SameFiles(files, outcome.files);
    } else {
      var p :| p in outcome.changed;
      assert Differs(files, outcome.files, p);
    }
    NamesAreDistinct(devices, persisted);
    NamesOf(devices, StableNames(devices, persisted));
  }

  lemma PathsOf(devices: seq<DetectedUPS>, persisted: map<string, string>, user: UPSDUser)
    ensures var writes := Writes(devices, persisted, user);
            && |writes| == 5 && DistinctPaths(writes)
            && writes[0].0 == NamesJson && writes[1].0 == UpsConf && writes[2].0 == NutConf
            && writes[3].0 == UpsdConf && writes[4].0 == UpsdUsers
  {
    hide UPSConf, StableNames, NameMap, WithNames, UPSDUsers;
  }

  /** What a successful apply leaves in each file, and the devices and the user it reports. */
  lemma AppliedContents(files: Files, user: Result<UPSDUser, ApplyError>, devices: seq<DetectedUPS>, faults: Faults)
    requires Apply(files, user, devices, faults).1.Ok?
    ensures var (after, result) := Apply(files, user, devices, faults);
            && user.Ok? && LoadNameMap(files, faults).Ok?
            && var names := StableNames(devices, LoadNameMap(files, faults).value);
               && (forall p: Path :: p in after)
               && after[NamesJson] == Json(NameMap(devices, names), true)
               && after[UpsConf] == Plain(UPSConf(WithNames(devices, names)))
               && after[NutConf] == Plain("MODE=netserver\n")
               && after[UpsdConf] == Plain("LISTEN 0.0.0.0 3493\nLISTEN :: 3493\n")
               && after[UpsdUsers] == Plain(UPSDUsers(user.value))
               && result.value.devices == WithNames(devices, names) && result.value.user == user.value
  {
    hide UPSConf, StableNames, NameMap, WithNames, WriteAll, Restart, UPSDUsers;
    var after := Apply(files, user, devices, faults).0;
    var writes := Writes(devices, LoadNameMap(files, faults).value, user.value);
    PathsOf(devices, LoadNameMap(files, faults).value, user.value);
    WritesTakeEffect(files, faults, writes);
    assert forall i | 0 <= i < 5 :: Holds(after, faults, writes[i].0, writes[i].1);
    forall p: Path ensures p in after {
      assert p == NamesJson || p == UpsConf || p == NutConf || p == UpsdConf || p == UpsdUsers;
    }
  }

  /** An apply succeeds exactly when the user and the name map can be loaded and each file can be written, as far
      as it has to be. */
  lemma AppliesExactly(files: Files, user: Result<UPSDUser, ApplyError>, devices: seq<DetectedUPS>, faults: Faults)
    ensures Apply(files, user, devices, faults).1.Ok? <==>
            && user.Ok? && LoadNameMap(files, faults).Ok?
            && var writes := Writes(devices, LoadNameMap(files, faults).value, user.value);
               forall i | 0 <= i < 5 :: Writable(files, faults, writes[i])
    ensures (user.Err? || LoadNameMap(files, faults).Err?) ==> Apply(files, user, devices, faults).0 == files
  {
    hide UPSConf, StableNames, NameMap, WithNames, WriteAll, Restart, UPSDUsers, Others, LoadNameMap, Writable;
    if user.Ok? && LoadNameMap(files, faults).Ok? {
      PathsOf(devices, LoadNameMap(files, faults).value, user.value);
      FailsAtTheFirst(files, faults, Writes(devices, LoadNameMap(files, faults).value, user.value));
    }
  }

  lemma NamesOf(devices: seq<DetectedUPS>, names: seq<string>)
    requires |names| == |devices| && AllDistinct(names)
    ensures (set d | d in WithNames(devices, names) && d.name != "" :: d.name) == Elements(names)
  {
    var named := WithNames(devices, names);
    forall i | 0 <= i < |names| ensures named[i] in named && named[i].name == names[i] {
    }
  }

  /** The only user an apply writes into upsd.users is the one it loaded, and a successful apply leaves it there. */
  lemma ApplyWritesUser(files: Files, user: Result<UPSDUser, ApplyError>, devices: seq<DetectedUPS>, faults: Faults)
    ensures var (after, result) := Apply(files, user, devices, faults);
            && (result.Ok? || Differs(files, after, UpsdUsers) ==>
                  && user.Ok? && UpsdUsers in after && after[UpsdUsers] == Plain(UPSDUsers(user.value)))
  {
    hide UPSConf, StableNames, NameMap, WithNames, WriteAll, Restart, UPSDUsers, Listing;
    if user.Ok? && LoadNameMap(files, faults).Ok? {
      var writes := Writes(devices, LoadNameMap(files, faults).value, user.value);
      OnlyNewContents(files, faults, writes, UpsdUsers, writes[4].1);
      if WriteAll(files, faults, writes).failed.None? {
        WritesTakeEffect(files, faults, writes);
        assert Holds(WriteAll(files, faults, writes).files, faults, writes[4].0, writes[4].1);
      }
    }
  }

  /** A path that is written with one content only either keeps its content or gets that one. */
  lemma {:induction false} OnlyNewContents(files: Files, faults: Faults, writes: seq<(Path, Content)>, p: Path,
                                           content: Content)
    requires forall i | 0 <= i < |writes| && writes[i].0 == p :: writes[i].1 == content
    ensures var after := WriteAll(files, faults, writes).files;
            Differs(files, after, p) ==> p in after && after[p] == content
    decreases |writes|
  {
    if writes != [] {
      var (path, replacement) := writes[0];
      OnlyNewContents(files, faults, writes[1..], p, content);
      OnlyNewContents(files[path := replacement], faults, writes[1..], p, content);
    }
  }

  // ---------- Reading ups.conf back ----------

  predicate IsHeader(line: string) {
    |line| >= 2 && line[0] == '[' && line[|line| - 1] == ']'
  }

  function HeaderNames(lines: seq<string>): seq<string> {
    if lines == [] then []
    else (if IsHeader(lines[0]) then [lines[0][1..|lines[0]| - 1]] else []) + HeaderNames(lines[1..])
  }

  /** The lines of a text in which every line is ended. */
  function Lines(text: string): seq<string>
    decreases |text|
  {
    match ReadLine(text)
    case None => []
    case Some((line, rest)) => [line] + Lines(rest)
  }

  ghost predicate AllLack(texts: seq<string>, c: char) {
    forall i | 0 <= i < |texts| :: c !in texts[i]
  }

  lemma {:induction false} LinesOf(lines: seq<string>)
    requires AllLack(lines, '\n')
    ensures Lines(Unlines(lines)) == lines
  {
    hide ReadLine, IndexOf;
    if lines != [] {
      ReadLineFirst(lines[0], Unlines(lines[1..]));
      LinesOf(lines[1..]);
    }
  }

  /** Scanner output is read line by line, so its fields have no newline. */
  predicate OneLine(d: DetectedUPS) {
    && '\n' !in d.name && '\n' !in d.driver && '\n' !in d.port && '\n' !in d.vendor && '\n' !in d.product
  }

  lemma SectionReadsBack(d: DetectedUPS)
    requires d.name != "" && OneLine(d)
    ensures AllLack(Section(d), '\n')
    ensures |Section(d)| >= 3 && IsHeader(Section(d)[0]) && Section(d)[0][1..|Section(d)[0]| - 1] == d.name
    ensures forall i | 1 <= i < |Section(d)| :: !IsHeader(Section(d)[i])
  {
    hide FreeName, TrimLeft, TrimRight, IsSpace;
    var text := if d.vendor == "" then d.product else if d.product == "" then d.vendor
                else d.vendor + " " + d.product;
    TrimLeftLacks(text, '\n');
    TrimRightLacks(TrimLeft(text), '\n');
  }

  lemma {:induction false} NotHeaders(lines: seq<string>)
    requires forall i | 0 <= i < |lines| :: !IsHeader(lines[i])
    ensures HeaderNames(lines) == []
  {
    if lines != [] {
      NotHeaders(lines[1..]);
    }
  }

  lemma {:induction false} HeaderNamesAppend(a: seq<string>, b: seq<string>)
    ensures HeaderNames(a + b) == HeaderNames(a) + HeaderNames(b)
  {
    if a == [] {
      assert a + b == b;
    } else {
      assert (a + b)[1..] == a[1..] + b;
      HeaderNamesAppend(a[1..], b);
      var first := if IsHeader(a[0]) then [a[0][1..|a[0]| - 1]] else [];
      assert HeaderNames(a + b) == first + HeaderNames(a[1..] + b);
      assert first + (HeaderNames(a[1..]) + HeaderNames(b)) == (first + HeaderNames(a[1..])) + HeaderNames(b);
    }
  }

  function NamesIn(devices: seq<DetectedUPS>): seq<string> {
    seq(|devices|, i requires 0 <= i < |devices| => devices[i].name)
  }

  lemma {:induction false} SectionsReadBack(devices: seq<DetectedUPS>)
    requires forall i | 0 <= i < |devices| :: devices[i].name != "" && OneLine(devices[i])
    ensures AllLack(Sections(devices), '\n') && HeaderNames(Sections(devices)) == NamesIn(devices)
  {
    hide Section, OneLine, IsHeader;
    if devices != [] {
      SectionReadsBack(devices[0]);
      SectionsReadBack(devices[1..]);
      var section, gap := Section(devices[0]), if |devices| == 1 then [] else [""];
      NotHeaders(section[1..]);
      NotAHeader();
      NotHeaders(gap);
      HeaderNamesAppend(section + gap, Sections(devices[1..]));
      HeaderNamesAppend(section, gap);
      assert NamesIn(devices) == [devices[0].name] + NamesIn(devices[1..]);
    }
  }

  lemma NotAHeader()
    ensures !IsHeader("")
  {
  }

  lemma FreeNameLacks(source: string, used: set<string>)
    ensures '\n' !in FreeName(source, used)
  {
    hide NormalizeUPSName, Decimal;
    var base := NormalizeUPSName(source);
    NormalizedIsBase(source);
    assert forall i | 0 <= i < |base| :: base[i] != '\n' by {
      assert forall i | 0 <= i < 4 :: base[i] == base[..4][i];
    }
  }

  lemma StableNamesLack(devices: seq<DetectedUPS>, persisted: map<string, string>)
    requires forall k | k in persisted :: '\n' !in persisted[k]
    ensures AllLack(StableNames(devices, persisted), '\n')
  {
    hide StableNames, FreeName;
    var names := StableNames(devices, persisted);
    forall i | 0 <= i < |names| ensures '\n' !in names[i] {
      StableNameAt(devices, persisted, i);
      FreeNameLacks(StableNameSource(devices[i]), Elements(names[..i]));
    }
  }

  /** The sections of the written ups.conf are the devices' names, each once and in order: the same list as
      the drivers a restart names. */
  lemma UPSConfListsDevices(devices: seq<DetectedUPS>, persisted: map<string, string>)
    requires forall i | 0 <= i < |devices| :: OneLine(devices[i])
    requires forall k | k in persisted :: '\n' !in persisted[k]
    ensures var named := WithNames(devices, StableNames(devices, persisted));
            HeaderNames(Lines(UPSConf(named))) == Restart(true, named)
  {
    hide StableNames, FreeName, Section, Sections, Unlines, Lines, SortBy;
    var names := StableNames(devices, persisted);
    var named := WithNames(devices, names);
    NamesAreDistinct(devices, persisted);
    StableNamesLack(devices, persisted);
    var sorted := SortBy(named, SortName);
    SortBySorted(named, SortName);
    SortByElements(named, SortName);
    forall i | 0 <= i < |sorted| ensures sorted[i].name != "" && OneLine(sorted[i]) {
      assert sorted[i] in named;
    }
    SectionsReadBack(sorted);
    LinesOf(Sections(sorted));
    SortedNames(sorted, named);
  }

  /** The lines up to the next header. */
  function Body(lines: seq<string>): seq<string> {
    if lines == [] || IsHeader(lines[0]) then [] else [lines[0]] + Body(lines[1..])
  }

  /** The sections of a NUT configuration file: each header's name with the lines that follow it. */
  function Blocks(lines: seq<string>): seq<(string, seq<string>)> {
    if lines == [] then []
    else
      (if IsHeader(lines[0]) then [(lines[0][1..|lines[0]| - 1], Body(lines[1..]))] else []) + Blocks(lines[1..])
  }

  /** The value a section gives a key. */
  function ValueOf(body: seq<string>, key: string): Option<string> {
    if body == [] then None
    else if "  " + key + " = " <= body[0] then Some(body[0][|key| + 5..])
    else ValueOf(body[1..], key)
  }

  lemma {:induction false} BlocksSkip(body: seq<string>, more: seq<string>)
    requires forall i | 0 <= i < |body| :: !IsHeader(body[i])
    requires more == [] || IsHeader(more[0])
    ensures Body(body + more) == body && Blocks(body + more) == Blocks(more)
  {
    hide IsHeader;
    if body == [] {
      assert body + more == more;
    } else {
      assert (body + more)[1..] == body[1..] + more;
      BlocksSkip(body[1..], more);
    }
  }

  lemma BlocksAtHeader(lines: seq<string>)
    requires lines != [] && IsHeader(lines[0])
    ensures Blocks(lines) == [(lines[0][1..|lines[0]| - 1], Body(lines[1..]))] + Blocks(lines[1..])
  {
    hide Body;
  }

  lemma AfterFirst(line: string, body: seq<string>, more: seq<string>)
    ensures var lines := [line] + body + more; lines[0] == line && lines[1..] == body + more
  {
  }

  lemma BlocksFirst(header: string, body: seq<string>, more: seq<string>)
    requires IsHeader(header) && forall i | 0 <= i < |body| :: !IsHeader(body[i])
    requires more == [] || IsHeader(more[0])
    ensures Blocks([header] + body + more) == [(header[1..|header| - 1], body)] + Blocks(more)
  {
    hide IsHeader, Body, Blocks;
    BlocksSkip(body, more);
    AfterFirst(header, body, more);
    BlocksAtHeader([header] + body + more);
  }

  lemma ValueFirst(key: string, value: string, more: seq<string>)
    ensures ValueOf(["  " + key + " = " + value] + more, key) == Some(value)
  {
    var line := "  " + key + " = " + value;
    assert line[|key| + 5..] == value;
    assert "  " + key + " = " <= line;
  }

  lemma ValueSkip(line: string, more: seq<string>, key: string)
    requires !("  " + key + " = " <= line)
    ensures ValueOf([line] + more, key) == ValueOf(more, key)
  {
    assert ([line] + more)[1..] == more;
  }

  /** Vendor and product, those there are, a space between them and no white space around. */
  function Described(d: DetectedUPS): string {
    var vendor := if d.vendor == "" then [] else [d.vendor];
    var product := if d.product == "" then [] else [d.product];
    if vendor + product == [] then "" else TrimSpace(Join(vendor + product, ' '))
  }

  /** The section says what the device is: its driver, its port, and its description, if it has one. */
  predicate Configures(body: seq<string>, d: DetectedUPS) {
    && ValueOf(body, "driver") == Some(d.driver)
    && ValueOf(body, "port") == Some(d.port)
    && ValueOf(body, "desc") == if Described(d) == "" then None else Some(Described(d))
  }

  lemma KeysDiffer(value: string, other: string)
    ensures !("  " + "port" + " = " <= "  " + "driver" + " = " + value)
    ensures !("  " + "desc" + " = " <= "  " + "driver" + " = " + value)
    ensures !("  " + "desc" + " = " <= "  " + "port" + " = " + other)
    ensures !("  " + "desc" + " = " <= "")
  {
    assert ("  " + "port" + " = ")[2] == 'p' && ("  " + "desc" + " = ")[2] == 'd' && ("  " + "desc" + " = ")[3] == 'e';
    assert ("  " + "driver" + " = " + value)[2] == 'd' && ("  " + "driver" + " = " + value)[3] == 'r';
    assert ("  " + "port" + " = " + other)[2] == 'p';
  }

  lemma SectionConfigures(d: DetectedUPS, gap: seq<string>)
    requires gap == [] || gap == [""]
    ensures Configures(Section(d)[1..] + gap, d)
  {
    hide Described, SectionName, UPSDescription, ValueOf;
    assert UPSDescription(d) == Described(d) by { SameDescription(d); }
    var driver, port := "  " + "driver" + " = " + d.driver, "  " + "port" + " = " + d.port;
    assert "  " + "driver" + " = " == "  driver = " && "  " + "port" + " = " == "  port = ";
    assert "  " + "desc" + " = " == "  desc = ";
    var desc := if Described(d) == "" then [] else ["  " + "desc" + " = " + Described(d)];
    assert Section(d)[1..] + gap == [driver] + ([port] + (desc + gap));
    KeysDiffer(d.driver, d.port);
    ValueFirst("driver", d.driver, [port] + (desc + gap));
    ValueSkip(driver, [port] + (desc + gap), "port");
    ValueFirst("port", d.port, desc + gap);
    ValueSkip(driver, [port] + (desc + gap), "desc");
    ValueSkip(port, desc + gap, "desc");
    if desc == [] {
      assert desc + gap == gap;
      NoDescription(gap);
    } else {
      ValueFirst("desc", Described(d), gap);
    }
  }

  lemma SameDescription(d: DetectedUPS)
    ensures UPSDescription(d) == Described(d)
  {
    hide TrimSpace;
    var vendor := if d.vendor == "" then [] else [d.vendor];
    var product := if d.product == "" then [] else [d.product];
    if d.vendor == "" && d.product == "" {
      NothingToTrim();
    } else if d.vendor == "" {
      assert vendor + product == [d.product];
    } else if d.product == "" {
      assert vendor + product == [d.vendor];
    } else {
      assert vendor + product == [d.vendor, d.product] && [d.vendor, d.product][1..] == [d.product];
      assert Join([d.product], ' ') == d.product;
      assert d.vendor + [' '] + d.product == d.vendor + " " + d.product;
    }
  }

  lemma NoDescription(gap: seq<string>)
    requires gap == [] || gap == [""]
    ensures ValueOf(gap, "desc").None?
  {
    KeysDiffer("", "");
  }

  /** Read back section by section, the text configures exactly the devices, in order, each under its name. */
  ghost predicate ReadsAs(blocks: seq<(string, seq<string>)>, devices: seq<DetectedUPS>) {
    && |blocks| == |devices|
    && forall i | 0 <= i < |devices| :: blocks[i].0 == devices[i].name && Configures(blocks[i].1, devices[i])
  }

  lemma {:induction false} SectionsConfigure(devices: seq<DetectedUPS>)
    requires forall i | 0 <= i < |devices| :: devices[i].name != "" && OneLine(devices[i])
    ensures ReadsAs(Blocks(Sections(devices)), devices)
    ensures devices != [] ==> IsHeader(Sections(devices)[0])
  {
    hide Section, OneLine, IsHeader, Configures, Body;
    if devices != [] {
      var d, rest := devices[0], Sections(devices[1..]);
      var section, gap := Section(d), if |devices| == 1 then [] else [""];
      SectionReadsBack(d);
      SectionsConfigure(devices[1..]);
      SectionConfigures(d, gap);
      NotAHeader();
      assert Sections(devices) == [section[0]] + (section[1..] + gap) + rest;
      BlocksFirst(section[0], section[1..] + gap, rest);
      assert Sections([]) == [];
    }
  }

  /** Read back, the written ups.conf has one section a device, in the order of the names, and each gives the driver,
      the port and the description of the device whose name heads it. */
  lemma UPSConfConfigures(devices: seq<DetectedUPS>, persisted: map<string, string>)
    requires forall i | 0 <= i < |devices| :: OneLine(devices[i])
    requires forall k | k in persisted :: '\n' !in persisted[k]
    ensures var named := WithNames(devices, StableNames(devices, persisted));
            var sorted := SortBy(named, SortName);
            && multiset(sorted) == multiset(named) && StrictlySorted(sorted, SortName)
            && ReadsAs(Blocks(Lines(UPSConf(named))), sorted)
  {
    hide StableNames, FreeName, Section, Sections, Unlines, Lines, SortBy, Blocks;
    var names := StableNames(devices, persisted);
    var named := WithNames(devices, names);
    NamesAreDistinct(devices, persisted);
    StableNamesLack(devices, persisted);
    var sorted := SortBy(named, SortName);
    SortBySorted(named, SortName);
    SortByElements(named, SortName);
    SortBySame(named, SortName);
    forall i | 0 <= i < |sorted| ensures sorted[i].name != "" && OneLine(sorted[i]) {
      assert sorted[i] in named;
    }
    SectionsReadBack(sorted);
    LinesOf(Sections(sorted));
    SectionsConfigure(sorted);
  }

  /** The keys of a upsd.users section with these values. */
  function Settings(password: string, actions: string, instcmds: string): seq<string> {
    ["  " + "password" + " = " + password, "  " + "actions" + " = " + actions, "  " + "instcmds" + " = " + instcmds]
  }

  lemma UPSDUsersLines(user: UPSDUser)
    ensures UPSDUsers(user) ==
            Unlines([PROVISIONING_NOTE] + (["[" + user.username + "]"] + Settings(user.password, "SET", "ALL")))
  {
    hide Unlines;
    assert "  " + "password" + " = " == "  password = ";
    assert "  " + "actions" + " = " + "SET" == "  actions = SET";
    assert "  " + "instcmds" + " = " + "ALL" == "  instcmds = ALL";
    assert [PROVISIONING_NOTE] + (["[" + user.username + "]"] + Settings(user.password, "SET", "ALL")) ==
           [PROVISIONING_NOTE, "[" + user.username + "]", "  password = " + user.password, "  actions = SET",
            "  instcmds = ALL"];
  }

  lemma HeaderOf(name: string)
    ensures var header := "[" + name + "]"; IsHeader(header) && header[1..|header| - 1] == name
  {
  }

  lemma SettingsAreNoHeaders(password: string, actions: string, instcmds: string)
    ensures var body := Settings(password, actions, instcmds);
            forall i | 0 <= i < |body| :: !IsHeader(body[i])
  {
    assert forall i | 0 <= i < 3 :: Settings(password, actions, instcmds)[i][0] == ' ';
  }

  lemma NoteIsNoHeader()
    ensures !IsHeader(PROVISIONING_NOTE) && '\n' !in PROVISIONING_NOTE
  {
    assert PROVISIONING_NOTE[0] == '#';
  }

  lemma SettingsLack(user: UPSDUser)
    requires '\n' !in user.username && '\n' !in user.password
    ensures AllLack(["[" + user.username + "]"] + Settings(user.password, "SET", "ALL"), '\n')
  {
  }

  lemma SettingsReadBack(password: string, actions: string, instcmds: string)
    ensures var body := Settings(password, actions, instcmds);
            && ValueOf(body, "password") == Some(password)
            && ValueOf(body, "actions") == Some(actions) && ValueOf(body, "instcmds") == Some(instcmds)
  {
    hide ValueOf;
    var first, second := "  " + "password" + " = " + password, "  " + "actions" + " = " + actions;
    var third := "  " + "instcmds" + " = " + instcmds;
    assert Settings(password, actions, instcmds) == [first] + ([second] + ([third] + []));
    assert first[2] == 'p' && second[2] == 'a';
    assert ("  " + "actions" + " = ")[2] == 'a' && ("  " + "instcmds" + " = ")[2] == 'i';
    ValueFirst("password", password, [second] + ([third] + []));
    ValueSkip(first, [second] + ([third] + []), "actions");
    ValueFirst("actions", actions, [third] + []);
    ValueSkip(first, [second] + ([third] + []), "instcmds");
    ValueSkip(second, [third] + [], "instcmds");
    ValueFirst("instcmds", instcmds, []);
  }

  /** Read back, upsd.users gives exactly one user, with the password and all rights. */
  lemma UPSDUsersReadBack(user: UPSDUser)
    requires '\n' !in user.username && '\n' !in user.password
    ensures var blocks := Blocks(Lines(UPSDUsers(user)));
            && |blocks| == 1 && blocks[0].0 == user.username
            && ValueOf(blocks[0].1, "password") == Some(user.password)
            && ValueOf(blocks[0].1, "actions") == Some("SET") && ValueOf(blocks[0].1, "instcmds") == Some("ALL")
  {
    hide Unlines, Lines, Blocks, ValueOf, UPSDUsers, Settings;
    hide IsHeader;
    var header, body := "[" + user.username + "]", Settings(user.password, "SET", "ALL");
    UPSDUsersLines(user);
    NoteIsNoHeader();
    SettingsLack(user);
    LinesOf([PROVISIONING_NOTE] + ([header] + body));
    SettingsAreNoHeaders(user.password, "SET", "ALL");
    assert IsHeader(header) && header[1..|header| - 1] == user.username by { HeaderOf(user.username); }
    BlocksSkip([PROVISIONING_NOTE], [header] + body);
    assert [header] + body + [] == [header] + body;
    BlocksFirst(header, body, []);
    NoBlocks();
    SettingsReadBack(user.password, "SET", "ALL");
  }

  lemma NoBlocks()
    ensures Blocks([]) == []
  {
  }

  lemma SortedNames(sorted: seq<DetectedUPS>, named: seq<DetectedUPS>)
    requires StrictlySorted(sorted, SortName) && forall d :: d in sorted <==> d in named
    requires forall d | d in named :: d.name != ""
    ensures NamesIn(sorted) == Restart(true, named)
  {
    var names := NamesIn(sorted);
    forall i, j | 0 <= i < j < |names| ensures Less(Itself(names[i]), Itself(names[j])) {
      assert sorted[i] in named && sorted[j] in named;
      assert Less(SortName(sorted[i]), SortName(sorted[j]));
    }
    forall n ensures n in names <==> n in Restart(true, named) {
      if n in names {
        var i :| 0 <= i < |names| && names[i] == n;
        assert sorted[i] in named;
      }
      if n in Restart(true, named) {
        var d :| d in named && d.name == n;
        var i :| 0 <= i < |sorted| && sorted[i] == d;
        assert names[i] == n;
      }
    }
    StrictlySortedUnique(names, Restart(true, named), Itself);
  }

  // ---------- The fixed point ----------

  /** Named copies of the same devices sort to the same sequence. */
  lemma SameConf(devices: seq<DetectedUPS>, names: seq<string>, again: seq<DetectedUPS>, later: seq<string>)
    requires |names| == |devices| && AllDistinct(names) && |later| == |again| && AllDistinct(later)
    requires forall d :: d in WithNames(devices, names) <==> d in WithNames(again, later)
    ensures NewUPSConf(again, later) == NewUPSConf(devices, names)
  {
    hide Sections, Unlines;
    SortByPermutation(WithNames(devices, names), WithNames(again, later), SortName);
  }

  /** The two lists hold the same devices, under the same names. */
  ghost predicate SameDevices(devices: seq<DetectedUPS>, names: seq<string>,
                              again: seq<DetectedUPS>, later: seq<string>)
    requires |names| == |devices| && |later| == |again|
  {
    && (forall d :: d in devices <==> d in again)
    && (forall i, j | 0 <= i < |devices| && 0 <= j < |again| && devices[i] == again[j] :: names[i] == later[j])
  }

  lemma NamedWithin(devices: seq<DetectedUPS>, names: seq<string>, again: seq<DetectedUPS>, later: seq<string>,
                    d: DetectedUPS)
    requires |names| == |devices| && |later| == |again| && SameDevices(devices, names, again, later)
    requires d in WithNames(devices, names)
    ensures d in WithNames(again, later)
  {
    var i :| 0 <= i < |devices| && d == WithNames(devices, names)[i];
    assert devices[i] in again;
    var j :| 0 <= j < |again| && again[j] == devices[i];
    assert WithNames(again, later)[j] == d;
  }

  lemma MappedWithin(devices: seq<DetectedUPS>, names: seq<string>, again: seq<DetectedUPS>, later: seq<string>,
                     k: string)
    requires |names| == |devices| && |later| == |again| && SameDevices(devices, names, again, later)
    requires DistinctKeys(devices, KeyOf) && DistinctKeys(again, KeyOf) && k in NameMap(devices, names)
    ensures k in NameMap(again, later) && NameMap(again, later)[k] == NameMap(devices, names)[k]
  {
    hide NameMap;
    var i :| 0 <= i < |devices| && KeyOf(devices[i]) == k;
    assert devices[i] in again;
    var j :| 0 <= j < |again| && again[j] == devices[i];
    NameMapAt(devices, names, i);
    NameMapAt(again, later, j);
  }

  lemma SameMap(devices: seq<DetectedUPS>, names: seq<string>, again: seq<DetectedUPS>, later: seq<string>)
    requires |names| == |devices| && |later| == |again| && SameDevices(devices, names, again, later)
    requires DistinctKeys(devices, KeyOf) && DistinctKeys(again, KeyOf)
    ensures NameMap(again, later) == NameMap(devices, names)
  {
    hide NameMap;
    forall k | k in NameMap(devices, names)
      ensures k in NameMap(again, later) && NameMap(again, later)[k] == NameMap(devices, names)[k]
    {
      MappedWithin(devices, names, again, later, k);
    }
    forall k | k in NameMap(again, later) ensures k in NameMap(devices, names) {
      MappedWithin(again, later, devices, names, k);
    }
  }

  lemma SameNamed(devices: seq<DetectedUPS>, names: seq<string>, again: seq<DetectedUPS>, later: seq<string>)
    requires |names| == |devices| && |later| == |again| && SameDevices(devices, names, again, later)
    ensures forall d :: d in WithNames(devices, names) <==> d in WithNames(again, later)
  {
    hide WithNames;
    forall d ensures d in WithNames(devices, names) <==> d in WithNames(again, later) {
      if d in WithNames(devices, names) {
        NamedWithin(devices, names, again, later, d);
      }
      if d in WithNames(again, later) {
        NamedWithin(again, later, devices, names, d);
      }
    }
  }

  /** Listing the same devices again, in any order, gives them the same names and saves the same map. */
  lemma SameNames(devices: seq<DetectedUPS>, persisted: map<string, string>, again: seq<DetectedUPS>)
    requires DistinctKeys(devices, KeyOf) && DistinctKeys(again, KeyOf)
    requires forall d :: d in devices <==> d in again
    ensures var names := StableNames(devices, persisted);
            var m := NameMap(devices, names);
            && SameDevices(devices, names, again, StableNames(again, m))
            && NameMap(again, StableNames(again, m)) == m
  {
    hide StableNames, NameMap;
    var names := StableNames(devices, persisted);
    var m := NameMap(devices, names);
    var later := StableNames(again, m);
    forall k | 0 <= k < |again| ensures WasScanned(devices, KeyOf(again[k])) {
      assert again[k] in devices;
    }
    forall i, j | 0 <= i < |devices| && 0 <= j < |again| && devices[i] == again[j]
      ensures names[i] == later[j]
    {
      NamingIsStable(devices, persisted, again, i, j);
    }
    SameMap(devices, names, again, later);
  }

  /** Listing the same devices again calls for the same files. */
  lemma SameWrites(devices: seq<DetectedUPS>, persisted: map<string, string>, again: seq<DetectedUPS>, user: UPSDUser)
    requires DistinctKeys(devices, KeyOf) && DistinctKeys(again, KeyOf)
    requires forall d :: d in devices <==> d in again
    ensures var names := StableNames(devices, persisted);
            var m := NameMap(devices, names);
            && Writes(again, m, user) == Writes(devices, persisted, user)
            && forall d :: d in WithNames(devices, names) <==> d in WithNames(again, StableNames(again, m))
  {
    hide StableNames, NameMap, NewUPSConf, WithNames, Others;
    var names := StableNames(devices, persisted);
    var m := NameMap(devices, names);
    var later := StableNames(again, m);
    SameNames(devices, persisted, again);
    NamesAreDistinct(devices, persisted);
    NamesAreDistinct(again, m);
    SameNamed(devices, names, again, later);
    SameConf(devices, names, again, later);
  }

  /** A successful apply leaves every file as called for, the name map among them. */
  lemma AppliedFilesHold(files: Files, user: Result<UPSDUser, ApplyError>, devices: seq<DetectedUPS>, faults: Faults,
                         laterFaults: Faults)
    requires Apply(files, user, devices, faults).1.Ok? && laterFaults.unreadable == {}
    ensures var after := Apply(files, user, devices, faults).0;
            var persisted := LoadNameMap(files, faults).value;
            && AllHold(after, laterFaults, Writes(devices, persisted, user.value))
            && LoadNameMap(after, laterFaults) == Ok(NameMap(devices, StableNames(devices, persisted)))
  {
    hide UPSConf, StableNames, NameMap, WithNames, WriteAll, Restart, UPSDUsers;
    var persisted := LoadNameMap(files, faults).value;
    var writes := Writes(devices, persisted, user.value);
    WritesTakeEffect(files, faults, writes);
    assert Holds(Apply(files, user, devices, faults).0, faults, writes[0].0, writes[0].1);
  }

  /** After one successful apply a second one, on the same devices in any order and with the same
      credentials, changes nothing, reports no change and asks for no restart; it cannot fail either, as
      long as the files can be read, because it writes nothing. */
  lemma ConfigFixedPoint(files: Files, user: Result<UPSDUser, ApplyError>, devices: seq<DetectedUPS>, faults: Faults,
                         again: seq<DetectedUPS>, laterFaults: Faults)
    requires DistinctKeys(devices, KeyOf) && DistinctKeys(again, KeyOf)
    requires forall d :: d in devices <==> d in again
    requires Apply(files, user, devices, faults).1.Ok? && laterFaults.unreadable == {}
    ensures var (after, result) := Apply(files, user, devices, faults);
            var (still, second) := Apply(after, user, again, laterFaults);
            && still == after && second.Ok?
            && !second.value.changed && second.value.restart == [] && second.value.user == result.value.user
            && forall d :: d in second.value.devices <==> d in result.value.devices
  {
    hide UPSConf, StableNames, NameMap, WithNames, WriteAll, Writes, LoadNameMap;
    var persisted := LoadNameMap(files, faults).value;
    var after := Apply(files, user, devices, faults).0;
    AppliedFilesHold(files, user, devices, faults, laterFaults);
    SameWrites(devices, persisted, again, user.value);
    NothingToWrite(after, laterFaults, Writes(devices, persisted, user.value));
  }

  lemma {:induction false} NoFaultNoFailure(files: Files, faults: Faults, writes: seq<(Path, Content)>)
    requires faults == Faults({}, map[])
    ensures WriteAll(files, faults, writes).failed.None?
    decreases |writes|
  {
    if writes != [] {
      NoFaultNoFailure(files, faults, writes[1..]);
      NoFaultNoFailure(files[writes[0].0 := writes[0].1], faults, writes[1..]);
    }
  }

  /** A second, undisturbed apply of one scan reports no change exactly when no two devices share a key. */
  lemma RescanReportsChange(files: Files, user: Result<UPSDUser, ApplyError>, devices: seq<DetectedUPS>, faults: Faults)
    requires Apply(files, user, devices, faults).1.Ok?
    ensures var (still, second) := Apply(Apply(files, user, devices, faults).0, user, devices, Faults({}, map[]));
            second.Ok? && (!second.value.changed <==> DistinctKeys(devices, KeyOf))
  {
    hide UPSConf, StableNames, NameMap, WithNames, WriteAll, LoadNameMap, Restart, UPSDUsers;
    var none := Faults({}, map[]);
    var persisted := LoadNameMap(files, faults).value;
    var m := NameMap(devices, StableNames(devices, persisted));
    var after := Apply(files, user, devices, faults).0;
    AppliedFilesHold(files, user, devices, faults, none);
    NoFaultNoFailure(after, none, Writes(devices, m, user.value));
    if DistinctKeys(devices, KeyOf) {
      ConfigFixedPoint(files, user, devices, faults, devices, none);
    } else {
      AppliedFilesHold(after, user, devices, none, none);
      RescanIsStable(devices, persisted);
      ReportIsExact(after, user, devices, none);
    }
  }

  // ---------- After a failure ----------

  predicate Renamed(faults: Faults, p: Path) {
    p !in faults.unreadable && p in faults.writes && faults.writes[p].AfterRename?
  }

  lemma {:induction false} OthersUntouched(files: Files, faults: Faults, writes: seq<(Path, Content)>, p: Path)
    requires forall i | 0 <= i < |writes| :: writes[i].0 != p
    ensures !Differs(files, WriteAll(files, faults, writes).files, p)
    decreases |writes|
  {
    if writes != [] {
      OthersUntouched(files, faults, writes[1..], p);
      OthersUntouched(files[writes[0].0 := writes[0].1], faults, writes[1..], p);
    }
  }

  /** How far the first two files got when some write failed. */
  lemma LeftByFailure(files: Files, faults: Faults, writes: seq<(Path, Content)>)
    requires |writes| >= 2 && writes[0].0 == NamesJson && writes[1].0 == UpsConf
    requires forall i | 2 <= i < |writes| :: writes[i].0 != UpsConf && writes[i].0 != NamesJson
    requires WriteAll(files, faults, writes).failed.Some?
    ensures var outcome := WriteAll(files, faults, writes);
            var p := outcome.failed.value;
            && (if p == NamesJson && !Renamed(faults, p) then !Differs(files, outcome.files, NamesJson)
                else NamesJson in outcome.files && outcome.files[NamesJson] == writes[0].1)
            && (if p == NamesJson || (p == UpsConf && !Renamed(faults, p)) then !Differs(files, outcome.files, UpsConf)
                else UpsConf in outcome.files && outcome.files[UpsConf] == writes[1].1)
  {
    WriteInTurn(files, faults, writes);
    var first := WriteAll(files, faults, [writes[0]]);
    var second := WriteAll(first.files, faults, [writes[1]]);
    var rest := WriteAll(second.files, faults, writes[2..]);
    if first.failed.None? && second.failed.None? {
      OthersUntouched(second.files, faults, writes[2..], NamesJson);
      OthersUntouched(second.files, faults, writes[2..], UpsConf);
      FailsAtAWrite(second.files, faults, writes[2..]);
    }
  }

  lemma {:induction false} FailsAtAWrite(files: Files, faults: Faults, writes: seq<(Path, Content)>)
    ensures var failed := WriteAll(files, faults, writes).failed;
            failed.Some? ==> exists i :: 0 <= i < |writes| && writes[i].0 == failed.value
    decreases |writes|
  {
    if writes != [] {
      FailsAtAWrite(files, faults, writes[1..]);
      FailsAtAWrite(files[writes[0].0 := writes[0].1], faults, writes[1..]);
      assert forall i | 0 <= i < |writes[1..]| :: writes[1..][i] == writes[i + 1];
    }
  }

  function Lookup(files: Files, p: Path): Option<Content> {
    if p in files then Some(files[p]) else None
  }

  /** The condition under which a failed apply swallows the driver restarts: ups.conf was already replaced. */
  predicate UpsConfReplaced(faults: Faults, failed: Path) {
    failed != NamesJson && (failed == UpsConf ==> Renamed(faults, UpsConf))
  }

  /** The name map a retry finds. */
  function RetryMap(devices: seq<DetectedUPS>, persisted: map<string, string>, faults: Faults, failed: Path)
    : map<string, string>
  {
    if failed == NamesJson && !Renamed(faults, NamesJson) then persisted
    else NameMap(devices, StableNames(devices, persisted))
  }

  lemma RetryLoads(files: Files, user: UPSDUser, devices: seq<DetectedUPS>, faults: Faults, laterFaults: Faults,
                   persisted: map<string, string>)
    requires LoadNameMap(files, faults) == Ok(persisted) && laterFaults.unreadable == {}
    requires WriteAll(files, faults, Writes(devices, persisted, user)).failed.Some?
    ensures var outcome := WriteAll(files, faults, Writes(devices, persisted, user));
            LoadNameMap(outcome.files, laterFaults) == Ok(RetryMap(devices, persisted, faults, outcome.failed.value))
  {
    hide StableNames, NameMap, NewUPSConf, WriteAll, Others;
    OtherPaths(user);
    LeftByFailure(files, faults, Writes(devices, persisted, user));
  }

  lemma OtherPaths(user: UPSDUser)
    ensures |Others(user)| == 3 && DistinctPaths(Others(user))
    ensures forall i | 0 <= i < 3 :: Others(user)[i].0 != UpsConf && Others(user)[i].0 != NamesJson
  {
    hide UPSDUsers;
  }

  /** A successful apply restarts nothing exactly when ups.conf held what it called for already. */
  lemma AppliedRestarts(files: Files, user: UPSDUser, devices: seq<DetectedUPS>, faults: Faults)
    requires Apply(files, Ok(user), devices, faults).1.Ok?
    ensures var names := StableNames(devices, LoadNameMap(files, faults).value);
            Apply(files, Ok(user), devices, faults).1.value.restart ==
            if Lookup(files, UpsConf) == Some(NewUPSConf(devices, names)) then [] else Listing(Elements(names))
  {
    hide StableNames, NameMap, NewUPSConf, WriteAll, Others, Restart, WithNames, LoadNameMap;
    var writes := Writes(devices, LoadNameMap(files, faults).value, user);
    OtherPaths(user);
    ReportIsExact(files, Ok(user), devices, faults);
    WritesTakeEffect(files, faults, writes);
    assert Holds(WriteAll(files, faults, writes).files, faults, writes[1].0, writes[1].1);
  }

  /** An apply that failed is retried with success. The retry restarts nothing exactly when ups.conf already holds
      what it calls for, and every driver otherwise. So with distinct keys, and an ups.conf that was to change, it
      asks for the restarts exactly when the failure came before ups.conf was replaced; after that they are lost. */
  lemma FailureHidesRestart(files: Files, user: UPSDUser, devices: seq<DetectedUPS>,
                            faults: Faults, laterFaults: Faults, persisted: map<string, string>)
    requires devices != [] && LoadNameMap(files, faults) == Ok(persisted) && laterFaults.unreadable == {}
    requires Apply(files, Ok(user), devices, faults).1.Err?
    requires Apply(Apply(files, Ok(user), devices, faults).0, Ok(user), devices, laterFaults).1.Ok?
    ensures var (after, failure) := Apply(files, Ok(user), devices, faults);
            var restart := Apply(after, Ok(user), devices, laterFaults).1.value.restart;
            var names := StableNames(devices, persisted);
            && failure.error.WriteFailed?
            && var replaced := UpsConfReplaced(faults, failure.error.path);
               var again := StableNames(devices, RetryMap(devices, persisted, faults, failure.error.path));
               var onDisk := if replaced then Some(NewUPSConf(devices, names)) else Lookup(files, UpsConf);
               && Listing(Elements(again)) != []
               && restart == (if onDisk == Some(NewUPSConf(devices, again)) then [] else Listing(Elements(again)))
               && (DistinctKeys(devices, KeyOf) && Lookup(files, UpsConf) != Some(NewUPSConf(devices, names)) ==>
                     again == names && (restart == [] <==> replaced))
  {
    hide StableNames, NameMap, NewUPSConf, WriteAll, Others, Restart, WithNames, LoadNameMap;
    var outcome := WriteAll(files, faults, Writes(devices, persisted, user));
    OtherPaths(user);
    LeftByFailure(files, faults, Writes(devices, persisted, user));
    RetryLoads(files, user, devices, faults, laterFaults, persisted);
    RescanIsStable(devices, persisted);
    AppliedRestarts(outcome.files, user, devices, laterFaults);
    var again := StableNames(devices, RetryMap(devices, persisted, faults, outcome.failed.value));
    assert again[0] in Elements(again);
  }
}
