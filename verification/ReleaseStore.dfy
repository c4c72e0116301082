/** The agent's durable release slots: the directory releases/<version>/strom-agent, the links
    current and previous, pending.json and status.json, and the operations that change them one
    file operation at a time. */
module ReleaseStore {
  import opened Basics
  import opened Text
  import opened Sorting
  import opened Versions

  type Bytes = seq<bv8>

  const MAX_ACTIVATION_ATTEMPTS := 3
  // Three minutes, in nanoseconds.
  const MAX_ACTIVATION_AGE := 180_000_000_000

  datatype Pending = Pending(version: string, attempts: nat, firstAttemptAt: int)

  datatype Status = Status(schedulerEnabled: bool, lastCheckedAt: int, lastCheckError: string,
                           availableVersion: string, availableReleaseURL: string,
                           lastInstallAt: int, lastInstallError: string)

  /** What survives a power cut. A slot is a directory that may not hold an executable yet;
      a link names the slot whose executable it points at. */
  datatype Disk = Disk(releases: map<string, Option<Bytes>>, current: Option<string>, previous: Option<string>,
                       pending: Option<Pending>, status: Option<Status>)

  /** A fresh node: nothing was ever staged. */
  const FRESH := Disk(map[], None, None, None, None)

  datatype FileOp =
    | MakeSlot(version: string)
    | PutBinary(version: string, content: Bytes)
    | DropBinary(version: string)
    | DropSlot(version: string)
    | LinkCurrent(version: string)
    | UnlinkCurrent
    | LinkPrevious(version: string)
    | PutPending(record: Pending)
    | DropPending
    | PutStatus(report: Status)

  function Apply(d: Disk, op: FileOp): Disk {
    match op
    case MakeSlot(v) => if v in d.releases then d else d.(releases := d.releases[v := None])
    case PutBinary(v, content) => d.(releases := d.releases[v := Some(content)])
    case DropBinary(v) => if v in d.releases then d.(releases := d.releases[v := None]) else d
    case DropSlot(v) => d.(releases := d.releases - {v})
    case LinkCurrent(v) => d.(current := Some(v))
    case UnlinkCurrent => d.(current := None)
    case LinkPrevious(v) => d.(previous := Some(v))
    case PutPending(p) => d.(pending := Some(p))
    case DropPending => d.(pending := None)
    case PutStatus(s) => d.(status := Some(s))
  }

  /** File operations in the order in which a call performs them. */
  datatype Plan = Done | Then(op: FileOp, rest: Plan)

  /** The disk after as many of the operations as the power lasts for. A file operation that fails
      for any other reason ends the call in the same way. */
  function Play(d: Disk, plan: Plan, power: nat): Disk
    decreases plan
  {
    if plan.Done? || power == 0 then d else Play(Apply(d, plan.op), plan.rest, power - 1)
  }

  /** Whether the power lasts for the whole plan. */
  predicate Completes(plan: Plan, power: nat) {
    plan.Done? || (power > 0 && Completes(plan.rest, power - 1))
  }

  // ---------- What each operation writes, and in which order ----------

  datatype Refusal = VersionRequired | EmptyBinary | NotAStableVersion | AlreadyActive | Downgrade

  function CheckStage(d: Disk, version: string, binary: Bytes): Option<Refusal> {
    if version == "" then Some(VersionRequired)
    else if binary == [] then Some(EmptyBinary)
    else if ParseStableVersion(version).Err? then Some(NotAStableVersion)
    else if d.current.None? then None
    else if d.current.value == version then Some(AlreadyActive)
    else if IsNewerStableVersion(version, d.current.value) == Ok(false) then Some(Downgrade)
    else None
  }

  lemma NoVersion()
    ensures ParseStableVersion("").Err?
  {
  }

  /** Removing every listed slot that neither link names; os.RemoveAll empties a slot, then drops it. */
  function PruneOps(keep: set<string>, entries: seq<string>): Plan {
    if entries == [] then Done
    else
      var rest := PruneOps(keep, entries[1..]);
      if entries[0] in keep then rest else Then(DropBinary(entries[0]), Then(DropSlot(entries[0]), rest))
  }

  function Names(link: Option<string>): set<string> {
    if link.Some? then {link.value} else {}
  }

  ghost function PrunePlan(d: Disk): Plan {
    PruneOps(Names(d.current) + Names(d.previous), Listing(d.releases.Keys))
  }

  /** Repointing current, recording the activation and pruning, from a disk that holds the new slot. */
  ghost function SwitchPlan(d: Disk, version: string, now: int): Plan {
    var link, record := LinkCurrent(version), PutPending(Pending(version, 0, now));
    Then(link, Then(record, PrunePlan(Apply(Apply(d, link), record))))
  }

  ghost function PromotePlan(d: Disk, version: string, now: int): Plan {
    if d.current.None? then SwitchPlan(d, version, now)
    else
      var link := LinkPrevious(d.current.value);
      Then(link, SwitchPlan(Apply(d, link), version, now))
  }

  ghost function StagePlan(d: Disk, version: string, binary: Bytes, now: int): Plan {
    var make, write := MakeSlot(version), PutBinary(version, binary);
    Then(make, Then(write, PromotePlan(Apply(Apply(d, make), write), version, now)))
  }

  datatype ReconcileAction = Nothing | AwaitingHealth | RolledBack

  function ReadStatus(d: Disk): Status {
    if d.status.Some? then d.status.value else Status(true, 0, "", "", "", 0, "")
  }

  /** status.json after an install was confirmed (succeeded is its version) or given up (failure says why). */
  function InstallOutcome(s: Status, succeeded: string, failure: string, now: int): Status {
    var t := s.(lastInstallAt := now, lastInstallError := failure);
    if succeeded != "" && t.availableVersion == succeeded then t.(availableVersion := "", availableReleaseURL := "")
    else t
  }

  function GaveUp(version: string): string {
    "update to " + version + " failed to become healthy and was rolled back"
  }

  predicate Overdue(p: Pending, now: int) {
    now - p.firstAttemptAt > MAX_ACTIVATION_AGE || p.attempts + 1 > MAX_ACTIVATION_ATTEMPTS
  }

  function ReconcileAct(d: Disk, myVersion: string, now: int): ReconcileAction {
    if d.pending.None? || d.pending.value.version != myVersion then Nothing
    else if Overdue(d.pending.value, now) then RolledBack
    else AwaitingHealth
  }

  function RollbackOp(previous: Option<string>): FileOp {
    if previous.Some? then LinkCurrent(previous.value) else UnlinkCurrent
  }

  function ReconcilePlan(d: Disk, myVersion: string, now: int, later: int): Plan {
    if d.pending.None? then Done
    else
      var p := d.pending.value;
      if p.version != myVersion then Then(DropPending, Done)
      else if Overdue(p, now) then
        Then(RollbackOp(d.previous), Then(DropPending,
          Then(PutStatus(InstallOutcome(ReadStatus(d), "", GaveUp(p.version), later)), Done)))
      else Then(PutPending(p.(attempts := p.attempts + 1)), Done)
  }

  function ConfirmPlan(d: Disk, myVersion: string, later: int): Plan {
    if d.pending.None? || d.pending.value.version != myVersion then Done
    else Then(DropPending, Then(PutStatus(InstallOutcome(ReadStatus(d), myVersion, "", later)), Done))
  }

  /** The records a call finds but cannot read or decode. */
  datatype Unreadable = Unreadable(pending: bool, status: bool)
  {
    /** How many file operations the call gets to: none without the pending record, and where it has to read the
        status only those before. */
    function Lasting(power: nat, beforeStatus: nat, readsStatus: bool): nat {
      if pending then 0
      else if status && readsStatus && power > beforeStatus then beforeStatus
      else power
    }
  }

  lemma OneOp(d: Disk, a: FileOp, power: nat)
    ensures Play(d, Then(a, Done), power) == if power == 0 then d else Apply(d, a)
    ensures Completes(Then(a, Done), power) <==> power >= 1
  {
    assert power > 0 ==> Play(Apply(d, a), Done, power - 1) == Apply(d, a);
  }

  lemma TwoOps(d: Disk, a: FileOp, b: FileOp, power: nat)
    ensures Play(d, Then(a, Then(b, Done)), power) ==
            if power == 0 then d else if power == 1 then Apply(d, a) else Apply(Apply(d, a), b)
    ensures Completes(Then(a, Then(b, Done)), power) <==> power >= 2
  {
    if power > 0 {
      OneOp(Apply(d, a), b, power - 1);
    }
  }

  lemma ThreeOps(d: Disk, a: FileOp, b: FileOp, c: FileOp, power: nat)
    ensures Play(d, Then(a, Then(b, Then(c, Done))), power) ==
            if power == 0 then d
            else if power == 1 then Apply(d, a)
            else if power == 2 then Apply(Apply(d, a), b)
            else Apply(Apply(Apply(d, a), b), c)
    ensures Completes(Then(a, Then(b, Then(c, Done))), power) <==> power >= 3
  {
    if power > 0 {
      TwoOps(Apply(d, a), b, c, power - 1);
    }
  }

  // ---------- The store ----------

  datatype Outcome<A> = Refused(reason: Refusal) | Interrupted | Finished(result: A)

  class Store {
    var disk: Disk
    // How many more file operations complete before the power fails.
    var power: nat

    constructor (power: nat)
      ensures disk == FRESH && this.power == power
    {
      disk, this.power := FRESH, power;
    }

    /** One file operation, with the rest of the plan still to come. */
    method Commit(op: FileOp, ghost rest: Plan) returns (ok: bool)
      modifies this
      ensures ok == (old(power) > 0)
      ensures ok ==> disk == Apply(old(disk), op) && power == old(power) - 1
      ensures ok ==> Play(disk, rest, power) == Play(old(disk), Then(op, rest), old(power))
      ensures !ok ==> disk == old(disk) == Play(old(disk), Then(op, rest), old(power))
      ensures Completes(Then(op, rest), old(power)) == (ok && Completes(rest, power))
    {
      if power == 0 {
        return false;
      }
      disk, power := Apply(disk, op), power - 1;
      return true;
    }

    /** A staging is let through exactly for a non-empty binary of a stable version that is not the current one
        nor, where the current one is a stable version, older than it. */
    method StageAndActivate(rawVersion: string, binary: Bytes, now: int) returns (r: Outcome<()>)
      modifies this
      ensures var version, current := TrimSpace(rawVersion), old(disk).current;
              var parsed := ParseStableVersion(version);
              r.Refused? <==>
                !(&& binary != [] && parsed.Ok?
                  && (current.Some? ==>
                        && current.value != version
                        && (ParseStableVersion(current.value).Ok? ==>
                              Compare(parsed.value, ParseStableVersion(current.value).value) > 0)))
      ensures var version := TrimSpace(rawVersion);
              r.Refused? ==>
                r.reason == if version == "" then VersionRequired
                            else if binary == [] then EmptyBinary
                            else if ParseStableVersion(version).Err? then NotAStableVersion
                            else if old(disk).current == Some(version) then AlreadyActive
                            else Downgrade
      ensures var version := TrimSpace(rawVersion);
              match CheckStage(old(disk), version, binary)
              case Some(refusal) => r == Refused(refusal) && disk == old(disk)
              case None =>
                var plan := StagePlan(old(disk), version, binary, now);
                && disk == Play(old(disk), plan, old(power))
                && r == if Completes(plan, old(power)) then Finished(()) else Interrupted
    {
      hide StagePlan, ParseStableVersion, TrimSpace, Compare;
      var version := TrimSpace(rawVersion);
      NoVersion();
      var refusal := CheckStage(disk, version, binary);
      if refusal.Some? {
        return Refused(refusal.value);
      }
      r := Activate(version, binary, now);
    }

    /** The file operations of StageAndActivate, once nothing speaks against them. */
    method Activate(version: string, binary: Bytes, now: int) returns (r: Outcome<()>)
      modifies this
      ensures var plan := StagePlan(old(disk), version, binary, now);
              && disk == Play(old(disk), plan, old(power))
              && r == if Completes(plan, old(power)) then Finished(()) else Interrupted
    {
      ghost var plan := StagePlan(disk, version, binary, now).rest;
      var ok := Commit(MakeSlot(version), plan);
      if !ok { return Interrupted; }
      plan := plan.rest;
      ok := Commit(PutBinary(version, binary), plan);
      if !ok { return Interrupted; }
      if disk.current.Some? {
        plan := plan.rest;
        ok := Commit(LinkPrevious(disk.current.value), plan);
        if !ok { return Interrupted; }
      }
      plan := plan.rest;
      ok := Commit(LinkCurrent(version), plan);
      if !ok { return Interrupted; }
      plan := plan.rest;
      ok := Commit(PutPending(Pending(version, 0, now)), plan);
      if !ok { return Interrupted; }
      r := PruneReleases();
    }

    /** Removes the slots neither link names. */
    method PruneReleases() returns (r: Outcome<()>)
      modifies this
      ensures disk == Play(old(disk), PrunePlan(old(disk)), old(power))
      ensures r == if Completes(PrunePlan(old(disk)), old(power)) then Finished(()) else Interrupted
    {
      var keep := Names(disk.current) + Names(disk.previous);
      var entries := SortedElements(disk.releases.Keys);
      ghost var plan := PruneOps(keep, entries);
      ghost var goal := Play(disk, plan, power);
      while entries != []
        invariant Play(disk, PruneOps(keep, entries), power) == goal
        invariant Completes(PruneOps(keep, entries), power) == Completes(plan, old(power))
        decreases |entries|
      {
        if entries[0] !in keep {
          ghost var rest := PruneOps(keep, entries[1..]);
          var ok := Commit(DropBinary(entries[0]), Then(DropSlot(entries[0]), rest));
          if !ok { return Interrupted; }
          ok := Commit(DropSlot(entries[0]), rest);
          if !ok { return Interrupted; }
        }
        entries := entries[1..];
      }
      return Finished(());
    }

    method ReconcileStartup(myVersion: string, now: int, later: int, unreadable: Unreadable)
      returns (r: Outcome<ReconcileAction>)
      modifies this
      ensures var plan := ReconcilePlan(old(disk), myVersion, now, later);
              var action := ReconcileAct(old(disk), myVersion, now);
              var lasting := unreadable.Lasting(old(power), 2, action == RolledBack);
              && disk == Play(old(disk), plan, lasting)
              && r == if !unreadable.pending && Completes(plan, lasting) then Finished(action) else Interrupted
    {
      if unreadable.pending {
        return Interrupted;
      }
      if disk.pending.None? {
        return Finished(Nothing);
      }
      var pending := disk.pending.value;
      if pending.version != myVersion {
        var ok := Commit(DropPending, Done);
        return if ok then Finished(Nothing) else Interrupted;
      }
      pending := pending.(attempts := pending.attempts + 1);
      var expired := now - pending.firstAttemptAt > MAX_ACTIVATION_AGE;
      var exhausted := pending.attempts > MAX_ACTIVATION_ATTEMPTS;
      if expired || exhausted {
        ghost var plan := ReconcilePlan(disk, myVersion, now, later);
        ghost var before := disk;
        ThreeOps(before, plan.op, DropPending, plan.rest.rest.op, power);
        ThreeOps(before, plan.op, DropPending, plan.rest.rest.op, if power < 2 then power else 2);
        var ok := RollbackToPrevious(plan.rest);
        if !ok { return Interrupted; }
        ok := Commit(DropPending, plan.rest.rest);
        if !ok { return Interrupted; }
        if unreadable.status {
          return Interrupted;
        }
        ok := Commit(PutStatus(InstallOutcome(ReadStatus(disk), "", GaveUp(pending.version), later)), Done);
        return if ok then Finished(RolledBack) else Interrupted;
      }
      var ok := Commit(PutPending(pending), Done);
      return if ok then Finished(AwaitingHealth) else Interrupted;
    }

    /** Repoints current at the previous slot, or removes it when there is none. */
    method RollbackToPrevious(ghost rest: Plan) returns (ok: bool)
      modifies this
      ensures ok == (old(power) > 0)
      ensures ok ==> disk == old(disk).(current := old(disk).previous) && power == old(power) - 1
      ensures ok ==> Play(disk, rest, power) == Play(old(disk), Then(RollbackOp(old(disk).previous), rest), old(power))
      ensures !ok ==> disk == old(disk) == Play(old(disk), Then(RollbackOp(old(disk).previous), rest), old(power))
      ensures Completes(Then(RollbackOp(old(disk).previous), rest), old(power)) == (ok && Completes(rest, power))
    {
      if disk.previous.None? {
        ok := Commit(UnlinkCurrent, rest);
      } else {
        ok := Commit(LinkCurrent(disk.previous.value), rest);
      }
    }

    method ConfirmHealthy(myVersion: string, later: int, unreadable: Unreadable) returns (r: Outcome<()>)
      modifies this
      ensures var plan := ConfirmPlan(old(disk), myVersion, later);
              var lasting := unreadable.Lasting(old(power), 1, true);
              && disk == Play(old(disk), plan, lasting)
              && r == if !unreadable.pending && Completes(plan, lasting) then Finished(()) else Interrupted
    {
      if unreadable.pending {
        return Interrupted;
      }
      if disk.pending.None? || disk.pending.value.version != myVersion {
        return Finished(());
      }
      ghost var plan := ConfirmPlan(disk, myVersion, later);
      TwoOps(disk, DropPending, plan.rest.op, if power < 1 then power else 1);
      var ok := Commit(DropPending, plan.rest);
      if !ok { return Interrupted; }
      if unreadable.status {
        return Interrupted;
      }
      ok := Commit(PutStatus(InstallOutcome(ReadStatus(disk), myVersion, "", later)), Done);
      return if ok then Finished(()) else Interrupted;
    }
  }
}
