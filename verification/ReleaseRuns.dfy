/** What the release slots guarantee over every run: any order of stagings, boots, confirmations and
    status reports, each cut short by a power failure at any file operation, under any clock. */
module ReleaseRuns {
  import opened Basics
  import opened Text
  import opened Sorting
  import opened Versions
  import opened ReleaseStore

  datatype Event =
    | Stage(version: string, binary: Bytes, now: int, power: nat)
    | Boot(now: int, later: int, power: nat)
    | Confirm(version: string, later: int, power: nat)
    | Report(report: Status, power: nat)

  predicate HoldsBinary(d: Disk, version: string) {
    version in d.releases && d.releases[version].Some? && d.releases[version].value != []
  }

  /** The launcher runs the executable behind current, or else the image's recovery copy; the
      executable in a slot reports the slot's version. */
  function Running(d: Disk, recovery: string): string {
    if d.current.Some? && HoldsBinary(d, d.current.value) then d.current.value else recovery
  }

  ghost function Step(d: Disk, e: Event, recovery: string): Disk {
    match e
    case Stage(version, binary, now, power) =>
      if CheckStage(d, TrimSpace(version), binary).Some? then d
      else Play(d, StagePlan(d, TrimSpace(version), binary, now), power)
    case Boot(now, later, power) => Play(d, ReconcilePlan(d, Running(d, recovery), now, later), power)
    case Confirm(version, later, power) => Play(d, ConfirmPlan(d, version, later), power)
    case Report(report, power) => Play(d, Then(PutStatus(report), Done), power)
  }

  ghost function Run(d: Disk, events: seq<Event>, recovery: string): Disk
    decreases |events|
  {
    if events == [] then d else Run(Step(d, events[0], recovery), events[1..], recovery)
  }

  /** One file operation more. */
  lemma Unroll(d: Disk, plan: Plan, power: nat)
    ensures plan.Done? || power == 0 ==> Play(d, plan, power) == d
    ensures plan.Then? && power > 0 ==> Play(d, plan, power) == Play(Apply(d, plan.op), plan.rest, power - 1)
    ensures Completes(plan, power) <==> plan.Done? || (power > 0 && Completes(plan.rest, power - 1))
  {
  }

  /** Two file operations more. */
  lemma UnrollTwo(d: Disk, a: FileOp, b: FileOp, rest: Plan, power: nat)
    ensures var plan := Then(a, Then(b, rest));
            && Play(d, plan, power) == (if power == 0 then d
                                        else if power == 1 then Apply(d, a)
                                        else Play(Apply(Apply(d, a), b), rest, power - 2))
            && (Completes(plan, power) <==> power >= 2 && Completes(rest, power - 2))
  {
    Unroll(d, Then(a, Then(b, rest)), power);
    if power > 0 { Unroll(Apply(d, a), Then(b, rest), power - 1); }
  }

  // ---------- Soundness of the links ----------

  predicate LinkFilled(d: Disk, link: Option<string>) {
    link.Some? ==> HoldsBinary(d, link.value)
  }

  predicate LinkStable(link: Option<string>) {
    link.Some? ==> ParseStableVersion(link.value).Ok?
  }

  /** No link dangles, previous is never newer than current and never outlives it. */
  predicate Sound(d: Disk) {
    && LinkFilled(d, d.current) && LinkFilled(d, d.previous)
    && LinkStable(d.current) && LinkStable(d.previous)
    && (d.previous.Some? ==>
          && d.current.Some?
          && Compare(ParseStableVersion(d.previous.value).value, ParseStableVersion(d.current.value).value) <= 0)
    && (d.pending.Some? ==> d.pending.value.attempts <= MAX_ACTIVATION_ATTEMPTS)
  }

  /** A staging that is let through is for a version newer than both linked slots, so it writes into neither. */
  lemma StagedIsNewer(d: Disk, version: string, binary: Bytes)
    requires Sound(d) && CheckStage(d, version, binary).None?
    ensures d.current.Some? ==>
              Compare(ParseStableVersion(version).value, ParseStableVersion(d.current.value).value) > 0
    ensures d.current != Some(version) && d.previous != Some(version)
  {
    if d.previous.Some? {
      var v, c, p := ParseStableVersion(version).value, ParseStableVersion(d.current.value).value,
        ParseStableVersion(d.previous.value).value;
      CompareIsTotalOrder(p, c, v);
      CompareIsTotalOrder(v, c, p);
    }
  }

  /** Pruning leaves the kept slots, the links and the records alone, wherever it stops. */
  lemma {:induction false} PruneKeeps(d: Disk, keep: set<string>, entries: seq<string>, power: nat)
    ensures var after := Play(d, PruneOps(keep, entries), power);
            && after == d.(releases := after.releases)
            && forall v | v in keep ::
                 (v in after.releases <==> v in d.releases) && (v in d.releases ==> after.releases[v] == d.releases[v])
    decreases |entries|
  {
    if entries != [] {
      var rest := PruneOps(keep, entries[1..]);
      if entries[0] in keep {
        PruneKeeps(d, keep, entries[1..], power);
      } else if power > 0 {
        var emptied := Apply(d, DropBinary(entries[0]));
        assert Play(d, PruneOps(keep, entries), power) == Play(emptied, Then(DropSlot(entries[0]), rest), power - 1);
        if power > 1 {
          PruneKeeps(Apply(emptied, DropSlot(entries[0])), keep, entries[1..], power - 2);
        }
      }
    }
  }

  /** The slot a link names holds what it held before, or is the slot just staged. */
  predicate SlotKept(before: Disk, after: Disk, link: Option<string>, version: string, binary: Bytes) {
    link.Some? ==>
      && link.value in after.releases
      && (link.value == version ==> after.releases[version] == Some(binary))
      && (link.value != version ==>
            link.value in before.releases && after.releases[link.value] == before.releases[link.value])
  }

  /** So it is for every slot that a link names afterwards. */
  predicate SlotsKept(before: Disk, after: Disk, version: string, binary: Bytes) {
    SlotKept(before, after, after.current, version, binary) && SlotKept(before, after, after.previous, version, binary)
  }

  /** Where a staging of version over the disk before can have got to. */
  predicate Midway(before: Disk, version: string, binary: Bytes, now: int, d: Disk) {
    && SlotsKept(before, d, version, binary)
    && (d.current == before.current || d.current == Some(version))
    && (d.previous == before.previous || d.previous == before.current)
    && (d.current != before.current && before.current.Some? ==> d.previous == before.current)
    && (d.pending == before.pending || d.pending == Some(Pending(version, 0, now)))
  }

  /** The only slots left are those the links name. */
  predicate Tidy(d: Disk) {
    d.releases.Keys == Names(d.current) + Names(d.previous)
  }

  /** A slot is dropped in two steps, its binary first; stopped between them it stays without one. */
  lemma DroppingOne(d: Disk, keep: set<string>, entries: seq<string>, power: nat)
    requires entries != [] && entries[0] !in keep && entries[0] in d.releases && power <= 2
    ensures Play(d, PruneOps(keep, entries), power) ==
            if power == 0 then d
            else if power == 1 then d.(releases := d.releases[entries[0] := None])
            else d.(releases := d.releases - {entries[0]})
  {
    var slot, rest := entries[0], PruneOps(keep, entries[1..]);
    UnrollTwo(d, DropBinary(slot), DropSlot(slot), rest, power);
    assert d.releases[slot := None] - {slot} == d.releases - {slot};
  }

  /** Pruning that runs to the end drops every listed slot it does not keep. */
  lemma {:induction false} PruneDrops(d: Disk, keep: set<string>, entries: seq<string>, power: nat)
    requires Completes(PruneOps(keep, entries), power)
    ensures Play(d, PruneOps(keep, entries), power).releases.Keys
            == d.releases.Keys - (set v | v in entries && v !in keep)
    decreases |entries|
  {
    if entries != [] {
      assert entries == [entries[0]] + entries[1..];
      if entries[0] in keep {
        PruneDrops(d, keep, entries[1..], power);
      } else {
        var drop, rest := DropSlot(entries[0]), PruneOps(keep, entries[1..]);
        UnrollTwo(d, DropBinary(entries[0]), drop, rest, power);
        PruneDrops(Apply(Apply(d, DropBinary(entries[0])), drop), keep, entries[1..], power - 2);
      }
    }
  }

  lemma PruneMidway(before: Disk, d: Disk, version: string, binary: Bytes, now: int, power: nat)
    requires Midway(before, version, binary, now, d)
    ensures var after := Play(d, PrunePlan(d), power);
            && Midway(before, version, binary, now, after)
            && after == d.(releases := after.releases)
            && (Completes(PrunePlan(d), power) ==> Tidy(after))
  {
    hide Listing, PruneOps, Play, Completes;
    var keep := Names(d.current) + Names(d.previous);
    PruneKeeps(d, keep, Listing(d.releases.Keys), power);
    assert d.current.Some? ==> d.current.value in keep;
    assert d.previous.Some? ==> d.previous.value in keep;
    if Completes(PrunePlan(d), power) {
      PruneDrops(d, keep, Listing(d.releases.Keys), power);
    }
  }

  lemma SwitchMidway(before: Disk, d: Disk, version: string, binary: Bytes, now: int, power: nat)
    requires Midway(before, version, binary, now, d) && d.current == before.current
    requires before.current.Some? ==> d.previous == before.current
    requires version in d.releases && d.releases[version] == Some(binary)
    ensures var after := Play(d, SwitchPlan(d, version, now), power);
            && Midway(before, version, binary, now, after)
            && (Completes(SwitchPlan(d, version, now), power) ==>
                  && after.current == Some(version) && after.previous == d.previous
                  && after.pending == Some(Pending(version, 0, now)) && Tidy(after))
  {
    hide PrunePlan, Play, Completes;
    var link, record := LinkCurrent(version), PutPending(Pending(version, 0, now));
    var linked := Apply(d, link);
    var recorded := Apply(linked, record);
    assert recorded == d.(current := Some(version), pending := Some(Pending(version, 0, now)));
    assert SwitchPlan(d, version, now) == Then(link, Then(record, PrunePlan(recorded)));
    UnrollTwo(d, link, record, PrunePlan(recorded), power);
    assert Midway(before, version, binary, now, linked);
    assert Midway(before, version, binary, now, recorded);
    if power > 1 {
      PruneMidway(before, recorded, version, binary, now, power - 2);
    }
  }

  lemma PromoteMidway(before: Disk, d: Disk, version: string, binary: Bytes, now: int, power: nat)
    requires Midway(before, version, binary, now, d) && d.current == before.current && d.previous == before.previous
    requires before.current.None? ==> before.previous.None?
    requires version in d.releases && d.releases[version] == Some(binary)
    ensures var after := Play(d, PromotePlan(d, version, now), power);
            && Midway(before, version, binary, now, after)
            && (Completes(PromotePlan(d, version, now), power) ==>
                  && after.current == Some(version) && after.previous == before.current
                  && after.pending == Some(Pending(version, 0, now)) && Tidy(after))
  {
    hide SwitchPlan, Play, Completes;
    if d.current.None? {
      SwitchMidway(before, d, version, binary, now, power);
    } else {
      var promoted := d.(previous := d.current);
      Unroll(d, PromotePlan(d, version, now), power);
      if power > 0 {
        SwitchMidway(before, promoted, version, binary, now, power - 1);
      }
    }
  }

  lemma StageMidway(d: Disk, version: string, binary: Bytes, now: int, power: nat)
    requires LinkFilled(d, d.current) && LinkFilled(d, d.previous)
    requires d.current != Some(version) && d.previous != Some(version)
    requires d.current.None? ==> d.previous.None?
    ensures var after := Play(d, StagePlan(d, version, binary, now), power);
            && Midway(d, version, binary, now, after)
            && (Completes(StagePlan(d, version, binary, now), power) ==>
                  && after.current == Some(version) && after.previous == d.current
                  && after.pending == Some(Pending(version, 0, now)) && Tidy(after))
  {
    hide PromotePlan, Play, Completes;
    var make, write := MakeSlot(version), PutBinary(version, binary);
    var made := Apply(d, make);
    var written := Apply(made, write);
    UnrollTwo(d, make, write, PromotePlan(written, version, now), power);
    assert Midway(d, version, binary, now, made);
    assert Midway(d, version, binary, now, written);
    if power > 1 {
      PromoteMidway(d, written, version, binary, now, power - 2);
    }
  }

  /** Staging at any power keeps the links sound and the linked slots byte for byte; completed, it
      leaves the new slot current, the former one previous, no third slot, and the activation pending. */
  lemma StageKeeps(d: Disk, version: string, binary: Bytes, now: int, power: nat)
    requires Sound(d) && CheckStage(d, version, binary).None?
    ensures var after := Play(d, StagePlan(d, version, binary, now), power);
            && Sound(after) && SlotsKept(d, after, version, binary)
            && (Completes(StagePlan(d, version, binary, now), power) ==>
                  && after.current == Some(version) && after.previous == d.current
                  && after.pending == Some(Pending(version, 0, now)) && Tidy(after))
  {
    StagedIsNewer(d, version, binary);
    StageMidway(d, version, binary, now, power);
    MidwayIsSound(d, version, binary, now, Play(d, StagePlan(d, version, binary, now), power));
  }

  lemma MidwayIsSound(before: Disk, version: string, binary: Bytes, now: int, d: Disk)
    requires Sound(before) && CheckStage(before, version, binary).None?
    requires Midway(before, version, binary, now, d)
    ensures Sound(d)
  {
    StagedIsNewer(before, version, binary);
    var v := ParseStableVersion(version).value;
    if before.current.Some? {
      var c := ParseStableVersion(before.current.value).value;
      CompareIsTotalOrder(v, c, v);
      CompareIsTotalOrder(c, c, v);
    }
  }

  lemma ConfirmPlays(d: Disk, version: string, later: int, power: nat)
    ensures var after := Play(d, ConfirmPlan(d, version, later), power);
            && after == d.(pending := after.pending, status := after.status)
            && (after.pending == d.pending || after.pending.None?)
            && (d.pending.Some? && d.pending.value.version == version ==>
                  Completes(ConfirmPlan(d, version, later), power) ==> after.pending.None?)
  {
    var plan := ConfirmPlan(d, version, later);
    Unroll(d, plan, power);
    if plan.Then? && power > 0 {
      var dropped := Apply(d, DropPending);
      Unroll(dropped, plan.rest, power - 1);
      if power > 1 { Unroll(Apply(dropped, plan.rest.op), Done, power - 2); }
    }
  }

  /** A boot, however far it gets: only current, the pending record and the status can change. */
  lemma ReconcilePlays(d: Disk, myVersion: string, now: int, later: int, power: nat)
    ensures var plan := ReconcilePlan(d, myVersion, now, later);
            var after := Play(d, plan, power);
            && after.releases == d.releases && after.previous == d.previous
            && match ReconcileAct(d, myVersion, now)
               case Nothing =>
                 && after.current == d.current
                 && (after.pending == d.pending || after.pending.None?)
                 && (Completes(plan, power) ==> after.pending.None?)
               case AwaitingHealth =>
                 && after.current == d.current
                 && after.pending == (if power == 0 then d.pending
                                      else Some(d.pending.value.(attempts := d.pending.value.attempts + 1)))
                 && (Completes(plan, power) <==> power > 0)
               case RolledBack =>
                 && after.current == (if power == 0 then d.current else d.previous)
                 && after.pending == (if power < 2 then d.pending else None)
                 && (Completes(plan, power) ==> power > 2)
  {
    var plan := ReconcilePlan(d, myVersion, now, later);
    if ReconcileAct(d, myVersion, now) == RolledBack {
      ThreeOps(d, plan.op, DropPending, plan.rest.rest.op, power);
    }
  }

  lemma ReconcileKeeps(d: Disk, myVersion: string, now: int, later: int, power: nat)
    requires Sound(d)
    ensures Sound(Play(d, ReconcilePlan(d, myVersion, now, later), power))
  {
    ReconcilePlays(d, myVersion, now, later, power);
    if d.previous.Some? {
      var p := ParseStableVersion(d.previous.value).value;
      CompareIsTotalOrder(p, p, p);
    }
  }

  lemma StepKeepsSound(d: Disk, e: Event, recovery: string)
    requires Sound(d)
    ensures Sound(Step(d, e, recovery))
  {
    match e
    case Stage(version, binary, now, power) =>
      if CheckStage(d, TrimSpace(version), binary).None? {
        StageKeeps(d, TrimSpace(version), binary, now, power);
      }
    case Boot(now, later, power) => ReconcileKeeps(d, Running(d, recovery), now, later, power);
    case Confirm(version, later, power) => ConfirmPlays(d, version, later, power);
    case Report(report, power) =>
      Unroll(d, Then(PutStatus(report), Done), power);
      if power > 0 { Unroll(Apply(d, PutStatus(report)), Done, power - 1); }
  }

  lemma {:induction false} RunKeepsSound(d: Disk, events: seq<Event>, recovery: string)
    requires Sound(d)
    ensures Sound(Run(d, events, recovery))
    decreases |events|
  {
    if events != [] {
      StepKeepsSound(d, events[0], recovery);
      RunKeepsSound(Step(d, events[0], recovery), events[1..], recovery);
    }
  }

  /** In every reachable state each link is absent or names a slot holding a complete binary, previous
      is not newer than current, and without a current slot there is no previous one. */
  lemma ReachableIsSound(events: seq<Event>, recovery: string)
    ensures Sound(Run(FRESH, events, recovery))
  {
    RunKeepsSound(FRESH, events, recovery);
  }

  /** From every reachable state, staging stopped anywhere leaves the slots that the old links name
      holding what they held, for as long as a link names them. */
  lemma StagingSparesLinkedSlots(events: seq<Event>, recovery: string, version: string, binary: Bytes, now: int,
                                 power: nat)
    requires CheckStage(Run(FRESH, events, recovery), version, binary).None?
    ensures var d := Run(FRESH, events, recovery);
            && d.current != Some(version) && d.previous != Some(version)
            && SlotsKept(d, Play(d, StagePlan(d, version, binary, now), power), version, binary)
  {
    var d := Run(FRESH, events, recovery);
    ReachableIsSound(events, recovery);
    StagedIsNewer(d, version, binary);
    StageKeeps(d, version, binary, now, power);
  }

  // ---------- Rolling back an activation that never becomes healthy ----------

  datatype BootAttempt = BootAttempt(now: int, later: int, power: nat)

  function BootPlan(d: Disk, b: BootAttempt, recovery: string): Plan {
    ReconcilePlan(d, Running(d, recovery), b.now, b.later)
  }

  function BootAction(d: Disk, b: BootAttempt, recovery: string): ReconcileAction {
    ReconcileAct(d, Running(d, recovery), b.now)
  }

  predicate BootCompletes(d: Disk, b: BootAttempt, recovery: string) {
    Completes(BootPlan(d, b, recovery), b.power)
  }

  function AfterBoot(d: Disk, b: BootAttempt, recovery: string): Disk {
    Play(d, BootPlan(d, b, recovery), b.power)
  }

  function AfterBoots(d: Disk, boots: seq<BootAttempt>, recovery: string): Disk
    decreases |boots|
  {
    if boots == [] then d else AfterBoots(AfterBoot(d, boots[0], recovery), boots[1..], recovery)
  }

  /** How many of the boots reconciled to the end. */
  function Completed(d: Disk, boots: seq<BootAttempt>, recovery: string): nat
    decreases |boots|
  {
    if boots == [] then 0
    else
      (if BootCompletes(d, boots[0], recovery) then 1 else 0)
      + Completed(AfterBoot(d, boots[0], recovery), boots[1..], recovery)
  }

  /** How many of the boots reconciled to the given action. */
  function Ended(d: Disk, boots: seq<BootAttempt>, recovery: string, action: ReconcileAction): nat
    decreases |boots|
  {
    if boots == [] then 0
    else
      (if BootCompletes(d, boots[0], recovery) && BootAction(d, boots[0], recovery) == action then 1 else 0)
      + Ended(AfterBoot(d, boots[0], recovery), boots[1..], recovery, action)
  }

  /** version is active over the slot that was current on the disk before, and not confirmed yet. */
  predicate Trial(before: Disk, version: string, d: Disk) {
    && d.current == Some(version) && d.previous == before.current
    && d.pending.Some? && d.pending.value.version == version
  }

  /** The slot that was current before is current again. */
  predicate Restored(before: Disk, version: string, d: Disk) {
    && d.current == before.current && d.previous == before.current
    && (d.pending.Some? ==> d.pending.value.version == version)
  }

  predicate Unconfirmed(before: Disk, version: string, stagedAt: int, d: Disk) {
    && Sound(d)
    && (d.pending.Some? ==> d.pending.value.firstAttemptAt == stagedAt)
    && before.current != Some(version)
    && (Trial(before, version, d) || Restored(before, version, d))
    && (before.current.Some? ==>
          && before.current.value in before.releases && before.current.value in d.releases
          && d.releases[before.current.value] == before.releases[before.current.value])
  }

  /** One of the boots reconciled to the end more than the allowed age after the staging. */
  predicate SomeLate(d: Disk, boots: seq<BootAttempt>, recovery: string, stagedAt: int)
    decreases |boots|
  {
    boots != [] &&
    (|| (BootCompletes(d, boots[0], recovery) && boots[0].now - stagedAt > MAX_ACTIVATION_AGE)
     || SomeLate(AfterBoot(d, boots[0], recovery), boots[1..], recovery, stagedAt))
  }

  /** Attempts left before a pending activation is given up. */
  function AttemptsLeft(d: Disk): nat {
    if d.pending.None? || d.pending.value.attempts > MAX_ACTIVATION_ATTEMPTS then 0
    else MAX_ACTIVATION_ATTEMPTS - d.pending.value.attempts
  }

  lemma BootUnconfirmed(before: Disk, version: string, stagedAt: int, d: Disk, b: BootAttempt, recovery: string)
    requires Unconfirmed(before, version, stagedAt, d)
    ensures var after := AfterBoot(d, b, recovery);
            && Unconfirmed(before, version, stagedAt, after)
            && (Restored(before, version, d) ==> Restored(before, version, after))
            && (d.pending.None? ==> after.pending.None?)
            && AttemptsLeft(after) <= AttemptsLeft(d)
            && (BootCompletes(d, b, recovery) ==>
                  match BootAction(d, b, recovery)
                  case AwaitingHealth =>
                    AttemptsLeft(after) + 1 == AttemptsLeft(d) && b.now - stagedAt <= MAX_ACTIVATION_AGE
                  case _ => after.pending.None? && Restored(before, version, after))
  {
    ReconcileKeeps(d, Running(d, recovery), b.now, b.later, b.power);
    ReconcilePlays(d, Running(d, recovery), b.now, b.later, b.power);
  }

  lemma {:induction false} BootsUnconfirmed(before: Disk, version: string, stagedAt: int, d: Disk,
                                            boots: seq<BootAttempt>, recovery: string)
    requires Unconfirmed(before, version, stagedAt, d)
    ensures var after := AfterBoots(d, boots, recovery);
            && Unconfirmed(before, version, stagedAt, after)
            && (Restored(before, version, d) ==> Restored(before, version, after))
            && (d.pending.None? ==> after.pending.None?)
            && (Ended(d, boots, recovery, RolledBack) > 0 ==> Restored(before, version, after))
            && Ended(d, boots, recovery, AwaitingHealth) <= AttemptsLeft(d)
            && (Completed(d, boots, recovery) > AttemptsLeft(d) || SomeLate(d, boots, recovery, stagedAt) ==>
                  after.pending.None? && Restored(before, version, after))
    decreases |boots|
  {
    hide AfterBoot, BootAction, BootCompletes, Unconfirmed, Restored, AttemptsLeft;
    if boots != [] {
      BootUnconfirmed(before, version, stagedAt, d, boots[0], recovery);
      BootsUnconfirmed(before, version, stagedAt, AfterBoot(d, boots[0], recovery), boots[1..], recovery);
    }
  }

  /** A completed staging starts the trial, with all its attempts left. */
  lemma StagedIsUnconfirmed(before: Disk, version: string, binary: Bytes, now: int, power: nat)
    requires Sound(before) && CheckStage(before, version, binary).None?
    requires Completes(StagePlan(before, version, binary, now), power)
    ensures var staged := Play(before, StagePlan(before, version, binary, now), power);
            Unconfirmed(before, version, now, staged) && AttemptsLeft(staged) == MAX_ACTIVATION_ATTEMPTS
  {
    hide Play, StagePlan, Completes;
    StagedIsNewer(before, version, binary);
    StageKeeps(before, version, binary, now, power);
  }

  /** After a successful StageAndActivate, over any boots without a confirmation, each cut short
      anywhere and under any clock:
      - current is still the new version or is what it was before the staging, with the same bytes;
      - once a boot reports a rollback, what was current before is current again for good;
      - four boots that reconcile to the end, or one that does so over three minutes after the staging,
        leave what was current before and no pending record;
      - at most three boots are told to await health. */
  lemma FailedActivationRollsBack(before: Disk, version: string, binary: Bytes, now: int, power: nat,
                                  boots: seq<BootAttempt>, recovery: string)
    requires Sound(before) && CheckStage(before, version, binary).None?
    requires Completes(StagePlan(before, version, binary, now), power)
    ensures var staged := Play(before, StagePlan(before, version, binary, now), power);
            var after := AfterBoots(staged, boots, recovery);
            && (after.current == Some(version) || after.current == before.current)
            && (after.current != Some(version) ==> Restored(before, version, after))
            && (before.current.Some? ==>
                  && before.current.value in after.releases
                  && after.releases[before.current.value] == before.releases[before.current.value])
            && (Ended(staged, boots, recovery, RolledBack) > 0 ==> Restored(before, version, after))
            && Ended(staged, boots, recovery, AwaitingHealth) <= MAX_ACTIVATION_ATTEMPTS
            && (Completed(staged, boots, recovery) > MAX_ACTIVATION_ATTEMPTS
                || SomeLate(staged, boots, recovery, now) ==>
                  Restored(before, version, after) && after.pending.None?)
  {
    hide Play, StagePlan, Completes, AfterBoots, Completed, Ended, SomeLate;
    var staged := Play(before, StagePlan(before, version, binary, now), power);
    StagedIsUnconfirmed(before, version, binary, now, power);
    BootsUnconfirmed(before, version, now, staged, boots, recovery);
  }

  /** A confirmed activation is final: no later boot changes the disk. */
  lemma {:induction false} ConfirmedStays(d: Disk, version: string, later: int, power: nat, boots: seq<BootAttempt>,
                                          recovery: string)
    requires d.pending.Some? && d.pending.value.version == version && Completes(ConfirmPlan(d, version, later), power)
    ensures var confirmed := Play(d, ConfirmPlan(d, version, later), power);
            && confirmed.current == d.current && confirmed.pending.None?
            && AfterBoots(confirmed, boots, recovery) == confirmed
  {
    ConfirmPlays(d, version, later, power);
    QuietBoots(Play(d, ConfirmPlan(d, version, later), power), boots, recovery);
  }

  lemma {:induction false} QuietBoots(d: Disk, boots: seq<BootAttempt>, recovery: string)
    requires d.pending.None?
    ensures AfterBoots(d, boots, recovery) == d
  {
    if boots != [] {
      QuietBoots(d, boots[1..], recovery);
    }
  }

  // ---------- When a boot waits and what is recorded ----------

  /** The current slot has a pending record of its own. */
  predicate OnTrial(d: Disk) {
    d.current.Some? && d.pending.Some? && d.pending.value.version == d.current.value
  }

  /** A boot on trial is given up exactly when three boots have awaited health before it, or more than three minutes
      have passed since the staging; else it awaits health. A boot that is not on trial does neither. */
  lemma TrialBoot(d: Disk, b: BootAttempt, recovery: string)
    requires Sound(d) && d.current.Some?
    ensures BootAction(d, b, recovery) == RolledBack <==>
            OnTrial(d) && (d.pending.value.attempts >= 3 || b.now - d.pending.value.firstAttemptAt > 180_000_000_000)
    ensures BootAction(d, b, recovery) == AwaitingHealth <==>
            OnTrial(d) && d.pending.value.attempts < 3 && b.now - d.pending.value.firstAttemptAt <= 180_000_000_000
  {
  }

  /** The boots of a staged version that reconcile to the end within three minutes: the first three await health, and
      the fourth rolls back. */
  lemma {:induction false} PromptBoots(d: Disk, boots: seq<BootAttempt>, recovery: string)
    requires Sound(d) && OnTrial(d)
    requires forall i | 0 <= i < |boots| ::
               boots[i].power >= 3 && boots[i].now - d.pending.value.firstAttemptAt <= 180_000_000_000
    requires |boots| <= 4 - d.pending.value.attempts
    ensures |boots| <= 3 - d.pending.value.attempts ==>
              && Ended(d, boots, recovery, AwaitingHealth) == |boots| && Ended(d, boots, recovery, RolledBack) == 0
              && AfterBoots(d, boots, recovery).current == d.current
    ensures |boots| == 4 - d.pending.value.attempts ==>
              && Ended(d, boots, recovery, AwaitingHealth) == |boots| - 1
              && Ended(d, boots, recovery, RolledBack) == 1
              && AfterBoots(d, boots, recovery).current == d.previous
    decreases |boots|
  {
    hide Play, ReconcilePlan, AfterBoot, BootAction, BootCompletes;
    assert d.pending.value.attempts <= 3;
    if boots != [] {
      PromptBoot(d, boots[0], recovery);
      if d.pending.value.attempts < 3 {
        assert forall i | 0 <= i < |boots| - 1 :: boots[1..][i] == boots[i + 1];
        PromptBoots(AfterBoot(d, boots[0], recovery), boots[1..], recovery);
      }
    }
  }

  lemma PromptBoot(d: Disk, b: BootAttempt, recovery: string)
    requires Sound(d) && OnTrial(d)
    requires b.power >= 3 && b.now - d.pending.value.firstAttemptAt <= 180_000_000_000
    ensures BootCompletes(d, b, recovery)
    ensures var after := AfterBoot(d, b, recovery);
            if d.pending.value.attempts < 3 then
              && BootAction(d, b, recovery) == AwaitingHealth && Sound(after)
              && after.current == d.current && after.previous == d.previous
              && after.pending == Some(d.pending.value.(attempts := d.pending.value.attempts + 1))
            else BootAction(d, b, recovery) == RolledBack && after.current == d.previous
  {
    hide Play, ReconcilePlan;
    TrialBoot(d, b, recovery);
    ReconcilePlays(d, Running(d, recovery), b.now, b.later, b.power);
    ReconcileKeeps(d, Running(d, recovery), b.now, b.later, b.power);
    RollbackCompletes(d, Running(d, recovery), b.now, b.later, b.power);
  }

  lemma RollbackCompletes(d: Disk, myVersion: string, now: int, later: int, power: nat)
    requires power >= 3
    ensures Completes(ReconcilePlan(d, myVersion, now, later), power)
  {
    var plan := ReconcilePlan(d, myVersion, now, later);
    if ReconcileAct(d, myVersion, now) == RolledBack {
      ThreeOps(d, plan.op, DropPending, plan.rest.rest.op, power);
    }
  }

  /** What a completed boot leaves in status.json: after a rollback when and why, and else nothing new. */
  lemma BootRecords(d: Disk, myVersion: string, now: int, later: int, power: nat)
    requires Completes(ReconcilePlan(d, myVersion, now, later), power)
    ensures Play(d, ReconcilePlan(d, myVersion, now, later), power).status ==
            if ReconcileAct(d, myVersion, now) != RolledBack then d.status
            else
              var s := if d.status.Some? then d.status.value else Status(true, 0, "", "", "", 0, "");
              Some(s.(lastInstallAt := later,
                      lastInstallError := "update to " + myVersion + " failed to become healthy and was rolled back"))
  {
    var plan := ReconcilePlan(d, myVersion, now, later);
    if plan.Then? && ReconcileAct(d, myVersion, now) != RolledBack {
      OneOp(d, plan.op, power);
    } else if plan.Then? {
      ThreeOps(d, plan.op, DropPending, plan.rest.rest.op, power);
    }
  }

  /** What a boot does with records it cannot read: nothing without the pending record; without the status it still
      rolls back and clears the record, but does not get to report it, and no other boot needs the status. */
  lemma UnreadableAtBoot(d: Disk, myVersion: string, now: int, later: int, u: Unreadable, power: nat)
    ensures var plan := ReconcilePlan(d, myVersion, now, later);
            var rollsBack := ReconcileAct(d, myVersion, now) == RolledBack;
            var lasting := u.Lasting(power, 2, rollsBack);
            var after := Play(d, plan, lasting);
            && (u.pending ==> after == d)
            && (!u.pending && !(u.status && rollsBack) ==> lasting == power)
            && (u.status ==> after.status == d.status)
            && (u.status && !u.pending && rollsBack ==> !Completes(plan, lasting))
            && (u.status && !u.pending && rollsBack && power >= 2 ==>
                  after == d.(current := d.previous, pending := None))
  {
    if ReconcileAct(d, myVersion, now) == RolledBack {
      var plan := ReconcilePlan(d, myVersion, now, later);
      ThreeOps(d, plan.op, DropPending, plan.rest.rest.op, u.Lasting(power, 2, true));
    } else if d.pending.Some? {
      OneOp(d, ReconcilePlan(d, myVersion, now, later).op, u.Lasting(power, 2, false));
    }
  }

  /** And what a confirmation does: nothing without the pending record; without the status it clears the record but
      does not get to report the install. */
  lemma UnreadableAtConfirmation(d: Disk, version: string, later: int, u: Unreadable, power: nat)
    ensures var plan, lasting := ConfirmPlan(d, version, later), u.Lasting(power, 1, true);
            var after := Play(d, plan, lasting);
            && (u.pending ==> after == d)
            && (!u.pending && !u.status ==> lasting == power)
            && (u.status ==> after.status == d.status)
            && (u.status && !u.pending && d.pending.Some? && d.pending.value.version == version && power >= 1 ==>
                  after == d.(pending := None) && !Completes(plan, lasting))
  {
    if d.pending.Some? && d.pending.value.version == version {
      TwoOps(d, DropPending, ConfirmPlan(d, version, later).rest.op, u.Lasting(power, 1, true));
    }
  }

  /** A confirmation of another version than the pending one changes nothing; a completed one of the pending version
      leaves the time of the install and no error, and no offer of that version. */
  lemma ConfirmRecords(d: Disk, version: string, later: int, power: nat)
    requires version != "" && Completes(ConfirmPlan(d, version, later), power)
    ensures var after := Play(d, ConfirmPlan(d, version, later), power);
            var s := if d.status.Some? then d.status.value else Status(true, 0, "", "", "", 0, "");
            if d.pending.None? || d.pending.value.version != version then after == d
            else
              && after.pending.None?
              && after.status == Some(s.(lastInstallAt := later, lastInstallError := "",
                   availableVersion := if s.availableVersion == version then "" else s.availableVersion,
                   availableReleaseURL := if s.availableVersion == version then "" else s.availableReleaseURL))
  {
    var plan := ConfirmPlan(d, version, later);
    if plan.Then? {
      TwoOps(d, DropPending, plan.rest.op, power);
    }
  }

  // ---------- What an interrupted staging costs ----------

  lemma PruneLinks(d: Disk, power: nat)
    ensures var after := Play(d, PrunePlan(d), power);
            after.current == d.current && after.previous == d.previous && after.pending == d.pending
  {
    PruneKeeps(d, Names(d.current) + Names(d.previous), Listing(d.releases.Keys), power);
  }

  lemma SwitchLinks(d: Disk, version: string, now: int, power: nat)
    ensures var after := Play(d, SwitchPlan(d, version, now), power);
            && after.previous == d.previous
            && after.current == (if power == 0 then d.current else Some(version))
            && after.pending == (if power < 2 then d.pending else Some(Pending(version, 0, now)))
  {
    var link, record := LinkCurrent(version), PutPending(Pending(version, 0, now));
    var recorded := Apply(Apply(d, link), record);
    assert recorded == d.(current := Some(version), pending := Some(Pending(version, 0, now)));
    assert SwitchPlan(d, version, now) == Then(link, Then(record, PrunePlan(recorded)));
    UnrollTwo(d, link, record, PrunePlan(recorded), power);
    if power > 1 {
      PruneLinks(recorded, power - 2);
    }
  }

  /** After how many file operations a staging has repointed current. */
  function SwitchedAfter(d: Disk): nat {
    if d.current.Some? then 4 else 3
  }

  /** The links and the pending record after a staging, by the number of completed file operations. */
  lemma StageLinks(d: Disk, version: string, binary: Bytes, now: int, power: nat)
    ensures var after := Play(d, StagePlan(d, version, binary, now), power);
            && after.previous == (if power < 3 || d.current.None? then d.previous else d.current)
            && after.current == (if power < SwitchedAfter(d) then d.current else Some(version))
            && after.pending == (if power <= SwitchedAfter(d) then d.pending else Some(Pending(version, 0, now)))
  {
    hide SwitchPlan;
    var make, write := MakeSlot(version), PutBinary(version, binary);
    var written := Apply(Apply(d, make), write);
    UnrollTwo(d, make, write, PromotePlan(written, version, now), power);
    if power > 1 {
      if d.current.None? {
        SwitchLinks(written, version, now, power - 2);
      } else {
        var promoted := Apply(written, LinkPrevious(d.current.value));
        assert promoted == written.(previous := d.current);
        assert PromotePlan(written, version, now)
               == Then(LinkPrevious(d.current.value), SwitchPlan(promoted, version, now));
        Unroll(written, PromotePlan(written, version, now), power - 2);
        if power > 2 {
          SwitchLinks(promoted, version, now, power - 3);
        }
      }
    }
  }

  /** A staging stopped before it touches a link leaves all but the new slot as it was; that one is made without a
      binary, unless it is there already, and then gets the binary. */
  lemma SlotBeingWritten(d: Disk, version: string, binary: Bytes, now: int, power: nat)
    requires power <= 2
    ensures var after := Play(d, StagePlan(d, version, binary, now), power);
            && after == d.(releases := after.releases)
            && after.releases - {version} == d.releases - {version}
            && (power == 0 ==> after.releases == d.releases)
            && (power > 0 ==>
                  && version in after.releases
                  && after.releases[version] == if power == 2 then Some(binary)
                                                else if version in d.releases then d.releases[version] else None)
  {
    hide PromotePlan;
    var make, write := MakeSlot(version), PutBinary(version, binary);
    UnrollTwo(d, make, write, PromotePlan(Apply(Apply(d, make), write), version, now), power);
  }

  /** Boots only ever lead to the slots the links name. */
  lemma {:induction false} BootsStayOnLinks(d: Disk, boots: seq<BootAttempt>, recovery: string)
    ensures var after := AfterBoots(d, boots, recovery);
            after.previous == d.previous && (after.current == d.current || after.current == d.previous)
    decreases |boots|
  {
    if boots != [] {
      ReconcilePlays(d, Running(d, recovery), boots[0].now, boots[0].later, boots[0].power);
      BootsStayOnLinks(AfterBoot(d, boots[0], recovery), boots[1..], recovery);
    }
  }

  /** A current slot without a pending record of its own stays current through every boot. */
  lemma {:induction false} UnguardedStays(d: Disk, boots: seq<BootAttempt>, recovery: string)
    requires d.current.Some? && HoldsBinary(d, d.current.value) && !OnTrial(d)
    ensures AfterBoots(d, boots, recovery).current == d.current
    decreases |boots|
  {
    if boots != [] {
      ReconcilePlays(d, Running(d, recovery), boots[0].now, boots[0].later, boots[0].power);
      UnguardedStays(AfterBoot(d, boots[0], recovery), boots[1..], recovery);
    }
  }

  /** A current slot on trial is rolled back by one boot that comes late enough. */
  lemma LateBootRollsBack(d: Disk, recovery: string) returns (boots: seq<BootAttempt>)
    requires OnTrial(d) && HoldsBinary(d, d.current.value)
    ensures AfterBoots(d, boots, recovery).current == d.previous
  {
    var late := BootAttempt(d.pending.value.firstAttemptAt + MAX_ACTIVATION_AGE + 1, 0, 3);
    boots := [late];
    ReconcilePlays(d, Running(d, recovery), late.now, late.later, late.power);
    assert AfterBoots(d, boots, recovery) == AfterBoots(AfterBoot(d, late, recovery), [], recovery);
  }

  /** Whether the new slot is live without a record that could roll it back. */
  predicate CutBeforeRecord(d: Disk, version: string, power: nat) {
    power == SwitchedAfter(d) && !(d.pending.Some? && d.pending.value.version == version)
  }

  /** The staged version is current without a pending record of its own, and then stays current through
      any boots, exactly when the staging stops between repointing current and recording the activation,
      unless an older activation of the same version left its record behind. */
  lemma UnguardedStaging(d: Disk, version: string, binary: Bytes, now: int, power: nat, recovery: string)
    requires Sound(d) && CheckStage(d, version, binary).None?
    ensures var after := Play(d, StagePlan(d, version, binary, now), power);
            && (after.current == Some(version) && !OnTrial(after) <==> CutBeforeRecord(d, version, power))
            && ((forall boots :: AfterBoots(after, boots, recovery).current == Some(version)) <==>
                CutBeforeRecord(d, version, power))
  {
    hide Play, StagePlan, AfterBoots;
    var after := Play(d, StagePlan(d, version, binary, now), power);
    StagedIsNewer(d, version, binary);
    StageKeeps(d, version, binary, now, power);
    StageLinks(d, version, binary, now, power);
    if after.current != Some(version) {
      NoBoots(after, recovery);
    } else if OnTrial(after) {
      var boots := LateBootRollsBack(after, recovery);
      assert AfterBoots(after, boots, recovery).current != Some(version);
    } else {
      forall boots ensures AfterBoots(after, boots, recovery).current == Some(version) {
        UnguardedStays(after, boots, recovery);
      }
    }
  }

  /** Boots can lead back to the former previous slot after a staging:
      - where previous and current were two slots, exactly when the staging stopped before it promoted current to
        previous and the slot then current is on trial;
      - where they were one slot or none, exactly unless the staging stopped between repointing current and
        recording the activation. */
  lemma InterruptedStagingForfeitsRollback(d: Disk, version: string, binary: Bytes, now: int, power: nat,
                                           recovery: string)
    requires Sound(d) && CheckStage(d, version, binary).None?
    ensures var after := Play(d, StagePlan(d, version, binary, now), power);
            && ((exists boots :: AfterBoots(after, boots, recovery).current == d.previous) <==>
                if d.previous != d.current then power < 3 && OnTrial(d) else !CutBeforeRecord(d, version, power))
            && (after.previous == after.current <==>
                if d.previous != d.current then power == 3 else power < SwitchedAfter(d))
  {
    hide Play, StagePlan, AfterBoots;
    var after := Play(d, StagePlan(d, version, binary, now), power);
    StagedIsNewer(d, version, binary);
    StageKeeps(d, version, binary, now, power);
    StageLinks(d, version, binary, now, power);
    if d.previous == d.current {
      UnguardedStaging(d, version, binary, now, power, recovery);
      if !CutBeforeRecord(d, version, power) {
        var boots := BootsLeaveVersion(d, version, after, recovery);
      }
    } else if power < 3 && OnTrial(d) {
      var boots := LateBootRollsBack(after, recovery);
    } else {
      forall boots ensures AfterBoots(after, boots, recovery).current != d.previous {
        if power < 3 {
          UnguardedStays(after, boots, recovery);
        } else {
          BootsStayOnLinks(after, boots, recovery);
        }
      }
    }
  }

  /** Some boots lead from the staged version, unless it is unguarded, to the slot both links named. */
  lemma BootsLeaveVersion(d: Disk, version: string, after: Disk, recovery: string) returns (boots: seq<BootAttempt>)
    requires d.previous == d.current && after.previous == d.previous
    requires after.current == d.current || (OnTrial(after) && HoldsBinary(after, after.current.value))
    ensures AfterBoots(after, boots, recovery).current == d.previous
  {
    if after.current == d.current {
      boots := [];
      NoBoots(after, recovery);
    } else {
      boots := LateBootRollsBack(after, recovery);
    }
  }

  lemma NoBoots(d: Disk, recovery: string)
    ensures AfterBoots(d, [], recovery) == d
  {
  }
}
