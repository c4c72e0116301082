/** What adoption does not guarantee, and exactly when: nodes nobody can adopt any more, and controllers that
    hold trust while their NUT user is missing. */
module AdoptionLimits {
  import opened Basics
  import opened Text
  import opened UpsNames
  import opened Adoption
  import Config = AgentConfig

  // ---------- Who can still get trust ----------

  ghost predicate AvoidsToken(schedule: seq<Action>, token: Digest) {
    forall i | 0 <= i < |schedule| && schedule[i].Start? :: SHA256(schedule[i].request.apiToken) != token
  }

  /** Every adoptNode call draws a new token, so no call started later has the stored one. */
  ghost predicate DrawsNewTokens(s: State, schedule: seq<Action>) {
    s.stored.Some? ==> AvoidsToken(schedule, s.stored.value.token)
  }

  ghost predicate SomeoneTrusts(s: State) {
    exists id :: id in s.calls && s.calls[id].progress.Trusted?
  }

  /** The controller would verify and keep the response. */
  predicate Usable(request: AdoptRequest, response: AdoptResponse) {
    response.tlsPort != 0 && response.tlsFingerprint != "" && request.apiToken != ""
  }

  /** The node has accepted the call, whose controller has not heard of it yet. */
  ghost predicate Answered(s: State, id: int)
    requires id in s.calls
  {
    exists response :: (id, Accepted(response)) in s.replies && Usable(s.calls[id].request, response)
  }

  /** The node would accept the call, if undisturbed. */
  predicate WouldBeAccepted(node: Node, request: AdoptRequest) {
    node.record.Stored? && Matches(node.record.state, request) && IsValid(request)
  }

  /** The call has trust, or can still get it. */
  ghost predicate Hopeful(s: State, id: int)
    requires id in s.calls
  {
    match s.calls[id].progress
    case Trusted(_) => true
    case Verifying(response) => Usable(s.calls[id].request, response)
    case Ended(_) => false
    case _ => Answered(s, id) || WouldBeAccepted(s.node, s.calls[id].request)
  }

  /** The node has no record yet, or some call has trust or can still get it. */
  ghost predicate Adoptable(s: State) {
    s.node.record.Missing? || exists id :: id in s.calls && Hopeful(s, id)
  }

  lemma ServeGivesNoHope(s: State, id: int, c: Circumstances, other: int)
    requires Safe(s) && Enabled(s, Serve(id, c)) && other in s.calls && !s.node.record.Missing?
    ensures Hopeful(Step(s, Serve(id, c)), other) ==> Hopeful(s, other)
  {
    hide HandleAdopt, IsValid, Usable;
    var request := s.calls[id].request;
    ServeKeepsRecord(s.node, request, c);
    AcceptedIsValid(s.node, request, c);
    var t := Step(s, Serve(id, c));
    if s.calls[other].progress.Calling? || s.calls[other].progress.Awaiting? {
      if Answered(t, other) && !Answered(s, other) {
        var response :| (other, Accepted(response)) in t.replies && Usable(t.calls[other].request, response);
        assert other == id;
      }
    }
  }

  /** Only a valid request is accepted, and by a node with a record only one that matches it. */
  lemma AcceptedIsValid(node: Node, request: AdoptRequest, c: Circumstances)
    ensures HandleAdopt(node, request, c).1.Accepted? && !node.record.Missing? ==> WouldBeAccepted(node, request)
  {
    hide IsValid;
  }

  lemma StepGivesNoHope(s: State, a: Action)
    requires Safe(s) && Enabled(s, a) && !Adoptable(s) && DrawsNewTokens(s, [a])
    ensures !Adoptable(Step(s, a))
  {
    hide HandleAdopt, IsValid, ShouldRetryAdoptStatus, ShouldRetryAdoptTransportError;
    var t := Step(s, a);
    assert a == [a][0];
    if a.Serve? {
      ServeKeepsRecord(s.node, s.calls[a.id].request, a.c);
      forall id | id in t.calls ensures !Hopeful(t, id) {
        ServeGivesNoHope(s, a.id, a.c, id);
      }
    } else {
      forall id | id in t.calls ensures !Hopeful(t, id) {
        assert id in s.calls ==> !Hopeful(s, id);
      }
    }
  }

  lemma {:induction false} HopelessForever(s: State, schedule: seq<Action>)
    requires Safe(s) && !Adoptable(s) && DrawsNewTokens(s, schedule)
    ensures !SomeoneTrusts(Run(s, schedule))
    decreases |schedule|
  {
    hide Step, Enabled, Safe;
    if schedule == [] {
      assert forall id | id in s.calls :: !Hopeful(s, id);
    } else {
      var enabled := Enabled(s, schedule[0]);
      if enabled {
        assert DrawsNewTokens(s, [schedule[0]]);
        StepKeepsSafe(s, schedule[0]);
        StepGivesNoHope(s, schedule[0]);
        NoNewRecord(s, schedule[0]);
      }
      var next := if enabled then Step(s, schedule[0]) else s;
      assert DrawsNewTokens(next, schedule[1..]) by {
        assert forall i | 0 <= i < |schedule| - 1 :: schedule[1..][i] == schedule[i + 1];
      }
      HopelessForever(next, schedule[1..]);
    }
  }

  /** A node that has a file but no record of its own never gets one. */
  lemma NoNewRecord(s: State, a: Action)
    requires Safe(s) && Enabled(s, a) && !s.node.record.Missing?
    ensures s.stored.None? ==> Step(s, a).stored.None?
  {
    hide HandleAdopt;
    if a.Serve? {
      ServeKeepsRecord(s.node, s.calls[a.id].request, a.c);
    }
  }

  // ---------- Getting it ----------

  /** No new call, and no scan. */
  ghost predicate OnlyDelivers(schedule: seq<Action>) {
    forall i | 0 <= i < |schedule| :: !schedule[i].Start? && !schedule[i].WriteUsers?
  }

  /** One step, and then the given schedule. */
  lemma Prepend(s: State, a: Action, rest: seq<Action>) returns (schedule: seq<Action>)
    requires Enabled(s, a) && SomeoneTrusts(Run(Step(s, a), rest))
    ensures SomeoneTrusts(Run(s, schedule))
    ensures !a.Start? && !a.WriteUsers? && OnlyDelivers(rest) ==> OnlyDelivers(schedule)
  {
    hide Run, Step, Enabled;
    schedule := [a] + rest;
    RunOne(s, a, rest);
  }

  lemma VerifyGivesTrust(s: State, id: int) returns (schedule: seq<Action>)
    requires id in s.calls && s.calls[id].progress.Verifying?
    requires Usable(s.calls[id].request, s.calls[id].progress.response)
    ensures OnlyDelivers(schedule) && SomeoneTrusts(Run(s, schedule))
  {
    var a := Verify(id, true, true);
    RunNothing(Step(s, a));
    assert Step(s, a).calls[id].progress.Trusted?;
    schedule := Prepend(s, a, []);
  }

  lemma AnswerGivesTrust(s: State, id: int, response: AdoptResponse) returns (schedule: seq<Action>)
    requires id in s.calls && (s.calls[id].progress.Calling? || s.calls[id].progress.Awaiting?)
    requires (id, Accepted(response)) in s.replies && Usable(s.calls[id].request, response)
    ensures OnlyDelivers(schedule) && SomeoneTrusts(Run(s, schedule))
    decreases s.calls[id].progress.Calling?
  {
    hide Run, Usable;
    if s.calls[id].progress.Calling? {
      schedule := AnswerGivesTrust(Step(s, Send(id)), id, response);
      schedule := Prepend(s, Send(id), schedule);
    } else {
      var a := Conclude(id, Replied(Accepted(response)), false);
      schedule := VerifyGivesTrust(Step(s, a), id);
      schedule := Prepend(s, a, schedule);
    }
  }

  const UNDISTURBED: Circumstances := Circumstances(false, false, Some("fingerprint"), false, NoFault, false, false)

  /** An undisturbed node with a TLS port accepts a first request and every replay with a usable response. */
  lemma UndisturbedAccepts(node: Node, request: AdoptRequest)
    requires IsValid(request) && node.tlsPort != 0
    requires node.record.Missing? || WouldBeAccepted(node, request)
    ensures var reply := HandleAdopt(node, request, UNDISTURBED).1; reply.Accepted? && Usable(request, reply.response)
  {
    TrimKeepsTight("");
  }

  lemma RequestGivesTrust(s: State, id: int) returns (schedule: seq<Action>)
    requires Safe(s) && id in s.calls && (s.calls[id].progress.Calling? || s.calls[id].progress.Awaiting?)
    requires IsValid(s.calls[id].request)
    requires s.node.record.Missing? || WouldBeAccepted(s.node, s.calls[id].request)
    ensures OnlyDelivers(schedule) && SomeoneTrusts(Run(s, schedule))
    decreases s.calls[id].progress.Calling?, s.node.tlsPort == 0
  {
    hide Run, Usable, IsValid, HandleAdopt, Safe;
    if s.calls[id].progress.Calling? {
      StepKeepsSafe(s, Send(id));
      schedule := RequestGivesTrust(Step(s, Send(id)), id);
      schedule := Prepend(s, Send(id), schedule);
    } else if s.node.tlsPort == 0 {
      StepKeepsSafe(s, Restart(1));
      schedule := RequestGivesTrust(Step(s, Restart(1)), id);
      schedule := Prepend(s, Restart(1), schedule);
    } else {
      AwaitingIsSent(s, id);
      UndisturbedAccepts(s.node, s.calls[id].request);
      var a := Serve(id, UNDISTURBED);
      schedule := AnswerGivesTrust(Step(s, a), id, HandleAdopt(s.node, s.calls[id].request, UNDISTURBED).1.response);
      schedule := Prepend(s, a, schedule);
    }
  }

  lemma AwaitingIsSent(s: State, id: int)
    requires Safe(s) && id in s.calls && s.calls[id].progress.Awaiting?
    ensures id in s.sent
  {
  }

  lemma {:induction false} Above(ids: set<int>) returns (id: int)
    ensures forall k | k in ids :: k < id
    decreases |ids|
  {
    id := 0;
    if k :| k in ids {
      var other := Above(ids - {k});
      id := if k < other then other else k + 1;
      assert forall q: int | q in ids :: q == k || q in ids - {k};
    }
  }

  lemma MissingGivesTrust(s: State) returns (schedule: seq<Action>)
    requires Safe(s) && s.node.record.Missing?
    ensures SomeoneTrusts(Run(s, schedule))
  {
    hide Run, Safe;
    var id := Above(s.calls.Keys);
    var request := AdoptRequest("ca", "controller", "password", "token", "url");
    assert IsValid(request) by {
      TrimKeepsTight("ca");
      TrimKeepsTight("controller");
      TrimKeepsTight("password");
      TrimKeepsTight("token");
      TrimKeepsTight("url");
    }
    var a := Start(id, request);
    StepKeepsSafe(s, a);
    schedule := RequestGivesTrust(Step(s, a), id);
    schedule := Prepend(s, a, schedule);
  }

  /** The node can still be adopted, by a call under way or by one that draws a new token, exactly when it has
      no record yet or some call has trust, awaits the verification of a usable response, has been accepted, or
      still carries the stored credentials to a record that can be read. */
  lemma AdoptableExactly(s: State)
    requires Safe(s)
    ensures (exists schedule :: DrawsNewTokens(s, schedule) && SomeoneTrusts(Run(s, schedule))) <==> Adoptable(s)
  {
    hide Run, Safe;
    if !Adoptable(s) {
      forall schedule | DrawsNewTokens(s, schedule) ensures !SomeoneTrusts(Run(s, schedule)) {
        HopelessForever(s, schedule);
      }
    } else if s.node.record.Missing? {
      NoRecordNothingStored(s);
      var schedule := MissingGivesTrust(s);
      assert DrawsNewTokens(s, schedule);
    } else {
      var id :| id in s.calls && Hopeful(s, id);
      var schedule := HopeGivesTrust(s, id);
      assert DrawsNewTokens(s, schedule);
    }
  }

  lemma NoRecordNothingStored(s: State)
    requires Safe(s) && s.node.record.Missing?
    ensures s.stored.None?
  {
  }

  lemma HopeGivesTrust(s: State, id: int) returns (schedule: seq<Action>)
    requires Safe(s) && id in s.calls && Hopeful(s, id)
    ensures OnlyDelivers(schedule) && SomeoneTrusts(Run(s, schedule))
  {
    hide Run, Safe, IsValid, Usable;
    if s.calls[id].progress.Trusted? {
      schedule := [];
      RunNothing(s);
    } else if s.calls[id].progress.Verifying? {
      schedule := VerifyGivesTrust(s, id);
    } else if Answered(s, id) {
      var response :| (id, Accepted(response)) in s.replies && Usable(s.calls[id].request, response);
      schedule := AnswerGivesTrust(s, id, response);
    } else {
      schedule := RequestGivesTrust(s, id);
    }
  }

  /** Every call that carries the stored token has ended without trust. */
  ghost predicate Orphaned(s: State) {
    && s.stored.Some?
    && forall id | id in s.calls && SHA256(s.calls[id].request.apiToken) == s.stored.value.token ::
         s.calls[id].progress.Ended?
  }

  /** So when the one call a node accepted has failed, its answers lost, no later call can adopt the node. */
  lemma OrphanStaysOrphan(s: State, schedule: seq<Action>)
    requires Safe(s) && Orphaned(s) && DrawsNewTokens(s, schedule)
    ensures !SomeoneTrusts(Run(s, schedule))
  {
    hide Run, IsValid, Usable;
    HopelessForever(s, schedule);
  }

  /** Such states are reached: the node accepts a call whose controller then stops waiting. */
  lemma NodeCanBeOrphaned(tlsPort: int, req: AdoptRequest) returns (schedule: seq<Action>)
    requires IsValid(req)
    ensures Orphaned(Run(Initial(tlsPort), schedule)) && Run(Initial(tlsPort), schedule).node.record.Stored?
  {
    hide IsValid, Run;
    var gone := Conclude(0, Failed(Canceled, TransportError(true, false, None)), false);
    var s0 := Initial(tlsPort);
    var s1 := Step(s0, Start(0, req));
    var s2 := Step(s1, Send(0));
    var s3 := Step(s2, Serve(0, UNDISTURBED));
    RunNothing(Step(s3, gone));
    RunOne(s3, gone, []);
    schedule := [gone] + [];
    RunOne(s2, Serve(0, UNDISTURBED), schedule);
    schedule := [Serve(0, UNDISTURBED)] + schedule;
    RunOne(s1, Send(0), schedule);
    schedule := [Send(0)] + schedule;
    RunOne(s0, Start(0, req), schedule);
    schedule := [Start(0, req)] + schedule;
  }

  /** A first record that is only partly written blocks the node, too, even for the call that is still under way. */
  lemma NodeCanBeBlocked(tlsPort: int, req: AdoptRequest) returns (schedule: seq<Action>)
    requires IsValid(req)
    ensures var s := Run(Initial(tlsPort), schedule);
            s.node.record.Garbled? && s.stored.None? && !Adoptable(s) && 0 in s.calls && s.calls[0].progress.Awaiting?
  {
    hide IsValid, Run;
    var torn := Serve(0, UNDISTURBED.(write := PartlyWritten));
    var s0 := Initial(tlsPort);
    var s1 := Step(s0, Start(0, req));
    var s2 := Step(s1, Send(0));
    var s3 := Step(s2, torn);
    RunNothing(s3);
    RunOne(s2, torn, []);
    schedule := [torn] + [];
    RunOne(s1, Send(0), schedule);
    schedule := [Send(0)] + schedule;
    RunOne(s0, Start(0, req), schedule);
    schedule := [Start(0, req)] + schedule;
  }

  // ---------- The NUT user ----------

  /** One adoption request writes upsd.users exactly when it stores the first record and the write succeeds. */
  lemma UsersWrittenOnce(node: Node, req: AdoptRequest, c: Circumstances)
    ensures var next := HandleAdopt(node, req, c).0;
            next.users == if node.record.Missing? && next.record.Stored? && !c.usersFails
                          then Some(UPSDUser(req.nutUser, req.nutPassword)) else node.users
  {
    hide IsValid;
  }

  /** The user an action writes into upsd.users: the request that stores the first record writes its own, a scan
      the one it loaded. */
  function Written(s: State, a: Action): Option<UPSDUser> {
    if !Enabled(s, a) then None
    else match a
      case Serve(id, c) =>
        var request := s.calls[id].request;
        if s.node.record.Missing? && HandleAdopt(s.node, request, c).0.record.Stored? && !c.usersFails
        then Some(UPSDUser(request.nutUser, request.nutPassword)) else None
      case WriteUsers(end) => if end.GaveUp? then None else Some(s.scan.value.user)
      case _ => None
  }

  function Next(s: State, a: Action): State {
    if Enabled(s, a) then Step(s, a) else s
  }

  lemma StepWritesUsers(s: State, a: Action)
    ensures Next(s, a).node.users == if Written(s, a).Some? then Written(s, a) else s.node.users
  {
    hide HandleAdopt, Config.LoadRuntimeNUTUser, AdoptionFile, AfterAttempt, VerifyAndSave;
    if Enabled(s, a) && a.Serve? {
      UsersWrittenOnce(s.node, s.calls[a.id].request, a.c);
    }
  }

  /** Once the node has a record no adoption request touches upsd.users again, replays included. */
  lemma {:induction false} RequestsLeaveUsersAlone(s: State, schedule: seq<Action>)
    requires !s.node.record.Missing? && forall i | 0 <= i < |schedule| :: !schedule[i].WriteUsers?
    ensures Run(s, schedule).node.users == s.node.users && !Run(s, schedule).node.record.Missing?
    decreases |schedule|
  {
    hide HandleAdopt, Config.LoadRuntimeNUTUser, AdoptionFile, AfterAttempt, VerifyAndSave;
    if schedule != [] {
      var a := schedule[0];
      StepWritesUsers(s, a);
      RecordRemains(s, a);
      assert forall i | 0 <= i < |schedule| - 1 :: schedule[1..][i] == schedule[i + 1];
      RequestsLeaveUsersAlone(Next(s, a), schedule[1..]);
    }
  }

  lemma RecordRemains(s: State, a: Action)
    ensures !s.node.record.Missing? ==> !Next(s, a).node.record.Missing?
    ensures Next(s, a).node.record == s.node.record || a.Serve?
  {
    hide HandleAdopt, Config.LoadRuntimeNUTUser, AdoptionFile, AfterAttempt, VerifyAndSave;
    if Enabled(s, a) && a.Serve? {
      ServeKeepsRecord(s.node, s.calls[a.id].request, a.c);
    }
  }

  // ---------- Who wrote upsd.users last ----------

  function StateAt(tlsPort: int, schedule: seq<Action>, i: nat): State
    requires i <= |schedule|
  {
    Run(Initial(tlsPort), schedule[..i])
  }

  lemma StateAfter(tlsPort: int, schedule: seq<Action>, i: nat)
    requires i < |schedule|
    ensures StateAt(tlsPort, schedule, i + 1) == Next(StateAt(tlsPort, schedule, i), schedule[i])
  {
    hide Step, Enabled;
    assert schedule[..i + 1] == schedule[..i] + [schedule[i]];
    RunAppend(Initial(tlsPort), schedule[..i], [schedule[i]]);
    assert [schedule[i]][1..] == [];
  }

  /** What the i-th action of the run writes. */
  function WrittenAt(tlsPort: int, schedule: seq<Action>, i: nat): Option<UPSDUser>
    requires i < |schedule|
  {
    Written(StateAt(tlsPort, schedule, i), schedule[i])
  }

  predicate Spares(written: Option<UPSDUser>, user: UPSDUser) {
    written.Some? ==> written.value == user
  }

  /** The k-th action writes the user, and none of those after it, before the n-th, writes another one. */
  ghost predicate LeavesUser(tlsPort: int, schedule: seq<Action>, user: UPSDUser, n: nat, k: nat)
    requires n <= |schedule|
  {
    && k < n && WrittenAt(tlsPort, schedule, k) == Some(user)
    && forall j | k < j < n :: Spares(WrittenAt(tlsPort, schedule, j), user)
  }

  lemma {:induction false} LastWriteWins(tlsPort: int, schedule: seq<Action>, user: UPSDUser, n: nat)
    requires n <= |schedule|
    ensures StateAt(tlsPort, schedule, n).node.users == Some(user) <==>
            exists k :: LeavesUser(tlsPort, schedule, user, n, k)
  {
    hide Run, Written, StateAt, WrittenAt;
    if n == 0 {
      AtFirst(tlsPort, schedule);
    } else {
      LastWriteWins(tlsPort, schedule, user, n - 1);
      OneMoreWrite(tlsPort, schedule, n - 1);
      var written := WrittenAt(tlsPort, schedule, n - 1);
      if written == Some(user) {
        assert LeavesUser(tlsPort, schedule, user, n, n - 1);
      } else if written.None? {
        if k: nat :| LeavesUser(tlsPort, schedule, user, n, k) {
          assert LeavesUser(tlsPort, schedule, user, n - 1, k);
        }
        var last := n - 1;
        if k: nat :| LeavesUser(tlsPort, schedule, user, last, k) {
          assert LeavesUser(tlsPort, schedule, user, n, k);
        }
      } else {
        if k: nat :| LeavesUser(tlsPort, schedule, user, n, k) {
          assert false;
        }
      }
    }
  }

  lemma AtFirst(tlsPort: int, schedule: seq<Action>)
    ensures StateAt(tlsPort, schedule, 0) == Initial(tlsPort)
  {
    assert schedule[..0] == [];
  }

  lemma OneMoreWrite(tlsPort: int, schedule: seq<Action>, i: nat)
    requires i < |schedule|
    ensures StateAt(tlsPort, schedule, i + 1).node.users ==
            if WrittenAt(tlsPort, schedule, i).Some? then WrittenAt(tlsPort, schedule, i)
            else StateAt(tlsPort, schedule, i).node.users
  {
    hide Run, Written, Next;
    StateAfter(tlsPort, schedule, i);
    StepWritesUsers(StateAt(tlsPort, schedule, i), schedule[i]);
  }

  // ---------- The user of a controller that holds trust ----------

  /** The i-th action of the run stores the node's first record. */
  ghost predicate StoresFirst(tlsPort: int, schedule: seq<Action>, i: nat) {
    && i < |schedule|
    && StateAt(tlsPort, schedule, i).node.record.Missing?
    && StateAt(tlsPort, schedule, i + 1).node.record.Stored?
  }

  /** A record that was stored was stored by some first action. */
  lemma {:induction false} SomeActionStored(tlsPort: int, schedule: seq<Action>, n: nat) returns (i: nat)
    requires n <= |schedule| && StateAt(tlsPort, schedule, n).stored.Some?
    ensures i < n && StoresFirst(tlsPort, schedule, i)
  {
    hide Run, HandleAdopt;
    if n == 0 {
      AtFirst(tlsPort, schedule);
      assert false;
    }
    StateAfter(tlsPort, schedule, n - 1);
    var before, a := StateAt(tlsPort, schedule, n - 1), schedule[n - 1];
    if before.stored.Some? {
      i := SomeActionStored(tlsPort, schedule, n - 1);
    } else {
      RunIsSafe(tlsPort, schedule[..n - 1]);
      i := n - 1;
      if a.Serve? {
        ServeKeepsRecord(before.node, before.calls[a.id].request, a.c);
      }
    }
  }

  function RecordUser(state: AdoptionState): UPSDUser {
    UPSDUser(state.nutUser, state.nutPassword)
  }

  /** A scan that read the adoption record has loaded its user. */
  ghost predicate ScanAgrees(s: State) {
    s.scan.Some? && s.scan.value.fromRecord ==> s.stored.Some? && s.scan.value.user == RecordUser(s.stored.value)
  }

  lemma StepKeepsScan(s: State, a: Action)
    requires Safe(s) && Enabled(s, a) && ScanAgrees(s)
    ensures ScanAgrees(Step(s, a))
    ensures !s.node.record.Missing? && Step(s, a).scan.Some? && !Step(s, a).scan.value.fromRecord ==>
              s.scan == Step(s, a).scan
  {
    hide HandleAdopt, Safe, AfterAttempt, VerifyAndSave;
    StepKeepsSafe(s, a);
    if a.LoadUser? {
      StoredIsRecord(s);
    }
  }

  lemma StoredIsRecord(s: State)
    requires Safe(s)
    ensures s.node.record.Stored? ==> s.stored == Some(s.node.record.state)
  {
  }

  /** From the first record on a scan has the record's user loaded, unless it is the one that was under way then. */
  lemma {:induction false} ScansReadRecord(tlsPort: int, schedule: seq<Action>, n: nat)
    requires n <= |schedule|
    ensures Safe(StateAt(tlsPort, schedule, n)) && ScanAgrees(StateAt(tlsPort, schedule, n))
  {
    hide Run, Safe, Step, Enabled;
    RunIsSafe(tlsPort, schedule[..n]);
    if n == 0 {
      AtFirst(tlsPort, schedule);
    } else {
      ScansReadRecord(tlsPort, schedule, n - 1);
      StateAfter(tlsPort, schedule, n - 1);
      if Enabled(StateAt(tlsPort, schedule, n - 1), schedule[n - 1]) {
        StepKeepsScan(StateAt(tlsPort, schedule, n - 1), schedule[n - 1]);
      }
    }
  }

  /** What holds from the first record on. */
  ghost predicate Adopted(s: State, first: AdoptionState, underWay: Option<Loaded>) {
    && !s.node.record.Missing?
    && s.stored.Some? && RecordUser(s.stored.value) == RecordUser(first)
    && (s.scan.Some? && !s.scan.value.fromRecord ==> s.scan == underWay)
  }

  lemma {:induction false} AdoptedFrom(tlsPort: int, schedule: seq<Action>, i: nat, n: nat)
    requires StoresFirst(tlsPort, schedule, i) && i < n <= |schedule|
    ensures Adopted(StateAt(tlsPort, schedule, n), StateAt(tlsPort, schedule, i + 1).node.record.state,
                    StateAt(tlsPort, schedule, i).scan)
  {
    hide Run, Safe, Step, Enabled, StateAt;
    var s, a := StateAt(tlsPort, schedule, n - 1), schedule[n - 1];
    ScansReadRecord(tlsPort, schedule, n - 1);
    ScansReadRecord(tlsPort, schedule, n);
    StateAfter(tlsPort, schedule, n - 1);
    StoredIsRecord(StateAt(tlsPort, schedule, n));
    if n == i + 1 {
      StoringLeavesScan(s, a);
    } else {
      AdoptedFrom(tlsPort, schedule, i, n - 1);
      RecordRemains(s, a);
      if Enabled(s, a) {
        StepKeepsSafe(s, a);
        StepKeepsScan(s, a);
      }
    }
  }

  lemma StoringLeavesScan(s: State, a: Action)
    requires s.node.record.Missing? && Next(s, a).node.record.Stored?
    ensures a.Serve? && Enabled(s, a) && Next(s, a).scan == s.scan
    ensures Written(s, a) == if a.c.usersFails then None else Some(RecordUser(Next(s, a).node.record.state))
  {
    hide IsValid;
  }

  /** Every action after the first record that writes upsd.users is a scan's, and writes the record's user unless
      the scan was under way when the record was stored and had loaded the local user. */
  lemma LaterWrites(tlsPort: int, schedule: seq<Action>, i: nat, j: nat)
    requires StoresFirst(tlsPort, schedule, i) && i < j < |schedule|
    ensures var user := RecordUser(StateAt(tlsPort, schedule, i + 1).node.record.state);
            var underWay := StateAt(tlsPort, schedule, i).scan;
            var written := WrittenAt(tlsPort, schedule, j);
            || Spares(written, user)
            || (underWay.Some? && !underWay.value.fromRecord && written.value == underWay.value.user)
  {
    hide Run, StateAt;
    AdoptedFrom(tlsPort, schedule, i, j);
    ScansReadRecord(tlsPort, schedule, j);
  }

  /** On every run that gives some controller trust one action stored the node's first record. The controller's
      NUT user is then in upsd.users exactly when some action wrote it there and no later one wrote another user.
      The storing action writes it exactly when its write of the file succeeds; later, every scan that writes the
      file at all writes that user, except a scan that had loaded the local user before the record was stored. */
  lemma TrustHolderHasUser(tlsPort: int, schedule: seq<Action>, id: int) returns (i: nat)
    requires id in Run(Initial(tlsPort), schedule).calls
    requires Run(Initial(tlsPort), schedule).calls[id].progress.Trusted?
    ensures StoresFirst(tlsPort, schedule, i) && schedule[i].Serve?
    ensures var s := Run(Initial(tlsPort), schedule);
            var trust := s.calls[id].progress.trust;
            var user := UPSDUser(trust.nutUser, trust.nutPassword);
            var underWay := StateAt(tlsPort, schedule, i).scan;
            && (s.node.users == Some(user) <==> exists k :: LeavesUser(tlsPort, schedule, user, |schedule|, k))
            && WrittenAt(tlsPort, schedule, i) == (if schedule[i].c.usersFails then None else Some(user))
            && (forall j | i < j < |schedule| ::
                  || Spares(WrittenAt(tlsPort, schedule, j), user)
                  || (underWay.Some? && !underWay.value.fromRecord
                      && WrittenAt(tlsPort, schedule, j) == Some(underWay.value.user)))
  {
    hide Run, StateAt, WrittenAt, LeavesUser;
    var n := |schedule|;
    WholeRun(tlsPort, schedule);
    ScansReadRecord(tlsPort, schedule, n);
    var s := StateAt(tlsPort, schedule, n);
    TrustMeansStored(s, id);
    i := SomeActionStored(tlsPort, schedule, n);
    AdoptedFrom(tlsPort, schedule, i, n);
    StateAfter(tlsPort, schedule, i);
    StoringLeavesScan(StateAt(tlsPort, schedule, i), schedule[i]);
    WrittenIs(tlsPort, schedule, i);
    var trust := s.calls[id].progress.trust;
    LastWriteWins(tlsPort, schedule, UPSDUser(trust.nutUser, trust.nutPassword), n);
    forall j | i < j < n
      ensures var underWay := StateAt(tlsPort, schedule, i).scan;
              || Spares(WrittenAt(tlsPort, schedule, j), UPSDUser(trust.nutUser, trust.nutPassword))
              || (underWay.Some? && !underWay.value.fromRecord
                  && WrittenAt(tlsPort, schedule, j) == Some(underWay.value.user))
    {
      LaterWrites(tlsPort, schedule, i, j);
    }
  }

  lemma WrittenIs(tlsPort: int, schedule: seq<Action>, i: nat)
    requires i < |schedule|
    ensures WrittenAt(tlsPort, schedule, i) == Written(StateAt(tlsPort, schedule, i), schedule[i])
  {
  }

  lemma WholeRun(tlsPort: int, schedule: seq<Action>)
    ensures StateAt(tlsPort, schedule, |schedule|) == Run(Initial(tlsPort), schedule)
  {
    assert schedule[..|schedule|] == schedule;
  }

  lemma TrustMeansStored(s: State, id: int)
    requires Safe(s) && id in s.calls && s.calls[id].progress.Trusted?
    ensures s.stored.Some?
    ensures var trust := s.calls[id].progress.trust;
            RecordUser(s.stored.value) == UPSDUser(trust.nutUser, trust.nutPassword)
  {
  }

  /** With no scan under way when the record was stored, the user is there exactly when the storing action wrote it,
      or some later scan wrote the file, or the very same user was already there. */
  lemma TrustHolderHasUserExactly(tlsPort: int, schedule: seq<Action>, id: int) returns (i: nat)
    requires id in Run(Initial(tlsPort), schedule).calls
    requires Run(Initial(tlsPort), schedule).calls[id].progress.Trusted?
    ensures StoresFirst(tlsPort, schedule, i) && schedule[i].Serve?
    ensures var s, before := Run(Initial(tlsPort), schedule), StateAt(tlsPort, schedule, i);
            var trust := s.calls[id].progress.trust;
            var user := UPSDUser(trust.nutUser, trust.nutPassword);
            before.scan.None? ==>
              (s.node.users == Some(user) <==>
                || before.node.users == Some(user)
                || !schedule[i].c.usersFails
                || exists j :: i < j < |schedule| && WrittenAt(tlsPort, schedule, j).Some?)
  {
    hide Run, StateAt, WrittenAt;
    i := TrustHolderHasUser(tlsPort, schedule, id);
    var s, n := Run(Initial(tlsPort), schedule), |schedule|;
    var user := UPSDUser(s.calls[id].progress.trust.nutUser, s.calls[id].progress.trust.nutPassword);
    if StateAt(tlsPort, schedule, i).scan.None? {
      LastWriteWins(tlsPort, schedule, user, i);
      if k: nat :| LeavesUser(tlsPort, schedule, user, n, k) {
        if k < i {
          assert LeavesUser(tlsPort, schedule, user, i, k);
        } else if k > i {
          assert WrittenAt(tlsPort, schedule, k).Some?;
        }
      }
      if k: nat :| LeavesUser(tlsPort, schedule, user, i, k) {
        assert LeavesUser(tlsPort, schedule, user, n, k);
      }
      if !schedule[i].c.usersFails {
        assert LeavesUser(tlsPort, schedule, user, n, i);
      }
      if j: nat :| i < j < n && WrittenAt(tlsPort, schedule, j).Some? {
        assert LeavesUser(tlsPort, schedule, user, n, j);
      }
    }
  }

  /** A run on which the user is missing: the first request stores the record but not the user, and its retry is
      accepted as a replay. */
  lemma TrustWithoutUser(tlsPort: int, req: AdoptRequest) returns (schedule: seq<Action>)
    requires IsValid(req) && tlsPort != 0
    ensures SomeoneTrusts(Run(Initial(tlsPort), schedule)) && Run(Initial(tlsPort), schedule).node.users.None?
  {
    hide IsValid, Run;
    var failing := Serve(0, UNDISTURBED.(usersFails := true));
    var s0 := Initial(tlsPort);
    var s1 := Step(s0, Start(0, req));
    var s2 := Step(s1, Send(0));
    var s3 := Step(s2, failing);
    StepKeepsSafe(s0, Start(0, req));
    StepKeepsSafe(s1, Send(0));
    StepKeepsSafe(s2, failing);
    schedule := RequestGivesTrust(s3, 0);
    RequestsLeaveUsersAlone(s3, schedule);
    RunOne(s2, failing, schedule);
    schedule := [failing] + schedule;
    RunOne(s1, Send(0), schedule);
    schedule := [Send(0)] + schedule;
    RunOne(s0, Start(0, req), schedule);
    schedule := [Start(0, req)] + schedule;
  }

  /** From any state in which the node has a readable record, a scan puts the record's user into upsd.users. */
  lemma ScanRestoresUser(s: State, local: Config.CredentialsFile)
    requires s.node.record.Stored? && s.node.record.state.nutUser != "" && s.node.record.state.nutPassword != ""
    ensures Run(s, [LoadUser(local), WriteUsers(Applied)]).node.users == Some(RecordUser(s.node.record.state))
  {
    hide Run;
    var loaded := Step(s, LoadUser(local));
    RunNothing(Step(loaded, WriteUsers(Applied)));
    RunOne(loaded, WriteUsers(Applied), []);
    RunOne(s, LoadUser(local), [WriteUsers(Applied)] + []);
    assert [LoadUser(local)] + ([WriteUsers(Applied)] + []) == [LoadUser(local), WriteUsers(Applied)];
  }
}
