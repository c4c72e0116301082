/** Adoption: a node that accepts one set of credentials and its replays, and controllers that retry. */
module Adoption {
  import opened Basics
  import opened Text
  import opened UpsNames
  import Config = AgentConfig

  // ---------- Messages and records ----------

  /** SHA-256 of a token, taken as injective. */
  datatype Digest = SHA256(token: string)

  datatype AdoptRequest = AdoptRequest(caPEM: string, nutUser: string, nutPassword: string, apiToken: string,
                                       controllerURL: string)

  datatype AdoptResponse = AdoptResponse(controllerURL: string, tlsPort: int, tlsFingerprint: string, token: Digest)

  datatype AdoptionState = AdoptionState(caPEM: string, nutUser: string, nutPassword: string, token: Digest,
                                         controllerURL: string, tlsPort: int, tlsFingerprint: string)

  /** The adoption file. */
  datatype Record = Missing | Garbled | Stored(state: AdoptionState)

  datatype AdoptError = AlreadyAdopted | Internal

  datatype WriteFault = NoFault | NothingWritten | PartlyWritten

  /** What the file system, the certificate store and the service manager do during one request. */
  datatype Circumstances = Circumstances(statFails: bool, readFails: bool, certificate: Option<string>,
                                         dirFails: bool, write: WriteFault, usersFails: bool, reloadFails: bool)

  datatype Node = Node(tlsPort: int, record: Record, users: Option<UPSDUser>, inventory: Option<UPSDUser>,
                       adopted: bool)

  // ---------- The node ----------

  /** The same controller, token and NUT user as stored. */
  predicate Matches(state: AdoptionState, req: AdoptRequest) {
    && state.token == SHA256(req.apiToken)
    && state.nutUser == req.nutUser
    && state.nutPassword == req.nutPassword
    && state.controllerURL == req.controllerURL
  }

  function WriteRecord(node: Node, state: AdoptionState, fault: WriteFault): Node {
    match fault
    case NoFault => node.(record := Stored(state))
    case NothingWritten => node
    case PartlyWritten => node.(record := Garbled)
  }

  function ApplyAdoption(node: Node, req: AdoptRequest, c: Circumstances): (Node, Result<AdoptResponse, AdoptError>) {
    if c.statFails then (node, Err(Internal))
    else match node.record
      case Missing =>
        if c.certificate.None? || c.dirFails then (node, Err(Internal))
        else
          var state := AdoptionState(req.caPEM, req.nutUser, req.nutPassword, SHA256(req.apiToken), req.controllerURL,
                                     node.tlsPort, c.certificate.value);
          var written := WriteRecord(node, state, c.write);
          if !c.write.NoFault? || c.usersFails then (written, Err(Internal))
          else
            var user := UPSDUser(req.nutUser, req.nutPassword);
            if c.reloadFails then (written.(users := Some(user)), Err(Internal))
            else (written.(users := Some(user), inventory := Some(user), adopted := true),
                  Ok(AdoptResponse(req.controllerURL, node.tlsPort, c.certificate.value, SHA256(req.apiToken))))
      case Garbled => (node, Err(Internal))
      case Stored(state) =>
        if c.readFails then (node, Err(Internal))
        else if !Matches(state, req) then (node, Err(AlreadyAdopted))
        else if state.tlsFingerprint == "" && c.certificate.None? then (node, Err(Internal))
        else
          var filled := state.(tlsPort := if state.tlsPort == 0 then node.tlsPort else state.tlsPort,
                               tlsFingerprint := if state.tlsFingerprint == "" then c.certificate.value
                                                 else state.tlsFingerprint);
          if filled != state && !c.write.NoFault? then (WriteRecord(node, filled, c.write), Err(Internal))
          else (node.(record := Stored(filled)),
                Ok(AdoptResponse(req.controllerURL, filled.tlsPort, filled.tlsFingerprint, state.token)))
  }

  class RuntimeAdopter {
    var tlsPort: int
    var record: Record
    var users: Option<UPSDUser>
    var inventory: Option<UPSDUser>
    var adopted: bool

    constructor (tlsPort: int)
      ensures View() == Node(tlsPort, Missing, None, None, false)
    {
      this.tlsPort, record, users, inventory, adopted := tlsPort, Missing, None, None, false;
    }

    ghost function View(): Node
      reads this
    {
      Node(tlsPort, record, users, inventory, adopted)
    }

    method WriteAdoptionState(state: AdoptionState, fault: WriteFault) returns (ok: bool)
      modifies `record
      ensures View() == WriteRecord(old(View()), state, fault) && ok == fault.NoFault?
    {
      if fault.NothingWritten? {
        return false;
      }
      record := Garbled;   // the file is truncated before it is written
      if fault.NoFault? {
        record := Stored(state);
      }
      ok := fault.NoFault?;
    }

    method Apply(req: AdoptRequest, c: Circumstances) returns (r: Result<AdoptResponse, AdoptError>)
      modifies this
      ensures (View(), r) == ApplyAdoption(old(View()), req, c)
    {
      var tokenHash := SHA256(req.apiToken);
      if c.statFails {
        return Err(Internal);
      }
      if !record.Missing? {
        if record.Garbled? || c.readFails {
          return Err(Internal);
        }
        var existing := record.state;
        if existing.token == tokenHash && existing.nutUser == req.nutUser
           && existing.nutPassword == req.nutPassword && existing.controllerURL == req.controllerURL {
          var port := existing.tlsPort;
          if port == 0 {
            port := tlsPort;
          }
          var fingerprint := existing.tlsFingerprint;
          if fingerprint == "" {
            if c.certificate.None? {
              return Err(Internal);
            }
            fingerprint := c.certificate.value;
          }
          if existing.tlsPort != port || existing.tlsFingerprint != fingerprint {
            existing := existing.(tlsPort := port, tlsFingerprint := fingerprint);
            var ok := WriteAdoptionState(existing, c.write);
            if !ok {
              return Err(Internal);
            }
          }
          return Ok(AdoptResponse(req.controllerURL, port, fingerprint, existing.token));
        }
        return Err(AlreadyAdopted);
      }
      if c.certificate.None? || c.dirFails {
        return Err(Internal);
      }
      var state := AdoptionState(req.caPEM, req.nutUser, req.nutPassword, tokenHash, req.controllerURL, tlsPort,
                                 c.certificate.value);
      var ok := WriteAdoptionState(state, c.write);
      if !ok || c.usersFails {
        return Err(Internal);
      }
      users := Some(UPSDUser(req.nutUser, req.nutPassword));
      if c.reloadFails {
        return Err(Internal);
      }
      inventory := Some(UPSDUser(req.nutUser, req.nutPassword));
      adopted := true;
      r := Ok(AdoptResponse(req.controllerURL, tlsPort, c.certificate.value, tokenHash));
    }
  }

  predicate IsValid(req: AdoptRequest) {
    && TrimSpace(req.caPEM) != "" && TrimSpace(req.nutUser) != "" && TrimSpace(req.nutPassword) != ""
    && TrimSpace(req.apiToken) != "" && TrimSpace(req.controllerURL) != ""
  }

  datatype Reply = Accepted(response: AdoptResponse) | Status(code: int)

  /** The HTTP handler around ApplyAdoption. */
  function HandleAdopt(node: Node, req: AdoptRequest, c: Circumstances): (Node, Reply) {
    if !IsValid(req) then (node, Status(400))
    else
      var (next, r) := ApplyAdoption(node, req, c);
      (next, match r
             case Ok(response) => Accepted(response)
             case Err(AlreadyAdopted) => Status(409)
             case Err(Internal) => Status(500))
  }

  // ---------- The controller ----------

  const ADOPT_REQUEST_MAX_ATTEMPTS: nat := 3

  datatype Context = Live | Canceled | Expired

  datatype TransportError = TransportError(canceled: bool, deadlineExceeded: bool, timeout: Option<bool>)

  predicate ShouldRetryAdoptTransportError(ctx: Context, err: TransportError) {
    if err.canceled || ctx != Live then false
    else if err.deadlineExceeded then true
    else match err.timeout { case Some(timeout) => timeout case None => true }
  }

  predicate ShouldRetryAdoptStatus(code: int) {
    code == 502 || code == 503 || code == 504
  }

  /** How one HTTP attempt ends. */
  datatype Outcome =
    | Failed(ctx: Context, err: TransportError)
    | Replied(reply: Reply)
    | Unreadable                                  // status 200 with a body that does not decode

  datatype AdoptFailure = CallFailed | NodeAlreadyAdopted | Rejected(code: int) | BadResponse | NotVerified | NotSaved

  datatype Next = Retry | Use(response: AdoptResponse) | GiveUp(failure: AdoptFailure)

  /** What follows an attempt; waited tells whether the wait before a retry ran to its end. */
  function AfterAttempt(attempt: nat, outcome: Outcome, waited: bool): Next {
    match outcome
    case Unreadable => GiveUp(BadResponse)
    case Replied(Accepted(response)) => Use(response)
    case Failed(ctx, err) =>
      if attempt < ADOPT_REQUEST_MAX_ATTEMPTS && ShouldRetryAdoptTransportError(ctx, err) && waited then Retry
      else GiveUp(CallFailed)
    case Replied(Status(code)) =>
      if code == 409 then GiveUp(NodeAlreadyAdopted)
      else if attempt < ADOPT_REQUEST_MAX_ATTEMPTS && ShouldRetryAdoptStatus(code) && waited then Retry
      else GiveUp(Rejected(code))
  }

  /** What the controller keeps about an adopted node. */
  datatype Trust = Trust(controllerURL: string, tlsPort: int, tlsFingerprint: string, nutUser: string,
                         apiToken: string, nutPassword: string)

  /** The pinned health request and the save; healthy and saved are their outcomes when made. */
  function VerifyAndSave(req: AdoptRequest, response: AdoptResponse, healthy: bool, saved: bool)
    : Result<Trust, AdoptFailure>
  {
    if response.tlsPort == 0 || req.apiToken == "" || response.tlsFingerprint == "" || !healthy then Err(NotVerified)
    else if !saved then Err(NotSaved)
    else Ok(Trust(req.controllerURL, response.tlsPort, response.tlsFingerprint, req.nutUser, req.apiToken,
                  req.nutPassword))
  }

  lemma VerifiesExactly(req: AdoptRequest, response: AdoptResponse, healthy: bool, saved: bool)
    ensures var result := VerifyAndSave(req, response, healthy, saved);
            var usable := response.tlsPort != 0 && response.tlsFingerprint != "" && req.apiToken != "";
            && (result.Ok? <==> usable && healthy && saved)
            && (result.Err? ==> result.error == if usable && healthy then NotSaved else NotVerified)
            && (result.Ok? ==>
                  && result.value.controllerURL == req.controllerURL && result.value.nutUser == req.nutUser
                  && result.value.apiToken == req.apiToken && result.value.nutPassword == req.nutPassword
                  && result.value.tlsPort == response.tlsPort
                  && result.value.tlsFingerprint == response.tlsFingerprint)
  {
  }

  /** The attempts from the given one on. */
  function Attempts(attempt: nat, outcomes: seq<(Outcome, bool)>): (next: Next)
    requires attempt + |outcomes| == ADOPT_REQUEST_MAX_ATTEMPTS + 1 && outcomes != []
    ensures !next.Retry?
    decreases |outcomes|
  {
    var next := AfterAttempt(attempt, outcomes[0].0, outcomes[0].1);
    if next.Retry? then Attempts(attempt + 1, outcomes[1..]) else next
  }

  /** Trouble that a further attempt may not meet: a gateway's status, or a transport error other than a
      cancellation, if it was a timeout or not a network error at all, while the call itself may go on. */
  predicate IsPassing(outcome: Outcome) {
    match outcome
    case Failed(ctx, err) =>
      ctx == Live && !err.canceled && (err.deadlineExceeded || err.timeout.None? || err.timeout.value)
    case Replied(Status(code)) => code == 502 || code == 503 || code == 504
    case _ => false
  }

  lemma RetriesPassing(attempt: nat, outcome: Outcome, waited: bool)
    ensures AfterAttempt(attempt, outcome, waited).Retry? <==> attempt < 3 && IsPassing(outcome) && waited
    ensures var next := AfterAttempt(attempt, outcome, waited);
            && (next.Use? <==> outcome.Replied? && outcome.reply.Accepted?)
            && (next.Use? ==> next.response == outcome.reply.response)
            && (next.GiveUp? ==> next.failure == match outcome
                                                  case Failed(_, _) => CallFailed
                                                  case Unreadable => BadResponse
                                                  case Replied(Status(code)) =>
                                                    if code == 409 then NodeAlreadyAdopted else Rejected(code)
                                                  case Replied(Accepted(_)) => next.failure)
  {
  }

  /** One attempt, and the others if it is to be repeated. */
  lemma AttemptsFrom(attempt: nat, outcomes: seq<(Outcome, bool)>)
    requires |outcomes| == ADOPT_REQUEST_MAX_ATTEMPTS && 1 <= attempt <= ADOPT_REQUEST_MAX_ATTEMPTS
    ensures var next := AfterAttempt(attempt, outcomes[attempt - 1].0, outcomes[attempt - 1].1);
            && (next.Retry? ==> attempt < ADOPT_REQUEST_MAX_ATTEMPTS)
            && Attempts(attempt, outcomes[attempt - 1..]) ==
               if next.Retry? then Attempts(attempt + 1, outcomes[attempt..]) else next
  {
    hide ShouldRetryAdoptTransportError, ShouldRetryAdoptStatus;
    assert outcomes[attempt - 1..][1..] == outcomes[attempt..];
  }

  /** adoptNode, given what each attempt would meet: at most three attempts, and trust only on the strength
      of an accepted and verified response. */
  method AdoptNode(req: AdoptRequest, outcomes: seq<(Outcome, bool)>, healthy: bool, saved: bool)
    returns (result: Result<Trust, AdoptFailure>, attempts: nat)
    requires |outcomes| == ADOPT_REQUEST_MAX_ATTEMPTS
    ensures 1 <= attempts <= ADOPT_REQUEST_MAX_ATTEMPTS
    ensures result == match Attempts(1, outcomes)
                      case Use(response) => VerifyAndSave(req, response, healthy, saved)
                      case GiveUp(failure) => Err(failure)
    ensures forall i | 0 <= i < attempts - 1 :: AfterAttempt(i + 1, outcomes[i].0, outcomes[i].1).Retry?
    // An attempt is followed by another one exactly if it met a passing trouble and the wait ran to its end.
    ensures forall i | 0 <= i < attempts - 1 :: IsPassing(outcomes[i].0) && outcomes[i].1
    ensures attempts < ADOPT_REQUEST_MAX_ATTEMPTS ==> !(IsPassing(outcomes[attempts - 1].0) && outcomes[attempts - 1].1)
    // Trust comes exactly of an accepted response that can be verified, a healthy node and a save that succeeds.
    ensures result.Ok? <==>
            && outcomes[attempts - 1].0.Replied? && outcomes[attempts - 1].0.reply.Accepted?
            && outcomes[attempts - 1].0.reply.response.tlsPort != 0
            && outcomes[attempts - 1].0.reply.response.tlsFingerprint != ""
            && req.apiToken != "" && healthy && saved
    ensures result.Ok? ==>
              var response := outcomes[attempts - 1].0.reply.response;
              && result.value.controllerURL == req.controllerURL && result.value.nutUser == req.nutUser
              && result.value.apiToken == req.apiToken && result.value.nutPassword == req.nutPassword
              && result.value.tlsPort == response.tlsPort && result.value.tlsFingerprint == response.tlsFingerprint
    ensures result.Err? ==>
              result.error == match outcomes[attempts - 1].0
                              case Failed(_, _) => CallFailed
                              case Unreadable => BadResponse
                              case Replied(Status(code)) => if code == 409 then NodeAlreadyAdopted else Rejected(code)
                              case Replied(Accepted(response)) =>
                                if response.tlsPort != 0 && response.tlsFingerprint != "" && req.apiToken != ""
                                   && healthy
                                then NotSaved else NotVerified
  {
    hide Attempts, ShouldRetryAdoptTransportError, ShouldRetryAdoptStatus, IsPassing, VerifyAndSave;
    var attempt := 1;
    var accepted: Option<AdoptResponse> := None;
    assert outcomes[0..] == outcomes;
    while accepted.None?
      invariant 1 <= attempt <= ADOPT_REQUEST_MAX_ATTEMPTS
      invariant forall i | 0 <= i < attempt - 1 :: AfterAttempt(i + 1, outcomes[i].0, outcomes[i].1).Retry?
      invariant forall i | 0 <= i < attempt - 1 :: IsPassing(outcomes[i].0) && outcomes[i].1
      invariant Attempts(1, outcomes) == Attempts(attempt, outcomes[attempt - 1..])
      invariant accepted.Some? ==> outcomes[attempt - 1].0 == Replied(Accepted(accepted.value))
      decreases ADOPT_REQUEST_MAX_ATTEMPTS - attempt, accepted.None?
    {
      var (outcome, waited) := outcomes[attempt - 1];
      AttemptsFrom(attempt, outcomes);
      RetriesPassing(attempt, outcome, waited);
      match outcome {
        case Failed(ctx, err) =>
          if attempt < ADOPT_REQUEST_MAX_ATTEMPTS && ShouldRetryAdoptTransportError(ctx, err) {
            if !waited {
              return Err(CallFailed), attempt;
            }
            attempt := attempt + 1;
            continue;
          }
          return Err(CallFailed), attempt;
        case Unreadable =>
          return Err(BadResponse), attempt;
        case Replied(Accepted(response)) =>
          accepted := Some(response);
        case Replied(Status(code)) =>
          if code == 409 {
            return Err(NodeAlreadyAdopted), attempt;
          }
          if attempt < ADOPT_REQUEST_MAX_ATTEMPTS && ShouldRetryAdoptStatus(code) {
            if !waited {
              return Err(Rejected(code)), attempt;
            }
            attempt := attempt + 1;
            continue;
          }
          return Err(Rejected(code)), attempt;
      }
    }
    AttemptsFrom(attempt, outcomes);
    RetriesPassing(attempt, outcomes[attempt - 1].0, outcomes[attempt - 1].1);
    attempts := attempt;
    VerifiesExactly(req, accepted.value, healthy, saved);
    result := VerifyAndSave(req, accepted.value, healthy, saved);
  }

  // ---------- One node, any number of calls, a lossy network ----------

  datatype Progress =
    | Calling(attempt: nat)
    | Awaiting(attempt: nat)
    | Verifying(response: AdoptResponse)
    | Trusted(trust: Trust)
    | Ended(failure: AdoptFailure)

  datatype Call = Call(request: AdoptRequest, progress: Progress)

  /** The NUT user a scan under way has loaded, and whether it is the adoption record's. */
  datatype Loaded = Loaded(user: UPSDUser, fromRecord: bool)

  /** sent: the calls with a request on its way, which may be delivered at any time and any number of times;
      replies: what the node answered, which may reach its call at any time or never; stored: the last record
      the node had on disk; scan: the scan that will write upsd.users next. */
  datatype State = State(node: Node, calls: map<int, Call>, sent: set<int>, replies: set<(int, Reply)>,
                         stored: Option<AdoptionState>, scan: Option<Loaded>)

  function Initial(tlsPort: int): State {
    State(Node(tlsPort, Missing, None, None, false), map[], {}, {}, None, None)
  }

  /** How a scan's apply ends: before it wrote upsd.users, right after, or well. */
  datatype ScanEnd = GaveUp | WroteUsers | Applied

  datatype Action =
    | Start(id: int, request: AdoptRequest)
    | Send(id: int)
    | Serve(id: int, c: Circumstances)
    | Conclude(id: int, outcome: Outcome, waited: bool)
    | Verify(id: int, healthy: bool, saved: bool)
    | Restart(tlsPort: int)
    | LoadUser(local: Config.CredentialsFile)   // a scan reads its NUT user
    | WriteUsers(end: ScanEnd)                  // and writes upsd.users, unless it fails before

  predicate Enabled(s: State, a: Action) {
    match a
    case Start(id, _) => id !in s.calls
    case Send(id) => id in s.calls && s.calls[id].progress.Calling?
    case Serve(id, _) => id in s.sent && id in s.calls
    case Conclude(id, outcome, _) =>
      // Only the node itself answers with status 200; errors may also come from the network.
      && id in s.calls && s.calls[id].progress.Awaiting?
      && (outcome.Replied? && outcome.reply.Accepted? ==> (id, outcome.reply) in s.replies)
    case Verify(id, _, _) => id in s.calls && s.calls[id].progress.Verifying?
    case Restart(_) => true
    case LoadUser(_) => true
    case WriteUsers(_) => s.scan.Some?
  }

  /** The adoption file as the configuration loop reads it. */
  function AdoptionFile(record: Record): Config.CredentialsFile {
    match record
    case Missing => Config.Missing
    case Garbled => Config.Garbled
    case Stored(state) => Config.Credentials(UPSDUser(state.nutUser, state.nutPassword))
  }

  function Progressed(s: State, id: int, p: Progress): State
    requires id in s.calls
  {
    s.(calls := s.calls[id := s.calls[id].(progress := p)])
  }

  function Step(s: State, a: Action): State
    requires Enabled(s, a)
  {
    match a
    case Start(id, request) => s.(calls := s.calls[id := Call(request, Calling(1))])
    case Send(id) => Progressed(s, id, Awaiting(s.calls[id].progress.attempt)).(sent := s.sent + {id})
    case Serve(id, c) =>
      var (node, reply) := HandleAdopt(s.node, s.calls[id].request, c);
      s.(node := node, replies := s.replies + {(id, reply)},
         stored := if node.record.Stored? then Some(node.record.state) else s.stored)
    case Conclude(id, outcome, waited) =>
      var attempt := s.calls[id].progress.attempt;
      Progressed(s, id, match AfterAttempt(attempt, outcome, waited)
                        case Retry => Calling(attempt + 1)
                        case Use(response) => Verifying(response)
                        case GiveUp(failure) => Ended(failure))
    case Verify(id, healthy, saved) =>
      Progressed(s, id, match VerifyAndSave(s.calls[id].request, s.calls[id].progress.response, healthy, saved)
                        case Ok(trust) => Trusted(trust)
                        case Err(failure) => Ended(failure))
    case Restart(tlsPort) => s.(node := s.node.(tlsPort := tlsPort, inventory := None, adopted := false), scan := None)
    case LoadUser(local) =>
      s.(scan := match Config.LoadRuntimeNUTUser(local, AdoptionFile(s.node.record))
                 case Ok(user) => Some(Loaded(user, s.node.record.Stored?))
                 case Err(_) => None)
    case WriteUsers(end) =>
      var user := Some(s.scan.value.user);
      s.(scan := None,
         node := if end.GaveUp? then s.node
                 else s.node.(users := user, inventory := if end.Applied? then user else s.node.inventory))
  }

  function Run(s: State, schedule: seq<Action>): State
    decreases |schedule|
  {
    if schedule == [] then s
    else Run(if Enabled(s, schedule[0]) then Step(s, schedule[0]) else s, schedule[1..])
  }

  /** The later record keeps the credentials of the earlier one, and its TLS data once set. */
  predicate Extends(earlier: AdoptionState, later: AdoptionState) {
    && later.caPEM == earlier.caPEM && later.nutUser == earlier.nutUser && later.nutPassword == earlier.nutPassword
    && later.token == earlier.token && later.controllerURL == earlier.controllerURL
    && (earlier.tlsPort != 0 ==> later.tlsPort == earlier.tlsPort)
    && (earlier.tlsFingerprint != "" ==> later.tlsFingerprint == earlier.tlsFingerprint)
  }

  /** An accepted response gives the requester's credentials as the stored ones, with their TLS data. */
  predicate Backed(stored: Option<AdoptionState>, request: AdoptRequest, response: AdoptResponse) {
    && stored.Some?
    && Matches(stored.value, request)
    && (response.tlsPort != 0 ==> stored.value.tlsPort == response.tlsPort)
    && (response.tlsFingerprint != "" ==> stored.value.tlsFingerprint == response.tlsFingerprint)
  }

  /** The trust is exactly the stored record's credentials and TLS data. */
  predicate Agrees(stored: Option<AdoptionState>, trust: Trust) {
    && stored.Some?
    && stored.value.token == SHA256(trust.apiToken)
    && stored.value.nutUser == trust.nutUser && stored.value.nutPassword == trust.nutPassword
    && stored.value.controllerURL == trust.controllerURL
    && stored.value.tlsPort == trust.tlsPort != 0 && stored.value.tlsFingerprint == trust.tlsFingerprint != ""
  }

  predicate WithinAttempts(p: Progress) {
    p.Calling? || p.Awaiting? ==> 1 <= p.attempt <= ADOPT_REQUEST_MAX_ATTEMPTS
  }

  ghost predicate Safe(s: State) {
    && (forall id | id in s.calls :: WithinAttempts(s.calls[id].progress))
    && (forall id | id in s.calls && s.calls[id].progress.Awaiting? :: id in s.sent)
    && (s.node.record.Stored? ==> s.stored == Some(s.node.record.state))
    && (s.node.record.Missing? ==> s.stored.None?)
    && (forall id, reply | (id, reply) in s.replies && reply.Accepted? ::
          id in s.calls && Backed(s.stored, s.calls[id].request, reply.response))
    && (forall id | id in s.calls && s.calls[id].progress.Verifying? ::
          Backed(s.stored, s.calls[id].request, s.calls[id].progress.response))
    && (forall id | id in s.calls && s.calls[id].progress.Trusted? ::
          && Agrees(s.stored, s.calls[id].progress.trust)
          && s.calls[id].progress.trust.apiToken == s.calls[id].request.apiToken)
  }

  /** One request: an accepted response reports the record as it is now stored, and a record that was there
      before is only ever extended, or garbled by a write that fails. */
  lemma ServeKeepsRecord(node: Node, req: AdoptRequest, c: Circumstances)
    ensures var (next, reply) := HandleAdopt(node, req, c);
            && (reply.Accepted? ==> next.record.Stored? && Backed(Some(next.record.state), req, reply.response))
            && (next.record.Missing? ==> node.record.Missing?)
            && (node.record.Garbled? ==> next.record.Garbled?)
            && (node.record.Stored? ==> !next.record.Missing?)
            && (node.record.Stored? && next.record.Stored? ==> Extends(node.record.state, next.record.state))
  {
    hide IsValid;
  }

  lemma ServeKeepsSafe(s: State, id: int, c: Circumstances)
    requires Safe(s) && Enabled(s, Serve(id, c))
    ensures Safe(Step(s, Serve(id, c)))
    ensures s.stored.Some? ==>
              Step(s, Serve(id, c)).stored.Some? && Extends(s.stored.value, Step(s, Serve(id, c)).stored.value)
  {
    hide HandleAdopt;
    ServeKeepsRecord(s.node, s.calls[id].request, c);
  }

  lemma StepKeepsSafe(s: State, a: Action)
    requires Safe(s) && Enabled(s, a)
    ensures Safe(Step(s, a))
    ensures s.stored.Some? ==> Step(s, a).stored.Some? && Extends(s.stored.value, Step(s, a).stored.value)
  {
    hide HandleAdopt, Config.LoadRuntimeNUTUser, AdoptionFile;
    hide ShouldRetryAdoptStatus, ShouldRetryAdoptTransportError;
    if a.Serve? {
      ServeKeepsSafe(s, a.id, a.c);
    }
  }

  lemma {:induction false} RunKeepsSafe(s: State, schedule: seq<Action>)
    requires Safe(s)
    ensures Safe(Run(s, schedule))
    ensures s.stored.Some? ==> Run(s, schedule).stored.Some? && Extends(s.stored.value, Run(s, schedule).stored.value)
    decreases |schedule|
  {
    hide Safe;
    if schedule != [] {
      var enabled := Enabled(s, schedule[0]);
      if enabled {
        StepKeepsSafe(s, schedule[0]);
      }
      RunKeepsSafe(if enabled then Step(s, schedule[0]) else s, schedule[1..]);
    }
  }

  lemma RunIsSafe(tlsPort: int, schedule: seq<Action>)
    ensures Safe(Run(Initial(tlsPort), schedule))
  {
    RunKeepsSafe(Initial(tlsPort), schedule);
  }

  lemma {:induction false} RunAppend(s: State, first: seq<Action>, second: seq<Action>)
    ensures Run(s, first + second) == Run(Run(s, first), second)
    decreases |first|
  {
    if first == [] {
      assert first + second == second;
    } else {
      assert (first + second)[1..] == first[1..] + second;
      RunAppend(if Enabled(s, first[0]) then Step(s, first[0]) else s, first[1..], second);
    }
  }

  /** Adoption agreement: on every schedule, whatever is lost, delayed, duplicated or restarted, each controller
      that saved trust holds exactly the credentials and TLS data the node stored; so any two agree, and with
      distinct tokens there is only one. */
  lemma AdoptionAgreement(tlsPort: int, schedule: seq<Action>, id: int, other: int)
    ensures var s := Run(Initial(tlsPort), schedule);
            id in s.calls && s.calls[id].progress.Trusted? ==>
              && Agrees(s.stored, s.calls[id].progress.trust)
              && (other in s.calls && s.calls[other].progress.Trusted? ==>
                    && s.calls[other].progress.trust == s.calls[id].progress.trust
                    && s.calls[other].request.apiToken == s.calls[id].request.apiToken)
  {
    hide Run;
    RunIsSafe(tlsPort, schedule);
  }

  /** A garbled record stays so, and the node accepts nothing from then on. */
  lemma {:induction false} GarbledAcceptsNothing(s: State, schedule: seq<Action>)
    requires s.node.record.Garbled?
    ensures var t := Run(s, schedule);
            && t.node.record.Garbled? && t.stored == s.stored
            && forall id, response :: (id, Accepted(response)) in t.replies <==> (id, Accepted(response)) in s.replies
    decreases |schedule|
  {
    hide IsValid;
    if schedule != [] {
      GarbledAcceptsNothing(if Enabled(s, schedule[0]) then Step(s, schedule[0]) else s, schedule[1..]);
    }
  }

  /** No controller gets trust without a healthy answer over the pinned connection: where a call has trust, some
      action verified a usable response to it and found the node healthy, and the trust is that response's. */
  lemma {:induction false} TrustIsVerified(s: State, schedule: seq<Action>, id: int)
    requires id in s.calls ==> !s.calls[id].progress.Trusted?
    ensures var t := Run(s, schedule);
            id in t.calls && t.calls[id].progress.Trusted? ==>
              exists i :: 0 <= i < |schedule|
                          && Verifies(Run(s, schedule[..i]), schedule[i], id, t.calls[id].progress.trust)
    decreases |schedule|
  {
    hide Step, Enabled, Verifies;
    if schedule != [] {
      var last := |schedule| - 1;
      var before, a := Run(s, schedule[..last]), schedule[last];
      assert schedule == schedule[..last] + [a] && [a][1..] == [];
      RunAppend(s, schedule[..last], [a]);
      TrustIsVerified(s, schedule[..last], id);
      assert Run(before, [a]) == if Enabled(before, a) then Step(before, a) else before;
      if Enabled(before, a) {
        StepVerifies(before, a, id);
      }
      forall i | 0 <= i < last ensures schedule[..last][..i] == schedule[..i] && schedule[..last][i] == schedule[i] {
      }
    } else {
      RunNothing(s);
    }
  }

  /** The action finds the node of the call healthy, saves, and the trust is the request's and the response's. */
  predicate Verifies(s: State, a: Action, id: int, trust: Trust) {
    && a == Verify(id, true, true) && id in s.calls && s.calls[id].progress.Verifying?
    && var request, response := s.calls[id].request, s.calls[id].progress.response;
       && response.tlsPort != 0 && response.tlsFingerprint != "" && request.apiToken != ""
       && trust == Trust(request.controllerURL, response.tlsPort, response.tlsFingerprint, request.nutUser,
                         request.apiToken, request.nutPassword)
  }

  lemma StepVerifies(s: State, a: Action, id: int)
    requires Enabled(s, a)
    ensures var t := Step(s, a);
            id in t.calls && t.calls[id].progress.Trusted? ==>
              || (id in s.calls && s.calls[id].progress == t.calls[id].progress)
              || Verifies(s, a, id, t.calls[id].progress.trust)
  {
    hide HandleAdopt, AfterAttempt, Config.LoadRuntimeNUTUser, AdoptionFile;
  }

  /** Stored credentials never change once written: a longer run only extends the record an earlier one
      stored, or garbles the file by a write that fails, after which the node accepts nothing. */
  lemma StoredNeverChanges(tlsPort: int, earlier: seq<Action>, more: seq<Action>)
    ensures var s, t := Run(Initial(tlsPort), earlier), Run(Initial(tlsPort), earlier + more);
            && (s.node.record.Stored? ==>
                  && t.stored.Some? && Extends(s.node.record.state, t.stored.value)
                  && (t.node.record == Stored(t.stored.value) || t.node.record.Garbled?))
            && (s.node.record.Garbled? ==>
                  && t.node.record.Garbled? && t.stored == s.stored
                  && forall id, response | (id, Accepted(response)) in t.replies ::
                       (id, Accepted(response)) in s.replies)
  {
    hide Run;
    var s := Run(Initial(tlsPort), earlier);
    RunAppend(Initial(tlsPort), earlier, more);
    RunIsSafe(tlsPort, earlier);
    RunIsSafe(tlsPort, earlier + more);
    RunKeepsSafe(s, more);
    if s.node.record.Garbled? {
      GarbledAcceptsNothing(s, more);
    }
  }

  /** A node without a record accepts exactly the valid requests nothing goes wrong with, stores all of their
      credentials, and writes and announces the NUT user. */
  lemma FreshAdoption(node: Node, req: AdoptRequest, c: Circumstances)
    requires node.record.Missing?
    ensures var (next, reply) := HandleAdopt(node, req, c);
            && (reply.Accepted? <==>
                  && IsValid(req) && !c.statFails && c.certificate.Some? && !c.dirFails && c.write.NoFault?
                  && !c.usersFails && !c.reloadFails)
            && (reply.Accepted? ==>
                  && reply.response ==
                     AdoptResponse(req.controllerURL, node.tlsPort, c.certificate.value, SHA256(req.apiToken))
                  && next.users == next.inventory == Some(UPSDUser(req.nutUser, req.nutPassword)) && next.adopted)
            && (next.record.Stored? ==>
                  next.record.state == AdoptionState(req.caPEM, req.nutUser, req.nutPassword, SHA256(req.apiToken),
                                                     req.controllerURL, node.tlsPort, c.certificate.value))
            && (!reply.Accepted? ==> reply == Status(if IsValid(req) then 500 else 400))
  {
    hide IsValid;
  }

  /** A node with a record accepts exactly the valid replays nothing goes wrong with, answers with the stored TLS data,
      of which it fills in what is missing, and refuses every rival. */
  lemma AcceptsExactlyReplays(node: Node, req: AdoptRequest, c: Circumstances)
    requires node.record.Stored?
    ensures var (next, reply) := HandleAdopt(node, req, c);
            var state := node.record.state;
            var port := if state.tlsPort != 0 then state.tlsPort else node.tlsPort;
            var fills := port != state.tlsPort || (state.tlsFingerprint == "" && c.certificate != Some(""));
            && (reply.Accepted? <==>
                  && IsValid(req) && !c.statFails && !c.readFails && Matches(state, req)
                  && (state.tlsFingerprint == "" ==> c.certificate.Some?) && (fills ==> c.write.NoFault?))
            && (reply.Accepted? ==>
                  && reply.response.tlsPort == port && reply.response.token == state.token
                  && reply.response.tlsFingerprint ==
                     (if state.tlsFingerprint != "" then state.tlsFingerprint else c.certificate.value)
                  && next == node.(record := Stored(state.(tlsPort := port,
                                                           tlsFingerprint := reply.response.tlsFingerprint))))
            && (reply == Status(409) <==> IsValid(req) && !c.statFails && !c.readFails && !Matches(state, req))
            && next.users == node.users
  {
    hide IsValid, Matches;
  }

  lemma RunOne(s: State, a: Action, rest: seq<Action>)
    requires Enabled(s, a)
    ensures Run(s, [a] + rest) == Run(Step(s, a), rest)
  {
    assert ([a] + rest)[1..] == rest;
  }

  lemma RunNothing(s: State)
    ensures Run(s, []) == s
  {
  }

  // ---------- A call of the network model is a call of AdoptNode ----------

  /** The steps of a call that meets the given outcomes. */
  function CallSteps(id: int, outcomes: seq<(Outcome, bool)>): seq<Action> {
    if outcomes == [] then []
    else [Send(id)] + ([Conclude(id, outcomes[0].0, outcomes[0].1)] + CallSteps(id, outcomes[1..]))
  }

  lemma {:induction false} CallIsOver(s: State, id: int, outcomes: seq<(Outcome, bool)>)
    requires id in s.calls && (s.calls[id].progress.Verifying? || s.calls[id].progress.Ended?)
    ensures Run(s, CallSteps(id, outcomes)) == s
    decreases |outcomes|
  {
    if outcomes != [] {
      var conclude := Conclude(id, outcomes[0].0, outcomes[0].1);
      var rest := CallSteps(id, outcomes[1..]);
      assert ([Send(id)] + ([conclude] + rest))[1..] == [conclude] + rest;
      assert ([conclude] + rest)[1..] == rest;
      CallIsOver(s, id, outcomes[1..]);
    }
  }

  /** A call that meets the given outcomes gets as far in the network model as AdoptNode does: to the
      verification of the same response, or to the same failure. */
  lemma {:induction false} CallFollowsAttempts(s: State, id: int, attempt: nat, outcomes: seq<(Outcome, bool)>)
    requires id in s.calls && s.calls[id].progress == Calling(attempt)
    requires attempt + |outcomes| == ADOPT_REQUEST_MAX_ATTEMPTS + 1 && outcomes != []
    requires forall o | o in outcomes && o.0.Replied? && o.0.reply.Accepted? :: (id, o.0.reply) in s.replies
    ensures var t := Run(s, CallSteps(id, outcomes));
            && id in t.calls && t.calls[id].request == s.calls[id].request
            && t.calls[id].progress == match Attempts(attempt, outcomes)
                                       case Use(response) => Verifying(response)
                                       case GiveUp(failure) => Ended(failure)
    decreases |outcomes|
  {
    hide Run, AfterAttempt;
    var conclude := Conclude(id, outcomes[0].0, outcomes[0].1);
    assert outcomes[0] in outcomes;
    var sent := Step(s, Send(id));
    var concluded := Step(sent, conclude);
    RunOne(s, Send(id), [conclude] + CallSteps(id, outcomes[1..]));
    RunOne(sent, conclude, CallSteps(id, outcomes[1..]));
    if AfterAttempt(attempt, outcomes[0].0, outcomes[0].1).Retry? {
      assert forall o | o in outcomes[1..] :: o in outcomes;
      LastAttemptEnds(attempt, outcomes[0].0, outcomes[0].1);
      CallFollowsAttempts(concluded, id, attempt + 1, outcomes[1..]);
    } else {
      CallIsOver(concluded, id, outcomes[1..]);
    }
  }

  lemma LastAttemptEnds(attempt: nat, outcome: Outcome, waited: bool)
    requires AfterAttempt(attempt, outcome, waited).Retry?
    ensures attempt < ADOPT_REQUEST_MAX_ATTEMPTS
  {
  }
}
