/**
 Hosted pairing: a command-line client that persists every step before it acts, a configuration
 file, and a pairing server.  One run at a time; a run may be cut short at any point, a write may
 be lost or left unconfirmed, and requests and replies may be lost.
 */
module HostedPairing {
  import opened Options

  type OperationId = nat
  type CredentialId = nat
  type Origin = string

  // The metadata a credential response carries.
  datatype Metadata = Metadata(
    runnerId: string,
    credentialId: CredentialId,
    registrationGeneration: nat,
    credentialGeneration: nat)

  datatype Token = PairingToken(text: string) | Issued(credentialId: CredentialId) | OtherToken(text: string)

  datatype Reason = Pending | OutcomeUnknown

  // The persisted controlRegistration.
  datatype Control =
    | Unregistered                                     // no controlRegistration at all
    | Registering(operationId: OperationId, reason: Reason)
    | Reprovisioning(operationId: OperationId, reason: Reason, recoveryCredentialId: CredentialId,
                     registration: Metadata)
    | RecoveryRequired(registration: Metadata)
    | Staged(operationId: OperationId, registration: Metadata)
    | Paired(operationId: OperationId, registration: Metadata)
    | OtherLifecycle(state: string)                    // rotation, revocation and conflict states

  datatype Trust = Trust(origin: Origin, authorizedAt: nat)

  datatype Disk = Disk(
    runnerId: string,
    control: Control,
    trust: Option<Trust>,
    pairingToken: Option<Token>,
    runnerToken: Option<Token>)

  // ----- The plan of one run -----

  datatype Command = Command(
    relayOrigin: Origin,
    trustRelayOrigin: Option<Origin>,
    recover: Option<CredentialId>,
    register: bool,
    recoverySecret: bool,                              // OPENTAG_RECOVERY_CREDENTIAL is set
    freshOperationId: OperationId,
    now: nat)

  datatype Plan =
    | Finalize(paired: Control, runnerToken: Token, trust: Trust)
    | Mutate(control: Control, trust: Trust, recovery: Option<Metadata>)

  datatype Planned = NotHosted | Refused(message: string) | Hosted(plan: Plan)

  // hostedPairPlan
  function HostedPairPlan(command: Command, disk: Disk): Planned {
    if command.trustRelayOrigin.None? && command.recover.None? && disk.control.Unregistered? && disk.trust.None? then
      NotHosted
    else if !command.register then Refused("--no-register is incompatible")
    else if command.trustRelayOrigin.Some? && command.trustRelayOrigin.value != command.relayOrigin then
      Refused("--trust-relay-origin must match --relay")
    else if disk.trust.Some? && disk.trust.value.origin != command.relayOrigin then
      Refused("already bound to a different trusted relay origin")
    else if disk.trust.None? && command.trustRelayOrigin.None? then Refused("requires --trust-relay-origin")
    else
      var trust := if disk.trust.Some? then disk.trust.value else Trust(command.relayOrigin, command.now);
      PlanFromControl(command, disk, trust)
  }

  function PlanFromControl(command: Command, disk: Disk, trust: Trust): Planned {
    var control := disk.control;
    if control.Staged? then
      if command.recover.Some? then Refused("staging must be finalized first")
      else if disk.runnerId == "" || control.registration.runnerId != disk.runnerId then
        Refused("runner identity mismatch")
      else if disk.runnerToken.None? then Refused("staged credential requires a runner token")
      else Hosted(Finalize(Paired(control.operationId, control.registration), disk.runnerToken.value, trust))
    else if command.recover.Some? then
      if control.Reprovisioning? then
        if control.recoveryCredentialId != command.recover.value then Refused("pending for a different credential id")
        else Hosted(Mutate(control, trust, Some(control.registration)))
      else if !control.RecoveryRequired? then Refused("recovery requires a recovery-required state")
      else
        Hosted(Mutate(
          Reprovisioning(command.freshOperationId, Pending, command.recover.value, control.registration),
          trust, Some(control.registration)))
    else
      match control
      case Registering(_, _) => Hosted(Mutate(control, trust, None))
      case Unregistered => Hosted(Mutate(Registering(command.freshOperationId, Pending), trust, None))
      case RecoveryRequired(_) => Refused("requires --recover")
      case _ => Refused("pairing cannot start from the persisted state")
  }

  // ----- The server -----

  datatype Request =
    | Register(operationId: OperationId, runnerId: string)
    | Reprovision(operationId: OperationId, runnerId: string, recoveryCredentialId: CredentialId,
                  expectedRegistrationGeneration: nat, expectedCredentialGeneration: nat)

  datatype Recorded = Recorded(request: Request, response: Metadata)

  datatype Server = Server(
    operations: map<OperationId, Recorded>,
    runner: Option<Metadata>,
    nextCredential: CredentialId)

  // A repeated operation gets its metadata back without a token.
  datatype Reply = Created(response: Metadata, runnerToken: Token) | Replayed(response: Metadata) | Conflict

  function Create(server: Server, request: Request, registrationGeneration: nat, credentialGeneration: nat)
    : (Server, Reply)
  {
    var response := Metadata(request.runnerId, server.nextCredential, registrationGeneration, credentialGeneration);
    var operations := server.operations[request.operationId := Recorded(request, response)];
    (Server(operations, Some(response), server.nextCredential + 1),
     Created(response, Issued(response.credentialId)))
  }

  function Serve(server: Server, request: Request): (Server, Reply) {
    if request.operationId in server.operations then
      var recorded := server.operations[request.operationId];
      (server, if recorded.request == request then Replayed(recorded.response) else Conflict)
    else
      match request
      case Register(_, _) =>
        if server.runner.Some? then (server, Conflict) else Create(server, request, 1, 1)
      case Reprovision(_, runnerId, recoveryId, registrationGeneration, credentialGeneration) =>
        if server.runner == Some(Metadata(runnerId, recoveryId, registrationGeneration, credentialGeneration)) then
          Create(server, request, registrationGeneration + 1, credentialGeneration + 1)
        else (server, Conflict)
  }

  // ----- One run -----

  // A write of the configuration file: confirmed by readback, not done, or done but the run ends.
  datatype Write = Confirmed | NotDone | Unconfirmed

  // The mutation request: answered, lost on the way, answered but the reply lost, refused by the
  // server with a protocol error, or the client dies (before or after the server acts).
  datatype Network = Answered | RequestLost | ReplyLost | ErrorReply | Died(acted: bool)

  datatype Faults = Faults(
    pendingWrite: Write,
    capabilityFails: bool,
    network: Network,
    resultWrite: Write,
    pairedWrite: Write)

  const NO_FAULTS := Faults(Confirmed, false, Answered, Confirmed, Confirmed)

  // A mutation request with the control state that was on disk when it left, and whether the write of
  // that state had been confirmed.
  datatype Sent = Sent(request: Request, onDisk: Control, confirmed: bool)

  // The history lists every content of the configuration, the first one included.
  datatype World = World(disk: Disk, server: Server, sent: seq<Sent>, history: seq<Disk>)

  // A write takes effect.
  function Store(w: World, disk: Disk): World {
    w.(disk := disk, history := w.history + [disk])
  }

  datatype TokenChange = Keep | Drop | Put(token: Token)

  // writeHostedState, when the write takes effect.
  function Persist(disk: Disk, control: Control, trust: Trust, removePairingToken: bool, change: TokenChange): Disk {
    Disk(disk.runnerId, control, Some(trust),
         if removePairingToken then None else disk.pairingToken,
         match change case Keep => disk.runnerToken case Drop => None case Put(token) => Some(token))
  }

  function RequestFor(plan: Plan, runnerId: string): Request
    requires plan.Mutate? && (plan.control.Registering? || plan.control.Reprovisioning?)
  {
    match plan.control
    case Registering(op, _) => Register(op, runnerId)
    case Reprovisioning(op, _, recoveryId, registration) =>
      Reprovision(op, runnerId, recoveryId, registration.registrationGeneration, registration.credentialGeneration)
  }

  // parseRunnerCredentialControlV1Response: the identity and the generations the client expects.
  predicate Acceptable(request: Request, response: Metadata) {
    && response.runnerId == request.runnerId
    && match request
       case Register(_, _) => response.registrationGeneration == 1 && response.credentialGeneration == 1
       case Reprovision(_, _, _, registrationGeneration, credentialGeneration) =>
         && response.registrationGeneration == registrationGeneration + 1
         && response.credentialGeneration == credentialGeneration + 1
  }

  function MarkUnknown(w: World, plan: Plan, faults: Faults): World
    requires plan.Mutate? && (plan.control.Registering? || plan.control.Reprovisioning?)
  {
    if faults.resultWrite == NotDone then w
    else Store(w, Persist(w.disk, plan.control.(reason := OutcomeUnknown), plan.trust, false, Keep))
  }

  // persistStageThenPair
  function StageThenPair(
    w: World, operationId: OperationId, response: Metadata, token: Token, trust: Trust, faults: Faults): World
  {
    if faults.resultWrite == NotDone then w
    else
      var staged := Persist(w.disk, Staged(operationId, response), trust, true, Put(token));
      if faults.resultWrite == Unconfirmed || faults.pairedWrite == NotDone then Store(w, staged)
      else Store(Store(w, staged), Persist(staged, Paired(operationId, response), trust, true, Put(token)))
  }

  function Receive(w: World, plan: Plan, request: Request, reply: Reply, faults: Faults): World
    requires plan.Mutate? && (plan.control.Registering? || plan.control.Reprovisioning?)
  {
    match reply
    case Conflict => w
    case Created(response, token) =>
      if Acceptable(request, response) then
        StageThenPair(w, plan.control.operationId, response, token, plan.trust, faults)
      else MarkUnknown(w, plan, faults)
    case Replayed(response) =>
      if !Acceptable(request, response) then MarkUnknown(w, plan, faults)
      else if faults.resultWrite == NotDone then w
      else Store(w, Persist(w.disk, RecoveryRequired(response), plan.trust, true, Drop))
  }

  // Whether the credential the mutation needs is at hand.
  predicate CredentialReady(disk: Disk, plan: Plan, command: Command)
    requires plan.Mutate?
  {
    if plan.recovery.Some? then command.recoverySecret else disk.pairingToken.Some?
  }

  function SendMutation(w: World, plan: Plan, faults: Faults): World
    requires plan.Mutate? && (plan.control.Registering? || plan.control.Reprovisioning?)
  {
    var request := RequestFor(plan, w.disk.runnerId);
    var out := w.(sent := w.sent + [Sent(request, w.disk.control, faults.pendingWrite == Confirmed)]);
    var (server, reply) := Serve(w.server, request);
    match faults.network
    case Answered => Receive(out.(server := server), plan, request, reply, faults)
    case RequestLost => MarkUnknown(out, plan, faults)
    case ReplyLost => MarkUnknown(out.(server := server), plan, faults)
    case ErrorReply => out
    case Died(acted) => if acted then out.(server := server) else out
  }

  // runHostedPair
  function RunHosted(w: World, plan: Plan, command: Command, faults: Faults): World
    requires plan.Mutate? && (plan.control.Registering? || plan.control.Reprovisioning?)
  {
    if faults.pendingWrite == NotDone then w
    else
      var pending := Store(w, Persist(w.disk, plan.control, plan.trust, false, Keep));
      if faults.pendingWrite == Unconfirmed || faults.capabilityFails || !CredentialReady(pending.disk, plan, command)
      then pending
      else SendMutation(pending, plan, faults)
  }

  // runPairCommand; pairing without hosted control does not touch these fields.
  function PairRun(w: World, command: Command, faults: Faults): World {
    match HostedPairPlan(command, w.disk)
    case NotHosted => w
    case Refused(_) => w
    case Hosted(plan) =>
      match plan
      case Finalize(paired, token, trust) =>
        if faults.pairedWrite == NotDone then w else Store(w, Persist(w.disk, paired, trust, true, Put(token)))
      case Mutate(_, _, _) => RunHosted(w, plan, command, faults)
  }
}
