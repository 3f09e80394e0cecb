/**
 What holds of the pairing protocol over any sequence of runs, whatever is lost or cut short.
 Operation ids are random and never repeat.
 */
module HostedPairingProperties {
  import opened Options
  import opened HostedPairing

  // ----- The invariant -----

  predicate NoTokens(disk: Disk) {
    disk.pairingToken.None? && disk.runnerToken.None?
  }

  // The server recorded exactly this request and its runner is what it answered.
  predicate Performed(server: Server, request: Request) {
    && request.operationId in server.operations
    && server.operations[request.operationId].request == request
    && server.runner == Some(server.operations[request.operationId].response)
    && Acceptable(request, server.operations[request.operationId].response)
  }

  // The configuration holds the server's current runner and the token issued for it.
  predicate HoldsCurrentCredential(w: World, registration: Metadata) {
    && w.server.runner == Some(registration)
    && w.disk.runnerToken == Some(Issued(registration.credentialId))
    && w.disk.pairingToken.None?
  }

  predicate ControlOk(w: World) {
    var disk, server := w.disk, w.server;
    match disk.control
    case Unregistered => server.operations == map[] && server.runner.None? && disk.pairingToken.Some?
    case Registering(op, _) =>
      && disk.pairingToken.Some?
      && ((server.operations == map[] && server.runner.None?) || Performed(server, Register(op, disk.runnerId)))
    case Reprovisioning(op, _, recoveryId, registration) =>
      && NoTokens(disk) && registration.runnerId == disk.runnerId
      && ((op !in server.operations && server.runner == Some(registration))
          || (Performed(server, RequestFor(Mutate(disk.control, Trust("", 0), None), disk.runnerId))
              && recoveryId == registration.credentialId))
    case RecoveryRequired(registration) =>
      NoTokens(disk) && server.runner == Some(registration) && registration.runnerId == disk.runnerId
    case Staged(_, registration) => HoldsCurrentCredential(w, registration) && registration.runnerId == disk.runnerId
    case Paired(_, registration) => HoldsCurrentCredential(w, registration) && registration.runnerId == disk.runnerId
    case OtherLifecycle(_) => false
  }

  predicate Inv(w: World) {
    && w.disk.runnerId != ""
    && (!w.disk.control.Unregistered? ==> w.disk.trust.Some?)
    && ControlOk(w)
  }

  // A configuration with a pairing token, and a server that has not seen this runner.
  predicate IsInitial(w: World) {
    && w.disk.runnerId != "" && w.disk.control.Unregistered? && w.disk.pairingToken.Some?
    && w.server.operations == map[] && w.server.runner.None? && w.sent == [] && w.history == [w.disk]
  }

  // The operation id on disk.
  function PendingOperation(control: Control): Option<OperationId> {
    match control
    case Registering(op, _) => Some(op)
    case Reprovisioning(op, _, _, _) => Some(op)
    case _ => None
  }

  predicate Fresh(w: World, command: Command) {
    && command.freshOperationId !in w.server.operations
    && PendingOperation(w.disk.control) != Some(command.freshOperationId)
  }

  // What a plan may be, given what is on disk.
  predicate PlanFits(w: World, command: Command, plan: Plan) {
    match plan
    case Finalize(paired, token, _) =>
      && w.disk.control.Staged? && w.disk.runnerToken == Some(token)
      && paired == Paired(w.disk.control.operationId, w.disk.control.registration)
    case Mutate(control, _, recovery) =>
      match control
      case Registering(op, reason) =>
        && recovery.None?
        && (w.disk.control == control
            || (w.disk.control.Unregistered? && reason == Pending && op == command.freshOperationId))
      case Reprovisioning(op, reason, recoveryId, registration) =>
        && recovery == Some(registration) && command.recover == Some(recoveryId)
        && (w.disk.control == control
            || (w.disk.control == RecoveryRequired(registration)
                && reason == Pending && op == command.freshOperationId))
      case _ => false
  }

  lemma PlannedFits(w: World, command: Command)
    ensures var planned := HostedPairPlan(command, w.disk); planned.Hosted? ==> PlanFits(w, command, planned.plan)
    ensures var planned := HostedPairPlan(command, w.disk);
            planned.Hosted? && w.disk.trust.Some? ==> planned.plan.trust == w.disk.trust.value
  {}

  // Planned for this run and written to disk.
  predicate Ready(w: World, plan: Plan) {
    plan.Mutate? && (plan.control.Registering? || plan.control.Reprovisioning?) && w.disk.control == plan.control
  }

  lemma PendingWriteInv(w: World, command: Command, plan: Plan)
    requires Inv(w) && Fresh(w, command) && plan.Mutate? && PlanFits(w, command, plan)
    ensures Inv(Store(w, Persist(w.disk, plan.control, plan.trust, false, Keep)))
  {}

  lemma MarkUnknownInv(w: World, plan: Plan, faults: Faults)
    requires Inv(w) && Ready(w, plan)
    ensures Inv(MarkUnknown(w, plan, faults))
  {}

  lemma ServeInv(w: World, plan: Plan)
    requires Inv(w) && Ready(w, plan)
    ensures var (server, reply) := Serve(w.server, RequestFor(plan, w.disk.runnerId));
            && Inv(w.(server := server))
            && (reply.Created? ==>
                  server.runner == Some(reply.response) && reply.runnerToken == Issued(reply.response.credentialId))
            && (reply.Replayed? ==> server.runner == Some(reply.response))
            && (!reply.Conflict? ==> Acceptable(RequestFor(plan, w.disk.runnerId), reply.response))
  {}

  lemma ReceiveInv(w: World, plan: Plan, request: Request, reply: Reply, faults: Faults)
    requires Inv(w) && Ready(w, plan) && request == RequestFor(plan, w.disk.runnerId)
    requires !reply.Conflict? ==> Acceptable(request, reply.response) && w.server.runner == Some(reply.response)
    requires reply.Created? ==> reply.runnerToken == Issued(reply.response.credentialId)
    ensures Inv(Receive(w, plan, request, reply, faults))
  {}

  lemma SendInv(w: World, plan: Plan, faults: Faults)
    requires Inv(w) && Ready(w, plan)
    ensures Inv(SendMutation(w, plan, faults))
  {
    hide Receive, MarkUnknown, Serve, RequestFor, ControlOk;
    var request := RequestFor(plan, w.disk.runnerId);
    var out := w.(sent := w.sent + [Sent(request, w.disk.control, faults.pendingWrite == Confirmed)]);
    SentIrrelevant(w, out.sent);
    var (server, reply) := Serve(w.server, request);
    ServeInv(out, plan);
    MarkUnknownInv(out, plan, faults);
    MarkUnknownInv(out.(server := server), plan, faults);
    ReceiveInv(out.(server := server), plan, request, reply, faults);
  }

  lemma SentIrrelevant(w: World, sent: seq<Sent>)
    requires Inv(w)
    ensures Inv(w.(sent := sent))
  {}

  /** Every run, however it is cut short, keeps the invariant. */
  lemma RunInv(w: World, command: Command, faults: Faults)
    requires Inv(w) && Fresh(w, command)
    ensures Inv(PairRun(w, command, faults))
  {
    PlannedFits(w, command);
    var planned := HostedPairPlan(command, w.disk);
    if planned.Hosted? && planned.plan.Mutate? {
      hide HostedPairPlan, ControlOk, SendMutation;
      PendingWriteInv(w, command, planned.plan);
      SendInv(Store(w, Persist(w.disk, planned.plan.control, planned.plan.trust, false, Keep)), planned.plan, faults);
    }
  }

  // ----- Sequences of runs -----

  datatype Attempt = Attempt(command: Command, faults: Faults)

  function RunAll(w: World, attempts: seq<Attempt>): World
    decreases |attempts|
  {
    if attempts == [] then w else RunAll(PairRun(w, attempts[0].command, attempts[0].faults), attempts[1..])
  }

  predicate AllFresh(w: World, attempts: seq<Attempt>)
    decreases |attempts|
  {
    attempts == []
    || (Fresh(w, attempts[0].command)
        && AllFresh(PairRun(w, attempts[0].command, attempts[0].faults), attempts[1..]))
  }

  lemma {:induction false} RunAllInv(w: World, attempts: seq<Attempt>)
    requires Inv(w) && AllFresh(w, attempts)
    ensures Inv(RunAll(w, attempts))
    decreases |attempts|
  {
    hide Inv, PairRun, Fresh;
    if attempts != [] {
      RunInv(w, attempts[0].command, attempts[0].faults);
      RunAllInv(PairRun(w, attempts[0].command, attempts[0].faults), attempts[1..]);
    }
  }

  /**
   After any runs: a staged or paired configuration holds the server's current runner and exactly
   the token issued for it; a recovery-required one holds the current runner and neither token.
   */
  lemma CredentialsMatchServer(w: World, attempts: seq<Attempt>)
    requires IsInitial(w) && AllFresh(w, attempts)
    ensures var r := RunAll(w, attempts);
            && (r.disk.control.Staged? || r.disk.control.Paired? ==>
                  HoldsCurrentCredential(r, r.disk.control.registration))
            && (r.disk.control.RecoveryRequired? ==>
                  NoTokens(r.disk) && r.server.runner == Some(r.disk.control.registration))
  {
    RunAllInv(w, attempts);
  }

  // ----- What is sent -----

  // Which credential a mutation asks for: the initial one, or the successor of a generation.
  function Slot(request: Request): nat {
    match request
    case Register(_, _) => 0
    case Reprovision(_, _, _, registrationGeneration, _) => registrationGeneration
  }

  // Every slot asked for so far is below this.
  function SlotLimit(control: Control): nat {
    match control
    case Unregistered => 0
    case Registering(_, _) => 1
    case Reprovisioning(_, _, _, registration) => registration.registrationGeneration + 1
    case RecoveryRequired(registration) => registration.registrationGeneration
    case Staged(_, registration) => registration.registrationGeneration
    case Paired(_, registration) => registration.registrationGeneration
    case OtherLifecycle(_) => 0
  }

  ghost predicate LogOk(w: World) {
    && (forall i :: 0 <= i < |w.sent| ==> Slot(w.sent[i].request) < SlotLimit(w.disk.control))
    && (forall i :: 0 <= i < |w.sent| ==>
          w.sent[i].confirmed && PendingOperation(w.sent[i].onDisk) == Some(w.sent[i].request.operationId))
    && (forall i, j :: 0 <= i < |w.sent| && 0 <= j < |w.sent| && Slot(w.sent[i].request) == Slot(w.sent[j].request) ==>
          w.sent[i].request.operationId == w.sent[j].request.operationId)
    && (PendingOperation(w.disk.control).Some? ==>
          forall i :: 0 <= i < |w.sent| && Slot(w.sent[i].request) + 1 == SlotLimit(w.disk.control) ==>
            PendingOperation(w.disk.control) == Some(w.sent[i].request.operationId))
  }

  // A new control state that keeps the log in order.
  predicate Advances(before: Control, after: Control) {
    || SlotLimit(before) < SlotLimit(after)
    || (SlotLimit(before) == SlotLimit(after)
        && (PendingOperation(after).None? || PendingOperation(before) == PendingOperation(after)))
  }

  lemma AdvanceKeepsLog(w: World, v: World)
    requires LogOk(w) && Advances(w.disk.control, v.disk.control) && v.sent == w.sent
    ensures LogOk(v)
  {}

  lemma SendKeepsLog(w: World, plan: Plan)
    requires LogOk(w) && Ready(w, plan)
    ensures LogOk(w.(sent := w.sent + [Sent(RequestFor(plan, w.disk.runnerId), w.disk.control, true)]))
  {}

  lemma PendingAdvances(w: World, command: Command, plan: Plan)
    requires Inv(w) && plan.Mutate? && PlanFits(w, command, plan)
    ensures Advances(w.disk.control, plan.control)
  {}

  lemma SendMutationLog(w: World, plan: Plan, faults: Faults)
    requires Inv(w) && LogOk(w) && Ready(w, plan) && faults.pendingWrite == Confirmed
    ensures LogOk(SendMutation(w, plan, faults))
  {
    hide ControlOk, LogOk, Serve;
    var request := RequestFor(plan, w.disk.runnerId);
    var out := w.(sent := w.sent + [Sent(request, w.disk.control, faults.pendingWrite == Confirmed)]);
    SendKeepsLog(w, plan);
    ServeInv(w, plan);
    var r := SendMutation(w, plan, faults);
    assert r.sent == out.sent;
    ReceiveAdvances(out, plan, faults, Serve(w.server, request).0, Serve(w.server, request).1);
    AdvanceKeepsLog(out, r);
  }

  lemma ReceiveAdvances(w: World, plan: Plan, faults: Faults, server: Server, reply: Reply)
    requires Ready(w, plan)
    ensures Advances(w.disk.control, MarkUnknown(w, plan, faults).disk.control)
    ensures Advances(w.disk.control, MarkUnknown(w.(server := server), plan, faults).disk.control)
    ensures var r := Receive(w.(server := server), plan, RequestFor(plan, w.disk.runnerId), reply, faults);
            Advances(w.disk.control, r.disk.control)
  {}

  lemma RunKeepsLog(w: World, command: Command, faults: Faults)
    requires Inv(w) && LogOk(w) && Fresh(w, command)
    ensures LogOk(PairRun(w, command, faults))
  {
    hide LogOk;
    PlannedFits(w, command);
    var planned := HostedPairPlan(command, w.disk);
    if planned.Hosted? && planned.plan.Mutate? {
      hide HostedPairPlan, ControlOk, SendMutation;
      var pending := Store(w, Persist(w.disk, planned.plan.control, planned.plan.trust, false, Keep));
      PendingWriteInv(w, command, planned.plan);
      PendingAdvances(w, command, planned.plan);
      AdvanceKeepsLog(w, pending);
      if faults.pendingWrite == Confirmed {
        SendMutationLog(pending, planned.plan, faults);
      }
    } else {
      AdvanceKeepsLog(w, PairRun(w, command, faults));
    }
  }

  lemma {:induction false} RunAllLog(w: World, attempts: seq<Attempt>)
    requires Inv(w) && LogOk(w) && AllFresh(w, attempts)
    ensures LogOk(RunAll(w, attempts))
    decreases |attempts|
  {
    hide Inv, LogOk, PairRun, Fresh;
    if attempts != [] {
      RunInv(w, attempts[0].command, attempts[0].faults);
      RunKeepsLog(w, attempts[0].command, attempts[0].faults);
      RunAllLog(PairRun(w, attempts[0].command, attempts[0].faults), attempts[1..]);
    }
  }

  /**
   Every mutation leaves with an operation id confirmed on disk, and whatever is lost and retried, one
   operation id is ever sent for the initial registration and one per recovered generation.
   */
  lemma OneOperationPerSlot(w: World, attempts: seq<Attempt>, i: nat, j: nat)
    requires IsInitial(w) && AllFresh(w, attempts)
    requires i < |RunAll(w, attempts).sent| && j < |RunAll(w, attempts).sent|
    ensures var sent := RunAll(w, attempts).sent;
            && sent[i].confirmed && PendingOperation(sent[i].onDisk) == Some(sent[i].request.operationId)
            && (Slot(sent[i].request) == Slot(sent[j].request) ==>
                  sent[i].request.operationId == sent[j].request.operationId)
  {
    RunAllLog(w, attempts);
  }

  // ----- What never changes -----

  lemma RunKeepsTrust(w: World, command: Command, faults: Faults)
    requires w.disk.trust.Some?
    ensures PairRun(w, command, faults).disk.trust == w.disk.trust
  {
    PlannedFits(w, command);
    var planned := HostedPairPlan(command, w.disk);
    if planned.Hosted? && planned.plan.Mutate? {
      hide HostedPairPlan, Serve;
    }
  }

  /** Once written, the trusted origin stays, whatever is run. */
  lemma {:induction false} TrustStays(w: World, attempts: seq<Attempt>)
    requires w.disk.trust.Some?
    ensures RunAll(w, attempts).disk.trust == w.disk.trust
    decreases |attempts|
  {
    hide PairRun;
    if attempts != [] {
      RunKeepsTrust(w, attempts[0].command, attempts[0].faults);
      TrustStays(PairRun(w, attempts[0].command, attempts[0].faults), attempts[1..]);
    }
  }

  lemma RunKeepsPaired(w: World, command: Command, faults: Faults)
    requires w.disk.control.Paired?
    ensures PairRun(w, command, faults) == w
  {}

  /** A paired configuration is never changed again, and nothing is sent from it. */
  lemma {:induction false} PairedIsAbsorbing(w: World, attempts: seq<Attempt>)
    requires w.disk.control.Paired?
    ensures RunAll(w, attempts) == w
    decreases |attempts|
  {
    hide PairRun;
    if attempts != [] {
      RunKeepsPaired(w, attempts[0].command, attempts[0].faults);
      PairedIsAbsorbing(w, attempts[1..]);
    }
  }

  lemma StagedRun(w: World, command: Command, faults: Faults)
    requires w.disk.control.Staged?
    ensures var r := PairRun(w, command, faults);
            r.server == w.server && r.sent == w.sent && (r.disk.control.Staged? || r.disk.control.Paired?)
  {}

  /** A staged credential is finished without the network, however often a run fails. */
  lemma {:induction false} StagedFinishesLocally(w: World, attempts: seq<Attempt>)
    requires w.disk.control.Staged?
    ensures RunAll(w, attempts).server == w.server && RunAll(w, attempts).sent == w.sent
    decreases |attempts|
  {
    hide PairRun;
    if attempts != [] {
      var next := PairRun(w, attempts[0].command, attempts[0].faults);
      StagedRun(w, attempts[0].command, attempts[0].faults);
      if next.disk.control.Paired? {
        PairedIsAbsorbing(next, attempts[1..]);
      } else {
        StagedFinishesLocally(next, attempts[1..]);
      }
    }
  }

  // ----- What the configuration goes through -----

  // One content of the configuration after another.
  predicate Follows(before: Disk, after: Disk) {
    && after.runnerId == before.runnerId
    && (before.trust.Some? ==> after.trust == before.trust)
    && match after.control
       case Registering(op, reason) =>
         && after.runnerToken == before.runnerToken && after.pairingToken == before.pairingToken
         && ((before.control.Unregistered? && reason == Pending)
             || (before.control.Registering? && before.control.operationId == op))
       case Reprovisioning(op, reason, recoveryId, registration) =>
         && after.runnerToken == before.runnerToken && after.pairingToken == before.pairingToken
         && ((before.control == RecoveryRequired(registration) && reason == Pending)
             || (before.control.Reprovisioning? && before.control == after.control.(reason := before.control.reason)))
       case RecoveryRequired(_) => PendingOperation(before.control).Some? && NoTokens(after)
       case Staged(op, registration) =>
         PendingOperation(before.control) == Some(op)
         && after.runnerToken == Some(Issued(registration.credentialId)) && after.pairingToken.None?
       case Paired(op, registration) =>
         before.control == Staged(op, registration) && after == before.(control := after.control)
       case _ => false
  }

  ghost predicate HistoryOk(w: World) {
    && w.history != [] && w.history[|w.history| - 1] == w.disk
    && forall i :: 0 < i < |w.history| ==> Follows(w.history[i - 1], w.history[i])
  }

  lemma StoreKeepsHistory(w: World, disk: Disk)
    requires HistoryOk(w) && Follows(w.disk, disk)
    ensures HistoryOk(Store(w, disk))
  {}

  lemma HistoryIrrelevant(w: World, server: Server, sent: seq<Sent>)
    requires HistoryOk(w)
    ensures HistoryOk(w.(server := server, sent := sent))
  {}

  lemma PendingFollows(w: World, command: Command, plan: Plan)
    requires Inv(w) && plan.Mutate? && PlanFits(w, command, plan)
    requires w.disk.trust.Some? ==> plan.trust == w.disk.trust.value
    ensures Follows(w.disk, Persist(w.disk, plan.control, plan.trust, false, Keep))
  {}

  lemma MarkUnknownHistory(w: World, plan: Plan, faults: Faults)
    requires HistoryOk(w) && Ready(w, plan) && w.disk.trust == Some(plan.trust)
    ensures HistoryOk(MarkUnknown(w, plan, faults))
  {
    hide HistoryOk;
    if faults.resultWrite != NotDone {
      StoreKeepsHistory(w, Persist(w.disk, plan.control.(reason := OutcomeUnknown), plan.trust, false, Keep));
    }
  }

  lemma StageHistory(w: World, plan: Plan, response: Metadata, faults: Faults)
    requires HistoryOk(w) && Ready(w, plan) && w.disk.trust == Some(plan.trust)
    ensures var token := Issued(response.credentialId);
            HistoryOk(StageThenPair(w, plan.control.operationId, response, token, plan.trust, faults))
  {
    hide HistoryOk;
    var op, token := plan.control.operationId, Issued(response.credentialId);
    var staged := Persist(w.disk, Staged(op, response), plan.trust, true, Put(token));
    StoreKeepsHistory(w, staged);
    StoreKeepsHistory(Store(w, staged), Persist(staged, Paired(op, response), plan.trust, true, Put(token)));
  }

  lemma ReceiveHistory(w: World, plan: Plan, request: Request, reply: Reply, faults: Faults)
    requires HistoryOk(w) && Ready(w, plan) && w.disk.trust == Some(plan.trust)
    requires reply.Created? ==> reply.runnerToken == Issued(reply.response.credentialId)
    ensures HistoryOk(Receive(w, plan, request, reply, faults))
  {
    hide HistoryOk, StageThenPair, MarkUnknown, Acceptable;
    MarkUnknownHistory(w, plan, faults);
    match reply
    case Conflict =>
    case Created(response, token) => StageHistory(w, plan, response, faults);
    case Replayed(response) =>
      StoreKeepsHistory(w, Persist(w.disk, RecoveryRequired(response), plan.trust, true, Drop));
  }

  lemma SendHistory(w: World, plan: Plan, faults: Faults)
    requires HistoryOk(w) && Inv(w) && Ready(w, plan) && w.disk.trust == Some(plan.trust)
    ensures HistoryOk(SendMutation(w, plan, faults))
  {
    hide HistoryOk, Receive, MarkUnknown, Serve, ControlOk;
    var request := RequestFor(plan, w.disk.runnerId);
    var sent := w.sent + [Sent(request, w.disk.control, faults.pendingWrite == Confirmed)];
    var out := w.(sent := sent);
    var (server, reply) := Serve(w.server, request);
    ServeInv(w, plan);
    HistoryIrrelevant(w, w.server, sent);
    HistoryIrrelevant(w, server, sent);
    MarkUnknownHistory(out, plan, faults);
    MarkUnknownHistory(out.(server := server), plan, faults);
    ReceiveHistory(out.(server := server), plan, request, reply, faults);
  }

  lemma RunKeepsHistory(w: World, command: Command, faults: Faults)
    requires HistoryOk(w) && Inv(w) && Fresh(w, command)
    ensures HistoryOk(PairRun(w, command, faults))
  {
    PlannedFits(w, command);
    var planned := HostedPairPlan(command, w.disk);
    if planned.Hosted? {
      hide HostedPairPlan, HistoryOk, SendMutation;
      var plan := planned.plan;
      if plan.Mutate? {
        var pending := Store(w, Persist(w.disk, plan.control, plan.trust, false, Keep));
        PendingFollows(w, command, plan);
        StoreKeepsHistory(w, pending.disk);
        PendingWriteInv(w, command, plan);
        SendHistory(pending, plan, faults);
      } else {
        StoreKeepsHistory(w, Persist(w.disk, plan.paired, plan.trust, true, Put(plan.runnerToken)));
      }
    }
  }

  lemma {:induction false} RunAllHistory(w: World, attempts: seq<Attempt>)
    requires HistoryOk(w) && Inv(w) && AllFresh(w, attempts)
    ensures HistoryOk(RunAll(w, attempts))
    decreases |attempts|
  {
    hide Inv, HistoryOk, PairRun, Fresh;
    if attempts != [] {
      RunInv(w, attempts[0].command, attempts[0].faults);
      RunKeepsHistory(w, attempts[0].command, attempts[0].faults);
      RunAllHistory(PairRun(w, attempts[0].command, attempts[0].faults), attempts[1..]);
    }
  }

  /**
   Every write of every run is a step of the pairing lifecycle.  In particular a configuration is marked
   paired only when it already held that very credential as staged, and staging removes the pairing token.
   */
  lemma EveryWriteFollows(w: World, attempts: seq<Attempt>, i: nat)
    requires IsInitial(w) && AllFresh(w, attempts) && 0 < i < |RunAll(w, attempts).history|
    ensures Follows(RunAll(w, attempts).history[i - 1], RunAll(w, attempts).history[i])
  {
    RunAllHistory(w, attempts);
  }
}
