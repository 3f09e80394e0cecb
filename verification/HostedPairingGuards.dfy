/**
 What a run of the pairing command may do, told by the command line and the configuration alone: when it
 is refused, which origin it may trust, and when and what it sends.
 */
module HostedPairingGuards {
  import opened Options
  import opened HostedPairing
  import opened HostedPairingProperties

  // ----- When a run is accepted -----

  // Hosted control is asked for on the command line or already in use.
  predicate Requested(command: Command, disk: Disk) {
    command.trustRelayOrigin.Some? || command.recover.Some? || !disk.control.Unregistered? || disk.trust.Some?
  }

  // The user trusts the relay that is used: by an earlier run, or by naming its origin now.
  predicate OriginTrusted(command: Command, disk: Disk) {
    && (command.trustRelayOrigin == None || command.trustRelayOrigin == Some(command.relayOrigin))
    && match disk.trust
       case Some(trust) => trust.origin == command.relayOrigin
       case None => command.trustRelayOrigin != None
  }

  // What the control state allows, with and without --recover.
  predicate StateAllows(command: Command, disk: Disk) {
    match disk.control
    case Unregistered => command.recover == None
    case Registering(_, _) => command.recover == None
    case Reprovisioning(_, _, recoveryId, _) => command.recover == Some(recoveryId)
    case RecoveryRequired(_) => command.recover != None
    case Staged(_, registration) =>
      && command.recover == None && disk.runnerId != "" && registration.runnerId == disk.runnerId
      && disk.runnerToken != None
    case Paired(_, _) => false
    case OtherLifecycle(_) => false
  }

  /**
   The plan of a run, in every control state: legacy pairing exactly when hosted control is neither asked
   for nor in use; otherwise hosted exactly when registration is allowed, the origin trusted and the state
   fit; otherwise refused.  The plan trusts what is on disk, or else the relay's origin from now on.
   */
  lemma PlansExactly(command: Command, disk: Disk)
    ensures var planned := HostedPairPlan(command, disk);
            && (planned.NotHosted? <==> !Requested(command, disk))
            && (planned.Hosted? <==>
                  && Requested(command, disk) && command.register
                  && OriginTrusted(command, disk) && StateAllows(command, disk))
            && (planned.Hosted? ==>
                  planned.plan.trust == match disk.trust
                                        case Some(trust) => trust
                                        case None => Trust(command.relayOrigin, command.now))
  {}

  // What a hosted run sets out to do.
  predicate Aims(command: Command, disk: Disk, plan: Plan) {
    match disk.control
    case Unregistered =>
      plan.Mutate? && plan.control == Registering(command.freshOperationId, Pending) && plan.recovery == None
    case Registering(_, _) => plan.Mutate? && plan.control == disk.control && plan.recovery == None
    case Reprovisioning(_, _, _, registration) =>
      plan.Mutate? && plan.control == disk.control && plan.recovery == Some(registration)
    case RecoveryRequired(registration) =>
      && plan.Mutate? && command.recover != None && plan.recovery == Some(registration)
      && plan.control == Reprovisioning(command.freshOperationId, Pending, command.recover.value, registration)
    case Staged(op, registration) =>
      plan.Finalize? && plan.paired == Paired(op, registration) && disk.runnerToken == Some(plan.runnerToken)
    case _ => false
  }

  lemma HostedPlanAims(command: Command, disk: Disk)
    requires HostedPairPlan(command, disk).Hosted?
    ensures Aims(command, disk, HostedPairPlan(command, disk).plan)
  {}

  // The first write of a run takes effect.
  predicate Writes(w: World, faults: Faults) {
    if w.disk.control.Staged? then faults.pairedWrite != NotDone else faults.pendingWrite != NotDone
  }

  predicate Accepted(command: Command, disk: Disk) {
    Requested(command, disk) && command.register && OriginTrusted(command, disk) && StateAllows(command, disk)
  }

  lemma HistoryGrows(w: World, command: Command, plan: Plan, faults: Faults)
    requires plan.Mutate? && (plan.control.Registering? || plan.control.Reprovisioning?)
    ensures |RunHosted(w, plan, command, faults).history| > |w.history| <==> faults.pendingWrite != NotDone
    ensures faults.pendingWrite == NotDone ==> RunHosted(w, plan, command, faults) == w
  {
    hide Serve, Acceptable, Persist;
  }

  /** A run changes something exactly when it is accepted and its first write takes effect. */
  lemma ChangesExactly(w: World, command: Command, faults: Faults)
    ensures PairRun(w, command, faults) != w <==> Accepted(command, w.disk) && Writes(w, faults)
  {
    PlansExactly(command, w.disk);
    var planned := HostedPairPlan(command, w.disk);
    if planned.Hosted? {
      HostedPlanAims(command, w.disk);
      hide HostedPairPlan, RunHosted, Persist, Accepted;
      if planned.plan.Mutate? {
        HistoryGrows(w, command, planned.plan, faults);
      }
    }
  }

  // ----- Trust -----

  lemma TrustWritten(w: World, command: Command, plan: Plan, faults: Faults)
    requires plan.Mutate? && (plan.control.Registering? || plan.control.Reprovisioning?)
    requires faults.pendingWrite != NotDone
    ensures RunHosted(w, plan, command, faults).disk.trust == Some(plan.trust)
  {
    hide Serve, Acceptable;
  }

  /**
   Whatever a run does, it does for the relay that is trusted: trust is first written only for an origin
   that the command names and that is the relay's own, and a run that changes anything uses the relay
   whose origin the configuration then trusts.
   */
  lemma TrustsOnlyTheNamedRelay(w: World, command: Command, faults: Faults)
    ensures var r := PairRun(w, command, faults);
            && (w.disk.trust == None && r.disk.trust != None ==>
                  && command.trustRelayOrigin == Some(command.relayOrigin)
                  && r.disk.trust == Some(Trust(command.relayOrigin, command.now)))
            && (r != w ==>
                  && command.register
                  && r.disk.trust != None && r.disk.trust.value.origin == command.relayOrigin
                  && (command.trustRelayOrigin == None || command.trustRelayOrigin == Some(command.relayOrigin)))
  {
    ChangesExactly(w, command, faults);
    PlansExactly(command, w.disk);
    var planned := HostedPairPlan(command, w.disk);
    if planned.Hosted? {
      HostedPlanAims(command, w.disk);
      hide HostedPairPlan, RunHosted;
      if planned.plan.Mutate? && faults.pendingWrite != NotDone {
        TrustWritten(w, command, planned.plan, faults);
      }
    }
  }

  /** Over any runs, an origin that is trusted in the end was named by one of the commands or trusted before. */
  lemma {:induction false} TrustNeedsConsent(w: World, attempts: seq<Attempt>)
    requires w.disk.trust == None && RunAll(w, attempts).disk.trust != None
    ensures exists i :: 0 <= i < |attempts|
              && attempts[i].command.trustRelayOrigin == Some(RunAll(w, attempts).disk.trust.value.origin)
              && attempts[i].command.relayOrigin == RunAll(w, attempts).disk.trust.value.origin
    decreases |attempts|
  {
    hide PairRun;
    var command := attempts[0].command;
    var next := PairRun(w, command, attempts[0].faults);
    TrustsOnlyTheNamedRelay(w, command, attempts[0].faults);
    if next.disk.trust != None {
      TrustStays(next, attempts[1..]);
    } else {
      TrustNeedsConsent(next, attempts[1..]);
      var i :| 0 <= i < |attempts[1..]|
        && attempts[1..][i].command.trustRelayOrigin == Some(RunAll(w, attempts).disk.trust.value.origin)
        && attempts[1..][i].command.relayOrigin == RunAll(w, attempts).disk.trust.value.origin;
      assert attempts[i + 1] == attempts[1..][i];
    }
  }

  // ----- Requests -----

  // The credential for the mutation is at hand: the recovery secret, or the pairing token.
  predicate Equipped(w: World, command: Command) {
    if w.disk.control.Reprovisioning? || w.disk.control.RecoveryRequired? then command.recoverySecret
    else w.disk.pairingToken != None
  }

  // The mutation that a run of this command sends from this configuration.
  ghost predicate Asks(w: World, command: Command, request: Request) {
    match w.disk.control
    case Unregistered => request == Register(command.freshOperationId, w.disk.runnerId)
    case Registering(op, _) => request == Register(op, w.disk.runnerId)
    case Reprovisioning(op, _, recoveryId, registration) =>
      request == Reprovision(op, w.disk.runnerId, recoveryId,
                             registration.registrationGeneration, registration.credentialGeneration)
    case RecoveryRequired(registration) =>
      && command.recover != None
      && request == Reprovision(command.freshOperationId, w.disk.runnerId, command.recover.value,
                                registration.registrationGeneration, registration.credentialGeneration)
    case _ => false
  }

  /**
   A run sends a request exactly when it is accepted, not staged, its first write was confirmed, the relay
   has the capability and the credential is at hand; then it sends one, the one its state asks for.
   */
  lemma SendsExactly(w: World, command: Command, faults: Faults)
    ensures var r := PairRun(w, command, faults);
            && (r.sent != w.sent <==>
                  && Accepted(command, w.disk) && !w.disk.control.Staged?
                  && faults.pendingWrite == Confirmed && !faults.capabilityFails && Equipped(w, command))
            && (r.sent != w.sent ==>
                  && |r.sent| == |w.sent| + 1 && r.sent[..|w.sent|] == w.sent
                  && Asks(w, command, r.sent[|w.sent|].request))
  {
    PlansExactly(command, w.disk);
    var planned := HostedPairPlan(command, w.disk);
    if planned.Hosted? {
      HostedPlanAims(command, w.disk);
      hide HostedPairPlan, RunHosted, Accepted;
      if planned.plan.Mutate? {
        HostedSends(w, command, planned.plan, faults);
      }
    }
  }

  lemma HostedSends(w: World, command: Command, plan: Plan, faults: Faults)
    requires plan.Mutate? && (plan.control.Registering? || plan.control.Reprovisioning?)
    ensures RunHosted(w, plan, command, faults).sent ==
            if faults.pendingWrite == Confirmed && !faults.capabilityFails
               && (if plan.recovery.Some? then command.recoverySecret else w.disk.pairingToken.Some?)
            then w.sent + [Sent(RequestFor(plan, w.disk.runnerId), plan.control, true)]
            else w.sent
  {
    hide Serve, Acceptable;
  }

  // ----- Replies -----

  // What is on disk when the request leaves.
  function PendingControl(command: Command, disk: Disk): Control {
    match disk.control
    case Unregistered => Registering(command.freshOperationId, Pending)
    case RecoveryRequired(registration) =>
      if command.recover == None then disk.control
      else Reprovisioning(command.freshOperationId, Pending, command.recover.value, registration)
    case _ => disk.control
  }

  // The response names this runner and the generations that follow those on disk; first ones are 1.
  predicate Expected(disk: Disk, response: Metadata) {
    && response.runnerId == disk.runnerId
    && match disk.control
       case Reprovisioning(_, _, _, known) =>
         && response.registrationGeneration == known.registrationGeneration + 1
         && response.credentialGeneration == known.credentialGeneration + 1
       case RecoveryRequired(known) =>
         && response.registrationGeneration == known.registrationGeneration + 1
         && response.credentialGeneration == known.credentialGeneration + 1
       case _ => response.registrationGeneration == 1 && response.credentialGeneration == 1
  }

  lemma AcceptsExpected(w: World, command: Command, request: Request, response: Metadata)
    requires Asks(w, command, request)
    ensures Acceptable(request, response) <==> Expected(w.disk, response)
  {}

  /**
   What a run that sent its request leaves: a lost request or reply is recorded as an unknown outcome of
   the same operation; an error reply, a conflict or the client's death leave the operation as it was
   written; a fresh credential is staged or paired with its token; a replay asks for recovery without one.
   */
  lemma RepliesAreRecorded(w: World, command: Command, faults: Faults)
    requires PairRun(w, command, faults).sent != w.sent && faults.resultWrite != NotDone
    ensures var r := PairRun(w, command, faults);
            var request := r.sent[|w.sent|].request;
            var pending := PendingControl(command, w.disk);
            match faults.network
            case RequestLost => r.server == w.server && r.disk.control == pending.(reason := OutcomeUnknown)
            case ReplyLost =>
              r.server == Serve(w.server, request).0 && r.disk.control == pending.(reason := OutcomeUnknown)
            case ErrorReply => r.server == w.server && r.disk.control == pending
            case Died(acted) =>
              r.server == (if acted then Serve(w.server, request).0 else w.server) && r.disk.control == pending
            case Answered =>
              && r.server == Serve(w.server, request).0
              && match Serve(w.server, request).1
                 case Conflict => r.disk.control == pending
                 case Created(response, token) =>
                   if !Expected(w.disk, response) then r.disk.control == pending.(reason := OutcomeUnknown)
                   else
                     && r.disk.runnerToken == Some(token) && r.disk.pairingToken == None
                     && r.disk.control == if faults.resultWrite == Confirmed && faults.pairedWrite != NotDone
                                          then Paired(pending.operationId, response)
                                          else Staged(pending.operationId, response)
                 case Replayed(response) =>
                   if !Expected(w.disk, response) then r.disk.control == pending.(reason := OutcomeUnknown)
                   else
                     r.disk.control == RecoveryRequired(response)
                     && r.disk.runnerToken == None && r.disk.pairingToken == None
  {
    SendsExactly(w, command, faults);
    PlansExactly(command, w.disk);
    HostedPlanAims(command, w.disk);
    var plan := HostedPairPlan(command, w.disk).plan;
    hide HostedPairPlan, Serve, Acceptable, Expected, Accepted, Asks;
    var pending := Store(w, Persist(w.disk, plan.control, plan.trust, false, Keep));
    var request := RequestFor(plan, w.disk.runnerId);
    assert PairRun(w, command, faults) == SendMutation(pending, plan, faults);
    assert PairRun(w, command, faults).sent[|w.sent|].request == request;
    if faults.network.Answered? {
      var (server, reply) := Serve(w.server, request);
      if !reply.Conflict? { AcceptsExpected(w, command, request, reply.response); }
    }
  }
}
