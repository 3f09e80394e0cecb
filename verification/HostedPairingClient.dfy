/**
 The pairing command itself, changing the persisted configuration step by step.  Each method stops
 where the original throws or its process dies, as the faults of the run say.
 */
module HostedPairingClient {
  import opened Options
  import opened HostedPairing
  import opened HostedPairingProperties

  class PairingSession {
    var disk: Disk
    var server: Server
    var sent: seq<Sent>
    ghost var history: seq<Disk>

    ghost function World(): World
      reads this
    {
      HostedPairing.World(disk, server, sent, history)
    }

    // assertPersistedRegistration: whether what is read back is what was to be written.
    predicate ReadsBack(control: Control, trust: Trust, removePairingToken: bool, change: TokenChange)
      reads this`disk
    {
      && disk.control == control && disk.trust == Some(trust)
      && (change.Drop? ==> disk.runnerToken.None?)
      && (change.Put? ==> disk.runnerToken == Some(change.token))
      && (removePairingToken ==> disk.pairingToken.None?)
    }

    // Writes and reads back; false when the original throws.  The readback always agrees with the write.
    method WriteHostedState(control: Control, trust: Trust, removePairingToken: bool, change: TokenChange, write: Write)
      returns (ok: bool)
      modifies this`disk, this`history
      ensures World() == if write == NotDone then old(World())
                         else Store(old(World()), Persist(old(disk), control, trust, removePairingToken, change))
      ensures ok <==> write == Confirmed
    {
      if write == NotDone { return false; }
      disk := disk.(control := control, trust := Some(trust));
      if removePairingToken {
        disk := disk.(pairingToken := None);
      }
      match change {
        case Keep =>
        case Drop => disk := disk.(runnerToken := None);
        case Put(token) => disk := disk.(runnerToken := Some(token));
      }
      history := history + [disk];
      ok := write == Confirmed && ReadsBack(control, trust, removePairingToken, change);
    }

    method PersistStageThenPair(
      operationId: OperationId, response: Metadata, token: Token, trust: Trust, faults: Faults)
      modifies this`disk, this`history
      ensures World() == StageThenPair(old(World()), operationId, response, token, trust, faults)
    {
      var ok := WriteHostedState(Staged(operationId, response), trust, true, Put(token), faults.resultWrite);
      if !ok { return; }
      ok := WriteHostedState(Paired(operationId, response), trust, true, Put(token), faults.pairedWrite);
    }

    // The request leaves the client; the result is absent when no reply arrives.
    method Mutate(request: Request, network: Network, confirmed: bool) returns (reply: Option<Reply>)
      modifies this`server, this`sent
      ensures sent == old(sent) + [Sent(request, disk.control, confirmed)]
      ensures server == if network.RequestLost? || network.ErrorReply? || network == Died(false) then old(server)
                        else Serve(old(server), request).0
      ensures reply == if network.Answered? then Some(Serve(old(server), request).1) else None
    {
      sent := sent + [Sent(request, disk.control, confirmed)];
      reply := None;
      if network.RequestLost? || network.ErrorReply? || network == Died(false) { return; }
      var (next, answer) := Serve(server, request);
      server := next;
      if network.Answered? {
        reply := Some(answer);
      }
    }

    method MarkOutcomeUnknown(plan: Plan, faults: Faults)
      requires plan.Mutate? && (plan.control.Registering? || plan.control.Reprovisioning?)
      modifies this`disk, this`history
      ensures World() == MarkUnknown(old(World()), plan, faults)
    {
      var ok := WriteHostedState(plan.control.(reason := OutcomeUnknown), plan.trust, false, Keep, faults.resultWrite);
    }

    method RunHostedPair(plan: Plan, command: Command, faults: Faults)
      requires plan.Mutate? && (plan.control.Registering? || plan.control.Reprovisioning?)
      modifies this
      ensures World() == RunHosted(old(World()), plan, command, faults)
    {
      hide Serve, Acceptable;
      var ok := WriteHostedState(plan.control, plan.trust, false, Keep, faults.pendingWrite);
      if !ok || faults.capabilityFails || !CredentialReady(disk, plan, command) { return; }
      var request := RequestFor(plan, disk.runnerId);
      var reply := Mutate(request, faults.network, ok);
      if faults.network.ErrorReply? || faults.network.Died? { return; }
      if reply.None? || (!reply.value.Conflict? && !Acceptable(request, reply.value.response)) {
        MarkOutcomeUnknown(plan, faults);
        return;
      }
      match reply.value {
        case Conflict =>
        case Replayed(response) =>
          ok := WriteHostedState(RecoveryRequired(response), plan.trust, true, Drop, faults.resultWrite);
        case Created(response, token) =>
          PersistStageThenPair(plan.control.operationId, response, token, plan.trust, faults);
      }
    }

    method FinalizeStagedHostedPair(plan: Plan, faults: Faults)
      requires plan.Finalize?
      modifies this`disk, this`history
      ensures World() == if faults.pairedWrite == NotDone then old(World())
                         else
                           var paired := Persist(old(disk), plan.paired, plan.trust, true, Put(plan.runnerToken));
                           Store(old(World()), paired)
    {
      var ok := WriteHostedState(plan.paired, plan.trust, true, Put(plan.runnerToken), faults.pairedWrite);
    }

    /**
     One command does to the configuration and the server what one run of the protocol does: it keeps the
     protocol invariant and the trusted origin, and leaves a paired configuration alone.
     */
    method RunPairCommand(command: Command, faults: Faults)
      modifies this
      ensures World() == PairRun(old(World()), command, faults)
      ensures Inv(old(World())) && Fresh(old(World()), command) ==> Inv(World())
      ensures old(disk.trust).Some? ==> disk.trust == old(disk.trust)
      ensures old(disk).control.Paired? ==> World() == old(World())
    {
      hide RunHosted, Inv, Fresh;
      ghost var before := World();
      match HostedPairPlan(command, disk) {
        case NotHosted =>
        case Refused(_) =>
        case Hosted(plan) =>
          if plan.Finalize? {
            FinalizeStagedHostedPair(plan, faults);
          } else {
            PlanMutates(command, disk);
            RunHostedPair(plan, command, faults);
          }
      }
      RunKeeps(before, command, faults);
    }
  }

  lemma RunKeeps(w: World, command: Command, faults: Faults)
    ensures Inv(w) && Fresh(w, command) ==> Inv(PairRun(w, command, faults))
    ensures w.disk.trust.Some? ==> PairRun(w, command, faults).disk.trust == w.disk.trust
    ensures w.disk.control.Paired? ==> PairRun(w, command, faults) == w
  {
    hide PairRun;
    if Inv(w) && Fresh(w, command) { RunInv(w, command, faults); }
    if w.disk.trust.Some? { RunKeepsTrust(w, command, faults); }
    if w.disk.control.Paired? { RunKeepsPaired(w, command, faults); }
  }

  lemma PlanMutates(command: Command, disk: Disk)
    ensures var planned := HostedPairPlan(command, disk);
            planned.Hosted? && planned.plan.Mutate? ==>
              planned.plan.control.Registering? || planned.plan.control.Reprovisioning?
  {}
}
