/**
 Whether pairing can still be completed.  It can, within two undisturbed runs, unless a recovery was
 started with a credential id the server does not know; then it never can.
 */
module HostedPairingProgress {
  import opened Options
  import opened HostedPairing
  import opened HostedPairingProperties

  // A pending recovery names a credential other than the one in its own metadata.
  predicate WrongRecovery(control: Control) {
    control.Reprovisioning? && control.recoveryCredentialId != control.registration.credentialId
  }

  // The command that moves a configuration forward.
  function NextCommand(disk: Disk, origin: Origin, freshOperationId: OperationId, now: nat): Command {
    Command(
      if disk.trust.Some? then disk.trust.value.origin else origin,
      if disk.trust.Some? then None else Some(origin),
      match disk.control
      case Reprovisioning(_, _, recoveryId, _) => Some(recoveryId)
      case RecoveryRequired(registration) => Some(registration.credentialId)
      case _ => None,
      true, true, freshOperationId, now)
  }

  function Undisturbed(w: World, origin: Origin, freshOperationId: OperationId, now: nat): World {
    PairRun(w, NextCommand(w.disk, origin, freshOperationId, now), NO_FAULTS)
  }

  // The server has not acted on the pending operation yet.
  predicate Unanswered(w: World) {
    match w.disk.control
    case Registering(_, _) => w.server.runner.None?
    case Reprovisioning(op, _, _, _) => op !in w.server.operations
    case _ => true
  }

  lemma NextPlan(w: World, origin: Origin, op: OperationId, now: nat)
    requires Inv(w) && !w.disk.control.Paired?
    ensures HostedPairPlan(NextCommand(w.disk, origin, op, now), w.disk).Hosted?
  {}

  /** With no answer outstanding, one undisturbed run pairs. */
  lemma UnansweredPairs(w: World, origin: Origin, op: OperationId, now: nat)
    requires Inv(w) && Unanswered(w) && !WrongRecovery(w.disk.control) && !w.disk.control.Paired?
    requires Fresh(w, NextCommand(w.disk, origin, op, now))
    ensures Undisturbed(w, origin, op, now).disk.control.Paired?
  {
    hide ControlOk;
    var command := NextCommand(w.disk, origin, op, now);
    NextPlan(w, origin, op, now);
    PlannedFits(w, command);
    var plan := HostedPairPlan(command, w.disk).plan;
    if plan.Mutate? {
      hide HostedPairPlan;
      UnansweredCreates(w, command, plan);
    }
  }

  lemma UnansweredCreates(w: World, command: Command, plan: Plan)
    requires Inv(w) && Unanswered(w) && !WrongRecovery(w.disk.control) && Fresh(w, command)
    requires plan.Mutate? && PlanFits(w, command, plan)
    requires w.disk.control.RecoveryRequired? ==> command.recover == Some(w.disk.control.registration.credentialId)
    requires command.recoverySecret
    ensures RunHosted(w, plan, command, NO_FAULTS).disk.control.Paired?
  {}

  /** A lost answer is replayed without its token: one undisturbed run then asks for recovery. */
  lemma AnsweredRecovers(w: World, origin: Origin, op: OperationId, now: nat)
    requires Inv(w) && !Unanswered(w)
    ensures Undisturbed(w, origin, op, now).disk.control.RecoveryRequired?
  {
    hide ControlOk;
    var command := NextCommand(w.disk, origin, op, now);
    NextPlan(w, origin, op, now);
    PlannedFits(w, command);
    var plan := HostedPairPlan(command, w.disk).plan;
    assert plan.Mutate?;
    hide HostedPairPlan;
    AnsweredReplays(w, command, plan);
  }

  lemma AnsweredReplays(w: World, command: Command, plan: Plan)
    requires Inv(w) && !Unanswered(w) && plan.Mutate? && PlanFits(w, command, plan) && command.recoverySecret
    ensures RunHosted(w, plan, command, NO_FAULTS).disk.control.RecoveryRequired?
  {}

  /** Two undisturbed runs are always enough, unless the pending recovery names the wrong credential. */
  lemma TwoRunsPair(w: World, origin: Origin, op1: OperationId, op2: OperationId, now: nat)
    requires Inv(w) && !WrongRecovery(w.disk.control)
    requires Fresh(w, NextCommand(w.disk, origin, op1, now))
    requires var w1 := Undisturbed(w, origin, op1, now); Fresh(w1, NextCommand(w1.disk, origin, op2, now))
    ensures Undisturbed(Undisturbed(w, origin, op1, now), origin, op2, now).disk.control.Paired?
  {
    var w1 := Undisturbed(w, origin, op1, now);
    RunInv(w, NextCommand(w.disk, origin, op1, now), NO_FAULTS);
    hide Inv, PairRun, Fresh;
    if w.disk.control.Paired? {
      RunKeepsPaired(w, NextCommand(w.disk, origin, op1, now), NO_FAULTS);
      RunKeepsPaired(w1, NextCommand(w1.disk, origin, op2, now), NO_FAULTS);
    } else if Unanswered(w) {
      UnansweredPairs(w, origin, op1, now);
      RunKeepsPaired(w1, NextCommand(w1.disk, origin, op2, now), NO_FAULTS);
    } else {
      AnsweredRecovers(w, origin, op1, now);
      UnansweredPairs(w1, origin, op2, now);
    }
  }

  /** A recovery pending for the wrong credential stays pending whatever is run. */
  lemma WrongRecoveryStays(w: World, command: Command, faults: Faults)
    requires Inv(w) && Fresh(w, command) && WrongRecovery(w.disk.control)
    ensures WrongRecovery(PairRun(w, command, faults).disk.control)
  {
    PlannedFits(w, command);
    var planned := HostedPairPlan(command, w.disk);
    if planned.Hosted? && planned.plan.Mutate? {
      hide HostedPairPlan;
    }
  }

  lemma {:induction false} WrongRecoveryForever(w: World, attempts: seq<Attempt>)
    requires Inv(w) && AllFresh(w, attempts) && WrongRecovery(w.disk.control)
    ensures WrongRecovery(RunAll(w, attempts).disk.control)
    decreases |attempts|
  {
    hide Inv, PairRun, Fresh, WrongRecovery;
    if attempts != [] {
      WrongRecoveryStays(w, attempts[0].command, attempts[0].faults);
      RunInv(w, attempts[0].command, attempts[0].faults);
      WrongRecoveryForever(PairRun(w, attempts[0].command, attempts[0].faults), attempts[1..]);
    }
  }

  ghost predicate CanBePaired(w: World) {
    exists attempts :: AllFresh(w, attempts) && RunAll(w, attempts).disk.control.Paired?
  }

  ghost function UnusedOperation(used: set<OperationId>): (op: OperationId)
    ensures op !in used
  {
    Bound(used) + 1
  }

  ghost function Bound(used: set<OperationId>): (b: OperationId)
    ensures forall x :: x in used ==> x <= b
  {
    if used == {} then 0
    else
      var x :| x in used;
      var b := Bound(used - {x});
      assert forall y :: y in used ==> y == x || y in used - {x};
      if x > b then x else b
  }

  ghost function UnusedBy(w: World): OperationId {
    UnusedOperation(w.server.operations.Keys
      + if PendingOperation(w.disk.control).Some? then {PendingOperation(w.disk.control).value} else {})
  }

  /** Pairing can still be completed exactly when no recovery is pending for the wrong credential. */
  lemma CanBePairedExactly(w: World, origin: Origin)
    requires Inv(w)
    ensures CanBePaired(w) <==> !WrongRecovery(w.disk.control)
  {
    if WrongRecovery(w.disk.control) {
      forall attempts | AllFresh(w, attempts) ensures !RunAll(w, attempts).disk.control.Paired? {
        WrongRecoveryForever(w, attempts);
      }
    } else {
      var c1 := NextCommand(w.disk, origin, UnusedBy(w), 0);
      var w1 := PairRun(w, c1, NO_FAULTS);
      var c2 := NextCommand(w1.disk, origin, UnusedBy(w1), 0);
      hide Inv, PairRun;
      TwoRunsPair(w, origin, UnusedBy(w), UnusedBy(w1), 0);
      TwoAttempts(w, Attempt(c1, NO_FAULTS), Attempt(c2, NO_FAULTS));
    }
  }

  lemma TwoAttempts(w: World, a: Attempt, b: Attempt)
    requires Fresh(w, a.command) && Fresh(PairRun(w, a.command, a.faults), b.command)
    ensures AllFresh(w, [a, b])
    ensures RunAll(w, [a, b]) == PairRun(PairRun(w, a.command, a.faults), b.command, b.faults)
  {
    hide PairRun, Fresh;
    assert [a, b][1..] == [b] && [b][1..] == [];
    var w1 := PairRun(w, a.command, a.faults);
    assert AllFresh(w1, [b]) && RunAll(w1, [b]) == PairRun(w1, b.command, b.faults);
  }

  function TrustedOrigin(disk: Disk): Option<Origin> {
    if disk.trust.Some? then Some(disk.trust.value.origin) else None
  }

  lemma RecoveryAccepted(disk: Disk, command: Command)
    requires disk.control.RecoveryRequired? && disk.trust.Some? && command.recover.Some?
    ensures HostedPairPlan(command, disk).Hosted? <==>
              && command.register && Some(command.relayOrigin) == TrustedOrigin(disk)
              && (command.trustRelayOrigin.None? || command.trustRelayOrigin.value == command.relayOrigin)
  {}

  /**
   A run starts such a recovery exactly when the configuration is recovery-required, the command passes
   --recover with an id other than the one in its registration, allows registration, names the trusted
   origin and no other, and the first write takes effect.
   */
  lemma WrongRecoveryStartsExactly(w: World, command: Command, faults: Faults)
    requires Inv(w) && Fresh(w, command) && !WrongRecovery(w.disk.control)
    ensures WrongRecovery(PairRun(w, command, faults).disk.control) <==>
              && w.disk.control.RecoveryRequired?
              && command.recover.Some? && command.recover.value != w.disk.control.registration.credentialId
              && command.register && Some(command.relayOrigin) == TrustedOrigin(w.disk)
              && (command.trustRelayOrigin.None? || command.trustRelayOrigin.value == command.relayOrigin)
              && faults.pendingWrite != NotDone
  {
    PlannedFits(w, command);
    if w.disk.control.RecoveryRequired? && command.recover.Some? { RecoveryAccepted(w.disk, command); }
    var planned := HostedPairPlan(command, w.disk);
    if planned.Hosted? && planned.plan.Mutate? {
      hide HostedPairPlan, TrustedOrigin;
    }
  }

  // ----- A dead end that runs lead to -----

  const RELAY: Origin := "https://relay"

  function FirstWorld(): World {
    var disk := Disk("runner", Unregistered, None, Some(PairingToken("secret")), None);
    World(disk, Server(map[], None, 7), [], [disk])
  }

  // The reply to the registration is lost, the retry finds that, and the recovery names another id.
  function MistypedRecovery(): seq<Attempt> {
    var register := Command(RELAY, Some(RELAY), None, true, false, 1, 0);
    [Attempt(register, NO_FAULTS.(network := ReplyLost)),
     Attempt(register.(freshOperationId := 2), NO_FAULTS),
     Attempt(Command(RELAY, None, Some(8), true, true, 3, 0), NO_FAULTS)]
  }

  function UnknownDisk(): Disk {
    Disk("runner", Registering(1, OutcomeUnknown), Some(Trust(RELAY, 0)), Some(PairingToken("secret")), None)
  }

  function LostDisk(): Disk {
    Disk("runner", RecoveryRequired(Metadata("runner", 7, 1, 1)), Some(Trust(RELAY, 0)), None, None)
  }

  function RegisteredServer(): Server {
    var registration := Metadata("runner", 7, 1, 1);
    Server(map[1 := Recorded(Register(1, "runner"), registration)], Some(registration), 8)
  }

  lemma RegistrationLost()
    ensures var w := FirstWorld();
            var attempt := MistypedRecovery()[0];
            var r := PairRun(w, attempt.command, attempt.faults);
            Fresh(w, attempt.command) && r.disk == UnknownDisk() && r.server == RegisteredServer()
  {}

  lemma RetryReplayed(w: World)
    requires w.disk == UnknownDisk() && w.server == RegisteredServer()
    ensures var attempt := MistypedRecovery()[1];
            var r := PairRun(w, attempt.command, attempt.faults);
            Fresh(w, attempt.command) && r.disk == LostDisk() && r.server == w.server
  {}

  lemma RecoveryMistyped(w: World)
    requires w.disk == LostDisk() && w.server == RegisteredServer()
    ensures var attempt := MistypedRecovery()[2];
            var r := PairRun(w, attempt.command, attempt.faults);
            Fresh(w, attempt.command) && WrongRecovery(r.disk.control)
  {}

  /** Three runs lead from a fresh configuration to one that can never be paired. */
  lemma WrongRecoveryExample()
    ensures IsInitial(FirstWorld()) && AllFresh(FirstWorld(), MistypedRecovery())
    ensures !CanBePaired(RunAll(FirstWorld(), MistypedRecovery()))
  {
    hide PairRun, Fresh, WrongRecovery;
    var attempts := MistypedRecovery();
    var w0 := FirstWorld();
    var w1 := PairRun(w0, attempts[0].command, attempts[0].faults);
    var w2 := PairRun(w1, attempts[1].command, attempts[1].faults);
    var w3 := PairRun(w2, attempts[2].command, attempts[2].faults);
    RegistrationLost();
    RetryReplayed(w1);
    RecoveryMistyped(w2);
    assert attempts[1..][1..] == attempts[2..] && attempts[2..][1..] == [];
    assert AllFresh(w3, []) && RunAll(w3, []) == w3;
    assert AllFresh(w2, attempts[2..]) && RunAll(w2, attempts[2..]) == w3;
    assert AllFresh(w1, attempts[1..]) && RunAll(w1, attempts[1..]) == w3;
    RunAllInv(w0, attempts);
    CanBePairedExactly(w3, RELAY);
  }
}
