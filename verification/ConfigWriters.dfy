/**
 Any number of processes rewriting one configuration file under an adjacent lock file, one
 file-system operation at a time.  Every operation may fail and every process may die between
 operations; exclusive creation and rename are atomic, and nobody deletes a lock by hand.
 */
module ConfigWriters {
  import opened Options
  import opened ConfigDocument

  type Id = nat

  // A whole-document write, or a patch of whatever the file holds.
  datatype Request = Replace(doc: Json) | Modify(patch: Patch)

  function Apply(request: Request, doc: Json): Option<Json> {
    match request
    case Replace(whole) => Some(whole)
    case Modify(patch) => ApplyPatch(doc, patch)
  }

  datatype Contents = Torn | Whole(doc: Json)

  // The operation a writer is about to perform, in program order, and where it ends up.
  datatype Pc =
    | OpenLock | ModeLock | WriteLock | SyncLock
    | StatConfig | ReadConfig
    | OpenTemp | ModeTemp | WriteTemp | SyncTemp | CloseTemp | Rename | SyncDirectory | ReadBack
    | AbandonClose | AbandonRemove
    | CloseLock | RemoveLock | SyncRelease
    | Done | Dead

  // An operation that a writer performed, and whether it worked.
  datatype Performed = Performed(pc: Pc, worked: bool)

  type Log = seq<Performed>

  // How the operation under the lock ended: an ordinary error, or one after the rename.
  datatype Failure = NoFailure | Ordinary | AfterRename

  datatype Writer = Writer(
    request: Request,
    pc: Pc,
    next: Json,              // the document being installed
    failure: Failure,
    releaseFailed: bool,
    renamed: bool,           // whether its rename took effect
    log: Log)                // what it performed, whatever its code made of it

  // How a call ended for its caller.
  datatype Outcome = Returned | OrdinaryError | OutcomeUnknown

  function OutcomeOf(w: Writer): Outcome
  {
    match w.failure
    case AfterRename => OutcomeUnknown
    case Ordinary => OrdinaryError
    case NoFailure => if w.releaseFailed then OutcomeUnknown else Returned
  }

  datatype State = State(
    lock: Option<Id>,
    config: Contents,
    temps: map<Id, Contents>,
    writers: seq<Writer>,
    acquired: seq<Id>)       // who created the lock, in order

  // What the next operation does: succeeds, fails without effect, fails after taking effect (only
  // removals can), or the process dies before it.
  datatype Event = Succeed | Fail | FailAfterEffect | Crash

  function Initial(doc: Json, requests: seq<Request>): State {
    State(None, Whole(doc), map[], seq(|requests|, i requires 0 <= i < |requests| =>
      Writer(requests[i], OpenLock, Null, NoFailure, false, false, [])), [])
  }

  // The writer after its next operation, given what that operation meets in the file system.
  function NextWriter(w: Writer, lockFree: bool, config: Contents, hasTemp: bool, event: Event): Writer {
    var ok := event == Succeed;
    var failed := w.(failure := Ordinary);
    if event == Crash && !w.pc.Done? then w.(pc := Dead)
    else
      match w.pc
      case OpenLock => if ok && lockFree then w.(pc := ModeLock) else failed.(pc := Done)
      case ModeLock => if ok then w.(pc := WriteLock) else failed.(pc := CloseLock)
      case WriteLock => if ok then w.(pc := SyncLock) else failed.(pc := CloseLock)
      case SyncLock =>
        if !ok then failed.(pc := CloseLock)
        else if w.request.Replace? then w.(pc := OpenTemp, next := w.request.doc)
        else w.(pc := StatConfig)
      case StatConfig => if ok then w.(pc := ReadConfig) else failed.(pc := CloseLock)
      case ReadConfig =>
        // a file that cannot be read or parsed, or a patched document that is not valid, fails here
        if ok && config.Whole? && Apply(w.request, config.doc).Some? then
          w.(pc := OpenTemp, next := Apply(w.request, config.doc).value)
        else failed.(pc := CloseLock)
      case OpenTemp => if ok then w.(pc := ModeTemp) else failed.(pc := AbandonRemove)
      case ModeTemp => if ok then w.(pc := WriteTemp) else failed.(pc := AbandonClose)
      case WriteTemp => if ok then w.(pc := SyncTemp) else failed.(pc := AbandonClose)
      case SyncTemp => if ok then w.(pc := CloseTemp) else failed.(pc := AbandonClose)
      case CloseTemp => if ok then w.(pc := Rename) else failed.(pc := AbandonRemove)
      case Rename => if ok && hasTemp then w.(pc := SyncDirectory, renamed := true) else failed.(pc := AbandonRemove)
      case SyncDirectory => if ok then w.(pc := ReadBack) else w.(pc := CloseLock, failure := AfterRename)
      case ReadBack => if ok then w.(pc := CloseLock) else w.(pc := CloseLock, failure := AfterRename)
      case AbandonClose => w.(pc := AbandonRemove)
      case AbandonRemove => w.(pc := CloseLock)
      case CloseLock => w.(pc := RemoveLock, releaseFailed := w.releaseFailed || !ok)
      case RemoveLock => w.(pc := SyncRelease, releaseFailed := w.releaseFailed || !ok)
      case SyncRelease => w.(pc := Done, releaseFailed := w.releaseFailed || !ok)
      case Done => w
      case Dead => w
  }

  predicate Acquires(s: State, id: Id, event: Event)
    requires id < |s.writers|
  {
    s.writers[id].pc.OpenLock? && event == Succeed && s.lock.None?
  }

  predicate Renames(s: State, id: Id, event: Event)
    requires id < |s.writers|
  {
    s.writers[id].pc.Rename? && event == Succeed && id in s.temps
  }

  // A removal takes effect when it succeeds, and may when it fails.
  predicate Removes(event: Event) {
    event == Succeed || event == FailAfterEffect
  }

  function NextLock(s: State, id: Id, event: Event): Option<Id>
    requires id < |s.writers|
  {
    if Acquires(s, id, event) then Some(id)
    else if s.writers[id].pc.RemoveLock? && Removes(event) then None
    else s.lock
  }

  function NextTemps(s: State, id: Id, event: Event): map<Id, Contents>
    requires id < |s.writers|
  {
    var pc := s.writers[id].pc;
    if pc.OpenTemp? && event == Succeed then s.temps[id := Torn]
    else if pc.WriteTemp? && event == Succeed then s.temps[id := Whole(s.writers[id].next)]
    else if (pc.AbandonRemove? && Removes(event)) || Renames(s, id, event) then s.temps - {id}
    else s.temps
  }

  // Whether the next operation works, as the file system sees it.
  predicate Works(s: State, id: Id, event: Event)
    requires id < |s.writers|
  {
    && event == Succeed
    && match s.writers[id].pc
       case OpenLock => s.lock.None?
       case ReadConfig => s.config.Whole? && Apply(s.writers[id].request, s.config.doc).Some?
       case Rename => id in s.temps
       case _ => true
  }

  function NextLog(s: State, id: Id, event: Event): Log
    requires id < |s.writers|
  {
    var w := s.writers[id];
    if event == Crash || w.pc.Done? || w.pc.Dead? then w.log else w.log + [Performed(w.pc, Works(s, id, event))]
  }

  function Step(s: State, id: Id, event: Event): State
    requires id < |s.writers|
  {
    var next := NextWriter(s.writers[id], s.lock.None?, s.config, id in s.temps, event);
    State(
      NextLock(s, id, event),
      if Renames(s, id, event) then s.temps[id] else s.config,
      NextTemps(s, id, event),
      s.writers[id := next.(log := NextLog(s, id, event))],
      if Acquires(s, id, event) then s.acquired + [id] else s.acquired)
  }

  datatype Move = Move(id: Id, event: Event)

  // The state after a schedule; moves of processes that do not exist are ignored.
  function Run(s: State, schedule: seq<Move>): State
    decreases |schedule|
  {
    if schedule == [] then s
    else if schedule[0].id < |s.writers| then Run(Step(s, schedule[0].id, schedule[0].event), schedule[1..])
    else Run(s, schedule[1..])
  }

  // ----- The invariant -----

  // Between lock creation and lock removal.
  predicate Holding(w: Writer) {
    !w.pc.OpenLock? && !w.pc.SyncRelease? && !w.pc.Done? && !w.pc.Dead?
  }

  // The document to install was computed from what the file holds now.
  predicate Prepared(pc: Pc) {
    pc.OpenTemp? || pc.ModeTemp? || pc.WriteTemp? || pc.SyncTemp? || pc.CloseTemp? || pc.Rename?
  }

  // The writers whose rename took effect, in lock order.
  function Renamers(acquired: seq<Id>, writers: seq<Writer>): seq<Id> {
    if acquired == [] then []
    else
      var last := acquired[|acquired| - 1];
      Renamers(acquired[..|acquired| - 1], writers) + if last < |writers| && writers[last].renamed then [last] else []
  }

  // Requests applied one after another.
  function ApplyAll(doc: Json, ids: seq<Id>, requests: seq<Request>): Json {
    if ids == [] then doc
    else
      var before := ApplyAll(doc, ids[..|ids| - 1], requests);
      var id := ids[|ids| - 1];
      if id < |requests| && Apply(requests[id], before).Some? then Apply(requests[id], before).value else before
  }

  // Each of them applied to what the earlier ones left.
  predicate EachApplies(doc: Json, ids: seq<Id>, requests: seq<Request>) {
    if ids == [] then true
    else
      var earlier, id := ids[..|ids| - 1], ids[|ids| - 1];
      && EachApplies(doc, earlier, requests)
      && id < |requests| && Apply(requests[id], ApplyAll(doc, earlier, requests)).Some?
  }

  predicate BeforeInstalling(pc: Pc) {
    || pc.OpenLock? || pc.ModeLock? || pc.WriteLock? || pc.SyncLock? || pc.StatConfig? || pc.ReadConfig?
    || Prepared(pc)
  }

  predicate Releasing(pc: Pc) {
    pc.CloseLock? || pc.RemoveLock? || pc.SyncRelease? || pc.Done?
  }

  // What a writer knows about itself.
  predicate LocalOk(w: Writer) {
    && (BeforeInstalling(w.pc) ==> !w.renamed && w.failure == NoFailure)
    && (w.pc.AbandonClose? || w.pc.AbandonRemove? ==> !w.renamed && w.failure == Ordinary)
    && (w.pc.SyncDirectory? || w.pc.ReadBack? ==> w.renamed && w.failure == NoFailure)
    && (Releasing(w.pc) ==> (w.renamed <==> w.failure != Ordinary))
    && (!w.pc.RemoveLock? && !w.pc.SyncRelease? && !w.pc.Done? && !w.pc.Dead? ==> !w.releaseFailed)
  }

  // ----- What a writer performs when nothing fails -----

  // How far along its way an operation is.
  function Rank(pc: Pc): nat {
    match pc
    case OpenLock => 0
    case ModeLock => 1
    case WriteLock => 2
    case SyncLock => 3
    case StatConfig => 4
    case ReadConfig => 5
    case OpenTemp => 6
    case ModeTemp => 7
    case WriteTemp => 8
    case SyncTemp => 9
    case CloseTemp => 10
    case Rename => 11
    case SyncDirectory => 12
    case ReadBack => 13
    case AbandonClose => 14
    case AbandonRemove => 15
    case CloseLock => 16
    case RemoveLock => 17
    case SyncRelease => 18
    case Done => 19
    case Dead => 20
  }

  // The operation before this one when every operation works.
  function Previous(pc: Pc, request: Request): (r: Pc)
    requires OnWay(pc)
    ensures OnWay(r) || pc.OpenLock?
    ensures !pc.OpenLock? ==> Rank(r) < Rank(pc)
  {
    match pc
    case OpenLock => Dead
    case ModeLock => OpenLock
    case WriteLock => ModeLock
    case SyncLock => WriteLock
    case StatConfig => SyncLock
    case ReadConfig => StatConfig
    case OpenTemp => if request.Replace? then SyncLock else ReadConfig
    case ModeTemp => OpenTemp
    case WriteTemp => ModeTemp
    case SyncTemp => WriteTemp
    case CloseTemp => SyncTemp
    case Rename => CloseTemp
    case SyncDirectory => Rename
    case ReadBack => SyncDirectory
    case CloseLock => ReadBack
    case RemoveLock => CloseLock
    case SyncRelease => RemoveLock
    case Done => SyncRelease
  }

  predicate OnWay(pc: Pc) {
    !pc.AbandonClose? && !pc.AbandonRemove? && !pc.Dead?
  }

  // Every operation up to this one, each of which worked.
  function AllWorked(pc: Pc, request: Request): Log
    requires OnWay(pc)
    decreases Rank(pc)
  {
    if pc.OpenLock? then []
    else AllWorked(Previous(pc, request), request) + [Performed(Previous(pc, request), true)]
  }

  ghost predicate AnyFailed(log: Log) {
    exists i :: 0 <= i < |log| && !log[i].worked
  }

  lemma AnyFailedSnoc(log: Log, last: Performed)
    ensures AnyFailed(log + [last]) <==> AnyFailed(log) || !last.worked
  {
    if AnyFailed(log) {
      var i :| 0 <= i < |log| && !log[i].worked;
      assert !(log + [last])[i].worked;
    }
    if !last.worked {
      assert !(log + [last])[|log|].worked;
    }
  }

  // The writer's variables agree with what it performed.
  ghost predicate LogOk(w: Writer) {
    FailuresNoted(w) && WayOk(w) && EffectsOk(w)
  }

  ghost predicate FailuresNoted(w: Writer) {
    AnyFailed(w.log) <==> w.failure != NoFailure || w.releaseFailed
  }

  ghost predicate WayOk(w: Writer) {
    && (w.pc.StatConfig? || w.pc.ReadConfig? ==> w.request.Modify?)
    && (!AnyFailed(w.log) && OnWay(w.pc) ==> w.log == AllWorked(w.pc, w.request))
    && (w.renamed ==> AllWorked(SyncDirectory, w.request) <= w.log)
  }

  ghost predicate EffectsOk(w: Writer) {
    && (w.renamed <==> Performed(Rename, true) in w.log)
    && (w.pc.OpenLock? ==> Performed(OpenLock, true) !in w.log)
    && (Performed(OpenLock, true) in w.log && (w.pc.SyncRelease? || w.pc.Done?) ==> RemovedLock(w.log))
  }

  // The removal of the lock was at least attempted.
  predicate RemovedLock(log: Log) {
    Performed(RemoveLock, true) in log || Performed(RemoveLock, false) in log
  }

  // A holder owns the lock and was the last to create it.
  ghost predicate LockOk(lock: Option<Id>, acquired: seq<Id>, id: Id, w: Writer) {
    && (Holding(w) ==> lock == Some(id) && acquired != [] && acquired[|acquired| - 1] == id)
    && (w.pc.OpenLock? ==> id !in acquired && lock != Some(id))
    && (w.renamed ==> id in acquired)
    && ((w.pc.SyncRelease? || w.pc.Done?) && lock == Some(id) ==> w.releaseFailed)
  }

  // The document being installed is the request applied to the file; the temporary file holds it.
  ghost predicate FileOk(config: Contents, temps: map<Id, Contents>, id: Id, w: Writer) {
    && (Prepared(w.pc) ==> config.Whole? && Apply(w.request, config.doc) == Some(w.next))
    && (w.pc.SyncTemp? || w.pc.CloseTemp? || w.pc.Rename? ==> id in temps && temps[id] == Whole(w.next))
  }

  ghost predicate WriterOk(s: State, id: Id)
    requires id < |s.writers|
  {
    && LocalOk(s.writers[id])
    && LogOk(s.writers[id])
    && LockOk(s.lock, s.acquired, id, s.writers[id])
    && FileOk(s.config, s.temps, id, s.writers[id])
  }

  ghost predicate Distinct(ids: seq<Id>) {
    forall i, j :: 0 <= i < j < |ids| ==> ids[i] != ids[j]
  }

  ghost predicate Inv(s: State, doc: Json, requests: seq<Request>) {
    && |s.writers| == |requests|
    && (s.lock.Some? ==> s.lock.value < |requests|)
    && (forall id :: 0 <= id < |requests| ==> s.writers[id].request == requests[id] && WriterOk(s, id))
    && Distinct(s.acquired)
    && Serial(s, doc, requests)
  }

  // The file holds the initial document with the renamed requests applied in lock order.
  ghost predicate Serial(s: State, doc: Json, requests: seq<Request>) {
    var renamers := Renamers(s.acquired, s.writers);
    s.config == Whole(ApplyAll(doc, renamers, requests)) && EachApplies(doc, renamers, requests)
  }

  // ----- Every step keeps it -----

  lemma {:induction false} RenamersFrame(acquired: seq<Id>, before: seq<Writer>, after: seq<Writer>)
    requires |before| == |after|
    requires forall i :: 0 <= i < |acquired| && acquired[i] < |before| ==>
               before[acquired[i]].renamed == after[acquired[i]].renamed
    ensures Renamers(acquired, before) == Renamers(acquired, after)
  {
    if acquired != [] {
      RenamersFrame(acquired[..|acquired| - 1], before, after);
    }
  }

  lemma InitialInv(doc: Json, requests: seq<Request>)
    ensures Inv(Initial(doc, requests), doc, requests)
  {}

  lemma LocalStep(w: Writer, lockFree: bool, config: Contents, hasTemp: bool, event: Event)
    requires LocalOk(w)
    ensures LocalOk(NextWriter(w, lockFree, config, hasTemp, event))
  {
    hide Apply;
  }

  lemma FailuresStep(s: State, id: Id, event: Event)
    requires id < |s.writers| && LocalOk(s.writers[id]) && FailuresNoted(s.writers[id])
    ensures FailuresNoted(Step(s, id, event).writers[id])
  {
    hide Apply, NextLock, NextTemps, AnyFailed;
    var w := s.writers[id];
    AnyFailedSnoc(w.log, Performed(w.pc, Works(s, id, event)));
  }

  // An operation that works leads to the one whose predecessor it is.
  lemma NextOnWay(w: Writer, config: Contents)
    requires OnWay(w.pc) && !w.pc.Done? && (w.pc.StatConfig? || w.pc.ReadConfig? ==> w.request.Modify?)
    requires w.pc.ReadConfig? ==> config.Whole? && Apply(w.request, config.doc).Some?
    ensures var t := NextWriter(w, true, config, true, Succeed);
            && OnWay(t.pc) && !t.pc.OpenLock? && t.request == w.request && Previous(t.pc, w.request) == w.pc
            && (t.pc.StatConfig? || t.pc.ReadConfig? ==> w.request.Modify?)
            && (w.pc.Rename? ==> t.pc.SyncDirectory?)
  {
    hide Apply;
  }

  lemma WorksIgnoresRest(s: State, id: Id, event: Event)
    requires id < |s.writers| && Works(s, id, event)
    ensures NextWriter(s.writers[id], s.lock.None?, s.config, id in s.temps, event)
         == NextWriter(s.writers[id], true, s.config, true, Succeed)
  {
    hide Apply;
  }

  lemma WorksAdvances(s: State, id: Id, event: Event)
    requires id < |s.writers| && OnWay(s.writers[id].pc) && !s.writers[id].pc.Done? && Works(s, id, event)
    requires s.writers[id].pc.StatConfig? || s.writers[id].pc.ReadConfig? ==> s.writers[id].request.Modify?
    ensures var w, t := s.writers[id], Step(s, id, event).writers[id];
            && OnWay(t.pc) && t.request == w.request && t.log == w.log + [Performed(w.pc, true)]
            && AllWorked(t.pc, t.request) == AllWorked(w.pc, w.request) + [Performed(w.pc, true)]
            && (t.pc.StatConfig? || t.pc.ReadConfig? ==> t.request.Modify?)
            && (w.pc.Rename? ==> t.pc.SyncDirectory?)
  {
    hide Apply, NextLock, NextTemps, AllWorked, NextWriter, Previous;
    var w, t := s.writers[id], Step(s, id, event).writers[id];
    WorksIgnoresRest(s, id, event);
    NextOnWay(w, s.config);
    AllWorkedStep(t.pc, w.request);
  }

  lemma AllWorkedStep(pc: Pc, request: Request)
    requires OnWay(pc) && !pc.OpenLock?
    ensures AllWorked(pc, request)
         == AllWorked(Previous(pc, request), request) + [Performed(Previous(pc, request), true)]
  {}

  // The operations of a write on which nothing fails; a patch also looks at the file before.
  function PcsOf(log: Log): seq<Pc> {
    if log == [] then [] else PcsOf(log[..|log| - 1]) + [log[|log| - 1].pc]
  }

  lemma PcsSnoc(log: Log, last: Performed)
    ensures PcsOf(log + [last]) == PcsOf(log) + [last.pc]
  {
    assert (log + [last])[..|log|] == log;
  }

  lemma WayFrom(pc: Pc, request: Request)
    requires OnWay(pc) && !pc.OpenLock?
    ensures PcsOf(AllWorked(pc, request)) == PcsOf(AllWorked(Previous(pc, request), request)) + [Previous(pc, request)]
  {
    AllWorkedStep(pc, request);
    PcsSnoc(AllWorked(Previous(pc, request), request), Performed(Previous(pc, request), true));
  }

  /** The whole way of a write, in order: lock, temporary file, rename, directory, readback, release. */
  lemma WholeWay(request: Request)
    ensures PcsOf(AllWorked(Done, request))
         == [OpenLock, ModeLock, WriteLock, SyncLock] + (if request.Modify? then [StatConfig, ReadConfig] else [])
            + [OpenTemp, ModeTemp, WriteTemp, SyncTemp, CloseTemp, Rename, SyncDirectory, ReadBack,
               CloseLock, RemoveLock, SyncRelease]
  {
    LockWay(request);
    TempWay(request);
    hide AllWorked, PcsOf;
    WayFrom(ReadBack, request);
    WayFrom(CloseLock, request);
    WayFrom(RemoveLock, request);
    WayFrom(SyncRelease, request);
    WayFrom(Done, request);
  }

  lemma WayStarts(request: Request)
    ensures PcsOf(AllWorked(OpenLock, request)) == []
  {}

  lemma LockedWay(request: Request)
    ensures PcsOf(AllWorked(SyncLock, request)) == [OpenLock, ModeLock, WriteLock]
  {
    hide AllWorked, PcsOf;
    WayStarts(request);
    WayFrom(ModeLock, request);
    WayFrom(WriteLock, request);
    WayFrom(SyncLock, request);
  }

  lemma LockWay(request: Request)
    ensures PcsOf(AllWorked(OpenTemp, request))
         == [OpenLock, ModeLock, WriteLock, SyncLock] + if request.Modify? then [StatConfig, ReadConfig] else []
  {
    hide AllWorked, PcsOf;
    LockedWay(request);
    WayFrom(OpenTemp, request);
    if request.Modify? {
      WayFrom(StatConfig, request);
      WayFrom(ReadConfig, request);
    }
  }

  lemma TempWay(request: Request)
    ensures PcsOf(AllWorked(SyncDirectory, request))
         == PcsOf(AllWorked(OpenTemp, request)) + [OpenTemp, ModeTemp, WriteTemp, SyncTemp, CloseTemp, Rename]
  {
    hide AllWorked, PcsOf;
    WayFrom(ModeTemp, request);
    WayFrom(WriteTemp, request);
    WayFrom(SyncTemp, request);
    WayFrom(CloseTemp, request);
    WayFrom(Rename, request);
    WayFrom(SyncDirectory, request);
  }

  // Only an operation that works leads on without a failure noted.
  lemma StuckElsewhere(s: State, id: Id, event: Event)
    requires id < |s.writers| && LocalOk(s.writers[id])
    requires !(OnWay(s.writers[id].pc) && !s.writers[id].pc.Done? && Works(s, id, event))
    ensures var w, t := s.writers[id], Step(s, id, event).writers[id];
            && !t.pc.StatConfig? && !t.pc.ReadConfig?
            && t.request == w.request && t.renamed == w.renamed && w.log <= t.log
            && (OnWay(t.pc) ==> t == w || t.failure != NoFailure || t.releaseFailed)
  {
    hide Apply, NextLock, NextTemps;
  }

  lemma WayStep(s: State, id: Id, event: Event)
    requires id < |s.writers| && LocalOk(s.writers[id]) && FailuresNoted(s.writers[id]) && WayOk(s.writers[id])
    requires EffectsOk(s.writers[id])
    ensures WayOk(Step(s, id, event).writers[id])
  {
    hide Step, AllWorked, AnyFailed;
    StepKeepsCount(s, id, event);
    var w, t := s.writers[id], Step(s, id, event).writers[id];
    FailuresStep(s, id, event);
    if OnWay(w.pc) && !w.pc.Done? && Works(s, id, event) {
      WorksAdvances(s, id, event);
      AnyFailedSnoc(w.log, Performed(w.pc, true));
      RenamedStep(s, id, event);
    } else {
      StuckElsewhere(s, id, event);
    }
  }

  lemma RenamedStep(s: State, id: Id, event: Event)
    requires id < |s.writers| && LocalOk(s.writers[id])
    ensures Step(s, id, event).writers[id].renamed
       <==> s.writers[id].renamed || (s.writers[id].pc.Rename? && Works(s, id, event))
    ensures s.writers[id].pc.Rename? ==> s.writers[id].failure == NoFailure && !s.writers[id].releaseFailed
  {
    hide Apply, NextLock, NextTemps, NextLog;
  }

  lemma EffectsStep(s: State, id: Id, event: Event)
    requires id < |s.writers| && LocalOk(s.writers[id]) && EffectsOk(s.writers[id])
    ensures EffectsOk(Step(s, id, event).writers[id])
  {
    RenamedStep(s, id, event);
    hide Apply, NextLock, NextTemps;
  }

  lemma LogStep(s: State, id: Id, event: Event)
    requires id < |s.writers| && LocalOk(s.writers[id]) && LogOk(s.writers[id])
    ensures LogOk(Step(s, id, event).writers[id])
  {
    hide Step, FailuresNoted, WayOk, EffectsOk;
    FailuresStep(s, id, event);
    WayStep(s, id, event);
    EffectsStep(s, id, event);
  }

  lemma LockStep(s: State, id: Id, event: Event)
    requires id < |s.writers| && LocalOk(s.writers[id]) && LockOk(s.lock, s.acquired, id, s.writers[id])
    ensures var s' := Step(s, id, event); LockOk(s'.lock, s'.acquired, id, s'.writers[id])
  {
    hide Apply, NextTemps, NextLog;
  }

  lemma PreparedStep(s: State, id: Id, event: Event)
    requires id < |s.writers| && s.config.Whole? && FileOk(s.config, s.temps, id, s.writers[id])
    ensures var s' := Step(s, id, event);
            Prepared(s'.writers[id].pc) ==>
              s'.config == s.config && Apply(s'.writers[id].request, s.config.doc) == Some(s'.writers[id].next)
  {
    hide ApplyPatch, NextLock, NextLog, NextTemps;
  }

  lemma FileStep(s: State, id: Id, event: Event)
    requires id < |s.writers| && s.config.Whole? && FileOk(s.config, s.temps, id, s.writers[id])
    ensures var s' := Step(s, id, event); FileOk(s'.config, s'.temps, id, s'.writers[id])
  {
    PreparedStep(s, id, event);
    hide Apply, NextLock, NextLog;
  }

  lemma OtherLock(s: State, id: Id, event: Event, other: Id)
    requires id < |s.writers| && other < |s.writers| && other != id
    requires LockOk(s.lock, s.acquired, id, s.writers[id])
    requires LockOk(s.lock, s.acquired, other, s.writers[other])
    ensures var s' := Step(s, id, event); LockOk(s'.lock, s'.acquired, other, s'.writers[other])
  {
    hide NextWriter, NextTemps, NextLog;
  }

  lemma OtherFile(s: State, id: Id, event: Event, other: Id)
    requires id < |s.writers| && other < |s.writers| && other != id
    requires LockOk(s.lock, s.acquired, id, s.writers[id])
    requires LockOk(s.lock, s.acquired, other, s.writers[other])
    requires FileOk(s.config, s.temps, other, s.writers[other])
    ensures var s' := Step(s, id, event); FileOk(s'.config, s'.temps, other, s'.writers[other])
  {
    hide NextWriter, NextLock, NextLog, Apply;
  }

  lemma LocalStepped(s: State, id: Id, event: Event)
    requires id < |s.writers| && LocalOk(s.writers[id])
    ensures LocalOk(Step(s, id, event).writers[id])
  {
    hide NextWriter, NextLock, NextTemps, NextLog;
    LocalStep(s.writers[id], s.lock.None?, s.config, id in s.temps, event);
  }

  lemma WriterStep(s: State, id: Id, event: Event, v: Id)
    requires id < |s.writers| && v < |s.writers| && s.config.Whole? && WriterOk(s, id) && WriterOk(s, v)
    ensures WriterOk(Step(s, id, event), v)
  {
    hide LocalOk, LogOk, LockOk, FileOk, NextWriter, NextLock, NextTemps, NextLog;
    if v == id {
      LocalStepped(s, id, event);
      LogStep(s, id, event);
      LockStep(s, id, event);
      FileStep(s, id, event);
    } else {
      OtherLock(s, id, event, v);
      OtherFile(s, id, event, v);
    }
  }

  lemma RequestsStay(w: Writer, lockFree: bool, config: Contents, hasTemp: bool, event: Event)
    ensures NextWriter(w, lockFree, config, hasTemp, event).request == w.request
    ensures !w.pc.Rename? || event != Succeed ==> NextWriter(w, lockFree, config, hasTemp, event).renamed == w.renamed
  {
    hide Apply;
  }

  lemma AcquiredDistinct(s: State, id: Id, event: Event)
    requires id < |s.writers| && WriterOk(s, id) && Distinct(s.acquired)
    ensures Distinct(Step(s, id, event).acquired)
  {}

  lemma RenamedLast(s: State, id: Id)
    requires id < |s.writers| && WriterOk(s, id) && s.writers[id].pc.Rename? && Distinct(s.acquired)
    ensures var s' := Step(s, id, Succeed);
            && s'.acquired == s.acquired && s'.config == Whole(s.writers[id].next)
            && Renamers(s.acquired, s'.writers) == Renamers(s.acquired, s.writers) + [id]
  {
    hide Apply, NextLog, LogOk;
    var s' := Step(s, id, Succeed);
    var n := |s.acquired|;
    RenamersFrame(s.acquired[..n - 1], s.writers, s'.writers);
  }

  // Only a rename touches the file, and it applies its writer's request to what the file held.
  lemma RenameApplies(s: State, id: Id, doc: Json, requests: seq<Request>)
    requires Inv(s, doc, requests) && id < |requests| && s.writers[id].pc.Rename?
    ensures Serial(Step(s, id, Succeed), doc, requests)
  {
    assert WriterOk(s, id);
    RenamedLast(s, id);
    hide Step, Renamers, Apply;
    var earlier := Renamers(s.acquired, s.writers);
    assert (earlier + [id])[..|earlier|] == earlier;
  }

  lemma AcquireKeepsHistory(s: State, id: Id)
    requires id < |s.writers| && !s.writers[id].renamed && s.writers[id].pc.OpenLock? && s.lock.None?
    ensures Renamers(s.acquired + [id], Step(s, id, Succeed).writers) == Renamers(s.acquired, s.writers)
  {
    var s' := Step(s, id, Succeed);
    assert (s.acquired + [id])[..|s.acquired|] == s.acquired;
    RenamersFrame(s.acquired, s.writers, s'.writers);
  }

  lemma OthersKeepHistory(s: State, id: Id, event: Event)
    requires id < |s.writers| && !(s.writers[id].pc.Rename? && event == Succeed) && !Acquires(s, id, event)
    ensures Step(s, id, event).config == s.config && Step(s, id, event).acquired == s.acquired
    ensures Renamers(s.acquired, Step(s, id, event).writers) == Renamers(s.acquired, s.writers)
  {
    RequestsStay(s.writers[id], s.lock.None?, s.config, id in s.temps, event);
    hide NextWriter;
    RenamersFrame(s.acquired, s.writers, Step(s, id, event).writers);
  }

  lemma StepInv(s: State, id: Id, event: Event, doc: Json, requests: seq<Request>)
    requires Inv(s, doc, requests) && id < |requests|
    ensures Inv(Step(s, id, event), doc, requests)
  {
    hide LocalOk, LogOk, LockOk, FileOk, NextWriter, NextTemps, NextLog;
    var s' := Step(s, id, event);
    assert WriterOk(s, id);
    forall v | 0 <= v < |requests| ensures s'.writers[v].request == requests[v] && WriterOk(s', v) {
      WriterStep(s, id, event, v);
      RequestsStay(s.writers[id], s.lock.None?, s.config, id in s.temps, event);
    }
    AcquiredDistinct(s, id, event);
    HistoryStep(s, id, event, doc, requests);
  }

  lemma HistoryStep(s: State, id: Id, event: Event, doc: Json, requests: seq<Request>)
    requires Inv(s, doc, requests) && id < |requests|
    ensures Serial(Step(s, id, event), doc, requests)
  {
    assert WriterOk(s, id);
    if s.writers[id].pc.Rename? && event == Succeed {
      RenameApplies(s, id, doc, requests);
    } else if Acquires(s, id, event) {
      AcquireKeepsHistory(s, id);
    } else {
      OthersKeepHistory(s, id, event);
    }
  }

  lemma {:induction false} RunInv(s: State, schedule: seq<Move>, doc: Json, requests: seq<Request>)
    requires Inv(s, doc, requests)
    ensures Inv(Run(s, schedule), doc, requests)
    decreases |schedule|
  {
    if schedule != [] {
      if schedule[0].id < |s.writers| {
        StepInv(s, schedule[0].id, schedule[0].event, doc, requests);
        RunInv(Step(s, schedule[0].id, schedule[0].event), schedule[1..], doc, requests);
      } else {
        RunInv(s, schedule[1..], doc, requests);
      }
    }
  }

  // ----- Every run -----

  ghost predicate Reachable(s: State, doc: Json, requests: seq<Request>) {
    exists schedule :: s == Run(Initial(doc, requests), schedule)
  }

  lemma ReachableInv(s: State, doc: Json, requests: seq<Request>)
    requires Reachable(s, doc, requests)
    ensures Inv(s, doc, requests)
  {
    var schedule :| s == Run(Initial(doc, requests), schedule);
    InitialInv(doc, requests);
    RunInv(Initial(doc, requests), schedule, doc, requests);
  }

  /** At most one writer is between lock creation and lock removal. */
  lemma MutualExclusion(s: State, doc: Json, requests: seq<Request>, v: Id, w: Id)
    requires Reachable(s, doc, requests) && v < |s.writers| && w < |s.writers|
    requires Holding(s.writers[v]) && Holding(s.writers[w])
    ensures v == w
  {
    ReachableInv(s, doc, requests);
    assert WriterOk(s, v) && WriterOk(s, w);
  }

  /**
   The file always holds one complete document: the initial one with the requests whose rename took
   effect applied one after another, each once, in lock order.
   */
  lemma AlwaysSerial(s: State, doc: Json, requests: seq<Request>)
    requires Reachable(s, doc, requests)
    ensures var renamers := Renamers(s.acquired, s.writers);
            && s.config == Whole(ApplyAll(doc, renamers, requests))
            && EachApplies(doc, renamers, requests)
            && Distinct(renamers)
            && forall id :: 0 <= id < |s.writers| ==> (id in renamers <==> s.writers[id].renamed)
  {
    ReachableInv(s, doc, requests);
    RenamersDistinct(s.acquired, s.writers);
    forall id | 0 <= id < |s.writers| ensures id in Renamers(s.acquired, s.writers) <==> s.writers[id].renamed {
      assert WriterOk(s, id);
      RenamersMembers(s.acquired, s.writers, id);
    }
  }

  lemma {:induction false} RenamersMembers(acquired: seq<Id>, writers: seq<Writer>, id: Id)
    ensures id in Renamers(acquired, writers) <==> id in acquired && id < |writers| && writers[id].renamed
  {
    if acquired != [] {
      var earlier := acquired[..|acquired| - 1];
      RenamersMembers(earlier, writers, id);
      assert acquired == earlier + [acquired[|acquired| - 1]];
    }
  }

  lemma {:induction false} RenamersDistinct(acquired: seq<Id>, writers: seq<Writer>)
    requires Distinct(acquired)
    ensures Distinct(Renamers(acquired, writers))
  {
    if acquired != [] {
      var earlier := acquired[..|acquired| - 1];
      RenamersDistinct(earlier, writers);
      RenamersMembers(earlier, writers, acquired[|acquired| - 1]);
    }
  }

  /**
   How a call ends tells the truth, by what was performed.  It returns exactly when everything worked,
   and then it performed every operation; an unknown outcome is reported exactly when something failed
   and the rename had worked; an ordinary error exactly when the rename did not.
   */
  lemma OutcomesAreTruthful(s: State, doc: Json, requests: seq<Request>, id: Id)
    requires Reachable(s, doc, requests) && id < |s.writers| && s.writers[id].pc.Done?
    ensures var w := s.writers[id];
            && (OutcomeOf(w) == Returned <==> !AnyFailed(w.log))
            && (OutcomeOf(w) == OutcomeUnknown <==> AnyFailed(w.log) && Performed(Rename, true) in w.log)
            && (OutcomeOf(w) == OrdinaryError <==> Performed(Rename, true) !in w.log)
            && (OutcomeOf(w) == OrdinaryError <==> id !in Renamers(s.acquired, s.writers))
            && (OutcomeOf(w) == Returned ==> s.lock != Some(id) && w.log == AllWorked(Done, w.request))
            && (Performed(Rename, true) in w.log ==> AllWorked(SyncDirectory, w.request) <= w.log)
            && (Performed(OpenLock, true) in w.log ==> RemovedLock(w.log))
  {
    hide AllWorked, AnyFailed;
    ReachableInv(s, doc, requests);
    assert WriterOk(s, id);
    RenamersMembers(s.acquired, s.writers, id);
  }

  /** However many patches were applied, nothing outside the patched keys has changed. */
  lemma PatchesKeepTheRest(s: State, doc: Json, requests: seq<Request>)
    requires Reachable(s, doc, requests)
    requires forall i :: 0 <= i < |requests| ==> requests[i].Modify?
    ensures s.config.Whole? && (s.config.doc == doc || SameOutsidePatch(doc, s.config.doc))
  {
    ReachableInv(s, doc, requests);
    ApplyAllKeepsTheRest(doc, Renamers(s.acquired, s.writers), requests);
  }

  lemma {:induction false} ApplyAllKeepsTheRest(doc: Json, ids: seq<Id>, requests: seq<Request>)
    requires forall i :: 0 <= i < |requests| ==> requests[i].Modify?
    requires EachApplies(doc, ids, requests)
    ensures ids == [] || SameOutsidePatch(doc, ApplyAll(doc, ids, requests))
  {
    hide ApplyPatch, SameOutsidePatch;
    if ids != [] {
      var earlier, id := ids[..|ids| - 1], ids[|ids| - 1];
      var before := ApplyAll(doc, earlier, requests);
      ApplyAllKeepsTheRest(doc, earlier, requests);
      PatchFrame(before, requests[id].patch);
      if earlier != [] {
        SameOutsidePatchTransitive(doc, before, ApplyAll(doc, ids, requests));
      }
    }
  }

  // ----- Whether the lock can come free -----

  // A lock whose owner is past removing it, or dead, stays, and so does the file.
  lemma {:induction false} AbandonedLockStays(
    s: State, doc: Json, requests: seq<Request>, id: Id, schedule: seq<Move>)
    requires Inv(s, doc, requests) && id < |s.writers| && s.lock == Some(id) && !Holding(s.writers[id])
    ensures Run(s, schedule).config == s.config && Run(s, schedule).lock == s.lock
    decreases |schedule|
  {
    if schedule != [] && schedule[0].id >= |s.writers| {
      AbandonedLockStays(s, doc, requests, id, schedule[1..]);
    } else if schedule != [] {
      var v, event := schedule[0].id, schedule[0].event;
      StepInv(s, v, event, doc, requests);
      AbandonedStep(s, doc, requests, id, v, event);
      AbandonedLockStays(Step(s, v, event), doc, requests, id, schedule[1..]);
    }
  }

  lemma AbandonedStep(s: State, doc: Json, requests: seq<Request>, id: Id, v: Id, event: Event)
    requires Inv(s, doc, requests) && id < |s.writers| && s.lock == Some(id) && !Holding(s.writers[id])
    requires v < |s.writers|
    ensures var t := Step(s, v, event); t.config == s.config && t.lock == s.lock && !Holding(t.writers[id])
  {
    hide LocalOk, LogOk, FileOk, NextLog, NextTemps, Serial, Apply;
    assert WriterOk(s, v) && WriterOk(s, id);
    assert !Holding(s.writers[v]);
    if v != id { hide NextWriter; }
  }

  // A live holder whose operations keep succeeding removes its lock.
  lemma {:induction false} HolderReleases(s: State, doc: Json, requests: seq<Request>, id: Id)
    returns (schedule: seq<Move>)
    requires Inv(s, doc, requests) && id < |s.writers| && Holding(s.writers[id])
    ensures Run(s, schedule).lock.None?
    decreases Rank(Dead) - Rank(s.writers[id].pc)
  {
    hide Step, Inv, Holding, Rank;
    var t := Step(s, id, Succeed);
    StepKeepsCount(s, id, Succeed);
    LockHasOwner(s, doc, requests);
    StepInv(s, id, Succeed, doc, requests);
    HolderAdvances(s, id);
    if s.writers[id].pc.RemoveLock? {
      schedule := [Move(id, Succeed)];
      assert Run(t, []) == t && schedule[1..] == [];
    } else {
      var rest := HolderReleases(t, doc, requests, id);
      schedule := [Move(id, Succeed)] + rest;
      assert schedule[1..] == rest;
    }
  }

  lemma StepKeepsCount(s: State, id: Id, event: Event)
    requires id < |s.writers|
    ensures |Step(s, id, event).writers| == |s.writers|
  {}

  lemma HolderMoves(w: Writer, lockFree: bool, config: Contents, hasTemp: bool)
    requires Holding(w)
    ensures var t := NextWriter(w, lockFree, config, hasTemp, Succeed);
            && Rank(w.pc) < Rank(Dead)
            && (w.pc.RemoveLock? || (Holding(t) && Rank(w.pc) < Rank(t.pc) < Rank(Dead)))
  {
    hide Apply;
  }

  lemma HolderAdvances(s: State, id: Id)
    requires id < |s.writers| && Holding(s.writers[id])
    ensures var t := Step(s, id, Succeed);
            && Rank(s.writers[id].pc) < Rank(Dead)
            && if s.writers[id].pc.RemoveLock? then t.lock.None?
               else Holding(t.writers[id]) && Rank(s.writers[id].pc) < Rank(t.writers[id].pc) < Rank(Dead)
  {
    HolderMoves(s.writers[id], s.lock.None?, s.config, id in s.temps);
    hide NextWriter, NextTemps, NextLog, Rank;
  }

  /**
   A lock can still come free exactly when its owner is a live holder.  A writer that died with the lock
   blocks every later write, and so does one that finished after its removal failed without effect.
   */
  lemma LockCanBeFreedExactly(s: State, doc: Json, requests: seq<Request>)
    requires Reachable(s, doc, requests)
    ensures s.lock.Some? ==> s.lock.value < |s.writers|
    ensures (exists schedule :: Run(s, schedule).lock.None?)
       <==> s.lock.None? || Holding(s.writers[s.lock.value])
    ensures s.lock.Some? && !Holding(s.writers[s.lock.value]) ==> forall schedule :: Run(s, schedule).config == s.config
  {
    hide Run, Holding, Inv, Reachable;
    ReachableInv(s, doc, requests);
    LockHasOwner(s, doc, requests);
    if s.lock.None? {
      RunNothing(s);
    } else if Holding(s.writers[s.lock.value]) {
      var schedule := HolderReleases(s, doc, requests, s.lock.value);
    } else {
      forall schedule ensures Run(s, schedule).lock.Some? && Run(s, schedule).config == s.config {
        AbandonedLockStays(s, doc, requests, s.lock.value, schedule);
      }
    }
  }

  lemma RunNothing(s: State)
    ensures Run(s, []) == s
  {}

  lemma LockHasOwner(s: State, doc: Json, requests: seq<Request>)
    requires Inv(s, doc, requests)
    ensures |s.writers| == |requests| && (s.lock.Some? ==> s.lock.value < |s.writers|)
  {}

  // One writer alone.
  function Alone(s: State, events: seq<Event>): State
    requires |s.writers| == 1
    decreases |events|
  {
    if events == [] then s else Alone(Step(s, 0, events[0]), events[1..])
  }

  function MovesOf(events: seq<Event>): seq<Move> {
    if events == [] then [] else [Move(0, events[0])] + MovesOf(events[1..])
  }

  lemma {:induction false} AloneRuns(s: State, events: seq<Event>)
    requires |s.writers| == 1
    ensures Run(s, MovesOf(events)) == Alone(s, events)
    decreases |events|
  {
    hide Step;
    if events != [] {
      StepKeepsCount(s, 0, events[0]);
      AloneRuns(Step(s, 0, events[0]), events[1..]);
      assert MovesOf(events)[1..] == MovesOf(events[1..]);
    }
  }

  // The steps on the two ways.
  lemma AloneStep(s: State, event: Event)
    requires |s.writers| == 1
    ensures var t, pc := Step(s, 0, event), s.writers[0].pc;
            && |t.writers| == 1
            && (pc.OpenLock? && s.lock.None? && event == Succeed ==> t.lock == Some(0) && t.writers[0].pc.ModeLock?)
            && (pc.ModeLock? && event == Crash ==> t.lock == s.lock && t.writers[0].pc.Dead?)
            && (pc.ModeLock? && event == Fail ==> t.lock == s.lock && t.writers[0].pc.CloseLock?)
            && (pc.CloseLock? && event == Succeed ==> t.lock == s.lock && t.writers[0].pc.RemoveLock?)
            && (pc.RemoveLock? && event == Fail ==> t.lock == s.lock && t.writers[0].pc.SyncRelease?)
            && (pc.SyncRelease? && event == Succeed ==> t.lock == s.lock && t.writers[0].pc.Done?)
  {
    hide Apply, NextTemps, NextLog;
  }

  lemma AloneCons(s: State, event: Event, rest: seq<Event>)
    requires |s.writers| == 1
    ensures |Step(s, 0, event).writers| == 1
    ensures Alone(s, [event] + rest) == Alone(Step(s, 0, event), rest)
  {
    AloneStep(s, event);
    assert ([event] + rest)[1..] == rest;
  }

  lemma DiesHolding(s: State)
    requires |s.writers| == 1 && s.lock.None? && s.writers[0].pc.OpenLock?
    ensures var t := Alone(s, [Succeed] + ([Crash] + []));
            t.lock == Some(0) && |t.writers| == 1 && t.writers[0].pc.Dead?
  {
    hide Step;
    var s1 := Step(s, 0, Succeed);
    AloneCons(s, Succeed, [Crash] + []);
    AloneCons(s1, Crash, []);
    AloneStep(s, Succeed);
    AloneStep(s1, Crash);
  }

  lemma FailsToRemove(s: State)
    requires |s.writers| == 1 && s.lock.None? && s.writers[0].pc.OpenLock?
    ensures var t := Alone(s, [Succeed] + ([Fail] + ([Succeed] + ([Fail] + ([Succeed] + [])))));
            t.lock == Some(0) && |t.writers| == 1 && t.writers[0].pc.Done?
  {
    hide Step;
    AloneStep(s, Succeed);
    var s1 := Step(s, 0, Succeed);
    AloneStep(s1, Fail);
    var s2 := Step(s1, 0, Fail);
    AloneStep(s2, Succeed);
    var s3 := Step(s2, 0, Succeed);
    AloneStep(s3, Fail);
    var s4 := Step(s3, 0, Fail);
    AloneStep(s4, Succeed);
    AloneCons(s, Succeed, [Fail] + ([Succeed] + ([Fail] + ([Succeed] + []))));
    AloneCons(s1, Fail, [Succeed] + ([Fail] + ([Succeed] + [])));
    AloneCons(s2, Succeed, [Fail] + ([Succeed] + []));
    AloneCons(s3, Fail, [Succeed] + []);
    AloneCons(s4, Succeed, []);
  }

  /** Both ways of blocking are reachable: the holder dies, or its removal fails and it finishes. */
  lemma BothWaysOfBlocking(doc: Json)
    ensures exists schedule :: var s := Run(Initial(doc, [Replace(doc)]), schedule);
              s.lock == Some(0) && |s.writers| == 1 && s.writers[0].pc.Dead?
    ensures exists schedule :: var s := Run(Initial(doc, [Replace(doc)]), schedule);
              s.lock == Some(0) && |s.writers| == 1 && s.writers[0].pc.Done?
  {
    var start := Initial(doc, [Replace(doc)]);
    var dies := [Succeed] + ([Crash] + []);
    var fails := [Succeed] + ([Fail] + ([Succeed] + ([Fail] + ([Succeed] + []))));
    AloneRuns(start, dies);
    AloneRuns(start, fails);
    DiesHolding(start);
    FailsToRemove(start);
  }
}
