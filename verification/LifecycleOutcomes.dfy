/** What a worker's moves leave in the record: which outcome, under whose stop, and
    where a success or a cancellation must have come from. */
module LifecycleOutcomes {
  import opened Common
  import opened Journal
  import opened Lifecycle
  import opened LifecycleInvariant
  import opened LifecycleTheorems
  import opened LifecycleFiles
  import opened LifecycleAnswers
  import Audit

  // ------------------------------------------------------------------- one outcome

  /** No stop is recorded on the entry and none is due. */
  predicate OnTime(e: Entry, now: nat) {
    e.control.stop.None? && now < e.control.deadline
  }

  /** `after` is `e` with this outcome published at `now`: as it is while no stop is
      recorded or due, else what the stop says, receipt included. */
  ghost predicate Ends(e: Entry, after: Entry, now: nat, phase: Phase, reason: Option<string>,
                       output: Option<string>, details: Option<string>)
  {
    var id := e.value.requestId;
    var (p, why) :=
      if OnTime(e, now) then (phase, reason)
      else if e.control.stop == Some(ByCancel) then (Cancelled, Some("execution cancelled"))
      else (Failed, Some("execution deadline exceeded"));
    var verdict := if p.Succeeded? then Success else if p.Cancelled? then Cancellation else Failure;
    var receipt := if details.Some? then Some(Receipt(id, verdict, details.value)) else None;
    && after.value == Record(id, p, why, output, receipt)
    && after.at == now && after.reservation == e.reservation && after.control.deadline == e.control.deadline
    && after.audit.receipt == receipt && after.audit.execution == e.audit.execution
    && (|e.audit.events| < 32 ==>
          && after.audit.events != []
          && after.audit.events[|after.audit.events| - 1].phase ==
               if p.Succeeded? then "Succeeded" else if p.Cancelled? then "Cancelled"
               else if p.Refused? then "Refused" else "Failed")
  }

  /** The entry and the thread of one id are all a move of that thread changes in
      memory, and its file all it changes on disk. */
  ghost predicate OnlyOf(c: Core, c': Core, id: Id) {
    && c'.now == c.now && c'.wall == c.wall
    && c'.registry.Keys == c.registry.Keys
    && (forall o <- c.registry :: o != id ==> c'.registry[o] == c.registry[o])
    && (forall o :: o != id ==> (o in c'.workers <==> o in c.workers)
                                && (o in c.workers ==> c'.workers[o] == c.workers[o]))
    && c'.disk.visible.Keys == c.disk.visible.Keys
    && (forall o <- c.disk.visible :: o != id ==> c'.disk.visible[o] == c.disk.visible[o])
  }

  lemma PersistedIsLocal(d: Disk, e: Entry, io: CompleteIo)
    requires DiskInv(d)
    ensures var d' := Persisted(d, e, io).0;
            && d'.visible.Keys == d.visible.Keys
            && (forall o <- d.visible :: o != e.value.requestId ==> d'.visible[o] == d.visible[o])
  {
    if !IsActive(e.value) { CompleteSpec(d, e.value, e.audit, io); }
  }

  lemma UpdateIsLocal(c: Core, id: Id, next: Option<Stage>, change: Change, io: CompleteIo)
    requires DiskInv(c.disk) && id in c.workers
    requires id in c.registry ==> UpdatedEntry(c.registry[id], change, c.now, c.wall).value.requestId == id
    ensures OnlyOf(c, Update(Moved(c, id, next), id, change, io), id)
  {
    if id in c.registry {
      PersistedIsLocal(c.disk, UpdatedEntry(c.registry[id], change, c.now, c.wall), io);
    }
  }

  lemma QuietIsLocal(c: Core, id: Id, p: Plan, io: CompleteIo)
    requires id in c.workers && !p.Publishes?
    ensures OnlyOf(c, CarriedOut(c, id, p, io), id)
  {
  }

  /** Whatever a thread does, it does to its own execution. */
  lemma WorkIsLocal(c: Core, id: Id, a: Action, io: CompleteIo)
    requires CoreInv(c)
    ensures OnlyOf(c, Work(c, id, a, io), id)
  {
    if id in c.workers {
      var p := Planned(c, id, a);
      PlansFollowRules(c, id, a);
      if p.Publishes? {
        if id in c.registry { UpdatedEntryRules(id, c.registry[id], p.change, c.now, c.wall); }
        WorkIsUpdate(c, id, a, io);
        UpdateIsLocal(c, id, p.to, p.change, io);
      } else {
        QuietIsLocal(c, id, p, io);
      }
    }
  }

  lemma NotedIs(e: Entry, p: Phase, now: nat, wall: string)
    requires EntryRules(e.value.requestId, e, now)
    ensures |e.audit.events| < 32 ==>
              var noted := Note(e.audit, p, now, wall).events;
              noted != [] && noted[|noted| - 1].phase == PhaseText(p)
  {
    Audit.NotedKeepsOrder(e.audit.events, PhaseText(p), wall, now, now);
  }

  lemma FinishEnds(e: Entry, guest: bool, note: Option<string>, text: Option<string>, details: string,
                   now: nat, wall: string)
    requires EntryRules(e.value.requestId, e, now)
    ensures var change := Finish(if guest then Success else Failure, note, text, details);
            Ends(e, UpdatedEntry(e, change, now, wall), now, if guest then Succeeded else Failed,
                 note, text, Some(details))
  {
    var change := Finish(if guest then Success else Failure, note, text, details);
    NotedIs(e, UpdatedEntry(e, change, now, wall).value.phase, now, wall);
  }

  lemma RefusalEnds(e: Entry, change: Change, now: nat, wall: string)
    requires EntryRules(e.value.requestId, e, now) && e.value.receipt.None? && (change.Refuse? || change.Fail?)
    ensures Ends(e, UpdatedEntry(e, change, now, wall), now, if change.Refuse? then Refused else Failed,
                 Some(change.why), e.value.output, None)
  {
    NotedIs(e, UpdatedEntry(e, change, now, wall).value.phase, now, wall);
  }

  /** The thread's own entry, running, with nothing to show yet. */
  lemma OwnEntry(c: Core, id: Id)
    requires CoreInv(c) && id in c.workers && !c.workers[id].AtDone?
    ensures id in c.registry && IsActive(c.registry[id].value)
    ensures EntryRules(id, c.registry[id], c.now) && c.registry[id].value.receipt.None?
  {
    assert Threaded(c, id);
  }

  /** The end of the work: the record says `Succeeded` exactly when the guest's result
      is good and no stop is recorded or due; note, text and receipt are those of the
      result. */
  lemma FinishMeans(c: Core, id: Id, guest: bool, note: Option<string>, text: Option<string>, details: string,
                    io: CompleteIo)
    requires CoreInv(c) && id in c.workers && c.workers[id].AtExecuted?
    ensures var c' := Work(c, id, FinishWork(guest, note, text, details), io);
            && id in c.registry && id in c'.registry
            && Ends(c.registry[id], c'.registry[id], c.now, if guest then Succeeded else Failed,
                    note, text, Some(details))
            && (c'.registry[id].value.phase == Succeeded <==> guest && OnTime(c.registry[id], c.now))
            && id in c'.workers && c'.workers[id] == AtDone
  {
    OwnEntry(c, id);
    FinishEnds(c.registry[id], guest, note, text, details, c.now, c.wall);
  }

  /** Work refused before it starts, or failed while it is prepared, says so with its
      reason, and earns no receipt. */
  lemma RefusalMeans(c: Core, id: Id, why: string, io: CompleteIo)
    requires CoreInv(c) && id in c.workers
    ensures c.workers[id].AtChecked? ==>
              var c' := Work(c, id, RefuseWork(why), io);
              && id in c.registry && id in c'.registry && id in c'.workers && c'.workers[id] == AtDone
              && Ends(c.registry[id], c'.registry[id], c.now, Refused, Some(why), c.registry[id].value.output, None)
    ensures c.workers[id].AtForge? || c.workers[id].AtPrepare? || c.workers[id].AtResolve? ==>
              var c' := Work(c, id, FailWork(why), io);
              && id in c.registry && id in c'.registry && id in c'.workers && c'.workers[id] == AtDone
              && Ends(c.registry[id], c'.registry[id], c.now, Failed, Some(why), c.registry[id].value.output, None)
  {
    if !c.workers[id].AtDone? {
      OwnEntry(c, id);
      RefusalEnds(c.registry[id], Refuse(why), c.now, c.wall);
      RefusalEnds(c.registry[id], Fail(why), c.now, c.wall);
    }
  }

  /** A thread that could not be spawned, or that panicked before its outcome, leaves a
      failure and is gone. */
  lemma LossMeans(c: Core, id: Id, io: CompleteIo)
    requires CoreInv(c) && id in c.workers && !c.workers[id].AtDone?
    ensures c.workers[id].AtClaim? ==>
              var c' := Work(c, id, SpawnFails, io);
              && id in c.registry && id in c'.registry && c'.workers == c.workers - {id}
              && Ends(c.registry[id], c'.registry[id], c.now, Failed, Some("execution worker unavailable"),
                      c.registry[id].value.output, None)
    ensures !c.workers[id].AtClaim? ==>
              var c' := Work(c, id, Panic, io);
              && id in c.registry && id in c'.registry && c'.workers == c.workers - {id}
              && Ends(c.registry[id], c'.registry[id], c.now, Failed,
                      Some("execution worker panicked during cleanup"), c.registry[id].value.output, None)
  {
    OwnEntry(c, id);
    RefusalEnds(c.registry[id], Fail("execution worker unavailable"), c.now, c.wall);
    RefusalEnds(c.registry[id], Fail("execution worker panicked during cleanup"), c.now, c.wall);
  }

  /** The check at the start lets the work go on exactly when no stop is recorded or
      due; otherwise it ends there as the stop says. */
  lemma CheckMeans(c: Core, id: Id, forge: bool, io: CompleteIo)
    requires CoreInv(c) && id in c.workers && c.workers[id] == AtStart(forge)
    ensures var c' := Work(c, id, Check, io);
            && id in c.registry && id in c'.registry && id in c'.workers
            && (if OnTime(c.registry[id], c.now) then c' == c.(workers := c.workers[id := AtChecked(forge)])
                else
                  && c'.workers[id] == AtDone
                  && Ends(c.registry[id], c'.registry[id], c.now, Failed, None, c.registry[id].value.output, None))
  {
    OwnEntry(c, id);
    var e := c.registry[id];
    if !OnTime(e, c.now) {
      var stop := Observed(e.control, c.now).stop;
      RefusalEnds(e, Fail(StopText(stop.value)), c.now, c.wall);
      assert Ends(e, UpdatedEntry(e, Fail(StopText(stop.value)), c.now, c.wall), c.now, Failed, None,
                  e.value.output, None);
    }
  }

  /** A thread that starts or ends changes nothing but its own place; the client of the
      submit hears of its start only then. */
  lemma StartAndExitMean(c: Core, id: Id, io: CompleteIo)
    requires id in c.workers
    ensures c.workers[id].AtClaim? ==>
              && Work(c, id, Spawn, io) == c.(workers := c.workers[id := AtStart(c.workers[id].forge)])
              && Witness(c, WorkStep(id, Spawn, io)) ==
                   [Started(id, c.workers[id].body),
                    Answered(id, Accepted(Record(id, Admitting, None, None, None)), false)]
              && Witness(c, WorkStep(id, SpawnFails, io)) == [Answered(id, WorkerUnavailable, false)]
    ensures c.workers[id].AtDone? ==> Work(c, id, Exit, io) == c.(workers := c.workers - {id})
  {
  }

  /** A poll of the control records a deadline that has passed, once, and nothing else. */
  lemma ObserveMeans(c: Core, id: Id, io: CompleteIo)
    requires CoreInv(c) && id in c.workers && !c.workers[id].AtClaim? && !c.workers[id].AtDone?
    ensures id in c.registry
    ensures var control := c.registry[id].control;
            Work(c, id, Observe, io) == c.(registry := c.registry[id := c.registry[id].(
              control := if control.stop.None? && control.deadline <= c.now
                         then Control(control.deadline, Some(ByDeadline)) else control)])
  {
    OwnEntry(c, id);
  }

  /** The evidence of the cell goes into the audit of its own execution. */
  lemma ExecuteMeans(c: Core, id: Id, cell: seq<Audit.CellEvent>, execution: string, io: CompleteIo)
    requires CoreInv(c) && id in c.workers && c.workers[id].AtLaunched?
    requires forall x <- cell :: x.observed <= c.now
    ensures id in c.registry
    ensures var audit := c.registry[id].audit;
            Work(c, id, Execute(cell, execution), io) ==
              c.(registry := c.registry[id := c.registry[id].(
                   audit := AuditLog(Audit.Merged(audit.events, cell), Some(execution), audit.receipt))],
                 workers := c.workers[id := AtExecuted])
  {
    OwnEntry(c, id);
  }

  /** Where in its life a thread can make each move. */
  predicate Fits(a: Action, s: Stage) {
    match a
    case Spawn => s.AtClaim?
    case SpawnFails => s.AtClaim?
    case Check => s.AtStart?
    case Observe => !s.AtClaim? && !s.AtDone?
    case RefuseWork(_) => s.AtChecked?
    case FailWork(_) => s.AtForge? || s.AtPrepare? || s.AtResolve?
    case Advance => s.AtChecked? || s.AtForge? || s.AtPrepare? || s.AtResolve?
    case Execute(_, _) => s.AtLaunched?
    case FinishWork(_, _, _, _) => s.AtExecuted?
    case Panic => !s.AtClaim?
    case Exit => s.AtDone?
  }

  /** Anywhere else it changes nothing at all. */
  lemma OutOfPlaceIsIdle(c: Core, id: Id, a: Action, io: CompleteIo)
    requires id in c.workers ==> !Fits(a, c.workers[id])
    ensures Work(c, id, a, io) == c
  {
  }

  // ------------------------------------------------------------------------ phases

  /** The phases an execution shows at each place of its thread. */
  predicate Shows(s: Stage, p: Phase) {
    match s
    case AtClaim(_, _) => p.Admitting?
    case AtStart(_) => p.Admitting?
    case AtChecked(_) => p.Admitting?
    case AtForge => p.Forging?
    case AtPrepare => p.Preparing?
    case AtResolve => p.Resolving?
    case AtLaunched => p.Preparing? || p.Resolving?
    case AtExecuted => p.Preparing? || p.Resolving?
    case AtDone => false
  }

  /** A running execution shows the phase of its thread, or `Cancelling`, and that
      only under a stop. */
  ghost predicate Staged(c: Core, id: Id) {
    id in c.workers && !c.workers[id].AtDone? && id in c.registry ==>
      var p := c.registry[id].value.phase;
      Shows(c.workers[id], p) || (p.Cancelling? && c.registry[id].control.stop.Some?)
  }

  ghost predicate AllStaged(c: Core) {
    forall id :: Staged(c, id)
  }

  /** The thread of `id` is at `next`, and its record is what it was but for the phase. */
  ghost predicate Enters(c: Core, c': Core, id: Id, next: Stage, p: Phase) {
    && id in c.registry && c'.disk == c.disk && c'.workers == c.workers[id := next]
    && c'.registry.Keys == c.registry.Keys
    && c'.registry[id].value == c.registry[id].value.(
         phase := if c.registry[id].control.stop == Some(ByCancel) then Cancelling else p)
    && c'.registry[id].at == c.registry[id].at
    && (|c.registry[id].audit.events| < 32 ==>
          var events := c'.registry[id].audit.events;
          && events != []
          && events[|events| - 1].phase ==
               if c.registry[id].control.stop == Some(ByCancel) then "Cancelling"
               else if p.Forging? then "Forging" else if p.Preparing? then "Preparing" else "Resolving")
  }

  lemma EnteredEntry(e: Entry, p: Phase, now: nat, wall: string)
    requires IsActive(e.value.(phase := p)) && EntryRules(e.value.requestId, e, now)
    ensures var after := UpdatedEntry(e, Enter(p), now, wall);
            && (|e.audit.events| < 32 ==>
                  after.audit.events != []
                  && after.audit.events[|after.audit.events| - 1].phase ==
                       PhaseText(if e.control.stop == Some(ByCancel) then Cancelling else p))
            && after.value == e.value.(
                 phase := if e.control.stop == Some(ByCancel) then Cancelling else p)
            && after.at == e.at && IsActive(after.value)
            && (e.control.stop.Some? ==> after.control.stop == e.control.stop)
  {
    NotedIs(e, if e.control.stop == Some(ByCancel) then Cancelling else p, now, wall);
  }

  lemma PublishedPhase(c: Core, id: Id, next: Stage, p: Phase, io: CompleteIo)
    requires id in c.workers && id in c.registry && EntryRules(id, c.registry[id], c.now)
    requires p.Forging? || p.Preparing? || p.Resolving?
    ensures Enters(c, Update(Moved(c, id, Some(next)), id, Enter(p), io), id, next, p)
  {
    EnteredEntry(c.registry[id], p, c.now, c.wall);
  }

  lemma AdvanceIs(c: Core, id: Id, io: CompleteIo)
    requires id in c.workers
    ensures var s := c.workers[id];
            Work(c, id, Advance, io) ==
              if s.AtChecked? && s.forge then Update(Moved(c, id, Some(AtForge)), id, Enter(Forging), io)
              else if s.AtChecked? then Update(Moved(c, id, Some(AtResolve)), id, Enter(Resolving), io)
              else if s.AtForge? then Update(Moved(c, id, Some(AtPrepare)), id, Enter(Preparing), io)
              else if s.AtPrepare? || s.AtResolve? then c.(workers := c.workers[id := AtLaunched])
              else c
  {
  }

  /** Where a thread goes when it moves on, and the phase it enters there: forging and
      preparing for a forge request, resolving for a declared one. */
  lemma AdvanceMeans(c: Core, id: Id, io: CompleteIo)
    requires CoreInv(c) && id in c.workers
    ensures var s, c' := c.workers[id], Work(c, id, Advance, io);
            if s.AtChecked? then
              Enters(c, c', id, if s.forge then AtForge else AtResolve, if s.forge then Forging else Resolving)
            else if s.AtForge? then Enters(c, c', id, AtPrepare, Preparing)
            else if s.AtPrepare? || s.AtResolve? then c' == c.(workers := c.workers[id := AtLaunched])
            else c' == c
  {
    var s := c.workers[id];
    AdvanceIs(c, id, io);
    if s.AtChecked? || s.AtForge? {
      OwnEntry(c, id);
      if s.AtForge? { PublishedPhase(c, id, AtPrepare, Preparing, io); }
      else if s.forge { PublishedPhase(c, id, AtForge, Forging, io); }
      else { PublishedPhase(c, id, AtResolve, Resolving, io); }
    }
  }

  /** A plan that publishes no phase keeps place and phase together. */
  lemma CarriedStages(c: Core, id: Id, p: Plan, io: CompleteIo)
    requires Staged(c, id) && id in c.workers && id in c.registry
    requires p.Publishes? && p.to.Some? ==> p.to.value.AtDone?
    requires p.Moves? && p.next.Some? ==> forall q :: Shows(c.workers[id], q) ==> Shows(p.next.value, q)
    requires p.Moves? && p.next.Some? ==> !c.workers[id].AtDone?
    requires p.Records? ==> c.workers[id].AtLaunched?
    ensures Staged(CarriedOut(c, id, p, io), id)
  {
  }

  lemma QuietPlans(c: Core, id: Id, a: Action)
    requires id in c.workers && !a.Advance?
    ensures var p := Planned(c, id, a);
            && (p.Publishes? && p.to.Some? ==> p.to.value.AtDone?)
            && (p.Moves? && p.next.Some? ==>
                  !c.workers[id].AtDone? && forall q :: Shows(c.workers[id], q) ==> Shows(p.next.value, q))
            && (p.Records? ==> c.workers[id].AtLaunched?)
  {
  }

  lemma AdvanceStages(c: Core, c': Core, id: Id, next: Stage, p: Phase)
    requires Enters(c, c', id, next, p) && Shows(next, p)
    requires c.registry[id].control.stop.Some? ==> c'.registry[id].control.stop.Some?
    ensures Staged(c', id)
  {
  }

  lemma StopStays(c: Core, id: Id, a: Action, io: CompleteIo)
    requires id in c.registry && c.registry[id].control.stop.Some?
    ensures id in Work(c, id, a, io).registry
    ensures Work(c, id, a, io).registry[id].control.stop == c.registry[id].control.stop
  {
  }

  lemma WorkStages(c: Core, id: Id, a: Action, io: CompleteIo)
    requires CoreInv(c) && Staged(c, id) && id in c.workers && !c.workers[id].AtDone?
    ensures Staged(Work(c, id, a, io), id)
  {
    OwnEntry(c, id);
    if a.Advance? {
      var s, c' := c.workers[id], Work(c, id, a, io);
      AdvanceMeans(c, id, io);
      if c.registry[id].control.stop.Some? { StopStays(c, id, a, io); }
      if s.AtChecked? {
        AdvanceStages(c, c', id, if s.forge then AtForge else AtResolve, if s.forge then Forging else Resolving);
      } else if s.AtForge? {
        AdvanceStages(c, c', id, AtPrepare, Preparing);
      }
    } else {
      QuietPlans(c, id, a);
      CarriedStages(c, id, Planned(c, id, a), io);
    }
  }

  lemma DonePanics(c: Core, id: Id, a: Action)
    requires id in c.workers && c.workers[id].AtDone? && Planned(c, id, a).Publishes?
    ensures Planned(c, id, a).to.None?
  {
  }

  lemma DoneStages(c: Core, id: Id, a: Action, io: CompleteIo)
    requires CoreInv(c) && id in c.workers && c.workers[id].AtDone?
    ensures Staged(Work(c, id, a, io), id)
  {
    PlansFollowRules(c, id, a);
    if Planned(c, id, a).Publishes? { DonePanics(c, id, a); }
  }

  lemma StagedByWork(c: Core, id: Id, a: Action, io: CompleteIo)
    requires CoreInv(c) && AllStaged(c)
    ensures AllStaged(Work(c, id, a, io))
  {
    WorkIsLocal(c, id, a, io);
    if id in c.workers {
      assert Staged(c, id);
      if c.workers[id].AtDone? { DoneStages(c, id, a, io); } else { WorkStages(c, id, a, io); }
    }
    forall o ensures Staged(Work(c, id, a, io), o) {
      assert Staged(c, o);
    }
  }

  lemma StagedBySubmit(c: Core, r: Request, admission: Admission, io: SubmitIo)
    requires CoreInv(c) && AllStaged(c)
    ensures AllStaged(Submit(c, r, admission, io).0)
  {
    SubmitLaunches(c, r, admission, io);
    forall o ensures Staged(Submit(c, r, admission, io).0, o) {
      assert Staged(c, o);
    }
  }

  lemma StagedByCancel(c: Core, id: Id, io: QueryIo)
    requires CoreInv(c) && AllStaged(c)
    ensures AllStaged(Cancel(c, id, io).0)
  {
    CancelAnswers(c, id, io);
    forall o ensures Staged(Cancel(c, id, io).0, o) {
      assert Staged(c, o);
    }
  }

  lemma StagedStays(c: Core, s: Step)
    requires CoreInv(c) && AllStaged(c)
    ensures AllStaged(Next(c, s))
  {
    match s
    case SubmitStep(r, admission, io) => StagedBySubmit(c, r, admission, io);
    case CancelStep(id, io) => StagedByCancel(c, id, io);
    case WorkStep(id, a, io) => StagedByWork(c, id, a, io);
    case _ =>
      forall o ensures Staged(Next(c, s), o) { assert Staged(c, o); }
  }

  lemma {:induction false} RunStaged(steps: seq<Step>)
    ensures AllStaged(Run(steps).core)
  {
    if steps != [] {
      RunStaged(steps[..|steps| - 1]);
      RunInv(steps[..|steps| - 1]);
      StagedStays(Run(steps[..|steps| - 1]).core, steps[|steps| - 1]);
    }
  }

  /** Over every run, what a client is shown of a running execution is where its
      thread is: `Admitting` until its work is let in, then `Forging` and `Preparing`
      or `Resolving`, and instead of any of these `Cancelling`, only under a stop. */
  lemma PhasesFollowTheThread(steps: seq<Step>, id: Id)
    requires var c := Run(steps).core; id in c.registry && IsActive(c.registry[id].value)
    ensures var c := Run(steps).core;
            && id in c.workers
            && (Shows(c.workers[id], c.registry[id].value.phase)
                || (c.registry[id].value.phase == Cancelling && c.registry[id].control.stop.Some?))
  {
    RunInv(steps);
    RunStaged(steps);
    assert Threaded(Run(steps).core, id) && Staged(Run(steps).core, id);
  }

  // ------------------------------------------------------------------------ causes

  /** Step `j` let this id in, under this deadline and for this reservation. */
  ghost predicate LetInAt(steps: seq<Step>, j: nat, id: Id, deadline: nat, reservation: Reservation)
    requires j < |steps|
  {
    var c, s := Run(steps[..j]).core, steps[j];
    && s.SubmitStep? && s.request.id == id && LetIn(c, s.request, s.admission, s.sio)
    && deadline == c.now + s.request.timeout && reservation == s.request.reservation
  }

  ghost predicate WasLetIn(steps: seq<Step>, id: Id, deadline: nat, reservation: Reservation) {
    exists j :: 0 <= j < |steps| && LetInAt(steps, j, id, deadline, reservation)
  }

  /** This step ends the work of `r`'s id with a good result and no stop recorded or
      due, and `r` is that result. */
  ghost predicate Finishes(c: Core, s: Step, r: Record) {
    && s.WorkStep? && s.id == r.requestId && s.action.FinishWork? && s.action.guest
    && s.id in c.workers && c.workers[s.id].AtExecuted?
    && s.id in c.registry && OnTime(c.registry[s.id], c.now)
    && r == Record(s.id, Succeeded, s.action.note, s.action.text, Some(Receipt(s.id, Success, s.action.details)))
  }

  ghost predicate Earned(steps: seq<Step>, r: Record) {
    exists i :: 0 <= i < |steps| && Finishes(Run(steps[..i]).core, steps[i], r)
  }

  /** This step cancels a running execution before its deadline and any other stop. */
  ghost predicate Cancels(c: Core, s: Step, id: Id) {
    && s.CancelStep? && s.id == id && id in c.registry && IsActive(c.registry[id].value)
    && OnTime(c.registry[id], c.now)
  }

  ghost predicate WasCancelled(steps: seq<Step>, id: Id) {
    exists i :: 0 <= i < |steps| && Cancels(Run(steps[..i]).core, steps[i], id)
  }

  ghost predicate RecordCaused(steps: seq<Step>, r: Record) {
    && (r.phase.Succeeded? ==> Earned(steps, r))
    && (r.phase.Cancelled? ==> WasCancelled(steps, r.requestId))
  }

  ghost predicate EntryCaused(steps: seq<Step>, id: Id, e: Entry) {
    && RecordCaused(steps, e.value)
    && (e.control.stop == Some(ByCancel) ==> WasCancelled(steps, id))
    && WasLetIn(steps, id, e.control.deadline, e.reservation)
  }

  ghost predicate AllCaused(steps: seq<Step>) {
    var c := Run(steps).core;
    && (forall id <- c.registry :: EntryCaused(steps, id, c.registry[id]))
    && (forall id <- c.disk.visible :: RecordCaused(steps, c.disk.visible[id].record))
    && (forall id <- c.disk.synced :: RecordCaused(steps, c.disk.synced[id].record))
  }

  lemma SamePrefix(steps: seq<Step>, s: Step, i: nat)
    requires i < |steps|
    ensures (steps + [s])[..i] == steps[..i] && (steps + [s])[i] == steps[i]
  {
  }

  lemma RecordStaysCaused(steps: seq<Step>, s: Step, r: Record)
    requires RecordCaused(steps, r)
    ensures RecordCaused(steps + [s], r)
  {
    if r.phase.Succeeded? {
      var i :| 0 <= i < |steps| && Finishes(Run(steps[..i]).core, steps[i], r);
      SamePrefix(steps, s, i);
    }
    if r.phase.Cancelled? { CancelStaysCaused(steps, s, r.requestId); }
  }

  lemma CancelStaysCaused(steps: seq<Step>, s: Step, id: Id)
    requires WasCancelled(steps, id)
    ensures WasCancelled(steps + [s], id)
  {
    var i :| 0 <= i < |steps| && Cancels(Run(steps[..i]).core, steps[i], id);
    SamePrefix(steps, s, i);
  }

  lemma LetInStays(steps: seq<Step>, s: Step, id: Id, deadline: nat, reservation: Reservation)
    requires WasLetIn(steps, id, deadline, reservation)
    ensures WasLetIn(steps + [s], id, deadline, reservation)
  {
    var j :| 0 <= j < |steps| && LetInAt(steps, j, id, deadline, reservation);
    SamePrefix(steps, s, j);
    assert LetInAt(steps + [s], j, id, deadline, reservation);
  }

  /** Where the entry of an id after a step comes from: it is new, let in by this very
      step, or it is the old one, whose result and stop only a finishing worker and a
      cancel in time change to a success and to a cancellation. */
  ghost predicate EntryFollows(c: Core, s: Step, id: Id, e: Entry) {
    if id !in c.registry then
      && s.SubmitStep? && s.request.id == id && LetIn(c, s.request, s.admission, s.sio)
      && e.control == Control(c.now + s.request.timeout, None) && e.reservation == s.request.reservation
      && IsActive(e.value)
    else
      var was := c.registry[id];
      && e.control.deadline == was.control.deadline && e.reservation == was.reservation
      && e.value.requestId == id
      && (e.control.stop == Some(ByCancel) ==> was.control.stop == Some(ByCancel) || Cancels(c, s, id))
      && (e.value.phase.Succeeded? ==> e.value == was.value || Finishes(c, s, e.value))
      && (e.value.phase.Cancelled? ==> e.value == was.value || was.control.stop == Some(ByCancel))
  }

  lemma UpdatedFollows(e: Entry, change: Change, now: nat, wall: string)
    requires change.Enter? ==> IsActive(Changed(e.value, change))
    ensures var after := UpdatedEntry(e, change, now, wall);
            && after.control.deadline == e.control.deadline && after.reservation == e.reservation
            && after.value.requestId == e.value.requestId
            && (after.control.stop == Some(ByCancel) ==> e.control.stop == Some(ByCancel))
            && (after.value.phase.Succeeded? ==>
                  OnTime(e, now) && change.Finish? && change.verdict.Success?
                  && after.value == Changed(e.value, change))
            && (after.value.phase.Cancelled? ==>
                  e.control.stop == Some(ByCancel) || (change.Finish? && change.verdict.Cancellation?))
  {
  }

  lemma PublishedVerdicts(c: Core, id: Id, a: Action)
    requires id in c.workers && Planned(c, id, a).Publishes? && Planned(c, id, a).change.Finish?
    ensures a.FinishWork? && c.workers[id].AtExecuted?
    ensures Planned(c, id, a).change ==
              Finish(if a.guest then Success else Failure, a.note, a.text, a.details)
  {
  }

  lemma QuietFollows(c: Core, id: Id, p: Plan, io: CompleteIo)
    requires id in c.registry && id in c.workers && !p.Publishes?
    ensures var was, e := c.registry[id], CarriedOut(c, id, p, io).registry[id];
            && e.value == was.value && e.reservation == was.reservation
            && e.control.deadline == was.control.deadline
            && (e.control.stop == Some(ByCancel) ==> was.control.stop == Some(ByCancel))
  {
  }

  lemma PublishFollows(c: Core, id: Id, a: Action, io: CompleteIo)
    requires id in c.workers && id in c.registry && EntryRules(id, c.registry[id], c.now)
    requires Planned(c, id, a).Publishes? && PlanRules(c, id, Planned(c, id, a))
    ensures id in Work(c, id, a, io).registry
    ensures EntryFollows(c, WorkStep(id, a, io), id, Work(c, id, a, io).registry[id])
  {
    var change := Planned(c, id, a).change;
    WorkIsUpdate(c, id, a, io);
    UpdatedFollows(c.registry[id], change, c.now, c.wall);
    if change.Finish? { PublishedVerdicts(c, id, a); }
  }

  lemma WorkFollows(c: Core, id: Id, a: Action, io: CompleteIo, o: Id)
    requires CoreInv(c) && o in c.registry
    ensures o in Work(c, id, a, io).registry
    ensures EntryFollows(c, WorkStep(id, a, io), o, Work(c, id, a, io).registry[o])
  {
    WorkIsLocal(c, id, a, io);
    assert EntryRules(o, c.registry[o], c.now);
    if o == id && id in c.workers {
      PlansFollowRules(c, id, a);
      var p := Planned(c, id, a);
      if p.Publishes? { PublishFollows(c, id, a, io); } else { QuietFollows(c, id, p, io); }
    }
  }

  lemma SubmitFollows(c: Core, r: Request, admission: Admission, io: SubmitIo, id: Id)
    requires CoreInv(c) && id in Submit(c, r, admission, io).0.registry
    ensures EntryFollows(c, SubmitStep(r, admission, io), id, Submit(c, r, admission, io).0.registry[id])
  {
    SubmitLaunches(c, r, admission, io);
    assert id in c.registry ==> EntryRules(id, c.registry[id], c.now);
  }

  lemma CancelFollows(c: Core, o: Id, io: QueryIo, id: Id)
    requires CoreInv(c) && id in Cancel(c, o, io).0.registry
    ensures EntryFollows(c, CancelStep(o, io), id, Cancel(c, o, io).0.registry[id])
  {
    CancelAnswers(c, o, io);
    assert id in c.registry ==> EntryRules(id, c.registry[id], c.now);
  }

  lemma SameFollows(c: Core, s: Step, id: Id)
    requires CoreInv(c) && id in c.registry
    ensures EntryFollows(c, s, id, c.registry[id])
  {
    assert EntryRules(id, c.registry[id], c.now);
  }

  lemma StepFollows(c: Core, s: Step, id: Id)
    requires CoreInv(c) && id in Next(c, s).registry
    ensures EntryFollows(c, s, id, Next(c, s).registry[id])
  {
    match s
    case SubmitStep(r, admission, io) => SubmitFollows(c, r, admission, io, id);
    case CancelStep(o, io) => CancelFollows(c, o, io, id);
    case WorkStep(o, a, io) =>
      assert id in c.registry by { WorkIsLocal(c, o, a, io); }
      WorkFollows(c, o, a, io, id);
    case Tick(_, _) => SameFollows(c, s, id);
    case GetStep(_, _, _) => SameFollows(c, s, id);
    case PowerLoss(left) => if !Survives(c.disk, left) { SameFollows(c, s, id); }
    case Restart =>
  }

  /** Where the record in a file comes from: the file was there, or it is a claim, or
      it is what memory says. */
  ghost predicate FileFollows(c: Core, c': Core, r: Record, id: Id) {
    || IsActive(r)
    || (id in c.disk.visible && c.disk.visible[id].record == r)
    || (id in c.disk.synced && c.disk.synced[id].record == r)
    || (id in c'.registry && c'.registry[id].value == r)
  }

  lemma QueryFiles(c: Core, id: Id, audit: bool, io: QueryIo)
    requires CoreInv(c)
    ensures Get(c, id, audit, io).0.disk.visible.Keys == c.disk.visible.Keys
  {
    if id in c.registry { PersistedIsLocal(c.disk, c.registry[id], io.reply); }
  }

  lemma ClaimedFile(d: Disk, hash: Digest, record: Record, audit: AuditLog, prepare: PrepareIo, io: PublishIo, id: Id)
    requires id !in d.visible && id in Claim(d, hash, record, audit, CAPACITY, prepare, io).0.visible
    ensures Claim(d, hash, record, audit, CAPACITY, prepare, io).0.visible[id].record == record
  {
  }

  lemma FreshFiles(c: Core, r: Request, admission: Admission, io: SubmitIo, id: Id)
    requires r.id !in c.disk.visible && id !in c.disk.visible
    requires id in SubmitFresh(c, r, admission, io).0.disk.visible
    ensures IsActive(SubmitFresh(c, r, admission, io).0.disk.visible[id].record)
  {
    var c2 := Evicted(c, io.evict);
    var e := NewEntry(c2, r);
    assert c2.disk.visible == c.disk.visible;
    ClaimedFile(c2.disk, HashOf(r.body), e.value, e.audit, io.prepare, io.publish, id);
  }

  lemma SubmitFiles(c: Core, r: Request, admission: Admission, io: SubmitIo, id: Id)
    requires CoreInv(c) && id !in c.disk.visible && id in Submit(c, r, admission, io).0.disk.visible
    ensures IsActive(Submit(c, r, admission, io).0.disk.visible[id].record)
  {
    var (d, found) := Read(c.disk, r.id, io.read);
    if found.Present? {
      var c1 := c.(disk := d);
      assert CoreInv(c1) by { ReadMoves(c, r.id, io.read); }
      if r.id in c.registry { PersistedIsLocal(d, c.registry[r.id], io.reply); }
    } else if found.Absent? {
      NoFileNoEntry(c, r.id);
      assert c.(disk := c.disk) == c;
      FreshFiles(c, r, admission, io, id);
    }
  }

  lemma NewFilesAreClaims(c: Core, s: Step, id: Id)
    requires CoreInv(c) && id !in c.disk.visible && id in Next(c, s).disk.visible
    requires !s.Restart? && !s.PowerLoss?
    ensures IsActive(Next(c, s).disk.visible[id].record)
  {
    match s
    case SubmitStep(r, admission, io) => SubmitFiles(c, r, admission, io, id);
    case GetStep(o, audit, io) => QueryFiles(c, o, audit, io);
    case CancelStep(o, io) => if !(o in c.registry && IsActive(c.registry[o].value)) { QueryFiles(c, o, false, io); }
    case WorkStep(o, a, io) => WorkIsLocal(c, o, a, io);
    case _ =>
  }

  lemma LiveFileFollows(c: Core, s: Step, id: Id)
    requires CoreInv(c) && !s.Restart? && !s.PowerLoss?
    ensures var c' := Next(c, s);
            && (id in c'.disk.visible ==> FileFollows(c, c', c'.disk.visible[id].record, id))
            && (id in c'.disk.synced ==> FileFollows(c, c', c'.disk.synced[id].record, id))
  {
    var c' := Next(c, s);
    assert DiskEffect(c.disk, c'.disk, id, c'.registry) by { StepEffect(c, s, id); }
    if id !in c.disk.visible && id in c'.disk.visible { NewFilesAreClaims(c, s, id); }
  }

  lemma FileFollowsStep(c: Core, s: Step, id: Id)
    requires CoreInv(c)
    ensures var c' := Next(c, s);
            && (id in c'.disk.visible ==> FileFollows(c, c', c'.disk.visible[id].record, id))
            && (id in c'.disk.synced ==> FileFollows(c, c', c'.disk.synced[id].record, id))
  {
    if !s.Restart? && !s.PowerLoss? { LiveFileFollows(c, s, id); }
  }

  lemma EntryStaysCaused(steps: seq<Step>, s: Step, id: Id)
    requires AllCaused(steps) && id in Run(steps + [s]).core.registry
    ensures EntryCaused(steps + [s], id, Run(steps + [s]).core.registry[id])
  {
    var c, all := Run(steps).core, steps + [s];
    RunInv(steps);
    RunAppend(steps, s);
    var e := Next(c, s).registry[id];
    StepFollows(c, s, id);
    assert all[..|steps|] == steps && all[|steps|] == s;
    if id in c.registry {
      var was := c.registry[id];
      assert EntryRules(id, was, c.now) && EntryCaused(steps, id, was);
      RecordStaysCaused(steps, s, was.value);
      LetInStays(steps, s, id, was.control.deadline, was.reservation);
      if was.control.stop == Some(ByCancel) { CancelStaysCaused(steps, s, id); }
    } else {
      assert LetInAt(all, |steps|, id, e.control.deadline, e.reservation);
    }
  }

  lemma FileStaysCaused(steps: seq<Step>, s: Step, r: Record, id: Id)
    requires AllCaused(steps) && FileFollows(Run(steps).core, Run(steps + [s]).core, r, id)
    requires id in Run(steps + [s]).core.registry ==>
               EntryCaused(steps + [s], id, Run(steps + [s]).core.registry[id])
    ensures RecordCaused(steps + [s], r)
  {
    var c := Run(steps).core;
    if id in c.disk.visible && c.disk.visible[id].record == r { RecordStaysCaused(steps, s, r); }
    if id in c.disk.synced && c.disk.synced[id].record == r { RecordStaysCaused(steps, s, r); }
  }

  lemma StepStaysCaused(steps: seq<Step>, s: Step)
    requires AllCaused(steps)
    ensures AllCaused(steps + [s])
  {
    RunInv(steps);
    RunAppend(steps, s);
    var c' := Run(steps + [s]).core;
    forall id <- c'.registry ensures EntryCaused(steps + [s], id, c'.registry[id]) {
      EntryStaysCaused(steps, s, id);
    }
    forall id <- c'.disk.visible ensures RecordCaused(steps + [s], c'.disk.visible[id].record) {
      FileFollowsStep(Run(steps).core, s, id);
      FileStaysCaused(steps, s, c'.disk.visible[id].record, id);
    }
    forall id <- c'.disk.synced ensures RecordCaused(steps + [s], c'.disk.synced[id].record) {
      FileFollowsStep(Run(steps).core, s, id);
      FileStaysCaused(steps, s, c'.disk.synced[id].record, id);
    }
  }

  lemma {:induction false} RunCaused(steps: seq<Step>)
    ensures AllCaused(steps)
  {
    if steps != [] {
      var last := |steps| - 1;
      RunCaused(steps[..last]);
      StepStaysCaused(steps[..last], steps[last]);
      assert steps[..last] + [steps[last]] == steps;
    }
  }

  /** Successes are earned and cancellations asked for. Over every run, crashes, lost
      publications and late panics included: a client is told an id succeeded only if
      an earlier step ended its work with a good result while no stop was recorded or
      due, and it is told exactly that result; it is told an id was cancelled only if
      an earlier cancel found it running before its deadline. */
  lemma OutcomesHaveCauses(steps: seq<Step>, k: nat)
    requires k < |Run(steps).trace|
    requires Final(Run(steps).trace[k]) && Run(steps).trace[k].response.Answer?
    ensures var e := Run(steps).trace[k];
            var r := e.response.record;
            && (r.phase.Succeeded? ==> r.requestId == e.id && Earned(steps, r))
            && (r.phase.Cancelled? ==> r.requestId == e.id && WasCancelled(steps, e.id))
  {
    RunWorldInv(steps);
    RunCaused(steps);
    assert Run(steps).trace[k] in Run(steps).trace;
  }

  /** And every execution in memory was let in by a submit of the run, is charged what
      that submit asked for, and has the deadline it asked for then, to this day. */
  lemma EntriesKeepTheirTerms(steps: seq<Step>, id: Id)
    requires id in Run(steps).core.registry
    ensures var e := Run(steps).core.registry[id]; WasLetIn(steps, id, e.control.deadline, e.reservation)
  {
    RunCaused(steps);
    assert EntryCaused(steps, id, Run(steps).core.registry[id]);
  }

  lemma FinishIsOnTime(steps: seq<Step>, i: nat, r: Record) returns (j: nat)
    requires i < |steps| && Finishes(Run(steps[..i]).core, steps[i], r)
    ensures j < i && steps[j].SubmitStep? && steps[j].request.id == r.requestId
    ensures Run(steps[..i]).core.now < Run(steps[..j]).core.now + steps[j].request.timeout
  {
    var e := Run(steps[..i]).core.registry[steps[i].id];
    EntriesKeepTheirTerms(steps[..i], steps[i].id);
    j :| 0 <= j < |steps[..i]| && LetInAt(steps[..i], j, steps[i].id, e.control.deadline, e.reservation);
    assert steps[..i][..j] == steps[..j];
  }

  /** Both together: a success a client is told was finished by its worker within the
      time its own submit asked for, counted from that submit. */
  lemma SuccessesAreOnTime(steps: seq<Step>, k: nat) returns (j: nat, i: nat)
    requires k < |Run(steps).trace|
    requires Final(Run(steps).trace[k]) && Run(steps).trace[k].response.Answer?
    requires Run(steps).trace[k].response.record.phase.Succeeded?
    ensures j < i < |steps| && steps[j].SubmitStep? && steps[i].WorkStep? && steps[i].action.FinishWork?
    ensures steps[j].request.id == steps[i].id == Run(steps).trace[k].id && steps[i].action.guest
    ensures Run(steps[..i]).core.now < Run(steps[..j]).core.now + steps[j].request.timeout
  {
    OutcomesHaveCauses(steps, k);
    var r := Run(steps).trace[k].response.record;
    i :| 0 <= i < |steps| && Finishes(Run(steps[..i]).core, steps[i], r);
    j := FinishIsOnTime(steps, i, r);
  }
}
