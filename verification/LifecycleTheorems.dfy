/** What holds of every run of the dispatcher: a request starts at most once, an
    acknowledged result never changes, a recorded stop wins every race. */
module LifecycleTheorems {
  import opened Common
  import opened Journal
  import opened Lifecycle
  import opened LifecycleInvariant
  import Audit

  // ------------------------------------------------------------------- history

  /** Every start is backed by a durable claim on the very bytes that started,
      and no claim of a started id is still waiting to start. */
  ghost predicate StartsBacked(w: World) {
    forall e <- w.trace :: e.Started? ==>
      && e.id in w.core.disk.synced
      && w.core.disk.synced[e.id].requestHash == HashOf(e.body)
      && (e.id in w.core.workers ==> !w.core.workers[e.id].AtClaim?)
  }

  ghost predicate StartsUnique(trace: seq<Event>) {
    forall i, j :: 0 <= i < j < |trace| && trace[i].Started? && trace[j].Started? ==>
      trace[i].id != trace[j].id
  }

  /** The answer hands out the outcome of a finished execution. */
  predicate Final(e: Event) {
    e.Answered? &&
    ((e.response.Answer? && !IsActive(e.response.record)) || (e.response.AuditAnswer? && e.final))
  }

  /** The answer is what the journal durably holds. */
  ghost predicate Backed(e: Event, d: Disk)
    requires e.Answered?
  {
    && e.id in d.synced && !IsActive(d.synced[e.id].record)
    && (e.response.Answer? ==> d.synced[e.id].record == e.response.record)
    && (e.response.AuditAnswer? ==> d.synced[e.id].audit == e.response.audit)
  }

  ghost predicate AnswersBacked(w: World) {
    forall e <- w.trace :: e.Answered? && Final(e) ==> Backed(e, w.core.disk)
  }

  ghost predicate WorldInv(w: World) {
    && CoreInv(w.core)
    && StartsBacked(w)
    && StartsUnique(w.trace)
    && AnswersBacked(w)
  }

  // -------------------------------------------------------- effects of a step

  /** What a step inside one process life can do to the file of one id: it may
      turn a claim into the record of that id's own finished entry. */
  ghost predicate DiskEffect(d: Disk, d': Disk, id: Id, registry: map<Id, Entry>) {
    && (id in d.visible ==> id in d'.visible)
    && (id in d.visible && d'.visible[id] != d.visible[id] ==>
          && IsActive(d.visible[id].record)
          && id in registry && !IsActive(registry[id].value)
          && d'.visible[id].record == registry[id].value
          && d'.visible[id].audit == Doc(registry[id].audit))
    && (id in d'.synced ==>
          || (id in d.synced && d'.synced[id] == d.synced[id])
          || (id in d.visible && d'.synced[id] == d.visible[id])
          || (id in d'.visible && d'.synced[id] == d'.visible[id]))
  }

  /** And to its entry and thread: new ones only for ids without a file, and a
      recorded stop stays what it was. */
  ghost predicate ThreadEffect(c: Core, c': Core, id: Id) {
    && (id in c'.registry ==>
          || id !in c.disk.visible
          || (id in c.registry
              && c'.registry[id].reservation == c.registry[id].reservation
              && (c.registry[id].control.stop.Some? ==>
                    c'.registry[id].control.stop == c.registry[id].control.stop)))
    && (id in c'.workers ==> id in c.workers || id !in c.disk.visible)
    && (id in c'.workers && c'.workers[id].AtClaim? ==>
          (id in c.workers && c.workers[id].AtClaim?) || id !in c.disk.visible)
  }

  ghost predicate Effect(c: Core, c': Core, id: Id) {
    && DiskEffect(c.disk, c'.disk, id, c'.registry)
    && (id in c.disk.visible && id !in c.registry ==> c'.disk.visible[id] == c.disk.visible[id])
    && ThreadEffect(c, c', id)
  }

  lemma CompleteEffect(d: Disk, d1: Disk, e: Entry, io: CompleteIo, id: Id, registry: map<Id, Entry>)
    requires DiskInv(d) && (d1 == d || d1 == Synced(d)) && !IsActive(e.value)
    requires e.value.requestId in registry && registry[e.value.requestId] == e
    ensures DiskEffect(d, Complete(d1, e.value, e.audit, io).0, id, registry)
  {
    var o := e.value.requestId;
    var d2 := Read(d1, o, io.read).0;
    var d' := Complete(d1, e.value, e.audit, io).0;
    assert d2 == d || d2 == Synced(d);
    if d'.visible == d.visible {
      assert d'.synced == d.synced || d'.synced == d.visible;
    } else {
      var s := Snapshot(1, d.visible[o].requestHash, e.value, Doc(e.audit));
      assert o in d.visible && IsActive(d.visible[o].record) && d'.visible == d.visible[o := s];
      assert d'.synced == d.visible || d'.synced == d'.visible;
    }
  }

  lemma PersistedEffect(c: Core, c1: Core, o: Id, io: CompleteIo, id: Id)
    requires CoreInv(c) && o in c.registry && o in c1.registry
    requires EntryRules(o, c1.registry[o], c1.now)
    requires ThreadEffect(c, c1, id)
    requires c1.disk == c.disk || c1.disk == Synced(c.disk)
    ensures Effect(c, c1.(disk := Persisted(c1.disk, c1.registry[o], io).0), id)
  {
    var e := c1.registry[o];
    if !IsActive(e.value) {
      CompleteEffect(c.disk, c1.disk, e, io, id, c1.registry);
      CompleteSpec(c1.disk, e.value, e.audit, io);
    }
  }

  lemma QueryEffect(c: Core, o: Id, audit: bool, io: QueryIo, id: Id)
    requires CoreInv(c)
    ensures Effect(c, Get(c, o, audit, io).0, id)
  {
    if o in c.registry {
      PersistedEffect(c, c, o, io.reply, id);
    } else {
      ReadKeeps(c.disk, o, io.archived);
    }
  }

  lemma ClaimEffect(d: Disk, d1: Disk, r: Request, e: Entry, prepare: PrepareIo, publish: PublishIo,
                    id: Id, registry: map<Id, Entry>)
    requires DiskInv(d) && (d1 == d || d1 == Synced(d)) && r.id !in d.visible && e.value.requestId == r.id
    ensures var d' := Claim(d1, HashOf(r.body), e.value, e.audit, CAPACITY, prepare, publish).0;
            && DiskEffect(d, d', id, registry)
            && (id in d.visible ==> d'.visible[id] == d.visible[id])
  {
    var s := Snapshot(1, HashOf(r.body), e.value, Doc(e.audit));
    var d' := Claim(d1, HashOf(r.body), e.value, e.audit, CAPACITY, prepare, publish).0;
    assert d'.visible == d.visible || d'.visible == d.visible[r.id := s];
    assert d'.synced == d.synced || d'.synced == d.visible || d'.synced == d'.visible;
  }

  lemma FreshEffect(c: Core, r: Request, admission: Admission, io: SubmitIo, id: Id)
    requires CoreInv(c) && r.id !in c.disk.visible && io.read != OpenFails
    ensures Effect(c, Submit(c, r, admission, io).0, id)
  {
    assert r.id in c.registry ==> Claimed(r.id, c.registry[r.id], c.disk);
    var c2 := Evicted(c, io.evict);
    var e := NewEntry(c, r);
    assert c.(disk := c.disk) == c;
    ClaimEffect(c.disk, c2.disk, r, e, io.prepare, io.publish, id, Submit(c, r, admission, io).0.registry);
  }

  lemma KnownEffect(c: Core, c1: Core, r: Request, s: Snapshot, io: CompleteIo, id: Id)
    requires CoreInv(c) && c1 == c.(disk := Synced(c.disk))
    ensures Effect(c, SubmitKnown(c1, r, s, io).0, id)
  {
    if r.id in c.registry {
      PersistedEffect(c, c1, r.id, io, id);
    }
  }

  lemma SubmitEffect(c: Core, r: Request, admission: Admission, io: SubmitIo, id: Id)
    requires CoreInv(c)
    ensures Effect(c, Submit(c, r, admission, io).0, id)
  {
    var (d, found) := Read(c.disk, r.id, io.read);
    match found
    case Absent => FreshEffect(c, r, admission, io, id);
    case Present(s) => KnownEffect(c, c.(disk := d), r, s, io.reply, id);
    case Unavailable => assert c.(disk := d) == c;
  }

  lemma UpdateEffect(c: Core, o: Id, next: Option<Stage>, change: Change, io: CompleteIo, id: Id)
    requires CoreInv(c) && o in c.workers && PublishRules(c, o, next, change)
    ensures Effect(c, Update(Moved(c, o, next), o, change, io), id)
  {
    if o in c.registry {
      var e := UpdatedEntry(c.registry[o], change, c.now, c.wall);
      UpdatedEntryRules(o, c.registry[o], change, c.now, c.wall);
      PersistedEffect(c, Moved(c, o, next).(registry := c.registry[o := e]), o, io, id);
    }
  }

  lemma MovedEffect(c: Core, o: Id, next: Option<Stage>, id: Id)
    requires CoreInv(c) && o in c.workers && PlanRules(c, o, Moves(next))
    ensures Effect(c, Moved(c, o, next), id)
  {
  }

  lemma RecordEffect(c: Core, o: Id, log: AuditLog, id: Id)
    requires CoreInv(c) && o in c.workers && PlanRules(c, o, Records(log))
    ensures Effect(c, Moved(c.(registry := c.registry[o := c.registry[o].(audit := log)]), o, Some(AtExecuted)), id)
  {
  }

  lemma WorkEffect(c: Core, o: Id, a: Action, io: CompleteIo, id: Id)
    requires CoreInv(c)
    ensures Effect(c, Work(c, o, a, io), id)
  {
    if o in c.workers {
      PlansFollowRules(c, o, a);
      match Planned(c, o, a)
      case Stay =>
      case Polls =>
      case Moves(next) => MovedEffect(c, o, next, id);
      case Publishes(next, change) => UpdateEffect(c, o, next, change, io, id);
      case Records(log) => RecordEffect(c, o, log, id);
    }
  }

  lemma StepEffect(c: Core, s: Step, id: Id)
    requires CoreInv(c) && !s.Restart? && !s.PowerLoss?
    ensures Effect(c, Next(c, s), id)
  {
    match s
    case SubmitStep(r, admission, io) => SubmitEffect(c, r, admission, io, id);
    case GetStep(o, audit, io) => QueryEffect(c, o, audit, io, id);
    case CancelStep(o, io) => QueryEffect(c, o, false, io, id);
    case WorkStep(o, a, io) => WorkEffect(c, o, a, io, id);
    case _ =>
  }

  // ------------------------------------------------------- one step of history

  lemma GetBacked(c: Core, id: Id, audit: bool, io: QueryIo, final: bool)
    requires CoreInv(c)
    requires final ==> (id in c.registry ==> !IsActive(c.registry[id].value))
    ensures var (c', r) := Get(c, id, audit, io);
            Final(Answered(id, r, final)) ==> Backed(Answered(id, r, final), c'.disk)
  {
    if id in c.registry {
      PersistedKeeps(c, id, io.reply);
    } else {
      ReadKeeps(c.disk, id, io.archived);
    }
  }

  lemma KnownBacked(c: Core, r: Request, s: Snapshot, io: CompleteIo)
    requires CoreInv(c) && r.id in c.disk.synced && c.disk.synced[r.id] == s
    ensures var (c', a) := SubmitKnown(c, r, s, io);
            Final(Answered(r.id, a, false)) ==> Backed(Answered(r.id, a, false), c'.disk)
  {
    if r.id in c.registry {
      PersistedKeeps(c, r.id, io);
    }
  }

  lemma SubmitBacked(c: Core, r: Request, admission: Admission, io: SubmitIo)
    requires CoreInv(c)
    ensures var (c', a) := Submit(c, r, admission, io);
            Final(Answered(r.id, a, false)) ==> Backed(Answered(r.id, a, false), c'.disk)
  {
    var (d, found) := Read(c.disk, r.id, io.read);
    if found.Present? {
      ReadKeeps(c.disk, r.id, io.read);
      ReadMoves(c, r.id, io.read);
      KnownBacked(c.(disk := d), r, found.snapshot, io.reply);
    }
  }

  lemma WitnessBacked(c: Core, s: Step, e: Event)
    requires CoreInv(c) && e in Witness(c, s) && Final(e)
    ensures e.Answered? && Backed(e, Next(c, s).disk)
  {
    match s
    case SubmitStep(r, admission, io) => SubmitBacked(c, r, admission, io);
    case GetStep(id, audit, io) =>
      GetBacked(c, id, audit, io, id in c.registry ==> !IsActive(c.registry[id].value));
    case CancelStep(id, io) =>
      if !(id in c.registry && IsActive(c.registry[id].value)) { GetBacked(c, id, false, io, false); }
    case _ =>
  }

  lemma WitnessStarts(c: Core, s: Step, e: Event)
    requires CoreInv(c) && e in Witness(c, s) && e.Started?
    ensures e.id in c.workers && c.workers[e.id].AtClaim? && c.workers[e.id].body == e.body
    ensures e.id in c.disk.synced && c.disk.synced[e.id].requestHash == HashOf(e.body)
    ensures e.id in Next(c, s).workers ==> !Next(c, s).workers[e.id].AtClaim?
  {
    assert Threaded(c, e.id);
  }

  lemma BackedStays(e: Event, d: Disk, d': Disk)
    requires e.Answered? && Backed(e, d) && Extends(d, d')
    ensures Backed(e, d')
  {
  }

  /** The claim a recorded start was made under stays, and no thread of its id waits
      to start again. */
  lemma StartStays(w: World, s: Step, e: Event)
    requires WorldInv(w) && e in w.trace && e.Started?
    ensures var c' := Next(w.core, s);
            && e.id in c'.disk.synced && c'.disk.synced[e.id].requestHash == HashOf(e.body)
            && (e.id in c'.workers ==> !c'.workers[e.id].AtClaim?)
  {
    StepKeeps(w.core, s);
    assert s.Restart? || s.PowerLoss? || ThreadEffect(w.core, Next(w.core, s), e.id) by {
      if !s.Restart? && !s.PowerLoss? { StepEffect(w.core, s, e.id); }
    }
  }

  /** So does the claim of the start this step makes. */
  lemma NewStartBacked(c: Core, s: Step, e: Event)
    requires CoreInv(c) && e in Witness(c, s) && e.Started?
    ensures var c' := Next(c, s);
            && e.id in c'.disk.synced && c'.disk.synced[e.id].requestHash == HashOf(e.body)
            && (e.id in c'.workers ==> !c'.workers[e.id].AtClaim?)
  {
    WitnessStarts(c, s, e);
    assert Extends(c.disk, Next(c, s).disk) by { StepKeeps(c, s); }
  }

  lemma BackedStartsStay(w: World, s: Step)
    requires WorldInv(w)
    ensures StartsBacked(Stepped(w, s))
  {
    var w' := Stepped(w, s);
    forall e | e in w'.trace && e.Started?
      ensures && e.id in w'.core.disk.synced
              && w'.core.disk.synced[e.id].requestHash == HashOf(e.body)
              && (e.id in w'.core.workers ==> !w'.core.workers[e.id].AtClaim?)
    {
      if e in w.trace { StartStays(w, s, e); } else { NewStartBacked(w.core, s, e); }
    }
  }

  /** A step starts at most one id, and none that has a start behind it. */
  lemma NewStartIsFirst(w: World, s: Step, e: Event)
    requires WorldInv(w) && e in Witness(w.core, s) && e.Started?
    ensures forall earlier <- w.trace :: earlier.Started? ==> earlier.id != e.id
  {
    WitnessStarts(w.core, s, e);
  }

  lemma UniqueStartsStay(w: World, s: Step)
    requires WorldInv(w)
    ensures StartsUnique(Stepped(w, s).trace)
  {
    var t, n := Stepped(w, s).trace, |w.trace|;
    forall i, j | 0 <= i < j < |t| && t[i].Started? && t[j].Started? ensures t[i].id != t[j].id {
      if j >= n {
        assert t[j] == Witness(w.core, s)[j - n];
        NewStartIsFirst(w, s, t[j]);
        assert i < n ==> t[i] == w.trace[i];
      }
    }
  }

  lemma StartsStay(w: World, s: Step)
    requires WorldInv(w)
    ensures StartsBacked(Stepped(w, s)) && StartsUnique(Stepped(w, s).trace)
  {
    BackedStartsStay(w, s);
    UniqueStartsStay(w, s);
  }

  lemma AnswersStay(w: World, s: Step)
    requires WorldInv(w)
    ensures AnswersBacked(Stepped(w, s))
  {
    var w' := Stepped(w, s);
    StepKeeps(w.core, s);
    forall e | e in w'.trace && e.Answered? && Final(e) ensures Backed(e, w'.core.disk) {
      if e in w.trace {
        BackedStays(e, w.core.disk, w'.core.disk);
      } else {
        WitnessBacked(w.core, s, e);
      }
    }
  }

  lemma {:induction false} RunWorldInv(steps: seq<Step>)
    ensures WorldInv(Run(steps))
  {
    RunInv(steps);
    if steps == [] {
    } else {
      var before := steps[..|steps| - 1];
      RunWorldInv(before);
      StartsStay(Run(before), steps[|steps| - 1]);
      AnswersStay(Run(before), steps[|steps| - 1]);
    }
  }

  // ------------------------------------------------------------- main theorems

  /** At most once. Over every run of submits, worker moves, evictions, failed
      syncs, crashes and restarts: no id starts twice, and whatever started did so
      under a durable claim on exactly its own bytes. */
  lemma AtMostOnce(steps: seq<Step>)
    ensures var w := Run(steps);
            && StartsUnique(w.trace)
            && forall e <- w.trace :: e.Started? ==>
                 && e.id in w.core.disk.synced
                 && w.core.disk.synced[e.id].requestHash == HashOf(e.body)
  {
    RunWorldInv(steps);
  }

  /** The claim is on the synced layer before the step that starts the worker. */
  lemma ClaimPrecedesStart(steps: seq<Step>, s: Step, e: Event)
    requires e in Witness(Run(steps).core, s) && e.Started?
    ensures e.id in Run(steps).core.disk.synced
    ensures Run(steps).core.disk.synced[e.id].requestHash == HashOf(e.body)
    ensures forall earlier <- Run(steps).trace :: earlier.Started? ==> earlier.id != e.id
  {
    RunWorldInv(steps);
    WitnessStarts(Run(steps).core, s, e);
  }

  /** Acknowledged results never change: any two final answers for an id, however
      many crashes apart, agree. */
  lemma AcknowledgedResultsNeverChange(steps: seq<Step>, i: nat, j: nat)
    requires i < |Run(steps).trace| && j < |Run(steps).trace|
    requires var a, b := Run(steps).trace[i], Run(steps).trace[j];
             Final(a) && Final(b) && a.id == b.id
    ensures var a, b := Run(steps).trace[i], Run(steps).trace[j];
            && (a.response.Answer? && b.response.Answer? ==> a.response.record == b.response.record)
            && (a.response.AuditAnswer? && b.response.AuditAnswer? ==> a.response.audit == b.response.audit)
  {
    RunWorldInv(steps);
    var t := Run(steps).trace;
    assert t[i] in t && t[j] in t;
  }

  // ---------------------------------------------------------------------- stops

  /** A finished file says what the stop says, in its record and in its audit. */
  ghost predicate Stopped(s: Snapshot, stop: StopCause) {
    !IsActive(s.record) ==>
      && s.record.phase == Shown(StopVerdict(stop))
      && (s.audit.receipt.Some? ==> s.audit.receipt.value.verdict == StopVerdict(stop))
  }

  /** `id` can only ever end the way its recorded stop says. */
  ghost predicate Doomed(c: Core, id: Id, stop: StopCause) {
    && id in c.disk.synced && id in c.disk.visible
    && Stopped(c.disk.visible[id], stop)
    && Stopped(c.disk.synced[id], stop)
    && (id in c.registry ==> c.registry[id].control.stop == Some(stop))
  }

  lemma RecordedStopDooms(c: Core, id: Id)
    requires CoreInv(c) && id in c.registry && IsActive(c.registry[id].value)
    requires c.registry[id].control.stop.Some?
    ensures Doomed(c, id, c.registry[id].control.stop.value)
  {
    assert Claimed(id, c.registry[id], c.disk);
  }

  lemma DoomedSurvives(c: Core, d: Disk, id: Id, stop: StopCause)
    requires CoreInv(c) && Doomed(c, id, stop)
    requires d == Synced(c.disk) || (d.visible == d.synced && Survives(c.disk, d.visible))
    ensures Doomed(Idle(c, d), id, stop)
  {
  }

  lemma DoomedByEffect(c: Core, c': Core, id: Id, stop: StopCause)
    requires Doomed(c, id, stop) && Effect(c, c', id) && Extends(c.disk, c'.disk)
    requires id in c'.registry ==> EntryRules(id, c'.registry[id], c'.now)
    ensures Doomed(c', id, stop)
  {
  }

  /** A recorded stop is kept by every later step, restarts included. */
  lemma DoomedStays(c: Core, s: Step, id: Id, stop: StopCause)
    requires CoreInv(c) && Doomed(c, id, stop)
    ensures Doomed(Next(c, s), id, stop)
  {
    match s
    case Restart => DoomedSurvives(c, Synced(c.disk), id, stop);
    case PowerLoss(left) => if Survives(c.disk, left) { DoomedSurvives(c, Disk(left, left), id, stop); }
    case _ =>
      var c' := Next(c, s);
      assert CoreInv(c') && Extends(c.disk, c'.disk) by { StepKeeps(c, s); }
      assert Effect(c, c', id) by { StepEffect(c, s, id); }
      DoomedByEffect(c, c', id, stop);
  }

  lemma RunAppend(steps: seq<Step>, s: Step)
    ensures Run(steps + [s]) == Stepped(Run(steps), s)
  {
    assert (steps + [s])[..|steps|] == steps;
  }

  lemma SplitsAtLast(steps: seq<Step>, more: seq<Step>)
    requires more != []
    ensures steps + more == (steps + more[..|more| - 1]) + [more[|more| - 1]]
  {
  }

  lemma DoomedOneMore(steps: seq<Step>, s: Step, id: Id, stop: StopCause)
    requires Doomed(Run(steps).core, id, stop)
    ensures Doomed(Run(steps + [s]).core, id, stop) && Run(steps).trace <= Run(steps + [s]).trace
  {
    RunAppend(steps, s);
    RunInv(steps);
    DoomedStays(Run(steps).core, s, id, stop);
  }

  lemma {:induction false} DoomedRun(steps: seq<Step>, more: seq<Step>, id: Id, stop: StopCause)
    requires Doomed(Run(steps).core, id, stop)
    ensures Doomed(Run(steps + more).core, id, stop)
    ensures Run(steps).trace <= Run(steps + more).trace
  {
    if more == [] {
      assert steps + more == steps;
    } else {
      var last := |more| - 1;
      DoomedRun(steps, more[..last], id, stop);
      DoomedOneMore(steps + more[..last], more[last], id, stop);
      SplitsAtLast(steps, more);
    }
  }

  /** Stop wins every race. Once a cancel or a deadline is recorded on an active
      execution, then for the rest of the run, crashes and restarts included: the
      stop is never relabelled, an execution still active after a cancel shows
      only `Cancelling`, its record on disk is either still the claim or carries
      the stop's verdict, and so does every final answer for it, record or audit. */
  lemma StopWinsEveryRace(steps: seq<Step>, more: seq<Step>, id: Id)
    requires var c := Run(steps).core;
             id in c.registry && IsActive(c.registry[id].value) && c.registry[id].control.stop.Some?
    ensures var stop := Run(steps).core.registry[id].control.stop.value;
            var w := Run(steps + more);
            && (id in w.core.registry ==>
                  && w.core.registry[id].control.stop == Some(stop)
                  && (!IsActive(w.core.registry[id].value) ==>
                        w.core.registry[id].value.phase == Shown(StopVerdict(stop)))
                  && (IsActive(w.core.registry[id].value) && stop.ByCancel? ==>
                        w.core.registry[id].value.phase == Cancelling))
            && id in w.core.disk.visible
            && Stopped(w.core.disk.visible[id], stop)
            && (forall e <- w.trace :: Final(e) && e.id == id && e.response.Answer? ==>
                  e.response.record.phase == Shown(StopVerdict(stop)))
            && (forall e <- w.trace :: Final(e) && e.id == id && e.response.AuditAnswer? ==>
                  (e.response.audit.receipt.Some? ==> e.response.audit.receipt.value.verdict == StopVerdict(stop)))
  {
    RunInv(steps);
    RunWorldInv(steps + more);
    var stop := Run(steps).core.registry[id].control.stop.value;
    RecordedStopDooms(Run(steps).core, id);
    DoomedRun(steps, more, id, stop);
    var w := Run(steps + more);
    assert id in w.core.registry ==> EntryRules(id, w.core.registry[id], w.core.now);
  }

  /** A deadline needs no one to poll it: an outcome that arrives at or after it
      is recorded as a failure, whatever the guest reported, receipt included. */
  lemma LateOutcomeFails(e: Entry, c: Change, now: nat, wall: string)
    requires !c.Enter? && e.control.stop.None? && now >= e.control.deadline
    ensures var e' := UpdatedEntry(e, c, now, wall);
            && e'.value.phase == Failed && e'.value.reason == Some("execution deadline exceeded")
            && (e'.value.receipt.Some? ==> e'.value.receipt.value.verdict == Failure)
  {
  }

  /** The phase a client was told (`Cancelling`) outlives the worker's next phase
      exactly when the cancel came before the deadline was reached. */
  lemma CancellingHoldsIffCancelWasFirst(e: Entry, now: nat, later: nat, p: Phase, w0: string, w1: string)
    requires IsActive(e.value) && IsActive(e.value.(phase := p)) && p != Cancelling && now <= later
    ensures CancelledEntry(e, now, w0).value.phase == Cancelling
    ensures UpdatedEntry(CancelledEntry(e, now, w0), Enter(p), later, w1).value.phase == Cancelling
            <==> e.control.stop == Some(ByCancel) || (e.control.stop.None? && now < e.control.deadline)
  {
  }

  // ---------------------------------------------------------------- reservations

  /** An execution stays charged, for the same reservation, until its own worker
      publishes an outcome or the process ends. */
  lemma ChargedUntilOutcome(c: Core, s: Step, id: Id)
    requires CoreInv(c) && id in c.registry && IsActive(c.registry[id].value)
    ensures var c' := Next(c, s);
            || (id in c'.registry && IsActive(c'.registry[id].value)
                && c'.registry[id].reservation == c.registry[id].reservation)
            || (s.WorkStep? && s.id == id && id in c'.registry && !IsActive(c'.registry[id].value))
            || s.Restart? || s.PowerLoss?
  {
    assert Threaded(c, id) && Claimed(id, c.registry[id], c.disk);
    if !s.Restart? && !s.PowerLoss? {
      StepEffect(c, s, id);
      StepKeeps(c, s);
      RegistryKeepsActive(c, s, id);
    }
  }

  lemma FreshKeepsActive(c: Core, r: Request, admission: Admission, io: SubmitIo, id: Id)
    requires id in c.registry && IsActive(c.registry[id].value) && id != r.id
    ensures var c' := SubmitFresh(c, r, admission, io).0; id in c'.registry && IsActive(c'.registry[id].value)
  {
    assert id in Evicted(c, io.evict).registry;
  }

  lemma SubmitKeepsActive(c: Core, r: Request, admission: Admission, io: SubmitIo, id: Id)
    requires CoreInv(c) && id in c.registry && IsActive(c.registry[id].value)
    ensures var c' := Submit(c, r, admission, io).0; id in c'.registry && IsActive(c'.registry[id].value)
  {
    var (d, found) := Read(c.disk, r.id, io.read);
    if found.Absent? && r.id !in c.registry {
      FreshKeepsActive(c.(disk := d), r, admission, io, id);
    }
  }

  lemma RegistryKeepsActive(c: Core, s: Step, id: Id)
    requires CoreInv(c) && id in c.registry && IsActive(c.registry[id].value)
    requires !s.Restart? && !s.PowerLoss?
    ensures id in Next(c, s).registry
    ensures !(s.WorkStep? && s.id == id) ==> IsActive(Next(c, s).registry[id].value)
  {
    if s.SubmitStep? {
      SubmitKeepsActive(c, s.request, s.admission, s.sio, id);
    }
  }

  // ----------------------------------------------------------- interrupted claims

  /** A durable claim no thread of this process owns. */
  ghost predicate Orphan(c: Core, id: Id) {
    && id in c.disk.synced && id in c.disk.visible
    && c.disk.visible[id] == c.disk.synced[id]
    && IsActive(c.disk.synced[id].record)
    && id !in c.registry && id !in c.workers
  }

  lemma OrphanStays(c: Core, s: Step, id: Id)
    requires CoreInv(c) && Orphan(c, id)
    ensures Orphan(Next(c, s), id) && Next(c, s).disk.synced[id] == c.disk.synced[id]
  {
    if !s.Restart? && !s.PowerLoss? {
      StepKeeps(c, s);
      StepEffect(c, s, id);
    }
  }

  /** An interrupted claim is never completed, replayed or forgotten: it stays
      interrupted through every later step. */
  lemma InterruptedForever(c: Core, s: Step, id: Id)
    requires CoreInv(c) && Orphan(c, id)
    ensures Orphan(Next(c, s), id) && Next(c, s).disk.synced[id] == c.disk.synced[id]
    ensures forall e <- Witness(c, s) :: e.id == id ==> !e.Started? && !Final(e)
  {
    OrphanStays(c, s, id);
    forall e <- Witness(c, s) | e.id == id ensures !e.Started? && !Final(e) {
      if Final(e) { WitnessBacked(c, s, e); }
      else if e.Started? { WitnessStarts(c, s, e); }
    }
  }

  /** The answers after a restart, for every id and body: the durable result, a
      refusal to replay, a conflict, an unreadable file, or, for an id no file
      exists for, unknown to a query and new to a submit. */
  lemma AnswersAfterRestart(c: Core, r: Request, admission: Admission, io: SubmitIo)
    requires CoreInv(c) && io.read.ReadWorks?
    ensures var c' := Next(c, Restart);
            var asked := Get(c', r.id, false, QUIET_QUERY).1;
            var posted := Submit(c', r, admission, io).1;
            if r.id !in c.disk.visible then
              && asked == UnknownExecution
              && posted == (match admission
                            case Full => AtCapacity
                            case Unfit => Ineligible
                            case Admitted =>
                              if io.prepare.PrepareWorks? && io.publish.PublishWorks? && |c.disk.visible| < CAPACITY
                              then Launching else ClaimUnavailable)
            else if !Readable(c.disk.visible[r.id], r.id) then
              asked == posted == JournalUnavailable
            else
              var s := c.disk.visible[r.id];
              && asked == (if IsActive(s.record) then Interrupted else Answer(s.record))
              && posted == (if s.requestHash != HashOf(r.body) then Conflict else asked)
  {
    if r.id !in c.disk.visible {
      var c' := Next(c, Restart);
      assert Evicted(c', io.evict) == c';
    }
  }

  // ----------------------------------------------------------------------- audits

  /** In every run, over any mixture of phases, polls and delayed cell reports, the
      events of every audit in memory are sorted by observation, numbered from 0
      and at most 32. */
  lemma AuditsStayOrdered(steps: seq<Step>, id: Id)
    requires id in Run(steps).core.registry
    ensures var c := Run(steps).core; Audit.Ordered(c.registry[id].audit.events, c.now)
  {
    RunInv(steps);
    assert EntryRules(id, Run(steps).core.registry[id], Run(steps).core.now);
  }
}
