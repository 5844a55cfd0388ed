/** The invariant of every reachable dispatcher state, and why each step keeps it. */
module LifecycleInvariant {
  import opened Common
  import opened Journal
  import opened Lifecycle
  import Audit

  // --------------------------------------------------------------- statements

  /** A recorded stop decides the record: a terminal one carries the stop's own
      verdict, an active one that was cancelled says `Cancelling`. */
  ghost predicate StopRules(e: Entry) {
    e.control.stop.Some? ==>
      var stop := e.control.stop.value;
      && (!IsActive(e.value) ==>
            && e.value.phase == Shown(StopVerdict(stop))
            && e.value.reason == Some(StopText(stop))
            && (e.value.receipt.Some? ==> e.value.receipt.value.verdict == StopVerdict(stop)))
      && (IsActive(e.value) && stop.ByCancel? ==> e.value.phase == Cancelling)
  }

  ghost predicate EntryRules(id: Id, e: Entry, now: nat) {
    && e.value.requestId == id
    && (e.value.receipt.Some? ==> e.value.receipt.value.requestId == id)
    && (IsActive(e.value) ==> e.value.receipt.None?)
    && e.audit.receipt == e.value.receipt
    && Audit.Ordered(e.audit.events, now)
    && StopRules(e)
  }

  /** What the disk owes an entry: its claim is durable, and no terminal record
      is on disk while the entry is active. */
  ghost predicate Claimed(id: Id, e: Entry, d: Disk) {
    && id in d.synced && id in d.visible
    && (IsActive(e.value) ==> IsActive(d.visible[id].record))
  }

  /** Exactly the active entries have a thread that still owes an outcome. */
  ghost predicate Threaded(c: Core, id: Id) {
    && (id in c.workers && !c.workers[id].AtDone? ==> id in c.registry && IsActive(c.registry[id].value))
    && (id in c.workers && c.workers[id].AtDone? && id in c.registry ==> !IsActive(c.registry[id].value))
    && (id in c.registry && IsActive(c.registry[id].value) ==> id in c.workers)
    && (id in c.workers && c.workers[id].AtClaim? ==>
          id in c.disk.synced && c.disk.synced[id].requestHash == HashOf(c.workers[id].body))
  }

  ghost predicate CoreInv(c: Core) {
    && DiskInv(c.disk)
    && (forall id <- c.registry :: EntryRules(id, c.registry[id], c.now))
    && (forall id <- c.registry :: Claimed(id, c.registry[id], c.disk))
    && (forall id :: Threaded(c, id))
  }

  // ------------------------------------------------------------- entry changes

  lemma UpdatedEntryRules(id: Id, e: Entry, c: Change, now: nat, wall: string)
    requires EntryRules(id, e, now)
    requires c.Enter? ==> IsActive(e.value) && IsActive(Changed(e.value, c))
    ensures EntryRules(id, UpdatedEntry(e, c, now, wall), now)
    ensures IsActive(UpdatedEntry(e, c, now, wall).value) <==> c.Enter?
  {
    var e' := UpdatedEntry(e, c, now, wall);
    Audit.NotedKeepsOrder(e.audit.events, PhaseText(e'.value.phase), wall, now, now);
  }

  lemma CancelledEntryRules(id: Id, e: Entry, now: nat, wall: string)
    requires EntryRules(id, e, now) && IsActive(e.value)
    ensures EntryRules(id, CancelledEntry(e, now, wall), now)
    ensures IsActive(CancelledEntry(e, now, wall).value)
  {
    Audit.NotedKeepsOrder(e.audit.events, PhaseText(Cancelling), wall, now, now);
  }

  lemma NewEntryRules(c: Core, r: Request)
    ensures EntryRules(r.id, NewEntry(c, r), c.now)
  {
    Audit.NotedKeepsOrder([], "Admitting", c.wall, c.now, c.now);
  }

  // ------------------------------------------------------------------- queries

  lemma DiskMoves(c: Core, d: Disk)
    requires CoreInv(c)
    requires DiskInv(d) && Extends(c.disk, d)
    requires forall id <- c.registry :: Claimed(id, c.registry[id], d)
    ensures CoreInv(c.(disk := d))
  {
    var c' := c.(disk := d);
    forall id ensures Threaded(c', id) {
      assert Threaded(c, id);
    }
  }

  lemma PersistedKeeps(c: Core, id: Id, io: CompleteIo)
    requires CoreInv(c) && id in c.registry
    ensures var (d', ok) := Persisted(c.disk, c.registry[id], io);
            && CoreInv(c.(disk := d')) && Extends(c.disk, d')
            && (ok && !IsActive(c.registry[id].value) ==>
                  && id in d'.synced
                  && d'.synced[id].record == c.registry[id].value
                  && d'.synced[id].audit == Doc(c.registry[id].audit))
  {
    var e := c.registry[id];
    if !IsActive(e.value) {
      CompleteSpec(c.disk, e.value, e.audit, io);
      var (d', ok) := Persisted(c.disk, e, io);
      forall o | o in c.registry ensures Claimed(o, c.registry[o], d') {
        assert Claimed(o, c.registry[o], c.disk);
      }
      DiskMoves(c, d');
    }
  }

  lemma ReadMoves(c: Core, id: Id, io: ReadIo)
    requires CoreInv(c)
    ensures CoreInv(c.(disk := Read(c.disk, id, io).0))
    ensures Extends(c.disk, Read(c.disk, id, io).0)
  {
    ReadKeeps(c.disk, id, io);
    DiskMoves(c, Read(c.disk, id, io).0);
  }

  lemma GetKeeps(c: Core, id: Id, audit: bool, io: QueryIo)
    requires CoreInv(c)
    ensures CoreInv(Get(c, id, audit, io).0)
    ensures Extends(c.disk, Get(c, id, audit, io).0.disk)
  {
    if id in c.registry {
      PersistedKeeps(c, id, io.reply);
    } else {
      ReadMoves(c, id, io.archived);
    }
  }

  lemma CancelKeeps(c: Core, id: Id, io: QueryIo)
    requires CoreInv(c)
    ensures CoreInv(Cancel(c, id, io).0)
    ensures Extends(c.disk, Cancel(c, id, io).0.disk)
  {
    if id in c.registry && IsActive(c.registry[id].value) {
      CancelledEntryRules(id, c.registry[id], c.now, c.wall);
      EntryMoves(c, id, CancelledEntry(c.registry[id], c.now, c.wall));
    } else {
      GetKeeps(c, id, false, io);
    }
  }

  /** Replacing an entry without changing whether it is active. */
  lemma EntryMoves(c: Core, id: Id, e: Entry)
    requires CoreInv(c) && id in c.registry
    requires EntryRules(id, e, c.now) && (IsActive(e.value) <==> IsActive(c.registry[id].value))
    ensures CoreInv(c.(registry := c.registry[id := e]))
  {
    var c' := c.(registry := c.registry[id := e]);
    forall o ensures Threaded(c', o) {
      assert Threaded(c, o);
    }
    assert Claimed(id, c.registry[id], c.disk);
  }

  // ------------------------------------------------------------------ eviction

  lemma EvictedKeeps(c: Core, rio: map<Id, ReadIo>)
    requires CoreInv(c)
    ensures CoreInv(Evicted(c, rio)) && Extends(c.disk, Evicted(c, rio).disk)
  {
    var c' := Evicted(c, rio);
    assert c'.disk.visible == c.disk.visible;
    forall id <- c'.registry ensures Claimed(id, c'.registry[id], c'.disk) {
      assert Claimed(id, c.registry[id], c.disk);
    }
    forall id ensures Threaded(c', id) {
      assert Threaded(c, id);
    }
  }

  // ----------------------------------------------------------------- admission

  /** A new entry over its durable claim, with its thread waiting to start. */
  lemma EntryJoins(c: Core, r: Request, e: Entry)
    requires CoreInv(c) && r.id !in c.registry && EntryRules(r.id, e, c.now) && IsActive(e.value)
    requires Claimed(r.id, e, c.disk) && c.disk.synced[r.id].requestHash == HashOf(r.body)
    ensures CoreInv(c.(registry := c.registry[r.id := e], workers := c.workers[r.id := AtClaim(r.body, r.forge)]))
  {
    var c' := c.(registry := c.registry[r.id := e], workers := c.workers[r.id := AtClaim(r.body, r.forge)]);
    forall o ensures Threaded(c', o) {
      assert Threaded(c, o);
    }
  }

  lemma EnrollKeeps(c: Core, r: Request, prepare: PrepareIo, publish: PublishIo)
    requires CoreInv(c) && r.id !in c.disk.visible && r.id !in c.registry
    ensures CoreInv(Enroll(c, r, prepare, publish).0)
    ensures Extends(c.disk, Enroll(c, r, prepare, publish).0.disk)
  {
    var e := NewEntry(c, r);
    NewEntryRules(c, r);
    ClaimSpec(c.disk, HashOf(r.body), e.value, e.audit, CAPACITY, prepare, publish);
    var (d', ok) := Claim(c.disk, HashOf(r.body), e.value, e.audit, CAPACITY, prepare, publish);
    forall o <- c.registry ensures Claimed(o, c.registry[o], d') {
      assert Claimed(o, c.registry[o], c.disk);
    }
    DiskMoves(c, d');
    if ok {
      EntryJoins(c.(disk := d'), r, e);
    }
  }

  lemma FreshKeeps(c: Core, r: Request, admission: Admission, io: SubmitIo)
    requires CoreInv(c) && r.id !in c.disk.visible && io.read != OpenFails
    ensures r.id !in c.registry
    ensures CoreInv(Submit(c, r, admission, io).0)
    ensures Extends(c.disk, Submit(c, r, admission, io).0.disk)
  {
    assert r.id in c.registry ==> Claimed(r.id, c.registry[r.id], c.disk);
    EvictedKeeps(c, io.evict);
    var c2 := Evicted(c, io.evict);
    EnrollKeeps(c2, r, io.prepare, io.publish);
    assert c.(disk := c.disk) == c;
  }

  lemma SubmitKeeps(c: Core, r: Request, admission: Admission, io: SubmitIo)
    requires CoreInv(c)
    ensures CoreInv(Submit(c, r, admission, io).0)
    ensures Extends(c.disk, Submit(c, r, admission, io).0.disk)
  {
    var (d, found) := Read(c.disk, r.id, io.read);
    if found.Absent? {
      FreshKeeps(c, r, admission, io);
    } else {
      ReadMoves(c, r.id, io.read);
      if found.Present? && r.id in c.registry {
        PersistedKeeps(c.(disk := d), r.id, io.reply);
      }
    }
  }

  // ------------------------------------------------------------------- workers

  lemma ThreadMoves(c: Core, id: Id, next: Option<Stage>, e: Entry)
    requires CoreInv(c) && id in c.registry && EntryRules(id, e, c.now)
    requires IsActive(e.value) ==> IsActive(c.registry[id].value) && next.Some? && Running(next.value)
    requires !IsActive(e.value) && next.Some? ==> next.value.AtDone?
    ensures CoreInv(Moved(c, id, next).(registry := c.registry[id := e]))
  {
    var c1 := Moved(c, id, next).(registry := c.registry[id := e]);
    assert Claimed(id, c.registry[id], c.disk);
    forall o ensures Threaded(c1, o) {
      assert Threaded(c, o);
    }
  }

  /** `update_execution` for the thread of `id`, which moves to stage `next`, or
      ends when there is none. */
  lemma UpdateKeeps(c: Core, id: Id, next: Option<Stage>, change: Change, io: CompleteIo)
    requires CoreInv(c) && id in c.workers && PublishRules(c, id, next, change)
    ensures CoreInv(Update(Moved(c, id, next), id, change, io))
    ensures Extends(c.disk, Update(Moved(c, id, next), id, change, io).disk)
  {
    if id in c.registry {
      var e := UpdatedEntry(c.registry[id], change, c.now, c.wall);
      UpdatedEntryRules(id, c.registry[id], change, c.now, c.wall);
      ThreadMoves(c, id, next, e);
      PersistedKeeps(Moved(c, id, next).(registry := c.registry[id := e]), id, io);
    } else {
      var c0 := Moved(c, id, next);
      forall o ensures Threaded(c0, o) {
        assert Threaded(c, o);
      }
    }
  }

  /** What the plans of a thread respect, whatever its stage: a phase is only
      entered by an active execution, an outcome ends the work, and a thread that
      is done can only exit or panic. */
  ghost predicate PlanRules(c: Core, id: Id, p: Plan)
    requires id in c.workers
  {
    match p
    case Stay => true
    case Moves(next) =>
      (next.Some? ==> !c.workers[id].AtDone? && Running(next.value)) && (next.None? ==> c.workers[id].AtDone?)
    case Polls => Running(c.workers[id])
    case Publishes(next, change) => PublishRules(c, id, next, change)
    case Records(log) =>
      && id in c.registry && IsActive(c.registry[id].value)
      && log.receipt == c.registry[id].audit.receipt
      && Audit.Ordered(log.events, c.now)
      && !c.workers[id].AtDone?
  }

  ghost predicate PublishRules(c: Core, id: Id, next: Option<Stage>, change: Change) {
    && (change.Enter? ==>
          && id in c.registry && IsActive(c.registry[id].value)
          && IsActive(Changed(c.registry[id].value, change))
          && next.Some? && Running(next.value))
    && (!change.Enter? && next.Some? ==> next.value.AtDone?)
  }

  lemma ExecuteFollowsRules(c: Core, id: Id, cell: seq<Audit.CellEvent>, execution: string)
    requires CoreInv(c) && id in c.workers
    ensures PlanRules(c, id, Planned(c, id, Execute(cell, execution)))
  {
    assert Threaded(c, id);
    if id in c.registry && forall e <- cell :: e.observed <= c.now {
      assert EntryRules(id, c.registry[id], c.now);
      Audit.MergedIsAStablePermutation(c.registry[id].audit.events, cell, c.now);
    }
  }

  lemma OtherPlansFollowRules(c: Core, id: Id, a: Action)
    requires id in c.workers && Threaded(c, id) && !a.Execute?
    ensures PlanRules(c, id, Planned(c, id, a))
    ensures c.workers[id].AtDone? && Planned(c, id, a).Publishes? ==> a.Panic?
  {
  }

  lemma PlansFollowRules(c: Core, id: Id, a: Action)
    requires CoreInv(c) && id in c.workers
    ensures PlanRules(c, id, Planned(c, id, a))
    ensures c.workers[id].AtDone? && Planned(c, id, a).Publishes? ==> a.Panic?
  {
    if a.Execute? {
      ExecuteFollowsRules(c, id, a.cell, a.execution);
    } else {
      OtherPlansFollowRules(c, id, a);
    }
  }

  lemma MovedKeeps(c: Core, id: Id, next: Option<Stage>)
    requires CoreInv(c) && id in c.workers && PlanRules(c, id, Moves(next))
    ensures CoreInv(Moved(c, id, next))
  {
    var c' := Moved(c, id, next);
    forall o ensures Threaded(c', o) {
      assert Threaded(c, o);
    }
  }

  lemma ObserveKeeps(c: Core, id: Id)
    requires CoreInv(c) && id in c.workers && Running(c.workers[id])
    ensures CoreInv(ObserveStop(c, id))
  {
    assert Threaded(c, id);
    var e := c.registry[id];
    EntryMoves(c, id, e.(control := Observed(e.control, c.now)));
  }

  lemma RecordKeeps(c: Core, id: Id, log: AuditLog)
    requires CoreInv(c) && id in c.workers && PlanRules(c, id, Records(log))
    ensures CoreInv(Moved(c.(registry := c.registry[id := c.registry[id].(audit := log)]), id, Some(AtExecuted)))
  {
    assert EntryRules(id, c.registry[id], c.now);
    var e := c.registry[id].(audit := log);
    EntryMoves(c, id, e);
    MovedKeeps(c.(registry := c.registry[id := e]), id, Some(AtExecuted));
  }

  lemma WorkKeeps(c: Core, id: Id, a: Action, io: CompleteIo)
    requires CoreInv(c)
    ensures CoreInv(Work(c, id, a, io)) && Extends(c.disk, Work(c, id, a, io).disk)
  {
    if id in c.workers {
      PlansFollowRules(c, id, a);
      match Planned(c, id, a)
      case Stay =>
      case Moves(next) => MovedKeeps(c, id, next);
      case Polls => ObserveKeeps(c, id);
      case Publishes(next, change) => UpdateKeeps(c, id, next, change, io);
      case Records(log) => RecordKeeps(c, id, log);
    }
  }

  // ---------------------------------------------------------------------- steps

  lemma IdleKeeps(c: Core, d: Disk)
    requires CoreInv(c) && DiskInv(d)
    ensures CoreInv(Idle(c, d))
  {
    forall id ensures Threaded(Idle(c, d), id) {}
  }

  lemma TickKeeps(c: Core, now: nat, wall: string)
    requires CoreInv(c) && c.now <= now
    ensures CoreInv(c.(now := now, wall := wall))
  {
    var c' := c.(now := now, wall := wall);
    forall id ensures Threaded(c', id) { assert Threaded(c, id); }
    forall id <- c'.registry ensures EntryRules(id, c'.registry[id], now) {
      assert EntryRules(id, c.registry[id], c.now);
    }
  }

  /** Every step of every interleaving keeps the invariant and only extends what
      is durable. */
  lemma StepKeeps(c: Core, s: Step)
    requires CoreInv(c)
    ensures CoreInv(Next(c, s)) && Extends(c.disk, Next(c, s).disk)
  {
    match s
    case Tick(now, wall) => if now >= c.now { TickKeeps(c, now, wall); }
    case SubmitStep(r, admission, io) => SubmitKeeps(c, r, admission, io);
    case GetStep(id, audit, io) => GetKeeps(c, id, audit, io);
    case CancelStep(id, io) => CancelKeeps(c, id, io);
    case WorkStep(id, a, io) => WorkKeeps(c, id, a, io);
    case Restart => IdleKeeps(c, Synced(c.disk));
    case PowerLoss(left) =>
      if Survives(c.disk, left) {
        PowerLossKeeps(c.disk, left);
        IdleKeeps(c, Disk(left, left));
      }
  }

  lemma {:induction false} RunInv(steps: seq<Step>)
    ensures CoreInv(Run(steps).core)
  {
    if steps == [] {
      forall id ensures Threaded(BOOT.core, id) {}
    } else {
      var before := steps[..|steps| - 1];
      RunInv(before);
      StepKeeps(Run(before).core, steps[|steps| - 1]);
    }
  }
}
