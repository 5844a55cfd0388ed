/** The dispatcher beside one that never drops an entry, over the same files: exactly
    when no status query can tell them apart. */
module LifecycleNeverEvicts {
  import opened Common
  import opened Journal
  import opened Lifecycle
  import opened LifecycleInvariant
  import opened LifecycleTheorems
  import opened LifecycleAgreement
  import opened LifecycleFiles
  import opened LifecycleEviction

  /** The registry of a dispatcher that never evicts, run beside the real one. */
  ghost function FullNext(c: Core, full: map<Id, Entry>, s: Step): map<Id, Entry> {
    match s
    case SubmitStep(r, admission, io) =>
      if Submit(c, r, admission, io).1.Launching? then full[r.id := NewEntry(c, r)] else full
    case CancelStep(id, io) =>
      if id in full && IsActive(full[id].value)
      then full[id := CancelledEntry(full[id], c.now, c.wall)] else full
    case WorkStep(id, a, io) => Work(c.(registry := full), id, a, io).registry
    case Restart => map[]
    case PowerLoss(left) => if Survives(c.disk, left) then map[] else full
    case _ => full
  }

  ghost function FullRun(steps: seq<Step>): map<Id, Entry> {
    if steps == [] then map[]
    else
      var before := steps[..|steps| - 1];
      FullNext(Run(before).core, FullRun(before), steps[|steps| - 1])
  }

  /** What was dropped is a finished entry its file still holds. */
  ghost predicate Dropped(c: Core, id: Id, e: Entry) {
    && EntryRules(id, e, c.now) && !IsActive(e.value) && Filed(c.disk, id, e)
    && (id in c.workers ==> c.workers[id].AtDone?)
  }

  /** What memory still holds is held unchanged; what was dropped is on disk. */
  ghost predicate Shadowed(c: Core, full: map<Id, Entry>) {
    && (forall id <- c.registry :: id in full && full[id] == c.registry[id])
    && (forall id <- full :: id !in c.registry ==> Dropped(c, id, full[id]))
  }

  // -------------------------------------------------------- steps that can be noticed

  /** A submit that gets as far as evicting. */
  predicate Evicts(c: Core, s: Step) {
    s.SubmitStep? && s.request.id !in c.registry && Read(c.disk, s.request.id, s.sio.read).1.Absent?
  }

  /** Eviction drops this entry, and its final file holds something else. */
  ghost predicate Misfiled(c: Core, rio: map<Id, ReadIo>, id: Id) {
    && id in c.registry && Droppable(c.disk, id, c.registry[id], c.now, IoFor(rio, id))
    && !Filed(c.disk, id, c.registry[id])
  }

  ghost predicate DropsMisfiled(c: Core, s: Step) {
    Evicts(c, s) && exists id <- c.registry :: Misfiled(c, s.sio.evict, id)
  }

  /** A panic after the outcome changes an entry that was dropped before. */
  ghost predicate ChangesDropped(c: Core, full: map<Id, Entry>, s: Step) {
    LatePanic(c, s) && s.id !in c.registry && s.id in full && !PanicLeaves(full[s.id], c.now)
  }

  ghost predicate Noticed(c: Core, full: map<Id, Entry>, s: Step) {
    DropsMisfiled(c, s) || ChangesDropped(c, full, s)
  }

  // ------------------------------------------------------------- quiet disk changes

  /** No finished file changes. */
  ghost predicate FinishedStay(d: Disk, d': Disk) {
    forall id <- d.visible :: !IsActive(d.visible[id].record) ==>
      id in d'.visible && d'.visible[id] == d.visible[id]
  }

  lemma DiskShadows(c: Core, d: Disk, full: map<Id, Entry>)
    requires Shadowed(c, full) && FinishedStay(c.disk, d)
    ensures Shadowed(c.(disk := d), full)
  {
    var c' := c.(disk := d);
    forall id <- full | id !in c'.registry ensures Dropped(c', id, full[id]) {
      assert Dropped(c, id, full[id]);
    }
  }

  lemma PersistedStays(d: Disk, e: Entry, io: CompleteIo)
    requires DiskInv(d)
    ensures FinishedStay(d, Persisted(d, e, io).0)
  {
    if !IsActive(e.value) { CompleteSpec(d, e.value, e.audit, io); }
  }

  lemma QueryShadows(c: Core, full: map<Id, Entry>, id: Id, audit: bool, io: QueryIo)
    requires CoreInv(c) && Shadowed(c, full)
    ensures Shadowed(Get(c, id, audit, io).0, full)
  {
    if id in c.registry { PersistedStays(c.disk, c.registry[id], io.reply); }
    DiskShadows(c, Get(c, id, audit, io).0.disk, full);
  }

  /** One entry changes alike on both sides. */
  lemma EntryShadows(c: Core, full: map<Id, Entry>, id: Id, e: Entry)
    requires Shadowed(c, full)
    ensures Shadowed(c.(registry := c.registry[id := e]), full[id := e])
  {
    var c' := c.(registry := c.registry[id := e]);
    forall o <- full[id := e] | o !in c'.registry ensures Dropped(c', o, full[id := e][o]) {
      assert Dropped(c, o, full[o]);
    }
  }

  lemma CancelShadows(c: Core, full: map<Id, Entry>, id: Id, io: QueryIo)
    requires CoreInv(c) && Shadowed(c, full)
    ensures Shadowed(Cancel(c, id, io).0, FullNext(c, full, CancelStep(id, io)))
  {
    if id in c.registry && IsActive(c.registry[id].value) {
      EntryShadows(c, full, id, CancelledEntry(c.registry[id], c.now, c.wall));
    } else {
      assert id in full && id !in c.registry ==> Dropped(c, id, full[id]);
      QueryShadows(c, full, id, false, io);
    }
  }

  // -------------------------------------------------------------------- eviction

  lemma KeptByEviction(c: Core, rio: map<Id, ReadIo>)
    ensures var c' := Evicted(c, rio);
            && c'.disk.visible == c.disk.visible && c'.now == c.now && c'.wall == c.wall && c'.workers == c.workers
            && (forall id <- c'.registry :: id in c.registry && c'.registry[id] == c.registry[id])
            && (forall id <- c.registry ::
                  id in c'.registry <==> !Droppable(c.disk, id, c.registry[id], c.now, IoFor(rio, id)))
  {
  }

  /** The entry this pass drops is filed unless it is misfiled. */
  lemma DroppedNow(c: Core, rio: map<Id, ReadIo>, id: Id)
    requires CoreInv(c) && id in c.registry && Droppable(c.disk, id, c.registry[id], c.now, IoFor(rio, id))
    ensures Dropped(c, id, c.registry[id]) <==> !Misfiled(c, rio, id)
  {
    assert EntryRules(id, c.registry[id], c.now) && Threaded(c, id);
  }

  lemma EvictedShadowIff(c: Core, full: map<Id, Entry>, rio: map<Id, ReadIo>)
    requires CoreInv(c) && Shadowed(c, full)
    ensures Shadowed(Evicted(c, rio), full) <==> !(exists id <- c.registry :: Misfiled(c, rio, id))
  {
    var c' := Evicted(c, rio);
    KeptByEviction(c, rio);
    forall id <- full | id !in c'.registry
      ensures Dropped(c', id, full[id]) <==> !(id in c.registry && Misfiled(c, rio, id))
    {
      assert Dropped(c', id, full[id]) <==> Dropped(c, id, full[id]);
      if id in c.registry { DroppedNow(c, rio, id); }
    }
  }

  lemma ClaimStays(d: Disk, hash: Digest, id: Id, audit: AuditLog, prepare: PrepareIo, publish: PublishIo)
    requires id !in d.visible
    ensures FinishedStay(d, Claim(d, hash, Fresh(id), audit, CAPACITY, prepare, publish).0)
  {
    ClaimLeavesFinished(d, hash, id, audit, prepare, publish);
  }

  /** The registry of the never-evicting side after a claim. */
  ghost function FullEnrolled(c: Core, full: map<Id, Entry>, r: Request, a: Response): map<Id, Entry> {
    if a.Launching? then full[r.id := NewEntry(c, r)] else full
  }

  lemma ThreadShadows(c: Core, full: map<Id, Entry>, id: Id, stage: Stage)
    requires Shadowed(c, full) && id in c.registry
    ensures Shadowed(c.(workers := c.workers[id := stage]), full)
  {
    var c' := c.(workers := c.workers[id := stage]);
    forall o <- full | o !in c'.registry ensures Dropped(c', o, full[o]) {
      assert Dropped(c, o, full[o]);
    }
  }

  lemma EnrollShadows(c: Core, full: map<Id, Entry>, r: Request, prepare: PrepareIo, publish: PublishIo)
    requires Shadowed(c, full) && r.id !in c.disk.visible && r.id !in c.registry
    ensures var (c', a) := Enroll(c, r, prepare, publish); Shadowed(c', FullEnrolled(c, full, r, a))
  {
    var e := NewEntry(c, r);
    var (c', a) := Enroll(c, r, prepare, publish);
    ClaimStays(c.disk, HashOf(r.body), r.id, e.audit, prepare, publish);
    var c1 := c.(disk := c'.disk);
    DiskShadows(c, c'.disk, full);
    if a.Launching? {
      EntryShadows(c1, full, r.id, e);
      ThreadShadows(c1.(registry := c1.registry[r.id := e]), full[r.id := e], r.id, AtClaim(r.body, r.forge));
    } else {
      assert c' == c1;
    }
  }

  /** A misfiled entry that was dropped stays noticeable whatever the claim does. */
  lemma EnrollKeepsMisfiled(c: Core, full: map<Id, Entry>, r: Request, prepare: PrepareIo, publish: PublishIo, id: Id)
    requires r.id !in c.disk.visible && id in full && id !in c.registry
    requires id in c.disk.visible && !IsActive(c.disk.visible[id].record) && !Filed(c.disk, id, full[id])
    ensures var (c', a) := Enroll(c, r, prepare, publish); !Shadowed(c', FullEnrolled(c, full, r, a))
  {
    var e := NewEntry(c, r);
    var (c', a) := Enroll(c, r, prepare, publish);
    ClaimStays(c.disk, HashOf(r.body), r.id, e.audit, prepare, publish);
    var f := FullEnrolled(c, full, r, a);
    assert id != r.id && id in f && f[id] == full[id] && id !in c'.registry;
    assert !Filed(c'.disk, id, f[id]);
  }

  lemma SameNewEntry(a: Core, b: Core, r: Request)
    requires a.now == b.now && a.wall == b.wall
    ensures NewEntry(a, r) == NewEntry(b, r)
  {
  }

  lemma EnrollAfterDropShows(c: Core, full: map<Id, Entry>, r: Request, io: SubmitIo, id: Id)
    requires CoreInv(c) && Shadowed(c, full) && r.id !in c.disk.visible && Misfiled(c, io.evict, id)
    ensures var (c', a) := Enroll(Evicted(c, io.evict), r, io.prepare, io.publish);
            !Shadowed(c', FullEnrolled(c, full, r, a))
  {
    var c2 := Evicted(c, io.evict);
    KeptByEviction(c, io.evict);
    SameNewEntry(c2, c, r);
    EnrollKeepsMisfiled(c2, full, r, io.prepare, io.publish, id);
  }

  lemma EnrollAfterCleanEviction(c: Core, full: map<Id, Entry>, r: Request, io: SubmitIo)
    requires Shadowed(Evicted(c, io.evict), full) && r.id !in c.disk.visible && r.id !in c.registry
    ensures var (c', a) := Enroll(Evicted(c, io.evict), r, io.prepare, io.publish);
            Shadowed(c', FullEnrolled(c, full, r, a))
  {
    var c2 := Evicted(c, io.evict);
    KeptByEviction(c, io.evict);
    SameNewEntry(c2, c, r);
    EnrollShadows(c2, full, r, io.prepare, io.publish);
  }

  lemma FreshShadowIff(c: Core, full: map<Id, Entry>, r: Request, admission: Admission, io: SubmitIo)
    requires CoreInv(c) && Shadowed(c, full) && r.id !in c.disk.visible && r.id !in c.registry
    ensures var (c', a) := SubmitFresh(c, r, admission, io);
            Shadowed(c', FullEnrolled(c, full, r, a)) <==> !(exists id <- c.registry :: Misfiled(c, io.evict, id))
  {
    EvictedShadowIff(c, full, io.evict);
    if admission.Admitted? {
      if id :| id in c.registry && Misfiled(c, io.evict, id) {
        EnrollAfterDropShows(c, full, r, io, id);
      } else {
        EnrollAfterCleanEviction(c, full, r, io);
      }
    }
  }

  lemma KnownShadows(c: Core, full: map<Id, Entry>, r: Request, s: Snapshot, io: CompleteIo)
    requires CoreInv(c) && Shadowed(c, full)
    ensures var (c', a) := SubmitKnown(c, r, s, io); Shadowed(c', full) && !a.Launching?
  {
    if r.id in c.registry { PersistedStays(c.disk, c.registry[r.id], io); }
    DiskShadows(c, SubmitKnown(c, r, s, io).0.disk, full);
  }

  lemma AbsentShadowIff(c: Core, full: map<Id, Entry>, r: Request, admission: Admission, io: SubmitIo)
    requires CoreInv(c) && Shadowed(c, full) && Read(c.disk, r.id, io.read).1.Absent?
    ensures var s := SubmitStep(r, admission, io);
            Shadowed(Submit(c, r, admission, io).0, FullNext(c, full, s)) <==> !DropsMisfiled(c, s)
  {
    assert r.id !in c.registry by { assert r.id in c.registry ==> Claimed(r.id, c.registry[r.id], c.disk); }
    assert c.(disk := c.disk) == c;
    FreshShadowIff(c, full, r, admission, io);
  }

  lemma SubmitShadowIff(c: Core, full: map<Id, Entry>, r: Request, admission: Admission, io: SubmitIo)
    requires CoreInv(c) && Shadowed(c, full)
    ensures var s := SubmitStep(r, admission, io);
            Shadowed(Submit(c, r, admission, io).0, FullNext(c, full, s)) <==> !DropsMisfiled(c, s)
  {
    var (d, found) := Read(c.disk, r.id, io.read);
    DiskShadows(c, d, full);
    match found
    case Unavailable =>
    case Present(s) =>
      assert CoreInv(c.(disk := d)) by { ReadMoves(c, r.id, io.read); }
      KnownShadows(c.(disk := d), full, r, s, io.reply);
    case Absent => AbsentShadowIff(c, full, r, admission, io);
  }

  // --------------------------------------------------------------------- threads

  lemma MovedShadows(c: Core, full: map<Id, Entry>, id: Id, next: Option<Stage>)
    requires Shadowed(c, full) && id in c.workers && (next.Some? ==> id in c.registry)
    ensures Shadowed(Moved(c, id, next), full)
  {
    var c' := Moved(c, id, next);
    forall o <- full | o !in c'.registry ensures Dropped(c', o, full[o]) {
      assert Dropped(c, o, full[o]);
    }
  }

  lemma UpdateShadows(c: Core, full: map<Id, Entry>, id: Id, next: Option<Stage>, change: Change, io: CompleteIo)
    requires CoreInv(c) && Shadowed(c, full) && id in c.workers && id in c.registry
    ensures Shadowed(Update(Moved(c, id, next), id, change, io),
                     Update(Moved(c.(registry := full), id, next), id, change, io).registry)
  {
    var e := UpdatedEntry(c.registry[id], change, c.now, c.wall);
    MovedShadows(c, full, id, next);
    EntryShadows(Moved(c, id, next), full, id, e);
    PersistedStays(c.disk, e, io);
    DiskShadows(Moved(c, id, next).(registry := c.registry[id := e]), Persisted(c.disk, e, io).0, full[id := e]);
  }

  /** The thread of an entry memory holds: the same happens on both sides. */
  lemma HeldWorkShadows(c: Core, full: map<Id, Entry>, id: Id, a: Action, io: CompleteIo)
    requires CoreInv(c) && Shadowed(c, full) && id in c.workers && id in c.registry
    ensures Shadowed(Work(c, id, a, io), Work(c.(registry := full), id, a, io).registry)
  {
    assert Planned(c.(registry := full), id, a) == Planned(c, id, a);
    match Planned(c, id, a)
    case Stay =>
    case Moves(next) => MovedShadows(c, full, id, next);
    case Polls => EntryShadows(c, full, id, ObserveStop(c, id).registry[id]);
    case Publishes(next, change) => UpdateShadows(c, full, id, next, change, io);
    case Records(log) =>
      var e := c.registry[id].(audit := log);
      EntryShadows(c, full, id, e);
      MovedShadows(c.(registry := c.registry[id := e]), full[id := e], id, Some(AtExecuted));
  }

  /** The thread of a dropped entry can only exit or panic. */
  lemma DroppedPlans(c: Core, full: map<Id, Entry>, id: Id, a: Action)
    requires CoreInv(c) && Shadowed(c, full) && id in c.workers && id !in c.registry
    ensures c.workers[id].AtDone?
    ensures Planned(c.(registry := full), id, a) == Planned(c, id, a)
    ensures Planned(c, id, a) ==
              if a.Panic? then Publishes(None, Fail(PANICKED)) else if a.Exit? then Moves(None) else Stay
  {
    assert Threaded(c, id);
  }

  lemma DroppedPanicIff(c: Core, full: map<Id, Entry>, id: Id)
    requires CoreInv(c) && Shadowed(c, full) && id in c.workers && id in full && id !in c.registry
    ensures Shadowed(Moved(c, id, None), full[id := Panicked(full[id], c.now, c.wall)])
            <==> PanicLeaves(full[id], c.now)
  {
    var e, p := full[id], Panicked(full[id], c.now, c.wall);
    var c' := Moved(c, id, None);
    assert Dropped(c, id, e);
    PanicLeavesIff(id, e, c.now, c.wall);
    UpdatedEntryRules(id, e, Fail(PANICKED), c.now, c.wall);
    assert Dropped(c', id, p) <==> PanicLeaves(e, c.now);
    if PanicLeaves(e, c.now) {
      forall o <- full[id := p] | o !in c'.registry ensures Dropped(c', o, full[id := p][o]) {
        if o != id { assert Dropped(c, o, full[o]); }
      }
    }
  }

  lemma DroppedWorkShadowIff(c: Core, full: map<Id, Entry>, id: Id, a: Action, io: CompleteIo)
    requires CoreInv(c) && Shadowed(c, full) && id in c.workers && id !in c.registry
    ensures Shadowed(Work(c, id, a, io), Work(c.(registry := full), id, a, io).registry)
            <==> !(a.Panic? && id in full && !PanicLeaves(full[id], c.now))
  {
    DroppedPlans(c, full, id, a);
    MovedShadows(c, full, id, None);
    if a.Panic? {
      assert Work(c, id, a, io) == Moved(c, id, None);
      if id in full { DroppedPanicIff(c, full, id); }
    }
  }

  lemma WorkShadowIff(c: Core, full: map<Id, Entry>, id: Id, a: Action, io: CompleteIo)
    requires CoreInv(c) && Shadowed(c, full)
    ensures Shadowed(Work(c, id, a, io), Work(c.(registry := full), id, a, io).registry)
            <==> !ChangesDropped(c, full, WorkStep(id, a, io))
  {
    if id !in c.workers {
    } else if id in c.registry {
      HeldWorkShadows(c, full, id, a, io);
    } else {
      DroppedWorkShadowIff(c, full, id, a, io);
      assert c.workers[id].AtDone? by { DroppedPlans(c, full, id, a); }
    }
  }

  lemma TickShadows(c: Core, full: map<Id, Entry>, now: nat, wall: string)
    requires Shadowed(c, full) && c.now <= now
    ensures Shadowed(c.(now := now, wall := wall), full)
  {
    var c' := c.(now := now, wall := wall);
    forall id <- full | id !in c'.registry ensures Dropped(c', id, full[id]) {
      assert Dropped(c, id, full[id]);
    }
  }

  /** From any state whose dropped entries are filed, a step keeps that exactly when
      it cannot be noticed: when it is neither a submit that drops an entry whose file
      holds something else, nor a panic that changes an entry dropped before. */
  lemma ShadowKeptIff(c: Core, full: map<Id, Entry>, s: Step)
    requires CoreInv(c) && Shadowed(c, full)
    ensures Shadowed(Next(c, s), FullNext(c, full, s)) <==> !Noticed(c, full, s)
  {
    match s
    case Tick(now, wall) => if c.now <= now { TickShadows(c, full, now, wall); }
    case SubmitStep(r, admission, io) => SubmitShadowIff(c, full, r, admission, io);
    case GetStep(id, audit, io) => QueryShadows(c, full, id, audit, io);
    case CancelStep(id, io) => CancelShadows(c, full, id, io);
    case WorkStep(id, a, io) => WorkShadowIff(c, full, id, a, io);
    case _ =>
  }

  // --------------------------------------------------------------------- answers

  /** Every status and audit query is answered alike with and without eviction. */
  ghost predicate Indistinct(c: Core, full: map<Id, Entry>) {
    forall id, audit :: Get(c, id, audit, QUIET_QUERY).1 == Get(c.(registry := full), id, audit, QUIET_QUERY).1
  }

  /** An entry and the file that holds it give one answer. */
  lemma FiledAnswers(d: Disk, id: Id, e: Entry, audit: bool, io: QueryIo)
    requires DiskInv(d) && e.value.requestId == id && !IsActive(e.value) && Filed(d, id, e)
    ensures ReplyEntry(d, e, audit, ALL_WORKS).1 == ReplyArchived(d, id, audit, ReadWorks).1
    ensures var a, b := ReplyArchived(d, id, audit, io.archived).1, ReplyEntry(d, e, audit, io.reply).1;
            (a.Answer? || a.AuditAnswer?) && (b.Answer? || b.AuditAnswer?) ==> a == b
  {
    assert d.visible[id] == Snapshot(1, d.visible[id].requestHash, e.value, Doc(e.audit));
  }

  lemma SameAnswers(c: Core, full: map<Id, Entry>, id: Id, audit: bool, io: QueryIo)
    requires CoreInv(c) && Shadowed(c, full)
    ensures var never := c.(registry := full);
            && Get(c, id, audit, QUIET_QUERY).1 == Get(never, id, audit, QUIET_QUERY).1
            && (id in full ==> id in c.registry || !IsActive(full[id].value))
            && (var a, b := Get(c, id, audit, io).1, Get(never, id, audit, io).1;
                (a.Answer? || a.AuditAnswer?) && (b.Answer? || b.AuditAnswer?) ==> a == b)
  {
    if id in full && id !in c.registry {
      assert Dropped(c, id, full[id]);
      FiledAnswers(c.disk, id, full[id], audit, io);
    }
  }

  lemma SameKnown(c: Core, full: map<Id, Entry>, r: Request, s: Snapshot)
    requires CoreInv(c) && Shadowed(c, full) && r.id in c.disk.visible && s == c.disk.visible[r.id]
    requires Readable(s, r.id)
    ensures SubmitKnown(c, r, s, ALL_WORKS).1 == SubmitKnown(c.(registry := full), r, s, ALL_WORKS).1
  {
    if r.id in full && r.id !in c.registry {
      assert Dropped(c, r.id, full[r.id]);
      FiledAnswers(c.disk, r.id, full[r.id], false, QUIET_QUERY);
    }
  }

  lemma SameEnroll(a: Core, b: Core, r: Request, prepare: PrepareIo, publish: PublishIo)
    requires a.disk.visible == b.disk.visible && a.now == b.now && a.wall == b.wall
    ensures Enroll(a, r, prepare, publish).1 == Enroll(b, r, prepare, publish).1
  {
    assert NewEntry(a, r) == NewEntry(b, r) && Synced(a.disk) == Synced(b.disk);
  }

  /** A new id is claimed alike: the claim only looks at what is visible. */
  lemma SameFresh(c: Core, full: map<Id, Entry>, r: Request, admission: Admission, io: SubmitIo)
    ensures SubmitFresh(c, r, admission, io).1 == SubmitFresh(c.(registry := full), r, admission, io).1
  {
    var a, b := Evicted(c, io.evict), Evicted(c.(registry := full), io.evict);
    assert a.disk.visible == c.disk.visible && b.disk.visible == c.disk.visible;
    SameEnroll(a, b, r, io.prepare, io.publish);
  }

  lemma SameSubmits(c: Core, full: map<Id, Entry>, r: Request, admission: Admission, io: SubmitIo)
    requires CoreInv(c) && Shadowed(c, full) && io.read.ReadWorks? && io.reply == ALL_WORKS
    ensures Submit(c, r, admission, io).1 == Submit(c.(registry := full), r, admission, io).1
  {
    var never := c.(registry := full);
    var (d, found) := Read(c.disk, r.id, io.read);
    match found
    case Unavailable =>
    case Present(s) =>
      var c1 := c.(disk := d);
      assert CoreInv(c1) by { ReadMoves(c, r.id, io.read); }
      DiskShadows(c, d, full);
      SameKnown(c1, full, r, s);
    case Absent =>
      assert r.id in c.registry ==> Claimed(r.id, c.registry[r.id], c.disk);
      assert r.id in full && r.id !in c.registry ==> Dropped(c, r.id, full[r.id]);
      assert c.(disk := d) == c && never.(disk := d) == never;
      SameFresh(c, full, r, admission, io);
  }

  /** A dropped entry that its final file does not hold answers otherwise. */
  lemma MisfiledShows(c: Core, full: map<Id, Entry>, id: Id)
    requires id in full && id !in c.registry && full[id].value.requestId == id && !IsActive(full[id].value)
    requires id in c.disk.visible && Readable(c.disk.visible[id], id) && !IsActive(c.disk.visible[id].record)
    requires !Filed(c.disk, id, full[id])
    ensures !Indistinct(c, full)
  {
    FileAnswers(c.disk, id);
    EntryAnswersIff(c.disk, id, full[id]);
    assert Get(c, id, false, QUIET_QUERY).1 != Get(c.(registry := full), id, false, QUIET_QUERY).1;
  }

  /** What this submit drops is gone, and its file stays. */
  lemma DroppedByFresh(c: Core, r: Request, admission: Admission, io: SubmitIo, id: Id)
    requires r.id !in c.disk.visible && Misfiled(c, io.evict, id)
    ensures var (c', a) := SubmitFresh(c, r, admission, io);
            && id !in c'.registry && id != r.id
            && id in c'.disk.visible && c'.disk.visible[id] == c.disk.visible[id]
  {
    var c2 := Evicted(c, io.evict);
    KeptByEviction(c, io.evict);
    ClaimStays(c2.disk, HashOf(r.body), r.id, NewEntry(c2, r).audit, io.prepare, io.publish);
  }

  lemma MisfiledGoneShows(c: Core, c': Core, full': map<Id, Entry>, id: Id)
    requires CoreInv(c) && id in c.registry && !Filed(c.disk, id, c.registry[id]) && !IsActive(c.registry[id].value)
    requires id in c.disk.visible && Readable(c.disk.visible[id], id) && !IsActive(c.disk.visible[id].record)
    requires id in c'.disk.visible && c'.disk.visible[id] == c.disk.visible[id] && id !in c'.registry
    requires id in full' && full'[id] == c.registry[id]
    ensures !Indistinct(c', full')
  {
    assert EntryRules(id, c.registry[id], c.now);
    MisfiledShows(c', full', id);
  }

  lemma EvictsAndClaims(c: Core, s: Step)
    requires Evicts(c, s)
    ensures s.request.id !in c.disk.visible && Next(c, s) == SubmitFresh(c, s.request, s.admission, s.sio).0
  {
    assert c.(disk := c.disk) == c;
  }

  lemma GoneAfterDrop(c: Core, full: map<Id, Entry>, s: Step, id: Id)
    requires Evicts(c, s) && Misfiled(c, s.sio.evict, id) && id in full && full[id] == c.registry[id]
    ensures var c', full' := Next(c, s), FullNext(c, full, s);
            && id !in c'.registry && id in full' && full'[id] == full[id]
            && id in c'.disk.visible && c'.disk.visible[id] == c.disk.visible[id]
  {
    EvictsAndClaims(c, s);
    DroppedByFresh(c, s.request, s.admission, s.sio, id);
  }

  lemma DropShows(c: Core, full: map<Id, Entry>, s: Step)
    requires CoreInv(c) && Shadowed(c, full) && DropsMisfiled(c, s)
    ensures !Indistinct(Next(c, s), FullNext(c, full, s))
  {
    var id :| id in c.registry && Misfiled(c, s.sio.evict, id);
    GoneAfterDrop(c, full, s, id);
    MisfiledGoneShows(c, Next(c, s), FullNext(c, full, s), id);
  }

  lemma ChangeShows(c: Core, full: map<Id, Entry>, s: Step)
    requires CoreInv(c) && Shadowed(c, full) && ChangesDropped(c, full, s)
    ensures !Indistinct(Next(c, s), FullNext(c, full, s))
  {
    var id, e := s.id, full[s.id];
    var p := Panicked(e, c.now, c.wall);
    assert Dropped(c, id, e);
    DroppedPlans(c, full, id, s.action);
    PanicLeavesIff(id, e, c.now, c.wall);
    UpdatedEntryRules(id, e, Fail(PANICKED), c.now, c.wall);
    assert Next(c, s) == Moved(c, id, None) && FullNext(c, full, s) == full[id := p];
    MisfiledShows(Moved(c, id, None), full[id := p], id);
  }

  // ------------------------------------------------------------------------ runs

  /** No step of the run can be noticed. */
  ghost predicate Unnoticed(steps: seq<Step>) {
    forall i :: 0 <= i < |steps| ==> !Noticed(Run(steps[..i]).core, FullRun(steps[..i]), steps[i])
  }

  lemma BothGoOn(steps: seq<Step>, i: nat)
    requires i < |steps|
    ensures Run(steps[..i + 1]).core == Next(Run(steps[..i]).core, steps[i])
    ensures FullRun(steps[..i + 1]) == FullNext(Run(steps[..i]).core, FullRun(steps[..i]), steps[i])
  {
    RunGoesOn(steps, i);
    assert steps[..i + 1][..i] == steps[..i];
  }

  lemma OneStepShadows(steps: seq<Step>, i: nat)
    requires i < |steps| && Shadowed(Run(steps[..i]).core, FullRun(steps[..i]))
    ensures Shadowed(Run(steps[..i + 1]).core, FullRun(steps[..i + 1]))
            <==> !Noticed(Run(steps[..i]).core, FullRun(steps[..i]), steps[i])
    ensures Noticed(Run(steps[..i]).core, FullRun(steps[..i]), steps[i]) ==>
              !Indistinct(Run(steps[..i + 1]).core, FullRun(steps[..i + 1]))
  {
    BothGoOn(steps, i);
    RunInv(steps[..i]);
    var c, full := Run(steps[..i]).core, FullRun(steps[..i]);
    ShadowKeptIff(c, full, steps[i]);
    if DropsMisfiled(c, steps[i]) { DropShows(c, full, steps[i]); }
    if ChangesDropped(c, full, steps[i]) { ChangeShows(c, full, steps[i]); }
  }

  lemma {:induction false} ShadowedWhileUnnoticed(steps: seq<Step>, i: nat)
    requires i <= |steps| && Unnoticed(steps)
    ensures Shadowed(Run(steps[..i]).core, FullRun(steps[..i]))
  {
    if i > 0 {
      ShadowedWhileUnnoticed(steps, i - 1);
      OneStepShadows(steps, i - 1);
    }
  }

  /** Every moment of the run is indistinct. */
  ghost predicate AlwaysIndistinct(steps: seq<Step>) {
    forall i :: 0 <= i <= |steps| ==> Indistinct(Run(steps[..i]).core, FullRun(steps[..i]))
  }

  lemma {:induction false} ShadowedWhileIndistinct(steps: seq<Step>, i: nat)
    requires i <= |steps| && AlwaysIndistinct(steps)
    ensures Shadowed(Run(steps[..i]).core, FullRun(steps[..i]))
  {
    if i > 0 {
      ShadowedWhileIndistinct(steps, i - 1);
      OneStepShadows(steps, i - 1);
      assert Indistinct(Run(steps[..i]).core, FullRun(steps[..i]));
    }
  }

  lemma IndistinctAt(steps: seq<Step>, i: nat)
    requires i <= |steps| && Shadowed(Run(steps[..i]).core, FullRun(steps[..i]))
    ensures Indistinct(Run(steps[..i]).core, FullRun(steps[..i]))
  {
    RunInv(steps[..i]);
    forall id: Id, audit: bool
      ensures var c := Run(steps[..i]).core;
              Get(c, id, audit, QUIET_QUERY).1 == Get(c.(registry := FullRun(steps[..i])), id, audit, QUIET_QUERY).1
    {
      SameAnswers(Run(steps[..i]).core, FullRun(steps[..i]), id, audit, QUIET_QUERY);
    }
  }

  /** Eviction is invisible throughout a run exactly when the run has no step that
      drops an entry whose file holds something else and no panic that changes an
      entry dropped before. */
  lemma EvictionIsInvisibleIff(steps: seq<Step>)
    ensures AlwaysIndistinct(steps) <==> Unnoticed(steps)
  {
    if AlwaysIndistinct(steps) {
      forall i | 0 <= i < |steps| ensures !Noticed(Run(steps[..i]).core, FullRun(steps[..i]), steps[i]) {
        ShadowedWhileIndistinct(steps, i);
        OneStepShadows(steps, i);
        assert Indistinct(Run(steps[..i + 1]).core, FullRun(steps[..i + 1]));
      }
    }
    if Unnoticed(steps) {
      forall i | 0 <= i <= |steps| ensures Indistinct(Run(steps[..i]).core, FullRun(steps[..i])) {
        ShadowedWhileUnnoticed(steps, i);
        IndistinctAt(steps, i);
      }
    }
  }

  /** And then nothing else shows it either: every status, audit and cancel request,
      and every submit, replays of finished ids included, is answered as the registry
      that never evicts would over the same files; and even under failing I/O two
      answers that are both given never differ. */
  lemma EvictionIsInvisible(steps: seq<Step>, id: Id, audit: bool, io: QueryIo,
                            r: Request, admission: Admission, sio: SubmitIo)
    requires Unnoticed(steps)
    ensures var c := Run(steps).core;
            var never := c.(registry := FullRun(steps));
            && Get(c, id, audit, QUIET_QUERY).1 == Get(never, id, audit, QUIET_QUERY).1
            && Cancel(c, id, QUIET_QUERY).1 == Cancel(never, id, QUIET_QUERY).1
            && (sio.read.ReadWorks? && sio.reply == ALL_WORKS ==>
                  Submit(c, r, admission, sio).1 == Submit(never, r, admission, sio).1)
            && (var a, b := Get(c, id, audit, io).1, Get(never, id, audit, io).1;
                (a.Answer? || a.AuditAnswer?) && (b.Answer? || b.AuditAnswer?) ==> a == b)
  {
    RunInv(steps);
    assert steps[..|steps|] == steps;
    ShadowedWhileUnnoticed(steps, |steps|);
    SameAnswers(Run(steps).core, FullRun(steps), id, audit, io);
    SameAnswers(Run(steps).core, FullRun(steps), id, false, QUIET_QUERY);
    if sio.read.ReadWorks? && sio.reply == ALL_WORKS {
      SameSubmits(Run(steps).core, FullRun(steps), r, admission, sio);
    }
  }

  // ------------------------------------------------------- workers with one outcome

  lemma SettledDropsFiled(c: Core, s: Step)
    requires Settled(c)
    ensures !DropsMisfiled(c, s)
  {
  }

  lemma {:induction false} SettledWhileOneOutcome(steps: seq<Step>, i: nat)
    requires i <= |steps| && Avoids(steps, LatePanic)
    ensures Agreed(Run(steps[..i]).core) && Settled(Run(steps[..i]).core)
  {
    if i > 0 {
      SettledWhileOneOutcome(steps, i - 1);
      RunInv(steps[..i - 1]);
      RunGoesOn(steps, i - 1);
      var c, s := Run(steps[..i - 1]).core, steps[i - 1];
      AgreementKeptIff(c, s);
      FilesKeptReadableIff(c, s);
      SettledKeptIff(c, s);
    }
  }

  /** Every run whose workers publish one outcome each is such a run. */
  lemma OneOutcomeIsUnnoticed(steps: seq<Step>)
    requires Avoids(steps, LatePanic)
    ensures Unnoticed(steps) && AlwaysIndistinct(steps)
  {
    forall i | 0 <= i < |steps| ensures !Noticed(Run(steps[..i]).core, FullRun(steps[..i]), steps[i]) {
      SettledWhileOneOutcome(steps, i);
      SettledDropsFiled(Run(steps[..i]).core, steps[i]);
    }
    EvictionIsInvisibleIff(steps);
  }
}
