/** When the journal's own reader accepts what its writers published: exactly while
    no step puts a record on disk whose phase and receipt disagree. Only a panic
    after the outcome can make such a record, and once it is durable the id stays
    unreadable for good. */
module LifecycleAgreement {
  import opened Common
  import opened Journal
  import opened Lifecycle
  import opened LifecycleInvariant
  import opened LifecycleTheorems

  // ------------------------------------------------------- writer and reader

  predicate Consistent(r: Record) {
    r.receipt.Some? ==> Shown(r.receipt.value.verdict) == r.phase
  }

  ghost predicate ReadableDisk(d: Disk) {
    && (forall id <- d.visible :: Readable(d.visible[id], id))
    && (forall id <- d.synced :: Readable(d.synced[id], id))
  }

  /** Everything on disk is accepted by `read`, and every entry would be. */
  ghost predicate Agreed(c: Core) {
    && ReadableDisk(c.disk)
    && (forall id <- c.registry :: Consistent(c.registry[id].value))
  }

  /** A panic of a worker that has already published its outcome. */
  predicate LatePanic(c: Core, s: Step) {
    s.WorkStep? && s.action.Panic? && s.id in c.workers && c.workers[s.id].AtDone?
  }

  /** A late panic that relabels a receipt's verdict: the entry is still in
      memory with a receipt that did not fail, and no stop was recorded or due. */
  predicate Relabels(c: Core, s: Step) {
    && LatePanic(c, s) && s.id in c.registry
    && var e := c.registry[s.id];
       e.value.receipt.Some? && e.value.receipt.value.verdict != Failure
       && Observed(e.control, c.now).stop.None?
  }

  /** Exactly which updates keep a record and its receipt in agreement: those of a
      record without a receipt, a fresh outcome, an outcome a stop overrides, and
      a failure laid over a receipt that says failed. */
  lemma UpdateConsistentIff(id: Id, e: Entry, c: Change, now: nat, wall: string)
    requires EntryRules(id, e, now) && Consistent(e.value)
    requires c.Enter? ==> IsActive(e.value.(phase := c.phase))
    ensures Consistent(UpdatedEntry(e, c, now, wall).value) <==>
              || e.value.receipt.None? || c.Finish?
              || (Observed(e.control, now).stop.Some? && !c.Enter?)
              || (c.Fail? && e.value.receipt.value.verdict == Failure)
  {
  }

  lemma CompleteReadable(d: Disk, record: Record, audit: AuditLog, io: CompleteIo)
    requires ReadableDisk(d)
    requires record.receipt.Some? ==> record.receipt.value.requestId == record.requestId
    requires Consistent(record)
    ensures ReadableDisk(Complete(d, record, audit, io).0)
  {
  }

  lemma ClaimReadable(d: Disk, hash: Digest, id: Id, audit: AuditLog, prepare: PrepareIo, publish: PublishIo)
    requires ReadableDisk(d)
    ensures ReadableDisk(Claim(d, hash, Fresh(id), audit, CAPACITY, prepare, publish).0)
  {
    var s := Snapshot(1, hash, Fresh(id), Doc(audit));
    assert Readable(s, id);
  }

  lemma PersistedAgrees(c: Core, id: Id, io: CompleteIo)
    requires Agreed(c) && id in c.registry && EntryRules(id, c.registry[id], c.now)
    ensures Agreed(c.(disk := Persisted(c.disk, c.registry[id], io).0))
  {
    var e := c.registry[id];
    if !IsActive(e.value) {
      CompleteReadable(c.disk, e.value, e.audit, io);
    }
  }

  lemma QueryAgrees(c: Core, o: Id, audit: bool, io: QueryIo)
    requires CoreInv(c) && Agreed(c)
    ensures Agreed(Get(c, o, audit, io).0)
  {
    if o in c.registry { PersistedAgrees(c, o, io.reply); }
  }

  lemma EvictedAgrees(c: Core, rio: map<Id, ReadIo>)
    requires Agreed(c)
    ensures Agreed(Evicted(c, rio))
  {
  }

  lemma FreshAgrees(c: Core, r: Request, admission: Admission, io: SubmitIo)
    requires CoreInv(c) && Agreed(c) && r.id !in c.disk.visible && io.read != OpenFails
    ensures Agreed(Submit(c, r, admission, io).0)
  {
    assert r.id in c.registry ==> Claimed(r.id, c.registry[r.id], c.disk);
    assert c.(disk := c.disk) == c;
    EvictedAgrees(c, io.evict);
    var e := NewEntry(c, r);
    ClaimReadable(Evicted(c, io.evict).disk, HashOf(r.body), r.id, e.audit, io.prepare, io.publish);
  }

  lemma SubmitAgrees(c: Core, r: Request, admission: Admission, io: SubmitIo)
    requires CoreInv(c) && Agreed(c)
    ensures Agreed(Submit(c, r, admission, io).0)
  {
    var (d, found) := Read(c.disk, r.id, io.read);
    if found.Absent? {
      FreshAgrees(c, r, admission, io);
    } else if found.Present? && r.id in c.registry {
      PersistedAgrees(c.(disk := d), r.id, io.reply);
    }
  }

  lemma UpdateAgrees(c: Core, o: Id, next: Option<Stage>, change: Change, io: CompleteIo)
    requires CoreInv(c) && Agreed(c) && o in c.registry && PublishRules(c, o, next, change)
    requires Consistent(UpdatedEntry(c.registry[o], change, c.now, c.wall).value)
    ensures Agreed(Update(Moved(c, o, next), o, change, io))
  {
    var e := UpdatedEntry(c.registry[o], change, c.now, c.wall);
    UpdatedEntryRules(o, c.registry[o], change, c.now, c.wall);
    PersistedAgrees(Moved(c, o, next).(registry := c.registry[o := e]), o, io);
  }

  lemma PublishAgrees(c: Core, o: Id, a: Action, next: Option<Stage>, change: Change, io: CompleteIo)
    requires CoreInv(c) && Agreed(c) && !Relabels(c, WorkStep(o, a, io))
    requires o in c.workers && Planned(c, o, a) == Publishes(next, change)
    ensures Agreed(Update(Moved(c, o, next), o, change, io))
  {
    PlansFollowRules(c, o, a);
    assert Threaded(c, o);
    if o in c.registry {
      UpdateConsistentIff(o, c.registry[o], change, c.now, c.wall);
      UpdateAgrees(c, o, next, change, io);
    }
  }

  lemma WorkAgrees(c: Core, o: Id, a: Action, io: CompleteIo)
    requires CoreInv(c) && Agreed(c) && !Relabels(c, WorkStep(o, a, io))
    ensures Agreed(Work(c, o, a, io))
  {
    if o in c.workers {
      match Planned(c, o, a)
      case Publishes(next, change) => PublishAgrees(c, o, a, next, change, io);
      case _ =>
    }
  }

  lemma RelabellingDisagrees(c: Core, s: Step)
    requires CoreInv(c) && Relabels(c, s)
    ensures !Agreed(Next(c, s))
  {
    assert EntryRules(s.id, c.registry[s.id], c.now);
    var e := Next(c, s).registry[s.id];
    assert e.value.receipt == c.registry[s.id].value.receipt && e.value.phase == Failed;
  }

  lemma CancelAgrees(c: Core, o: Id, io: QueryIo)
    requires CoreInv(c) && Agreed(c)
    ensures Agreed(Cancel(c, o, io).0)
  {
    QueryAgrees(c, o, false, io);
    assert o in c.registry ==> EntryRules(o, c.registry[o], c.now);
  }

  /** Writer and reader stay in agreement through a step exactly when the step is
      not a late panic that relabels a receipt. */
  lemma AgreementKeptIff(c: Core, s: Step)
    requires CoreInv(c) && Agreed(c)
    ensures Agreed(Next(c, s)) <==> !Relabels(c, s)
  {
    if Relabels(c, s) {
      RelabellingDisagrees(c, s);
    } else {
      match s
      case SubmitStep(r, admission, io) => SubmitAgrees(c, r, admission, io);
      case GetStep(o, audit, io) => QueryAgrees(c, o, audit, io);
      case CancelStep(o, io) => CancelAgrees(c, o, io);
      case WorkStep(o, a, io) => WorkAgrees(c, o, a, io);
      case _ =>
    }
  }

  /** No step of the run is one of `bad`. */
  ghost predicate Avoids(steps: seq<Step>, bad: (Core, Step) -> bool) {
    forall i :: 0 <= i < |steps| ==> !bad(Run(steps[..i]).core, steps[i])
  }

  lemma AvoidsPrefix(steps: seq<Step>, bad: (Core, Step) -> bool)
    requires steps != [] && Avoids(steps, bad)
    ensures Avoids(steps[..|steps| - 1], bad)
    ensures !bad(Run(steps[..|steps| - 1]).core, steps[|steps| - 1])
  {
    var before := steps[..|steps| - 1];
    forall i | 0 <= i < |before| ensures !bad(Run(before[..i]).core, before[i]) {
      assert before[..i] == steps[..i];
    }
  }

  /** In every run without a relabelling panic the journal never calls its own
      files invalid: a read fails only when its I/O does. */
  lemma {:induction false} ReaderAcceptsEveryPublication(steps: seq<Step>, id: Id, io: ReadIo)
    requires Avoids(steps, Relabels)
    ensures Agreed(Run(steps).core)
    ensures Read(Run(steps).core.disk, id, io).1.Unavailable? ==> io != ReadWorks
  {
    RunInv(steps);
    if steps != [] {
      AvoidsPrefix(steps, Relabels);
      var before := steps[..|steps| - 1];
      ReaderAcceptsEveryPublication(before, id, io);
      RunInv(before);
      AgreementKeptIff(Run(before).core, steps[|steps| - 1]);
    }
  }
}
