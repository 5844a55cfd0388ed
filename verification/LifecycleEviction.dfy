/** When dropping an expired entry from memory cannot be noticed: while its finished
    file holds the same. Exactly two kinds of step drive entries and finished files
    apart: one that lands a record whose receipt disagrees with it, and a panic that
    changes an entry whose file is already final. */
module LifecycleEviction {
  import opened Common
  import opened Journal
  import opened Lifecycle
  import opened LifecycleInvariant
  import opened LifecycleTheorems
  import opened LifecycleAgreement
  import opened LifecycleFiles
  import Audit

  /** Eviction drops an entry exactly when it is over, older than the cache time,
      and its terminal record can be read back durably; it never drops an active
      or unpersisted one. */
  lemma EvictionDropsOnlyDurable(c: Core, rio: map<Id, ReadIo>, id: Id)
    requires CoreInv(c) && id in c.registry
    ensures var e := c.registry[id];
            id !in Evicted(c, rio).registry <==>
              && !IsActive(e.value) && Monus(c.now, e.at) >= RECORD_TTL
              && id in c.disk.visible && Readable(c.disk.visible[id], id)
              && IoFor(rio, id) == ReadWorks && !IsActive(c.disk.visible[id].record)
    ensures id in Evicted(c, rio).registry ==> Evicted(c, rio).registry[id] == c.registry[id]
    ensures id !in Evicted(c, rio).registry ==>
              id in Evicted(c, rio).disk.synced && !IsActive(Evicted(c, rio).disk.synced[id].record)
  {
  }

  ghost predicate Filed(d: Disk, id: Id, e: Entry) {
    && id in d.visible && Readable(d.visible[id], id)
    && d.visible[id].record == e.value && d.visible[id].audit == Doc(e.audit)
  }

  /** With quiet I/O an entry and its file give the same answers exactly when the
      file holds the entry. */
  lemma EvictionVisibleIff(c: Core, id: Id)
    requires CoreInv(c) && id in c.registry && !IsActive(c.registry[id].value)
    requires id in c.disk.visible && Readable(c.disk.visible[id], id) && !IsActive(c.disk.visible[id].record)
    ensures var gone := c.(registry := c.registry - {id});
            (forall audit :: Get(c, id, audit, QUIET_QUERY).1 == Get(gone, id, audit, QUIET_QUERY).1)
            <==> Filed(c.disk, id, c.registry[id])
  {
    assert EntryRules(id, c.registry[id], c.now);
    var gone := c.(registry := c.registry - {id});
    FileAnswers(c.disk, id);
    EntryAnswersIff(c.disk, id, c.registry[id]);
    assert Get(gone, id, false, QUIET_QUERY).1 == ReplyArchived(c.disk, id, false, ReadWorks).1;
    assert Get(c, id, false, QUIET_QUERY).1 == ReplyEntry(c.disk, c.registry[id], false, ALL_WORKS).1;
  }

  lemma FileAnswers(d: Disk, id: Id)
    requires id in d.visible && Readable(d.visible[id], id) && !IsActive(d.visible[id].record)
    ensures ReplyArchived(d, id, false, ReadWorks).1 == Answer(d.visible[id].record)
    ensures ReplyArchived(d, id, true, ReadWorks).1 == AuditAnswer(d.visible[id].audit)
  {
  }

  /** A finished file lets its entry answer exactly when it holds the entry. */
  lemma EntryAnswersIff(d: Disk, id: Id, e: Entry)
    requires e.value.requestId == id && !IsActive(e.value)
    requires id in d.visible && Readable(d.visible[id], id) && !IsActive(d.visible[id].record)
    ensures Filed(d, id, e) ==>
              && ReplyEntry(d, e, false, ALL_WORKS).1 == Answer(d.visible[id].record)
              && ReplyEntry(d, e, true, ALL_WORKS).1 == AuditAnswer(d.visible[id].audit)
    ensures !Filed(d, id, e) ==> ReplyEntry(d, e, false, ALL_WORKS).1 == NotDurable
  {
    if Filed(d, id, e) {
      assert d.visible[id] == Snapshot(1, d.visible[id].requestHash, e.value, Doc(e.audit));
    }
  }

  /** Where a file and an entry are both over, they say the same. */
  ghost predicate Settled(c: Core) {
    forall id <- c.registry ::
      id in c.disk.visible && !IsActive(c.disk.visible[id].record) && !IsActive(c.registry[id].value) ==>
        Filed(c.disk, id, c.registry[id])
  }

  // ------------------------------------------------- when a step unsettles an entry

  /** What a panic makes of an entry whose outcome was already published. */
  function Panicked(e: Entry, now: nat, wall: string): Entry {
    UpdatedEntry(e, Fail(PANICKED), now, wall)
  }

  /** The entry already reads as the panic would have it: the phase, the reason and,
      under a stop, the receipt's verdict are those, and the log takes no new event. */
  predicate PanicLeaves(e: Entry, now: nat) {
    var stop := Observed(e.control, now).stop;
    var phase := if stop.Some? then Shown(StopVerdict(stop.value)) else Failed;
    var events := e.audit.events;
    && e.value.phase == phase
    && e.value.reason == Some(if stop.Some? then StopText(stop.value) else PANICKED)
    && (stop.Some? && e.value.receipt.Some? ==> e.value.receipt.value.verdict == StopVerdict(stop.value))
    && (|events| >= Audit.MAX_EVENTS || (events != [] && events[|events| - 1].phase == PhaseText(phase)))
  }

  /** Exactly then the panic changes nothing a client could see. */
  lemma PanicLeavesIff(id: Id, e: Entry, now: nat, wall: string)
    requires EntryRules(id, e, now)
    ensures var p := Panicked(e, now, wall);
            p.value == e.value && Doc(p.audit) == Doc(e.audit) <==> PanicLeaves(e, now)
  {
    var p := Panicked(e, now, wall);
    if p.value == e.value {
      NotedShows(e.audit, p.value.phase, now, wall);
      assert p.audit == Note(e.audit, p.value.phase, now, wall);
    }
  }

  /** A new event shows in the document. */
  lemma NotedShows(a: AuditLog, p: Phase, now: nat, wall: string)
    ensures Doc(Note(a, p, now, wall)) == Doc(a) <==>
              || |a.events| >= Audit.MAX_EVENTS
              || (a.events != [] && a.events[|a.events| - 1].phase == PhaseText(p))
  {
    assert |Doc(Note(a, p, now, wall)).events| == |Note(a, p, now, wall).events|;
    assert |Doc(a).events| == |a.events|;
  }

  /** A panic changes an entry whose file is already final. */
  predicate Rewrites(c: Core, s: Step) {
    && LatePanic(c, s) && s.id in c.registry && s.id in c.disk.visible
    && !IsActive(c.disk.visible[s.id].record) && !PanicLeaves(c.registry[s.id], c.now)
  }

  /** What completing does to the file of a readable claim or outcome. */
  lemma CompleteLands(d: Disk, e: Entry, io: CompleteIo)
    requires DiskInv(d) && ReadableDisk(d) && !IsActive(e.value) && e.value.requestId in d.visible
    ensures var id := e.value.requestId;
            var d' := Complete(d, e.value, e.audit, io).0;
            && (forall o :: o != id ==> (o in d'.visible <==> o in d.visible)
                                        && (o in d.visible ==> d'.visible[o] == d.visible[o]))
            && id in d'.visible
            && d'.visible[id] == if Lands(d, e, io) then Snapshot(1, d.visible[id].requestHash, e.value, Doc(e.audit))
                                 else d.visible[id]
  {
    CompleteSpec(d, e.value, e.audit, io);
  }

  /** One entry and one file change; everything else stays settled. */
  lemma OneSettlesIff(c: Core, c': Core, id: Id, e: Entry)
    requires Settled(c) && c'.registry == c.registry[id := e] && id in c'.disk.visible
    requires forall o :: o != id ==> (o in c'.disk.visible <==> o in c.disk.visible)
                                     && (o in c.disk.visible ==> c'.disk.visible[o] == c.disk.visible[o])
    ensures Settled(c') <==>
              (!IsActive(c'.disk.visible[id].record) && !IsActive(e.value) ==> Filed(c'.disk, id, e))
  {
    if !IsActive(c'.disk.visible[id].record) && !IsActive(e.value) ==> Filed(c'.disk, id, e) {
      forall o <- c'.registry | o in c'.disk.visible && !IsActive(c'.disk.visible[o].record)
                                && !IsActive(c'.registry[o].value)
        ensures Filed(c'.disk, o, c'.registry[o])
      {
        if o != id { assert Filed(c.disk, o, c.registry[o]); }
      }
    }
  }

  /** An entry takes its place and is persisted: it stays settled unless a record
      lands in disagreement, or the file was final and held something else. */
  lemma PersistSettlesIff(c: Core, id: Id, e: Entry, io: CompleteIo)
    requires DiskInv(c.disk) && ReadableDisk(c.disk) && Settled(c) && id in c.disk.visible
    requires e.value.requestId == id && (e.value.receipt.Some? ==> e.value.receipt.value.requestId == id)
    ensures Settled(c.(registry := c.registry[id := e], disk := Persisted(c.disk, e, io).0)) <==>
              && !(Lands(c.disk, e, io) && !Consistent(e.value))
              && (!IsActive(e.value) && !IsActive(c.disk.visible[id].record) ==> Filed(c.disk, id, e))
  {
    var c' := c.(registry := c.registry[id := e], disk := Persisted(c.disk, e, io).0);
    if !IsActive(e.value) { CompleteLands(c.disk, e, io); }
    OneSettlesIff(c, c', id, e);
  }

  lemma QuerySettlesIff(c: Core, id: Id, audit: bool, io: QueryIo)
    requires CoreInv(c) && ReadableDisk(c.disk) && Settled(c)
    ensures Settled(Get(c, id, audit, io).0) <==> !Spoils(c, GetStep(id, audit, io))
  {
    if id in c.registry {
      var e := c.registry[id];
      assert EntryRules(id, e, c.now) && Claimed(id, e, c.disk) && c.registry[id := e] == c.registry;
      PersistSettlesIff(c, id, e, io.reply);
    } else {
      ReadKeeps(c.disk, id, io.archived);
    }
  }

  lemma CancelSettlesIff(c: Core, id: Id, io: QueryIo)
    requires CoreInv(c) && ReadableDisk(c.disk) && Settled(c)
    ensures Settled(Cancel(c, id, io).0) <==> !Spoils(c, CancelStep(id, io))
  {
    if id in c.registry && IsActive(c.registry[id].value) {
      assert Claimed(id, c.registry[id], c.disk);
      OneSettlesIff(c, Cancel(c, id, io).0, id, CancelledEntry(c.registry[id], c.now, c.wall));
    } else {
      QuerySettlesIff(c, id, false, io);
    }
  }

  /** A claim leaves every finished file as it was and adds none. */
  lemma ClaimLeavesFinished(d: Disk, hash: Digest, id: Id, audit: AuditLog, prepare: PrepareIo, publish: PublishIo)
    requires id !in d.visible
    ensures var d' := Claim(d, hash, Fresh(id), audit, CAPACITY, prepare, publish).0;
            && (forall o <- d.visible :: o in d'.visible && d'.visible[o] == d.visible[o])
            && (forall o <- d'.visible :: !IsActive(d'.visible[o].record) ==> o in d.visible)
  {
    var s := Snapshot(1, hash, Fresh(id), Doc(audit));
    var d' := Claim(d, hash, Fresh(id), audit, CAPACITY, prepare, publish).0;
    assert d'.visible == d.visible || d'.visible == d.visible[id := s];
  }

  lemma FreshSettles(c: Core, r: Request, admission: Admission, io: SubmitIo)
    requires Settled(c) && r.id !in c.disk.visible
    ensures Settled(SubmitFresh(c, r, admission, io).0)
  {
    var c2 := Evicted(c, io.evict);
    assert c2.disk.visible == c.disk.visible;
    assert Settled(c2);
    ClaimLeavesFinished(c2.disk, HashOf(r.body), r.id, NewEntry(c2, r).audit, io.prepare, io.publish);
  }

  lemma KnownSettlesIff(c: Core, r: Request, s: Snapshot, io: CompleteIo)
    requires CoreInv(c) && ReadableDisk(c.disk) && Settled(c)
    ensures Settled(SubmitKnown(c, r, s, io).0) <==>
              !(s.requestHash == HashOf(r.body) && r.id in c.registry
                && Lands(c.disk, c.registry[r.id], io) && !Consistent(c.registry[r.id].value))
  {
    if r.id in c.registry {
      var e := c.registry[r.id];
      assert EntryRules(r.id, e, c.now) && Claimed(r.id, e, c.disk) && c.registry[r.id := e] == c.registry;
      PersistSettlesIff(c, r.id, e, io);
    }
  }

  lemma SubmitSettlesIff(c: Core, r: Request, admission: Admission, io: SubmitIo)
    requires CoreInv(c) && ReadableDisk(c.disk) && Settled(c)
    ensures Settled(Submit(c, r, admission, io).0) <==> !Spoils(c, SubmitStep(r, admission, io))
  {
    var (d, found) := Read(c.disk, r.id, io.read);
    var c1 := c.(disk := d);
    assert Settled(c1) && ReadableDisk(d);
    SubmitSpoilsIff(c, r, admission, io);
    match found
    case Unavailable =>
    case Absent => FreshSettles(c1, r, admission, io);
    case Present(s) =>
      assert CoreInv(c1) by { ReadMoves(c, r.id, io.read); }
      KnownSettlesIff(c1, r, s, io.reply);
  }

  /** What an update publishes over a final file can only be a late panic's. */
  lemma OnlyPanicsRewrite(c: Core, id: Id, a: Action, next: Option<Stage>, change: Change)
    requires CoreInv(c) && Settled(c) && id in c.workers && id in c.registry && id in c.disk.visible
    requires Planned(c, id, a) == Publishes(next, change) && !IsActive(c.disk.visible[id].record)
    ensures c.workers[id].AtDone? && a.Panic? && change == Fail(PANICKED)
    ensures Filed(c.disk, id, c.registry[id])
  {
    assert Claimed(id, c.registry[id], c.disk) && Threaded(c, id);
    PlansFollowRules(c, id, a);
  }

  lemma RewritesIff(c: Core, id: Id, a: Action, next: Option<Stage>, change: Change, io: CompleteIo)
    requires CoreInv(c) && Settled(c) && id in c.workers && id in c.registry && id in c.disk.visible
    requires Planned(c, id, a) == Publishes(next, change)
    ensures var e := UpdatedEntry(c.registry[id], change, c.now, c.wall);
            Rewrites(c, WorkStep(id, a, io)) <==>
              !IsActive(c.disk.visible[id].record) && !IsActive(e.value) && !Filed(c.disk, id, e)
  {
    if !IsActive(c.disk.visible[id].record) {
      OnlyPanicsRewrite(c, id, a, next, change);
      assert EntryRules(id, c.registry[id], c.now);
      PanicLeavesIff(id, c.registry[id], c.now, c.wall);
      UpdatedEntryRules(id, c.registry[id], change, c.now, c.wall);
    }
  }

  lemma ThreadsDoNotSettle(c: Core, workers: map<Id, Stage>)
    ensures Settled(c.(workers := workers)) <==> Settled(c)
  {
  }

  lemma UpdateSettlesIff(c: Core, id: Id, a: Action, next: Option<Stage>, change: Change, io: CompleteIo)
    requires CoreInv(c) && ReadableDisk(c.disk) && Settled(c) && id in c.workers && id in c.registry
    requires Planned(c, id, a) == Publishes(next, change)
    ensures Settled(Update(Moved(c, id, next), id, change, io)) <==>
              !(Spoils(c, WorkStep(id, a, io)) || Rewrites(c, WorkStep(id, a, io)))
  {
    var e := UpdatedEntry(c.registry[id], change, c.now, c.wall);
    assert e.value.requestId == id && (e.value.receipt.Some? ==> e.value.receipt.value.requestId == id) by {
      assert EntryRules(id, c.registry[id], c.now);
    }
    assert id in c.disk.visible by { assert Claimed(id, c.registry[id], c.disk); }
    RewritesIff(c, id, a, next, change, io);
    WorkSpoilsIff(c, id, a, io);
    PersistSettlesIff(c, id, e, io);
    var c' := c.(registry := c.registry[id := e], disk := Persisted(c.disk, e, io).0);
    ThreadsDoNotSettle(c', Moved(c, id, next).workers);
    assert Update(Moved(c, id, next), id, change, io) == c'.(workers := Moved(c, id, next).workers);
  }

  /** A step of a thread that publishes nothing: its entry is still active. */
  lemma QuietWorkSettles(c: Core, id: Id, a: Action, io: CompleteIo)
    requires CoreInv(c) && Settled(c) && id in c.workers && !Planned(c, id, a).Publishes?
    ensures Settled(Work(c, id, a, io))
  {
    assert Threaded(c, id);
    PlansFollowRules(c, id, a);
    match Planned(c, id, a)
    case Polls => ActiveSettles(c, id, ObserveStop(c, id).registry[id]);
    case Records(log) => ActiveSettles(c, id, c.registry[id].(audit := log));
    case _ =>
  }

  lemma ActiveSettles(c: Core, id: Id, e: Entry)
    requires Settled(c) && id in c.registry && IsActive(e.value)
    ensures Settled(c.(registry := c.registry[id := e]))
  {
  }

  /** Of an execution memory has dropped, only the thread moves. */
  lemma DroppedWorkSettles(c: Core, id: Id, a: Action, io: CompleteIo)
    requires Settled(c) && id in c.workers && id !in c.registry
    ensures Settled(Work(c, id, a, io))
    ensures !Spoils(c, WorkStep(id, a, io)) && !Rewrites(c, WorkStep(id, a, io))
  {
    var w := Work(c, id, a, io);
    assert w.registry == c.registry && w.disk == c.disk;
  }

  lemma WorkSettlesIff(c: Core, id: Id, a: Action, io: CompleteIo)
    requires CoreInv(c) && ReadableDisk(c.disk) && Settled(c) && id in c.workers
    ensures Settled(Work(c, id, a, io)) <==>
              !(Spoils(c, WorkStep(id, a, io)) || Rewrites(c, WorkStep(id, a, io)))
  {
    if id !in c.registry {
      DroppedWorkSettles(c, id, a, io);
    } else if !Planned(c, id, a).Publishes? {
      QuietWorkSettles(c, id, a, io);
      NoPublication(c, id, a, io);
    } else {
      WorkIsUpdate(c, id, a, io);
      UpdateSettlesIff(c, id, a, Planned(c, id, a).to, Planned(c, id, a).change, io);
    }
  }

  lemma NoPublication(c: Core, id: Id, a: Action, io: CompleteIo)
    requires id in c.workers && !Planned(c, id, a).Publishes?
    ensures !Spoils(c, WorkStep(id, a, io)) && !Rewrites(c, WorkStep(id, a, io))
  {
  }

  /** Every finished entry and its finished file stay the same through a step exactly
      when the step neither lands a record whose receipt disagrees with it nor is a
      panic that changes an entry whose file is already final. Memory need not agree
      with anything else. */
  lemma SettledKeptIff(c: Core, s: Step)
    requires CoreInv(c) && ReadableDisk(c.disk) && Settled(c)
    ensures Settled(Next(c, s)) <==> !(Spoils(c, s) || Rewrites(c, s))
  {
    match s
    case SubmitStep(r, admission, io) => SubmitSettlesIff(c, r, admission, io);
    case GetStep(id, audit, io) => QuerySettlesIff(c, id, audit, io);
    case CancelStep(id, io) => CancelSettlesIff(c, id, io);
    case WorkStep(id, a, io) => if id in c.workers { WorkSettlesIff(c, id, a, io); }
    case _ =>
  }
}
