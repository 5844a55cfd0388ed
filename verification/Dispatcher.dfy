/** The dispatcher as an object: a registry changed in place over the journal
    directory. Each method is one critical section and is proved to be the
    corresponding function of the lifecycle model, so every theorem about runs
    is a theorem about sequences of these calls. */
module Dispatcher {
  import opened Common
  import opened Journal
  import opened Lifecycle
  import opened LifecycleInvariant
  import Audit

  /** The registry and the disk of `Evicted` with only the ids in `done` looked at. */
  ghost function KeptAmong(c: Core, rio: map<Id, ReadIo>, done: set<Id>): map<Id, Entry> {
    map id <- c.registry
      | !(id in done && Droppable(c.disk, id, c.registry[id], c.now, IoFor(rio, id)))
      :: c.registry[id]
  }

  ghost predicate Looked(c: Core, rio: map<Id, ReadIo>, id: Id) {
    id in c.registry && Expired(c.registry[id], c.now) && Reads(c.disk, id, IoFor(rio, id))
  }

  ghost function DiskAmong(c: Core, rio: map<Id, ReadIo>, done: set<Id>): Disk {
    if exists id <- done :: Looked(c, rio, id) then Synced(c.disk) else c.disk
  }

  lemma SweptNone(c: Core, rio: map<Id, ReadIo>)
    ensures KeptAmong(c, rio, {}) == c.registry && DiskAmong(c, rio, {}) == c.disk
  {
  }

  lemma EvictedAll(c: Core, rio: map<Id, ReadIo>)
    ensures KeptAmong(c, rio, c.registry.Keys) == Evicted(c, rio).registry
    ensures DiskAmong(c, rio, c.registry.Keys) == Evicted(c, rio).disk
  {
    if exists id <- c.registry.Keys :: Looked(c, rio, id) {
      var id :| id in c.registry.Keys && Looked(c, rio, id);
      assert Expired(c.registry[id], c.now) && Reads(c.disk, id, IoFor(rio, id));
    }
    if exists id <- c.registry :: Expired(c.registry[id], c.now) && Reads(c.disk, id, IoFor(rio, id)) {
      var id :| id in c.registry && Expired(c.registry[id], c.now) && Reads(c.disk, id, IoFor(rio, id));
      assert Looked(c, rio, id);
    }
  }

  /** Looking at one more id: a terminal snapshot lets its entry go ... */
  lemma KeptOneMore(c: Core, rio: map<Id, ReadIo>, done: set<Id>, id: Id)
    requires id in c.registry && id !in done
    ensures id in KeptAmong(c, rio, done) && KeptAmong(c, rio, done)[id] == c.registry[id]
    ensures KeptAmong(c, rio, done + {id}) ==
              if Droppable(c.disk, id, c.registry[id], c.now, IoFor(rio, id))
              then KeptAmong(c, rio, done) - {id} else KeptAmong(c, rio, done)
  {
  }

  /** ... and a read that finds any snapshot syncs the directory. */
  lemma DiskOneMore(c: Core, rio: map<Id, ReadIo>, done: set<Id>, id: Id)
    requires DiskInv(c.disk) && id in c.registry
    ensures DiskInv(DiskAmong(c, rio, done))
    ensures var d := DiskAmong(c, rio, done);
            var (d', found) := Read(d, id, IoFor(rio, id));
            && DiskAmong(c, rio, done + {id}) == (if Expired(c.registry[id], c.now) then d' else d)
            && (Droppable(c.disk, id, c.registry[id], c.now, IoFor(rio, id)) <==>
                  Expired(c.registry[id], c.now) && found.Present? && !IsActive(found.snapshot.record))
  {
    if Looked(c, rio, id) {
      assert id in done + {id};
    } else if exists o <- done :: Looked(c, rio, o) {
      var o :| o in done && Looked(c, rio, o);
      assert o in done + {id};
    }
  }

  lemma EvictedKeepsDisk(c: Core, rio: map<Id, ReadIo>)
    requires DiskInv(c.disk)
    ensures DiskInv(Evicted(c, rio).disk)
  {
  }

  class Server {
    var now: nat
    var wall: string
    var registry: map<Id, Entry>
    var workers: map<Id, Stage>
    const journal: Directory

    function Model(): Core reads this, journal {
      Core(now, wall, journal.Model(), registry, workers)
    }

    ghost predicate Valid() reads this, journal {
      CoreInv(Model())
    }

    constructor (root: Directory)
      requires root.Model() == EMPTY_DISK
      ensures Valid() && Model() == BOOT.core && journal == root
    {
      now, wall, registry, workers := 0, "", map[], map[];
      journal := root;
      new;
      RunInv([]);
    }

    /** `persist_terminal`. */
    method Persist(e: Entry, io: CompleteIo) returns (ok: bool)
      requires DiskInv(journal.Model())
      modifies journal
      ensures (journal.Model(), ok) == Persisted(old(journal.Model()), e, io)
    {
      if IsActive(e.value) { return true; }
      ok := journal.CompleteRecord(e.value, e.audit, io);
    }

    method Reply(e: Entry, audit: bool, io: CompleteIo) returns (r: Response)
      requires DiskInv(journal.Model())
      modifies journal
      ensures (journal.Model(), r) == ReplyEntry(old(journal.Model()), e, audit, io)
    {
      var ok := Persist(e, io);
      if !ok { return NotDurable; }
      r := if audit then AuditAnswer(Doc(e.audit)) else Answer(e.value);
    }

    method Archived(id: Id, audit: bool, io: ReadIo) returns (r: Response)
      requires DiskInv(journal.Model())
      modifies journal
      ensures (journal.Model(), r) == ReplyArchived(old(journal.Model()), id, audit, io)
    {
      var found := journal.ReadRecord(id, io);
      match found
      case Present(s) => r := ReplySnapshot(s, audit);
      case Absent => r := UnknownExecution;
      case Unavailable => r := JournalUnavailable;
    }

    method Status(id: Id, audit: bool, io: QueryIo) returns (r: Response)
      requires Valid()
      modifies this, journal
      ensures Valid() && (Model(), r) == Get(old(Model()), id, audit, io)
    {
      GetKeeps(Model(), id, audit, io);
      if id in registry {
        r := Reply(registry[id], audit, io.reply);
      } else {
        r := Archived(id, audit, io.archived);
      }
    }

    method CancelExecution(id: Id, io: QueryIo) returns (r: Response)
      requires Valid()
      modifies this, journal
      ensures Valid() && (Model(), r) == Cancel(old(Model()), id, io)
    {
      CancelKeeps(Model(), id, io);
      if id in registry && IsActive(registry[id].value) {
        var entry := registry[id];
        entry := entry.(control := CancelControl(entry.control, now));
        entry := entry.(value := entry.value.(phase := Cancelling,
                        reason := Some("cancellation requested; cleanup pending")));
        entry := entry.(audit := Note(entry.audit, Cancelling, now, wall));
        registry := registry[id := entry];
        return Accepted(entry.value);
      }
      r := Status(id, false, io);
    }

    /** `evict_expired` has looked at the ids in `done`, starting from `before`. */
    ghost predicate Swept(before: Core, rio: map<Id, ReadIo>, done: set<Id>) reads this, journal {
      registry == KeptAmong(before, rio, done) && journal.Model() == DiskAmong(before, rio, done)
    }

    /** The closure of `retain` on one entry: an expired one goes once the journal
        durably holds a terminal record for it. */
    method EvictOne(id: Id, rio: map<Id, ReadIo>, ghost before: Core, ghost done: set<Id>)
      requires DiskInv(before.disk) && id in before.registry && id !in done
      requires Swept(before, rio, done) && now == before.now
      modifies this`registry, journal
      ensures Swept(before, rio, done + {id})
    {
      KeptOneMore(before, rio, done, id);
      DiskOneMore(before, rio, done, id);
      if Expired(registry[id], now) {
        var found := journal.ReadRecord(id, IoFor(rio, id));
        if found.Present? && !IsActive(found.snapshot.record) {
          registry := registry - {id};
        }
      }
    }

    /** `evict_expired`: each expired entry is looked up, in no particular order. */
    method EvictExpired(rio: map<Id, ReadIo>)
      requires DiskInv(journal.Model())
      modifies this`registry, journal
      ensures Model() == Evicted(old(Model()), rio)
    {
      ghost var before := Model();
      var todo := registry.Keys;
      ghost var done := {};
      SweptNone(before, rio);
      while todo != {}
        invariant done !! todo && done + todo == before.registry.Keys
        invariant Swept(before, rio, done)
        decreases |todo|
      {
        var id :| id in todo;
        EvictOne(id, rio, before, done);
        todo, done := todo - {id}, done + {id};
      }
      assert done == before.registry.Keys;
      EvictedAll(before, rio);
    }

    /** An id the journal does not hold: answer from memory if it is there, else
        evict, check capacity, claim and register. */
    method SubmitAbsent(r: Request, admission: Admission, io: SubmitIo) returns (a: Response)
      requires DiskInv(journal.Model())
      modifies this, journal
      ensures (Model(), a) == if r.id in old(registry) then (old(Model()), Accepted(old(registry)[r.id].value))
                              else SubmitFresh(old(Model()), r, admission, io)
    {
      if r.id in registry { return Accepted(registry[r.id].value); }
      EvictedKeepsDisk(Model(), io.evict);
      EvictExpired(io.evict);
      if admission.Full? { return AtCapacity; }
      if admission.Unfit? { return Ineligible; }
      var entry := NewEntry(Model(), r);
      var ok := journal.ClaimRecord(HashOf(r.body), entry.value, entry.audit, CAPACITY, io.prepare, io.publish);
      if !ok { return ClaimUnavailable; }
      registry := registry[r.id := entry];
      workers := workers[r.id := AtClaim(r.body, r.forge)];
      a := Launching;
    }

    /** An id the journal holds. */
    method AnswerKnown(r: Request, s: Snapshot, io: CompleteIo) returns (a: Response)
      requires DiskInv(journal.Model())
      modifies journal
      ensures (Model(), a) == SubmitKnown(old(Model()), r, s, io)
    {
      if s.requestHash != HashOf(r.body) { return Conflict; }
      if r.id in registry {
        if IsActive(registry[r.id].value) { return Accepted(registry[r.id].value); }
        a := Reply(registry[r.id], false, io);
        return;
      }
      a := ReplySnapshot(s, false);
    }

    method SubmitExecution(r: Request, admission: Admission, io: SubmitIo) returns (a: Response)
      requires Valid()
      modifies this, journal
      ensures Valid() && (Model(), a) == Submit(old(Model()), r, admission, io)
    {
      SubmitKeeps(Model(), r, admission, io);
      var found := journal.ReadRecord(r.id, io.read);
      match found {
        case Unavailable => a := JournalUnavailable;
        case Present(s) => a := AnswerKnown(r, s, io.reply);
        case Absent => a := SubmitAbsent(r, admission, io);
      }
    }

    /** The new entry of `update_execution`: the change, then whatever a stop makes
        of it, then its time and its audit. */
    method Revised(was: Entry, change: Change) returns (entry: Entry)
      ensures entry == UpdatedEntry(was, change, now, wall)
    {
      entry := was.(value := Changed(was.value, change), control := Observed(was.control, now));
      if entry.control.stop.Some? {
        var reason := entry.control.stop.value;
        if !IsActive(entry.value) {
          var verdict := StopVerdict(reason);
          entry := entry.(value := entry.value.(phase := Shown(verdict), reason := Some(StopText(reason))));
          if entry.value.receipt.Some? {
            entry := entry.(value := entry.value.(
                            receipt := Some(entry.value.receipt.value.(verdict := verdict))));
          }
        } else if reason == ByCancel {
          entry := entry.(value := entry.value.(phase := Cancelling));
        }
      }
      if !IsActive(entry.value) {
        entry := entry.(at := now);
      }
      entry := entry.(audit := Note(entry.audit, entry.value.phase, now, wall));
      entry := entry.(audit := entry.audit.(receipt := entry.value.receipt));
    }

    /** `update_execution`, called by the thread of `id` as it moves to `next`. */
    method UpdateExecution(id: Id, next: Option<Stage>, change: Change, io: CompleteIo)
      requires Valid() && id in workers && PublishRules(Model(), id, next, change)
      modifies this, journal
      ensures Valid() && Model() == Update(Moved(old(Model()), id, next), id, change, io)
    {
      UpdateKeeps(Model(), id, next, change, io);
      workers := if next.Some? then workers[id := next.value] else workers - {id};
      if id !in registry { return; }
      var entry := Revised(registry[id], change);
      registry := registry[id := entry];
      var _ := Persist(entry, io);
    }

    /** What the thread of `id` does next, read off its place in `run_execution`. */
    method NextMove(id: Id, action: Action) returns (plan: Plan)
      requires id in workers
      ensures plan == Planned(Model(), id, action)
    {
      plan := Stay;
      var stage := workers[id];
      match action {
        case Spawn =>
          if stage.AtClaim? { plan := Moves(Some(AtStart(stage.forge))); }
        case SpawnFails =>
          if stage.AtClaim? { plan := Publishes(None, Fail("execution worker unavailable")); }
        case Check =>
          if stage.AtStart? && id in registry {
            var control := Observed(registry[id].control, now);
            if control.stop.Some? {
              plan := Publishes(Some(AtDone), Fail(StopText(control.stop.value)));
            } else {
              plan := Moves(Some(AtChecked(stage.forge)));
            }
          }
        case Observe =>
          if !stage.AtClaim? && !stage.AtDone? { plan := Polls; }
        case RefuseWork(why) =>
          if stage.AtChecked? { plan := Publishes(Some(AtDone), Refuse(why)); }
        case FailWork(why) =>
          if stage.AtForge? || stage.AtPrepare? || stage.AtResolve? {
            plan := Publishes(Some(AtDone), Fail(why));
          }
        case Advance =>
          match stage {
            case AtChecked(true) => plan := Publishes(Some(AtForge), Enter(Forging));
            case AtChecked(false) => plan := Publishes(Some(AtResolve), Enter(Resolving));
            case AtForge => plan := Publishes(Some(AtPrepare), Enter(Preparing));
            case AtPrepare => plan := Moves(Some(AtLaunched));
            case AtResolve => plan := Moves(Some(AtLaunched));
            case _ =>
          }
        case Execute(cell, execution) =>
          if stage.AtLaunched? && id in registry && forall e | e in cell :: e.observed <= now {
            var log := registry[id].audit;
            plan := Records(log.(events := Audit.Merged(log.events, cell), execution := Some(execution)));
          }
        case FinishWork(guest, note, text, details) =>
          if stage.AtExecuted? {
            plan := Publishes(Some(AtDone), Finish(if guest then Success else Failure, note, text, details));
          }
        case Panic =>
          if !stage.AtClaim? { plan := Publishes(None, Fail(PANICKED)); }
        case Exit =>
          if stage.AtDone? { plan := Moves(None); }
      }
    }

    /** One move of a worker thread. */
    method RunWorker(id: Id, action: Action, io: CompleteIo)
      requires Valid()
      modifies this, journal
      ensures Valid() && Model() == Work(old(Model()), id, action, io)
    {
      WorkKeeps(Model(), id, action, io);
      if id !in workers { return; }
      PlansFollowRules(Model(), id, action);
      var plan := NextMove(id, action);
      match plan {
        case Stay =>
        case Moves(next) => workers := if next.Some? then workers[id := next.value] else workers - {id};
        case Polls =>
          if id in registry {
            registry := registry[id := registry[id].(control := Observed(registry[id].control, now))];
          }
        case Publishes(next, change) => UpdateExecution(id, next, change, io);
        case Records(log) =>
          if id in registry {
            registry := registry[id := registry[id].(audit := log)];
            workers := workers[id := AtExecuted];
          }
      }
    }
  }
}
