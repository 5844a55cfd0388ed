/** What `read` makes of the files alone, whatever memory holds: exactly which steps
    put a record on disk that it rejects, and that a durable one stays rejected. */
module LifecycleFiles {
  import opened Common
  import opened Journal
  import opened Lifecycle
  import opened LifecycleInvariant
  import opened LifecycleTheorems
  import opened LifecycleAgreement

  // ------------------------------------------------------------ spoiling a file

  /** The entry a step hands to `persist_terminal`, and the I/O it meets there. */
  function Offered(c: Core, s: Step): Option<(Entry, CompleteIo)> {
    match s
    case GetStep(id, _, io) => if id in c.registry then Some((c.registry[id], io.reply)) else None
    case CancelStep(id, io) =>
      if id in c.registry && !IsActive(c.registry[id].value) then Some((c.registry[id], io.reply)) else None
    case SubmitStep(r, _, io) =>
      var found := Read(c.disk, r.id, io.read).1;
      if found.Present? && found.snapshot.requestHash == HashOf(r.body) && r.id in c.registry
      then Some((c.registry[r.id], io.reply)) else None
    case WorkStep(id, a, io) =>
      if id in c.workers && id in c.registry && Planned(c, id, a).Publishes?
      then Some((UpdatedEntry(c.registry[id], Planned(c, id, a).change, c.now, c.wall), io)) else None
    case _ => None
  }

  /** The offered record replaces its claim: it is an outcome, the claim is still
      there and can be read, and the new file can be written. */
  predicate Lands(d: Disk, e: Entry, io: CompleteIo) {
    var id := e.value.requestId;
    && !IsActive(e.value) && io.read.ReadWorks? && !io.publish.TempFails?
    && id in d.visible && IsActive(d.visible[id].record)
  }

  /** A record whose phase and receipt disagree lands on disk. */
  predicate Spoils(c: Core, s: Step) {
    var offer := Offered(c, s);
    offer.Some? && Lands(c.disk, offer.value.0, offer.value.1) && !Consistent(offer.value.0.value)
  }

  lemma PersistedReadableIff(d: Disk, e: Entry, io: CompleteIo)
    requires ReadableDisk(d)
    requires e.value.receipt.Some? ==> e.value.receipt.value.requestId == e.value.requestId
    ensures ReadableDisk(Persisted(d, e, io).0) <==> !(Lands(d, e, io) && !Consistent(e.value))
  {
    if !IsActive(e.value) {
      if Consistent(e.value) { CompleteReadable(d, e.value, e.audit, io); }
      if Lands(d, e, io) {
        assert Persisted(d, e, io).0.visible[e.value.requestId].record == e.value;
      } else {
        assert Persisted(d, e, io).0 == d || Persisted(d, e, io).0 == Synced(d);
      }
    }
  }

  lemma QueryReadableIff(c: Core, id: Id, audit: bool, io: QueryIo)
    requires CoreInv(c) && ReadableDisk(c.disk)
    ensures ReadableDisk(Get(c, id, audit, io).0.disk) <==> !Spoils(c, GetStep(id, audit, io))
  {
    if id in c.registry {
      assert EntryRules(id, c.registry[id], c.now);
      PersistedReadableIff(c.disk, c.registry[id], io.reply);
    }
  }

  lemma CancelReadableIff(c: Core, id: Id, io: QueryIo)
    requires CoreInv(c) && ReadableDisk(c.disk)
    ensures ReadableDisk(Cancel(c, id, io).0.disk) <==> !Spoils(c, CancelStep(id, io))
  {
    QueryReadableIff(c, id, false, io);
  }

  lemma FreshReadable(c: Core, r: Request, admission: Admission, io: SubmitIo)
    requires ReadableDisk(c.disk)
    ensures ReadableDisk(SubmitFresh(c, r, admission, io).0.disk)
  {
    var e := NewEntry(c, r);
    ClaimReadable(Evicted(c, io.evict).disk, HashOf(r.body), r.id, e.audit, io.prepare, io.publish);
  }

  lemma KnownReadableIff(c: Core, r: Request, s: Snapshot, io: CompleteIo)
    requires CoreInv(c) && ReadableDisk(c.disk)
    ensures ReadableDisk(SubmitKnown(c, r, s, io).0.disk) <==>
              !(s.requestHash == HashOf(r.body) && r.id in c.registry
                && Lands(c.disk, c.registry[r.id], io) && !Consistent(c.registry[r.id].value))
  {
    if r.id in c.registry {
      assert EntryRules(r.id, c.registry[r.id], c.now);
      PersistedReadableIff(c.disk, c.registry[r.id], io);
    }
  }

  /** What spoiling means for a submit, and for a worker. */
  lemma SubmitSpoilsIff(c: Core, r: Request, admission: Admission, io: SubmitIo)
    ensures var found := Read(c.disk, r.id, io.read).1;
            Spoils(c, SubmitStep(r, admission, io)) <==>
              found.Present? && found.snapshot.requestHash == HashOf(r.body) && r.id in c.registry
              && Lands(c.disk, c.registry[r.id], io.reply) && !Consistent(c.registry[r.id].value)
  {
  }

  lemma WorkSpoilsIff(c: Core, id: Id, a: Action, io: CompleteIo)
    requires id in c.workers && id in c.registry && Planned(c, id, a).Publishes?
    ensures var e := UpdatedEntry(c.registry[id], Planned(c, id, a).change, c.now, c.wall);
            Spoils(c, WorkStep(id, a, io)) <==> Lands(c.disk, e, io) && !Consistent(e.value)
  {
  }

  lemma SubmitReadableIff(c: Core, r: Request, admission: Admission, io: SubmitIo)
    requires CoreInv(c) && ReadableDisk(c.disk)
    ensures ReadableDisk(Submit(c, r, admission, io).0.disk) <==> !Spoils(c, SubmitStep(r, admission, io))
  {
    var (d, found) := Read(c.disk, r.id, io.read);
    var c1 := c.(disk := d);
    SubmitSpoilsIff(c, r, admission, io);
    match found
    case Unavailable =>
    case Absent => FreshReadable(c1, r, admission, io);
    case Present(s) =>
      assert CoreInv(c1) by { ReadMoves(c, r.id, io.read); }
      KnownReadableIff(c1, r, s, io.reply);
  }

  lemma UpdateReadableIff(c: Core, id: Id, a: Action, next: Option<Stage>, change: Change, io: CompleteIo)
    requires CoreInv(c) && ReadableDisk(c.disk) && id in c.workers && id in c.registry
    requires Planned(c, id, a) == Publishes(next, change)
    ensures ReadableDisk(Update(Moved(c, id, next), id, change, io).disk) <==> !Spoils(c, WorkStep(id, a, io))
  {
    assert EntryRules(id, c.registry[id], c.now);
    WorkSpoilsIff(c, id, a, io);
    PersistedReadableIff(c.disk, UpdatedEntry(c.registry[id], change, c.now, c.wall), io);
  }

  lemma WorkIsUpdate(c: Core, id: Id, a: Action, io: CompleteIo)
    requires id in c.workers && Planned(c, id, a).Publishes?
    ensures var p := Planned(c, id, a);
            Work(c, id, a, io) == Update(Moved(c, id, p.to), id, p.change, io)
  {
  }

  lemma QuietWorkLeavesFiles(c: Core, id: Id, a: Action, io: CompleteIo)
    requires id in c.workers && id in c.registry ==> !Planned(c, id, a).Publishes?
    ensures Work(c, id, a, io).disk == c.disk
  {
  }

  lemma WorkReadableIff(c: Core, id: Id, a: Action, io: CompleteIo)
    requires CoreInv(c) && ReadableDisk(c.disk)
    ensures ReadableDisk(Work(c, id, a, io).disk) <==> !Spoils(c, WorkStep(id, a, io))
  {
    if id in c.workers && id in c.registry && Planned(c, id, a).Publishes? {
      WorkIsUpdate(c, id, a, io);
      UpdateReadableIff(c, id, a, Planned(c, id, a).to, Planned(c, id, a).change, io);
    } else {
      QuietWorkLeavesFiles(c, id, a, io);
    }
  }

  /** Files alone. From any readable disk, whatever memory holds, a step keeps every
      file acceptable to `read` exactly when it does not land a record whose phase
      and receipt disagree: worker updates, and queries, cancels and submits that
      retry a publication, included. */
  lemma FilesKeptReadableIff(c: Core, s: Step)
    requires CoreInv(c) && ReadableDisk(c.disk)
    ensures ReadableDisk(Next(c, s).disk) <==> !Spoils(c, s)
  {
    match s
    case SubmitStep(r, admission, io) => SubmitReadableIff(c, r, admission, io);
    case GetStep(id, audit, io) => QueryReadableIff(c, id, audit, io);
    case CancelStep(id, io) => CancelReadableIff(c, id, io);
    case WorkStep(id, a, io) => WorkReadableIff(c, id, a, io);
    case _ =>
  }

  /** While memory agrees too, that is: a late panic relabels a receipt, the claim is
      still on file and can be read, and the new file can be written. */
  lemma PanicSpoilsIff(c: Core, s: Step)
    requires CoreInv(c) && Agreed(c)
    ensures Spoils(c, s) <==>
              && Relabels(c, s) && IsActive(c.disk.visible[s.id].record)
              && s.wio.read.ReadWorks? && !s.wio.publish.TempFails?
  {
    if Relabels(c, s) {
      RelabelledEntry(c, s.id, s.wio);
    } else {
      AgreementKeptIff(c, s);
      FilesKeptReadableIff(c, s);
    }
  }

  lemma RelabelledEntry(c: Core, id: Id, io: CompleteIo)
    requires CoreInv(c) && Relabels(c, WorkStep(id, Panic, io))
    ensures id in c.disk.visible
    ensures Offered(c, WorkStep(id, Panic, io)).Some?
    ensures var e := Offered(c, WorkStep(id, Panic, io)).value.0;
            e.value.requestId == id && !IsActive(e.value) && !Consistent(e.value)
  {
    assert EntryRules(id, c.registry[id], c.now) && Claimed(id, c.registry[id], c.disk);
  }

  lemma RunGoesOn(steps: seq<Step>, i: nat)
    requires i < |steps|
    ensures Run(steps[..i + 1]) == Stepped(Run(steps[..i]), steps[i])
  {
    assert steps[..i + 1] == steps[..i] + [steps[i]];
    RunAppend(steps[..i], steps[i]);
  }

  /** Over whole runs: every file of every moment is readable exactly when no step of
      the run lands such a record. */
  lemma RunsStayReadableIff(steps: seq<Step>)
    ensures (forall i :: 0 <= i <= |steps| ==> ReadableDisk(Run(steps[..i]).core.disk)) <==> Avoids(steps, Spoils)
  {
    if Avoids(steps, Spoils) {
      forall i | 0 <= i <= |steps| ensures ReadableDisk(Run(steps[..i]).core.disk) {
        ReadableWhileUnspoiled(steps, i);
      }
    }
    if forall i :: 0 <= i <= |steps| ==> ReadableDisk(Run(steps[..i]).core.disk) {
      forall i | 0 <= i < |steps| ensures !Spoils(Run(steps[..i]).core, steps[i]) {
        RunInv(steps[..i]);
        RunGoesOn(steps, i);
        assert ReadableDisk(Run(steps[..i]).core.disk) && ReadableDisk(Run(steps[..i + 1]).core.disk);
        FilesKeptReadableIff(Run(steps[..i]).core, steps[i]);
      }
    }
  }

  lemma {:induction false} ReadableWhileUnspoiled(steps: seq<Step>, i: nat)
    requires i <= |steps| && Avoids(steps, Spoils)
    ensures ReadableDisk(Run(steps[..i]).core.disk)
  {
    if i > 0 {
      ReadableWhileUnspoiled(steps, i - 1);
      RunInv(steps[..i - 1]);
      RunGoesOn(steps, i - 1);
      FilesKeptReadableIff(Run(steps[..i - 1]).core, steps[i - 1]);
    }
  }

  // -------------------------------------------------------------- broken for good

  /** A durable outcome that `read` rejects. */
  ghost predicate Broken(d: Disk, id: Id) {
    id in d.synced && !IsActive(d.synced[id].record) && !Readable(d.synced[id], id)
  }

  lemma BrokenStays(c: Core, s: Step, id: Id)
    requires CoreInv(c) && Broken(c.disk, id)
    ensures Broken(Next(c, s).disk, id)
  {
    StepKeeps(c, s);
  }

  lemma BrokenOneMore(steps: seq<Step>, s: Step, id: Id)
    requires Broken(Run(steps).core.disk, id)
    ensures Broken(Run(steps + [s]).core.disk, id)
  {
    RunAppend(steps, s);
    RunInv(steps);
    BrokenStays(Run(steps).core, s, id);
  }

  lemma {:induction false} BrokenRun(steps: seq<Step>, more: seq<Step>, id: Id)
    requires Broken(Run(steps).core.disk, id)
    ensures Broken(Run(steps + more).core.disk, id)
  {
    if more == [] {
      assert steps + more == steps;
    } else {
      var last := |more| - 1;
      BrokenRun(steps, more[..last], id);
      BrokenOneMore(steps + more[..last], more[last], id);
      SplitsAtLast(steps, more);
    }
  }

  /** The answers while a durable file is rejected: no query, cancel or submit gets a
      record, an audit or a start, whatever the I/O does. */
  lemma BrokenAnswers(c: Core, id: Id, audit: bool, io: QueryIo, r: Request, admission: Admission, sio: SubmitIo)
    requires CoreInv(c) && Broken(c.disk, id) && r.id == id
    ensures Get(c, id, audit, io).1 in {NotDurable, JournalUnavailable}
    ensures Cancel(c, id, io).1 in {NotDurable, JournalUnavailable}
    ensures Submit(c, r, admission, sio).1 == JournalUnavailable
  {
    assert c.disk.visible[id] == c.disk.synced[id];
    if id in c.registry {
      assert Claimed(id, c.registry[id], c.disk) && EntryRules(id, c.registry[id], c.now);
    }
  }

  /** Once durable, rejected for good: through every later step, restarts and power
      losses included, the file stays and every request for the id is turned away. */
  lemma BrokenForever(steps: seq<Step>, more: seq<Step>, id: Id, audit: bool, io: QueryIo,
                      r: Request, admission: Admission, sio: SubmitIo)
    requires Broken(Run(steps).core.disk, id) && r.id == id
    ensures var c := Run(steps + more).core;
            && Broken(c.disk, id)
            && Get(c, id, audit, io).1 in {NotDurable, JournalUnavailable}
            && Cancel(c, id, io).1 in {NotDurable, JournalUnavailable}
            && Submit(c, r, admission, sio).1 == JournalUnavailable
  {
    BrokenRun(steps, more, id);
    RunInv(steps + more);
    BrokenAnswers(Run(steps + more).core, id, audit, io, r, admission, sio);
  }

  /** How a file breaks: a success whose publication failed before the rename, then a
      panic during cleanup whose own publication works. */
  lemma RelabellingMakesTheRecordUnreadable(c: Core, id: Id, receipt: Receipt)
    requires CoreInv(c) && Agreed(c) && id in c.registry && id in c.workers && c.workers[id].AtDone?
    requires c.registry[id].value.receipt == Some(receipt) && receipt.verdict == Success
    requires Observed(c.registry[id].control, c.now).stop.None?
    requires IsActive(c.disk.visible[id].record)
    ensures var c' := Work(c, id, Panic, ALL_WORKS);
            && id in c'.disk.visible && !Readable(c'.disk.visible[id], id) && c'.disk.synced == c'.disk.visible
            && Broken(c'.disk, id)
            && forall io: QueryIo, audit: bool :: Get(c', id, audit, io).1 == NotDurable
  {
    var e := UpdatedEntry(c.registry[id], Fail(PANICKED), c.now, c.wall);
    var d := Work(c, id, Panic, ALL_WORKS).disk;
    assert e.value.requestId == id && id in c.disk.visible && Readable(c.disk.visible[id], id) by {
      assert EntryRules(id, c.registry[id], c.now) && Claimed(id, c.registry[id], c.disk);
    }
    LandsDisagreeing(c.disk, e);
    assert d == Complete(c.disk, e.value, e.audit, ALL_WORKS).0;
    forall io: QueryIo, audit: bool ensures Get(Work(c, id, Panic, ALL_WORKS), id, audit, io).1 == NotDurable {
      RejectedIsNotDurable(d, id, e, audit, io.reply);
    }
  }

  lemma LandsDisagreeing(d: Disk, e: Entry)
    requires !IsActive(e.value) && !Consistent(e.value) && e.value.requestId in d.visible
    requires Readable(d.visible[e.value.requestId], e.value.requestId)
    requires IsActive(d.visible[e.value.requestId].record)
    ensures var id := e.value.requestId;
            var d' := Complete(d, e.value, e.audit, ALL_WORKS).0;
            && id in d'.visible && !Readable(d'.visible[id], id) && d'.synced == d'.visible && Broken(d', id)
  {
  }

  lemma RejectedIsNotDurable(d: Disk, id: Id, e: Entry, audit: bool, io: CompleteIo)
    requires id in d.visible && !Readable(d.visible[id], id) && e.value.requestId == id && !IsActive(e.value)
    ensures ReplyEntry(d, e, audit, io).1 == NotDurable
  {
  }
}
