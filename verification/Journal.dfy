/** The execution journal (dispatch_journal.rs): one file per request id, written
    once as an admission claim and replaced at most once by a terminal record.

    The directory has two layers. `visible` is what the running kernel shows;
    `synced` is what survives a power loss. A publication changes `visible` at
    once and reaches `synced` only with a successful directory sync; a power loss
    may keep or drop, id by id, whatever was never synced. File contents are
    synced before the rename, so a surviving file is whole. */
module Journal {
  import opened Common
  import Audit

  type Id = string

  const CAPACITY: nat := 100_000

  datatype Phase =
    | Admitting | Forging | Preparing | Resolving | Cancelling
    | Succeeded | Failed | Refused | Cancelled

  /** The three outcomes a receipt can carry (`ExecutionPhase`). */
  datatype Verdict = Success | Failure | Cancellation

  /** `format!("{phase:?}")` of an `ExecutionPhase`. */
  function Shown(v: Verdict): Phase {
    match v
    case Success => Succeeded
    case Failure => Failed
    case Cancellation => Cancelled
  }

  datatype Receipt = Receipt(requestId: Id, verdict: Verdict, details: string)

  datatype Record = Record(
    requestId: Id, phase: Phase, reason: Option<string>, output: Option<string>,
    receipt: Option<Receipt>)

  predicate IsActive(r: Record) {
    !(r.phase.Succeeded? || r.phase.Failed? || r.phase.Refused? || r.phase.Cancelled?)
  }

  /** The audit as held in memory; `Doc` is what is serialised, without the
      monotonic observation times. */
  datatype AuditLog = AuditLog(
    events: seq<Audit.Event>, execution: Option<string>, receipt: Option<Receipt>)

  datatype AuditDoc = AuditDoc(
    events: seq<(nat, string, string)>, execution: Option<string>, receipt: Option<Receipt>)

  function Doc(a: AuditLog): AuditDoc {
    AuditDoc(
      seq(|a.events|, i requires 0 <= i < |a.events| =>
        (a.events[i].sequence, a.events[i].at, a.events[i].phase)),
      a.execution, a.receipt)
  }

  /** A document shows each event's number, time and phase, the evidence and the receipt,
      and tells two logs apart exactly by these, never by when the host observed them. */
  lemma DocShows(a: AuditLog, b: AuditLog)
    ensures Doc(a) == Doc(b) <==>
              && |a.events| == |b.events| && a.execution == b.execution && a.receipt == b.receipt
              && forall i :: 0 <= i < |a.events| ==>
                   a.events[i].(observed := 0) == b.events[i].(observed := 0)
    ensures Doc(a).execution == a.execution && Doc(a).receipt == a.receipt
    ensures forall i :: 0 <= i < |a.events| ==>
              Doc(a).events[i] == (a.events[i].sequence, a.events[i].at, a.events[i].phase)
  {
    var x, y := Doc(a), Doc(b);
    assert |x.events| == |a.events| && |y.events| == |b.events|;
    if x == y {
      forall i | 0 <= i < |a.events| ensures a.events[i].(observed := 0) == b.events[i].(observed := 0) {
        assert x.events[i] == y.events[i];
      }
    } else if |a.events| == |b.events| && a.execution == b.execution && a.receipt == b.receipt {
      var i :| 0 <= i < |a.events| && x.events[i] != y.events[i];
      assert a.events[i].(observed := 0) != b.events[i].(observed := 0);
    }
  }

  datatype Snapshot = Snapshot(version: nat, requestHash: Digest, record: Record, audit: AuditDoc)

  datatype Disk = Disk(visible: map<Id, Snapshot>, synced: map<Id, Snapshot>)

  const EMPTY_DISK := Disk(map[], map[])

  // ------------------------------------------------------- outcomes of the I/O

  datatype ReadIo = ReadWorks | OpenFails | ReadSyncFails
  /** `TempFails` covers everything before the rename, an oversized record included. */
  datatype PublishIo = PublishWorks | TempFails | PublishSyncFails
  /** Ancestors are synced innermost first, so a later one can fail alone. */
  datatype PrepareIo = PrepareWorks | PrepareFails | AncestorFails
  datatype CompleteIo = CompleteIo(read: ReadIo, publish: PublishIo, resync: bool)

  const ALL_WORKS := CompleteIo(ReadWorks, PublishWorks, true)

  datatype Found = Absent | Present(snapshot: Snapshot) | Unavailable

  // ---------------------------------------------------------------- operations

  function Synced(d: Disk): Disk {
    Disk(d.visible, d.visible)
  }

  /** The identity, version and receipt checks of `read`. */
  predicate Readable(s: Snapshot, id: Id) {
    && s.version == 1
    && s.record.requestId == id
    && (s.record.receipt.Some? ==>
          && s.record.receipt.value.requestId == id
          && Shown(s.record.receipt.value.verdict) == s.record.phase)
  }

  function Read(d: Disk, id: Id, io: ReadIo): (Disk, Found) {
    if io.OpenFails? then (d, Unavailable)
    else if id !in d.visible then (d, Absent)
    else if !Readable(d.visible[id], id) then (d, Unavailable)
    else if io.ReadSyncFails? then (d, Unavailable)
    else (Synced(d), Present(d.visible[id]))
  }

  function Publish(d: Disk, s: Snapshot, isNew: bool, io: PublishIo): (Disk, bool) {
    var id := s.record.requestId;
    if io.TempFails? || (isNew && id in d.visible) then (d, false)
    else
      var d' := d.(visible := d.visible[id := s]);
      if io.PublishSyncFails? then (d', false) else (Synced(d'), true)
  }

  function Claim(d: Disk, hash: Digest, record: Record, audit: AuditLog, capacity: nat,
                 prepare: PrepareIo, io: PublishIo): (Disk, bool) {
    if prepare.PrepareFails? then (d, false)
    else if prepare.AncestorFails? || |d.visible| >= capacity then (Synced(d), false)
    else Publish(Synced(d), Snapshot(1, hash, record, Doc(audit)), true, io)
  }

  function Complete(d: Disk, record: Record, audit: AuditLog, io: CompleteIo): (Disk, bool) {
    if IsActive(record) then (d, false)
    else
      var (d1, found) := Read(d, record.requestId, io.read);
      if !found.Present? then (d1, false)
      else
        var s := Snapshot(1, found.snapshot.requestHash, record, Doc(audit));
        if !IsActive(found.snapshot.record) then
          if found.snapshot != s then (d1, false)
          else if io.resync then (Synced(d1), true)
          else (d1, false)
        else Publish(d1, s, false, io.publish)
  }

  /** What a power loss may leave: per id, the visible or the synced version. */
  ghost predicate Survives(d: Disk, left: map<Id, Snapshot>) {
    && (forall id <- left ::
          || (id in d.visible && left[id] == d.visible[id])
          || (id in d.synced && left[id] == d.synced[id]))
    && (forall id <- d.synced :: id in left)
  }

  // ---------------------------------------------------------------- invariants

  /** Files are named after their record; nothing synced is ever unlinked; the
      request hash of an id never changes once synced; a synced terminal record
      is the visible one. */
  ghost predicate DiskInv(d: Disk) {
    && (forall id <- d.visible :: d.visible[id].version == 1 && d.visible[id].record.requestId == id)
    && (forall id <- d.synced ::
          && id in d.visible
          && d.synced[id].record.requestId == id
          && d.synced[id].version == 1
          && d.visible[id].requestHash == d.synced[id].requestHash
          && (!IsActive(d.synced[id].record) ==> d.visible[id] == d.synced[id]))
  }

  /** The order every journal step respects: bindings and terminal records stay. */
  ghost predicate Extends(a: Disk, b: Disk) {
    forall id <- a.synced ::
      && id in b.synced
      && a.synced[id].requestHash == b.synced[id].requestHash
      && (!IsActive(a.synced[id].record) ==> b.synced[id] == a.synced[id])
  }

  lemma ReadKeeps(d: Disk, id: Id, io: ReadIo)
    requires DiskInv(d)
    ensures var (d', found) := Read(d, id, io);
            && DiskInv(d') && Extends(d, d') && d'.visible == d.visible
            && (found.Present? ==> id in d'.synced && d'.synced[id] == found.snapshot)
            && (found.Absent? <==> id !in d.visible && !io.OpenFails?)
  {
  }

  /** Exactly which files are found: those of version 1 about this id whose receipt,
      if any, is about it too and says what the record says. */
  lemma FoundIff(d: Disk, id: Id, io: ReadIo)
    ensures Read(d, id, io).1.Present? <==>
              && io.ReadWorks? && id in d.visible
              && d.visible[id].version == 1 && d.visible[id].record.requestId == id
              && (match d.visible[id].record.receipt
                  case None => true
                  case Some(receipt) =>
                    receipt.requestId == id && d.visible[id].record.phase ==
                      match receipt.verdict
                      case Success => Succeeded
                      case Failure => Failed
                      case Cancellation => Cancelled)
    ensures Read(d, id, io).1.Present? ==> Read(d, id, io).1.snapshot == d.visible[id]
  {
  }

  /** A claim answers success exactly when the id is now bound, durably, to this
      body, and it can only do so for an id no file exists for. */
  lemma ClaimSpec(d: Disk, hash: Digest, record: Record, audit: AuditLog, capacity: nat,
                  prepare: PrepareIo, io: PublishIo)
    requires DiskInv(d)
    ensures var (d', ok) := Claim(d, hash, record, audit, capacity, prepare, io);
            var id := record.requestId;
            && DiskInv(d') && Extends(d, d')
            && (ok ==> id !in d.visible && |d.visible| < capacity)
            && (ok ==> id in d'.synced && d'.synced[id] == Snapshot(1, hash, record, Doc(audit)))
            && (forall o :: o != id || o in d.visible ==>
                  (o in d'.visible <==> o in d.visible) && (o in d.visible ==> d'.visible[o] == d.visible[o]))
  {
    var id := record.requestId;
    var s := Snapshot(1, hash, record, Doc(audit));
    var d1 := Synced(d);
    var (d', ok) := Claim(d, hash, record, audit, capacity, prepare, io);
    assert d' == d || d' == d1 || (id !in d.visible && d'.visible == d.visible[id := s]);
  }

  /** Completion succeeds only with this very record durable; a terminal record
      that was synced before is never touched, whatever is offered. */
  lemma CompleteSpec(d: Disk, record: Record, audit: AuditLog, io: CompleteIo)
    requires DiskInv(d)
    ensures var (d', ok) := Complete(d, record, audit, io);
            var id := record.requestId;
            && DiskInv(d') && Extends(d, d')
            && (ok ==> !IsActive(record) && id in d'.synced
                       && d'.synced[id].record == record && d'.synced[id].audit == Doc(audit))
            && (forall o :: o != id ==>
                  (o in d'.visible <==> o in d.visible) && (o in d.visible ==> d'.visible[o] == d.visible[o]))
            && (id in d'.visible <==> id in d.visible)
            && (id in d.visible && d'.visible[id] != d.visible[id] ==>
                  && IsActive(d.visible[id].record)
                  && d'.visible[id] == Snapshot(1, d.visible[id].requestHash, record, Doc(audit)))
  {
    var id := record.requestId;
    var (d1, found) := Read(d, id, io.read);
    ReadKeeps(d, id, io.read);
    var (d', ok) := Complete(d, record, audit, io);
    if found.Present? && !IsActive(record) && IsActive(found.snapshot.record) {
      var s := Snapshot(1, found.snapshot.requestHash, record, Doc(audit));
      assert d' == d1 || d'.visible == d.visible[id := s];
    } else {
      assert d'.visible == d.visible;
    }
  }

  /** Exactly when a finished record is reported durable: its file is found, and
      either it is still the claim and the record can be published over it, or it
      already is this very record and can be synced again. */
  lemma CompletesIff(d: Disk, record: Record, audit: AuditLog, io: CompleteIo)
    requires !IsActive(record)
    ensures var id := record.requestId;
            Complete(d, record, audit, io).1 <==>
              && Read(d, id, io.read).1.Present?
              && (if IsActive(d.visible[id].record) then io.publish.PublishWorks?
                  else d.visible[id].record == record && d.visible[id].audit == Doc(audit) && io.resync)
  {
    var id := record.requestId;
    if Read(d, id, io.read).1.Present? {
      var s := Snapshot(1, d.visible[id].requestHash, record, Doc(audit));
      assert d.visible[id] == s <==> d.visible[id].record == record && d.visible[id].audit == Doc(audit);
    }
  }

  /** A publication always starts from a settled id: both layers agree on it, so
      no version can hide between them. */
  lemma PublicationStartsSettled(d: Disk, hash: Digest, record: Record, audit: AuditLog,
                                 capacity: nat, prepare: PrepareIo, io: PublishIo, cio: CompleteIo)
    requires DiskInv(d)
    ensures Claim(d, hash, record, audit, capacity, prepare, io).0.visible != d.visible ==>
              record.requestId !in d.visible && record.requestId !in d.synced
    ensures Complete(d, record, audit, cio).0.visible != d.visible ==>
              var d1 := Read(d, record.requestId, cio.read).0; d1.synced == d1.visible
  {
  }

  lemma PowerLossKeeps(d: Disk, left: map<Id, Snapshot>)
    requires DiskInv(d) && Survives(d, left)
    ensures DiskInv(Disk(left, left)) && Extends(d, Disk(left, left))
  {
  }

  // ---------------------------------------------------------------- the object

  /** The journal directory as the dispatcher changes it, call by call. */
  class Directory {
    var visible: map<Id, Snapshot>
    var synced: map<Id, Snapshot>

    function Model(): Disk reads this {
      Disk(visible, synced)
    }

    constructor ()
      ensures Model() == EMPTY_DISK && DiskInv(Model())
    {
      visible, synced := map[], map[];
    }

    method SyncDirectory()
      modifies this
      ensures Model() == Synced(old(Model()))
    {
      synced := visible;
    }

    method ReadRecord(id: Id, io: ReadIo) returns (found: Found)
      requires DiskInv(Model())
      modifies this
      ensures (Model(), found) == Read(old(Model()), id, io)
      ensures DiskInv(Model()) && Extends(old(Model()), Model())
    {
      if io.OpenFails? { return Unavailable; }
      if id !in visible { return Absent; }
      var snapshot := visible[id];
      if snapshot.version != 1 || snapshot.record.requestId != id {
        return Unavailable;
      }
      match snapshot.record.receipt {
        case Some(receipt) =>
          if receipt.requestId != id || Shown(receipt.verdict) != snapshot.record.phase {
            return Unavailable;
          }
        case None =>
      }
      if io.ReadSyncFails? { return Unavailable; }
      SyncDirectory();
      found := Present(snapshot);
    }

    method PublishRecord(snapshot: Snapshot, isNew: bool, io: PublishIo) returns (ok: bool)
      modifies this
      ensures (Model(), ok) == Publish(old(Model()), snapshot, isNew, io)
    {
      if io.TempFails? { return false; }
      var destination := snapshot.record.requestId;
      if isNew && destination in visible { return false; }
      visible := visible[destination := snapshot];
      if io.PublishSyncFails? { return false; }
      SyncDirectory();
      ok := true;
    }

    method ClaimRecord(hash: Digest, record: Record, audit: AuditLog, capacity: nat,
                       prepare: PrepareIo, io: PublishIo) returns (ok: bool)
      requires DiskInv(Model())
      modifies this
      ensures (Model(), ok) == Claim(old(Model()), hash, record, audit, capacity, prepare, io)
      ensures DiskInv(Model()) && Extends(old(Model()), Model())
      ensures ok ==> record.requestId in synced && record.requestId !in old(visible)
    {
      ClaimSpec(Model(), hash, record, audit, capacity, prepare, io);
      if prepare.PrepareFails? { return false; }
      SyncDirectory();
      if prepare.AncestorFails? { return false; }
      if |visible| >= capacity { return false; }
      ok := PublishRecord(Snapshot(1, hash, record, Doc(audit)), true, io);
    }

    method CompleteRecord(record: Record, audit: AuditLog, io: CompleteIo) returns (ok: bool)
      requires DiskInv(Model())
      modifies this
      ensures (Model(), ok) == Complete(old(Model()), record, audit, io)
      ensures DiskInv(Model()) && Extends(old(Model()), Model())
      ensures ok ==> record.requestId in synced && synced[record.requestId].record == record
    {
      CompleteSpec(Model(), record, audit, io);
      if IsActive(record) { return false; }
      var found := ReadRecord(record.requestId, io.read);
      if !found.Present? { return false; }
      var previous := found.snapshot;
      var snapshot := Snapshot(1, previous.requestHash, record, Doc(audit));
      if !IsActive(previous.record) {
        if previous != snapshot || !io.resync { return false; }
        SyncDirectory();
        return true;
      }
      ok := PublishRecord(snapshot, false, io.publish);
    }
  }
}
