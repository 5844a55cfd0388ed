/** What every request is answered in whatever state it finds the dispatcher, what a
    submit that is let in leaves behind, and that an id answers for one body only. */
module LifecycleAnswers {
  import opened Common
  import opened Journal
  import opened Lifecycle
  import opened LifecycleInvariant
  import opened LifecycleTheorems
  import opened LifecycleFiles
  import Audit

  // --------------------------------------------------------------------- queries

  /** This entry is over and its file is durable by the end of the reply. */
  ghost predicate Durable(d: Disk, id: Id, e: Entry, io: CompleteIo) {
    && io.read.ReadWorks? && id in d.visible && Readable(d.visible[id], id)
    && (if IsActive(d.visible[id].record) then io.publish.PublishWorks?
        else d.visible[id].record == e.value && d.visible[id].audit == Doc(e.audit) && io.resync)
  }

  /** What an entry in memory answers: a running one its record, a finished one its
      result, but only once that is durable. */
  ghost function FromMemory(c: Core, id: Id, audit: bool, io: CompleteIo): Response
    requires id in c.registry
  {
    var e := c.registry[id];
    if !IsActive(e.value) && !Durable(c.disk, id, e, io) then NotDurable
    else if audit then AuditAnswer(Doc(e.audit)) else Answer(e.value)
  }

  /** What a file answers for an id memory does not hold. */
  ghost function FromFile(c: Core, id: Id, audit: bool): Response
    requires id in c.disk.visible
  {
    var s := c.disk.visible[id];
    if !Readable(s, id) then JournalUnavailable
    else if IsActive(s.record) then Interrupted
    else if audit then AuditAnswer(s.audit) else Answer(s.record)
  }

  lemma EntryReplies(c: Core, d: Disk, id: Id, audit: bool, io: CompleteIo)
    requires CoreInv(c) && id in c.registry && d.visible == c.disk.visible
    ensures ReplyEntry(d, c.registry[id], audit, io).1 == FromMemory(c, id, audit, io)
  {
    var e := c.registry[id];
    assert EntryRules(id, e, c.now);
    if !IsActive(e.value) { CompletesIff(d, e.value, e.audit, io); }
  }

  /** Every status and audit query, whatever the I/O does. */
  lemma QueryAnswers(c: Core, id: Id, audit: bool, io: QueryIo)
    requires CoreInv(c)
    ensures Get(c, id, audit, io).1 ==
              if id in c.registry then FromMemory(c, id, audit, io.reply)
              else if io.archived.OpenFails? then JournalUnavailable
              else if id !in c.disk.visible then UnknownExecution
              else if io.archived.ReadSyncFails? then JournalUnavailable
              else FromFile(c, id, audit)
  {
    if id in c.registry { EntryReplies(c, c.disk, id, audit, io.reply); }
  }

  /** What a cancel makes of a running entry: it is told so, with a note of it while the
      log has room, and is from now on under a stop: the cancel, unless the deadline had
      passed or another stop was there first. */
  lemma CancelledMeans(id: Id, e: Entry, now: nat, wall: string)
    requires EntryRules(id, e, now)
    ensures var after := CancelledEntry(e, now, wall);
            && after.value == e.value.(phase := Cancelling,
                                       reason := Some("cancellation requested; cleanup pending"))
            && after.control.deadline == e.control.deadline
            && after.control.stop ==
                 (if e.control.stop.Some? then e.control.stop
                  else if now >= e.control.deadline then Some(ByDeadline) else Some(ByCancel))
            && after.reservation == e.reservation && after.at == e.at
            && after.audit.receipt == e.audit.receipt && after.audit.execution == e.audit.execution
            && (|e.audit.events| < 32 ==>
                  after.audit.events != [] && after.audit.events[|after.audit.events| - 1].phase == "Cancelling")
  {
    Audit.NotedKeepsOrder(e.audit.events, "Cancelling", wall, now, now);
  }

  /** Every cancel: a running execution is cancelled and shown as it now is, anything
      else is answered as a query. */
  lemma CancelAnswers(c: Core, id: Id, io: QueryIo)
    requires CoreInv(c)
    ensures var (c', a) := Cancel(c, id, io);
            if id in c.registry && IsActive(c.registry[id].value) then
              var after := CancelledEntry(c.registry[id], c.now, c.wall);
              c' == c.(registry := c.registry[id := after]) && a == Accepted(after.value)
            else a == Get(c, id, false, io).1 && c' == Get(c, id, false, io).0
  {
  }

  // --------------------------------------------------------------------- submits

  /** Nothing can stop this submit from being let in. */
  ghost predicate LetIn(c: Core, r: Request, admission: Admission, io: SubmitIo) {
    && !io.read.OpenFails? && r.id !in c.disk.visible && admission.Admitted?
    && io.prepare.PrepareWorks? && io.publish.PublishWorks? && |c.disk.visible| < CAPACITY
  }

  lemma NoFileNoEntry(c: Core, id: Id)
    requires CoreInv(c) && id !in c.disk.visible
    ensures id !in c.registry
  {
    assert id in c.registry ==> Claimed(id, c.registry[id], c.disk);
  }

  lemma ClaimedIff(d: Disk, hash: Digest, record: Record, audit: AuditLog, prepare: PrepareIo, io: PublishIo)
    ensures Claim(d, hash, record, audit, CAPACITY, prepare, io).1 <==>
              && record.requestId !in d.visible && |d.visible| < 100_000
              && prepare.PrepareWorks? && io.PublishWorks?
  {
  }

  lemma FreshAnswers(c: Core, r: Request, admission: Admission, io: SubmitIo)
    requires r.id !in c.disk.visible && !io.read.OpenFails?
    ensures SubmitFresh(c, r, admission, io).1 ==
              if admission.Full? then AtCapacity
              else if admission.Unfit? then Ineligible
              else if LetIn(c, r, admission, io) then Launching else ClaimUnavailable
  {
    var c2 := Evicted(c, io.evict);
    assert c2.disk.visible == c.disk.visible;
    var e := NewEntry(c2, r);
    ClaimedIff(c2.disk, HashOf(r.body), e.value, e.audit, io.prepare, io.publish);
  }

  lemma KnownAnswers(c: Core, r: Request, admission: Admission, io: SubmitIo)
    requires CoreInv(c) && r.id in c.disk.visible
    ensures Submit(c, r, admission, io).1 ==
              if !io.read.ReadWorks? || !Readable(c.disk.visible[r.id], r.id) then JournalUnavailable
              else if c.disk.visible[r.id].requestHash != HashOf(r.body) then Conflict
              else if r.id !in c.registry then FromFile(c, r.id, false)
              else if IsActive(c.registry[r.id].value) then Accepted(c.registry[r.id].value)
              else FromMemory(c, r.id, false, io.reply)
  {
    if r.id in c.registry { EntryReplies(c, Synced(c.disk), r.id, false, io.reply); }
  }

  /** Every submit, in whatever process life. Other bytes than the id is bound to are
      a conflict, whether or not memory holds the id; its own bytes get its own
      record; an id no file exists for is let in or told why not. */
  lemma SubmitAnswers(c: Core, r: Request, admission: Admission, io: SubmitIo)
    requires CoreInv(c)
    ensures Submit(c, r, admission, io).1 ==
              if io.read.OpenFails? then JournalUnavailable
              else if r.id !in c.disk.visible then
                if admission.Full? then AtCapacity
                else if admission.Unfit? then Ineligible
                else if LetIn(c, r, admission, io) then Launching else ClaimUnavailable
              else if io.read.ReadSyncFails? || !Readable(c.disk.visible[r.id], r.id) then JournalUnavailable
              else if c.disk.visible[r.id].requestHash != HashOf(r.body) then Conflict
              else if r.id !in c.registry then FromFile(c, r.id, false)
              else if IsActive(c.registry[r.id].value) then Accepted(c.registry[r.id].value)
              else FromMemory(c, r.id, false, io.reply)
  {
    if r.id in c.disk.visible {
      KnownAnswers(c, r, admission, io);
    } else {
      NoFileNoEntry(c, r.id);
      assert c.(disk := c.disk) == c;
      if !io.read.OpenFails? { FreshAnswers(c, r, admission, io); }
    }
  }

  // ---------------------------------------------------------------------- launches

  /** What a submit that is let in leaves: a fresh record under the deadline it asked
      for, charged what it asked for, its thread waiting with its own bytes, and its
      claim durable. */
  ghost predicate Launches(c: Core, r: Request, c': Core) {
    && r.id in c'.registry
    && c'.registry[r.id].at == c.now
    && c'.registry[r.id].value == Record(r.id, Admitting, None, None, None)
    && c'.registry[r.id].control == Control(c.now + r.timeout, None)
    && c'.registry[r.id].reservation == r.reservation
    && c'.registry[r.id].audit == AuditLog([Audit.Event(0, c.wall, "Admitting", c.now)], None, None)
    && c'.workers == c.workers[r.id := AtClaim(r.body, r.forge)]
    && r.id in c'.disk.synced
    && c'.disk.synced[r.id].requestHash == HashOf(r.body)
    && c'.disk.synced[r.id].record == c'.registry[r.id].value
    && c'.disk.visible == c.disk.visible[r.id := c'.disk.synced[r.id]]
  }

  lemma EnrollLaunches(c: Core, r: Request, prepare: PrepareIo, publish: PublishIo)
    ensures var (c', a) := Enroll(c, r, prepare, publish);
            && (a.Launching? ==> Launches(c, r, c') && c'.registry.Keys == c.registry.Keys + {r.id})
            && (!a.Launching? ==> c'.registry == c.registry && c'.workers == c.workers)
            && (forall id <- c'.registry :: id != r.id ==> id in c.registry && c'.registry[id] == c.registry[id])
  {
  }

  /** What a submit does to memory: the only entries it removes are finished an hour
      ago or more, it changes no other, and it starts a thread only when it launches. */
  ghost predicate OnlyEvicts(c: Core, c': Core, r: Request, launching: bool) {
    && (!launching ==> c'.workers == c.workers)
    && (forall id <- c'.registry ::
          (id in c.registry && c'.registry[id] == c.registry[id]) || (launching && id == r.id))
    && (forall id <- c.registry :: id !in c'.registry ==>
          !IsActive(c.registry[id].value) && c.now - c.registry[id].at >= 3_600_000)
  }

  lemma FreshLaunches(c: Core, r: Request, admission: Admission, io: SubmitIo)
    requires r.id !in c.registry
    ensures var (c', a) := SubmitFresh(c, r, admission, io);
            (a.Launching? ==> Launches(c, r, c')) && OnlyEvicts(c, c', r, a.Launching?)
  {
    var c2 := Evicted(c, io.evict);
    assert c2.disk.visible == c.disk.visible;
    EnrollLaunches(c2, r, io.prepare, io.publish);
  }

  /** A submit launches exactly when nothing stops it. */
  lemma SubmitLaunches(c: Core, r: Request, admission: Admission, io: SubmitIo)
    requires CoreInv(c)
    ensures var (c', a) := Submit(c, r, admission, io);
            && (a.Launching? <==> LetIn(c, r, admission, io))
            && (a.Launching? ==> r.id !in c.registry && Launches(c, r, c'))
            && OnlyEvicts(c, c', r, a.Launching?)
  {
    SubmitAnswers(c, r, admission, io);
    if Read(c.disk, r.id, io.read).1.Absent? {
      NoFileNoEntry(c, r.id);
      assert c.(disk := c.disk) == c;
      FreshLaunches(c, r, admission, io);
    }
  }

  // ------------------------------------------------------------------------- runs

  /** The id is durably bound to these bytes. */
  ghost predicate Bound(d: Disk, id: Id, body: Bytes) {
    id in d.synced && d.synced[id].requestHash == HashOf(body)
  }

  /** Every answer that says anything about an execution. */
  predicate Tells(a: Response) {
    a.Launching? || a.Accepted? || a.Answer? || a.AuditAnswer? || a.Interrupted? || a.NotDurable?
  }

  lemma TellingBinds(c: Core, r: Request, admission: Admission, io: SubmitIo)
    requires CoreInv(c) && Tells(Submit(c, r, admission, io).1)
    ensures Bound(Submit(c, r, admission, io).0.disk, r.id, r.body)
  {
    SubmitAnswers(c, r, admission, io);
    SubmitLaunches(c, r, admission, io);
    if r.id in c.disk.visible {
      var c1 := c.(disk := Synced(c.disk));
      assert CoreInv(c1) by { ReadMoves(c, r.id, io.read); }
      if r.id in c.registry { PersistedKeeps(c1, r.id, io.reply); }
    }
  }

  lemma {:induction false} BoundStays(steps: seq<Step>, i: nat, j: nat, id: Id, body: Bytes)
    requires i <= j <= |steps| && Bound(Run(steps[..i]).core.disk, id, body)
    ensures Bound(Run(steps[..j]).core.disk, id, body)
  {
    if i < j {
      BoundStays(steps, i, j - 1, id, body);
      RunGoesOn(steps, j - 1);
      RunInv(steps[..j - 1]);
      StepKeeps(Run(steps[..j - 1]).core, steps[j - 1]);
    }
  }

  /** One body per id, over every run, crashes and restarts included: once a submit
      of an id was told anything about an execution, no submit of other bytes for it
      is ever told anything but that they conflict or that the journal cannot be
      read. */
  lemma OneBodyPerId(steps: seq<Step>, i: nat, j: nat)
    requires i < j < |steps| && steps[i].SubmitStep? && steps[j].SubmitStep?
    requires steps[i].request.id == steps[j].request.id
    requires Tells(Submit(Run(steps[..i]).core, steps[i].request, steps[i].admission, steps[i].sio).1)
    ensures var a := Submit(Run(steps[..j]).core, steps[j].request, steps[j].admission, steps[j].sio).1;
            steps[j].request.body != steps[i].request.body ==> a.Conflict? || a.JournalUnavailable?
  {
    var r, s := steps[i].request, steps[j].request;
    RunInv(steps[..i]);
    RunGoesOn(steps, i);
    TellingBinds(Run(steps[..i]).core, r, steps[i].admission, steps[i].sio);
    BoundStays(steps, i + 1, j, r.id, r.body);
    RunInv(steps[..j]);
    SubmitAnswers(Run(steps[..j]).core, s, steps[j].admission, steps[j].sio);
  }
}
