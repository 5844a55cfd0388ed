/** One dispatcher process over its journal: every critical section under the
    registry lock (dispatch_http.rs) as a function on the state it finds, and runs
    as arbitrary sequences of those sections, clock ticks, crashes and restarts.

    Every outcome the dispatcher does not control (an fsync that fails, a guest
    verdict, which worker moves next) is an argument of a step, so a statement
    about all step sequences is a statement about all interleavings. */
module Lifecycle {
  import opened Common
  import opened Journal
  import Audit

  /** Clock readings are milliseconds; `RECORD_TTL` is one hour. */
  const RECORD_TTL: nat := 3_600_000

  // ------------------------------------------------------------------ control

  datatype StopCause = ByCancel | ByDeadline

  /** `celln_control::Control`: the first observed cause is kept. */
  datatype Control = Control(deadline: nat, stop: Option<StopCause>)

  /** The state `Control::reason` leaves behind. */
  function Observed(c: Control, now: nat): Control {
    if c.stop.None? && now >= c.deadline then c.(stop := Some(ByDeadline)) else c
  }

  function CancelControl(c: Control, now: nat): Control {
    var o := Observed(c, now);
    if o.stop.None? then o.(stop := Some(ByCancel)) else o
  }

  function StopVerdict(s: StopCause): Verdict {
    match s
    case ByCancel => Cancellation
    case ByDeadline => Failure
  }

  function StopText(s: StopCause): string {
    match s
    case ByCancel => "execution cancelled"
    case ByDeadline => "execution deadline exceeded"
  }

  // ------------------------------------------------------------------ entries

  datatype Reservation = Reservation(memoryBytes: nat, egressSlots: nat)

  /** A registry entry as the only insertion site of the dispatcher fills it. */
  datatype Entry = Entry(
    at: nat, value: Record, control: Control, reservation: Reservation, audit: AuditLog)

  function PhaseText(p: Phase): string {
    match p
    case Admitting => "Admitting"
    case Forging => "Forging"
    case Preparing => "Preparing"
    case Resolving => "Resolving"
    case Cancelling => "Cancelling"
    case Succeeded => "Succeeded"
    case Failed => "Failed"
    case Refused => "Refused"
    case Cancelled => "Cancelled"
  }

  function Note(a: AuditLog, p: Phase, now: nat, wall: string): AuditLog {
    a.(events := Audit.Noted(a.events, PhaseText(p), wall, now))
  }

  /** The closures handed to `update_execution`. */
  datatype Change =
    | Enter(phase: Phase)
    | Refuse(why: string)
    | Fail(why: string)
    | Finish(verdict: Verdict, note: Option<string>, text: Option<string>, details: string)

  function Changed(r: Record, c: Change): Record {
    match c
    case Enter(p) => r.(phase := p)
    case Refuse(why) => r.(phase := Refused, reason := Some(why))
    case Fail(why) => r.(phase := Failed, reason := Some(why))
    case Finish(v, note, text, details) =>
      r.(phase := Shown(v), reason := note, output := text,
         receipt := Some(Receipt(r.requestId, v, details)))
  }

  /** What an observed stop makes of a record. */
  function Overridden(r: Record, s: StopCause): Record {
    if !IsActive(r) then
      r.(phase := Shown(StopVerdict(s)), reason := Some(StopText(s)),
         receipt := if r.receipt.Some?
                    then Some(r.receipt.value.(verdict := StopVerdict(s))) else None)
    else if s.ByCancel? then r.(phase := Cancelling)
    else r
  }

  function UpdatedEntry(e: Entry, c: Change, now: nat, wall: string): Entry {
    var control := Observed(e.control, now);
    var changed := Changed(e.value, c);
    var value := if control.stop.Some? then Overridden(changed, control.stop.value) else changed;
    e.(control := control, value := value,
       at := if IsActive(value) then e.at else now,
       audit := Note(e.audit, value.phase, now, wall).(receipt := value.receipt))
  }

  function CancelledEntry(e: Entry, now: nat, wall: string): Entry {
    e.(control := CancelControl(e.control, now),
       value := e.value.(phase := Cancelling,
                         reason := Some("cancellation requested; cleanup pending")),
       audit := Note(e.audit, Cancelling, now, wall))
  }

  function Persisted(d: Disk, e: Entry, io: CompleteIo): (Disk, bool) {
    if IsActive(e.value) then (d, true) else Complete(d, e.value, e.audit, io)
  }

  // --------------------------------------------------------------------- core

  /** The reason recorded for a worker that panicked. */
  const PANICKED := "execution worker panicked during cleanup"

  /** Where a worker thread is in `run_execution`. A claim waits at `AtClaim`
      until its thread is spawned; only then has a worker started. */
  datatype Stage =
    | AtClaim(body: Bytes, forge: bool)
    | AtStart(forge: bool) | AtChecked(forge: bool)
    | AtForge | AtPrepare | AtResolve | AtLaunched | AtExecuted
    | AtDone

  datatype Core = Core(
    now: nat, wall: string, disk: Disk, registry: map<Id, Entry>, workers: map<Id, Stage>)

  datatype Request = Request(
    id: Id, body: Bytes, forge: bool, timeout: nat, reservation: Reservation)

  datatype Response =
    | Accepted(running: Record)
    | Answer(record: Record)
    | AuditAnswer(audit: AuditDoc)
    | Launching
    | Conflict | Interrupted | NotDurable | JournalUnavailable
    | ClaimUnavailable | WorkerUnavailable | AtCapacity | Ineligible | UnknownExecution

  // -------------------------------------------------------------- queries

  function ReplyEntry(d: Disk, e: Entry, audit: bool, io: CompleteIo): (Disk, Response) {
    var (d', ok) := Persisted(d, e, io);
    if !ok then (d', NotDurable)
    else (d', if audit then AuditAnswer(Doc(e.audit)) else Answer(e.value))
  }

  function ReplySnapshot(s: Snapshot, audit: bool): Response {
    if IsActive(s.record) then Interrupted
    else if audit then AuditAnswer(s.audit)
    else Answer(s.record)
  }

  function ReplyArchived(d: Disk, id: Id, audit: bool, io: ReadIo): (Disk, Response) {
    var (d', found) := Read(d, id, io);
    match found
    case Present(s) => (d', ReplySnapshot(s, audit))
    case Absent => (d', UnknownExecution)
    case Unavailable => (d', JournalUnavailable)
  }

  datatype QueryIo = QueryIo(reply: CompleteIo, archived: ReadIo)

  const QUIET_QUERY := QueryIo(ALL_WORKS, ReadWorks)

  function Get(c: Core, id: Id, audit: bool, io: QueryIo): (Core, Response) {
    var (d', r) :=
      if id in c.registry then ReplyEntry(c.disk, c.registry[id], audit, io.reply)
      else ReplyArchived(c.disk, id, audit, io.archived);
    (c.(disk := d'), r)
  }

  function Cancel(c: Core, id: Id, io: QueryIo): (Core, Response) {
    if id in c.registry && IsActive(c.registry[id].value) then
      var e := CancelledEntry(c.registry[id], c.now, c.wall);
      (c.(registry := c.registry[id := e]), Accepted(e.value))
    else Get(c, id, false, io)
  }

  // ------------------------------------------------------------- eviction

  predicate Expired(e: Entry, now: nat) {
    !IsActive(e.value) && Monus(now, e.at) >= RECORD_TTL
  }

  function IoFor(rio: map<Id, ReadIo>, id: Id): ReadIo {
    if id in rio then rio[id] else ReadWorks
  }

  /** The read of `id` finds a snapshot, so it also synced the directory. */
  predicate Reads(d: Disk, id: Id, io: ReadIo) {
    Read(d, id, io).1.Present?
  }

  predicate Droppable(d: Disk, id: Id, e: Entry, now: nat, io: ReadIo) {
    Expired(e, now) && Reads(d, id, io) && !IsActive(d.visible[id].record)
  }

  function Evicted(c: Core, rio: map<Id, ReadIo>): Core {
    c.(registry := map id <- c.registry
                     | !Droppable(c.disk, id, c.registry[id], c.now, IoFor(rio, id))
                     :: c.registry[id],
       disk := if exists id <- c.registry ::
                    Expired(c.registry[id], c.now) && Reads(c.disk, id, IoFor(rio, id))
               then Synced(c.disk) else c.disk)
  }

  // ------------------------------------------------------------- admission

  datatype Admission = Admitted | Full | Unfit

  datatype SubmitIo = SubmitIo(
    read: ReadIo, reply: CompleteIo, evict: map<Id, ReadIo>, prepare: PrepareIo, publish: PublishIo)

  function Fresh(id: Id): Record {
    Record(id, Admitting, None, None, None)
  }

  function NewEntry(c: Core, r: Request): Entry {
    Entry(c.now, Fresh(r.id), Control(c.now + r.timeout, None), r.reservation,
          AuditLog(Audit.Noted([], "Admitting", c.wall, c.now), None, None))
  }

  /** Claim durably, then register. */
  function Enroll(c: Core, r: Request, prepare: PrepareIo, publish: PublishIo): (Core, Response) {
    var e := NewEntry(c, r);
    var (d', ok) := Claim(c.disk, HashOf(r.body), e.value, e.audit, CAPACITY, prepare, publish);
    if !ok then (c.(disk := d'), ClaimUnavailable)
    else (c.(disk := d', registry := c.registry[r.id := e],
             workers := c.workers[r.id := AtClaim(r.body, r.forge)]),
          Launching)
  }

  /** An id nothing is known about: evict, check capacity, claim. `admission` is
      the verdict of `node::admit` on the node found after eviction. */
  function SubmitFresh(c: Core, r: Request, admission: Admission, io: SubmitIo): (Core, Response) {
    var c' := Evicted(c, io.evict);
    match admission
    case Full => (c', AtCapacity)
    case Unfit => (c', Ineligible)
    case Admitted => Enroll(c', r, io.prepare, io.publish)
  }

  /** An id the journal holds: answer from memory if it is there, else from disk. */
  function SubmitKnown(c: Core, r: Request, s: Snapshot, io: CompleteIo): (Core, Response) {
    if s.requestHash != HashOf(r.body) then (c, Conflict)
    else if r.id in c.registry then
      if IsActive(c.registry[r.id].value) then (c, Accepted(c.registry[r.id].value))
      else
        var (d', reply) := ReplyEntry(c.disk, c.registry[r.id], false, io);
        (c.(disk := d'), reply)
    else (c, ReplySnapshot(s, false))
  }

  /** The critical section of `POST /v1/executions`. */
  function Submit(c: Core, r: Request, admission: Admission, io: SubmitIo): (Core, Response) {
    var (d, found) := Read(c.disk, r.id, io.read);
    var c1 := c.(disk := d);
    match found
    case Unavailable => (c1, JournalUnavailable)
    case Present(s) => SubmitKnown(c1, r, s, io.reply)
    case Absent =>
      if r.id in c.registry then (c1, Accepted(c.registry[r.id].value))
      else SubmitFresh(c1, r, admission, io)
  }

  // --------------------------------------------------------------- workers

  /** `update_execution`. */
  function Update(c: Core, id: Id, change: Change, io: CompleteIo): Core {
    if id !in c.registry then c
    else
      var e := UpdatedEntry(c.registry[id], change, c.now, c.wall);
      c.(registry := c.registry[id := e], disk := Persisted(c.disk, e, io).0)
  }

  datatype Action =
    | Spawn | SpawnFails
    | Check                     // celln_control::check at the start
    | Observe                   // any later poll of the control by owned work
    | RefuseWork(why: string)
    | FailWork(why: string)
    | Advance
    | Execute(cell: seq<Audit.CellEvent>, execution: string)
    | FinishWork(guest: bool, note: Option<string>, text: Option<string>, details: string)
    | Panic | Exit

  predicate Running(s: Stage) {
    !s.AtClaim? && !s.AtDone?
  }

  /** The stage after `Advance`, with the phase it publishes. */
  function Advanced(s: Stage): Option<(Stage, Option<Phase>)> {
    match s
    case AtChecked(true) => Some((AtForge, Some(Forging)))
    case AtChecked(false) => Some((AtResolve, Some(Resolving)))
    case AtForge => Some((AtPrepare, Some(Preparing)))
    case AtPrepare => Some((AtLaunched, None))
    case AtResolve => Some((AtLaunched, None))
    case _ => None
  }

  predicate MayFail(s: Stage) {
    s.AtForge? || s.AtPrepare? || s.AtResolve?
  }

  /** The worker map after the thread of `id` moves to `next`, or ends. */
  function Moved(c: Core, id: Id, next: Option<Stage>): Core {
    c.(workers := if next.Some? then c.workers[id := next.value] else c.workers - {id})
  }

  function ObserveStop(c: Core, id: Id): Core {
    if id !in c.registry then c
    else
      var e := c.registry[id];
      c.(registry := c.registry[id := e.(control := Observed(e.control, c.now))])
  }

  /** What a thread does next: nothing, move on, poll its control, publish an
      update as it moves, or record the cell's evidence. */
  datatype Plan =
    | Stay
    | Moves(next: Option<Stage>)
    | Polls
    | Publishes(to: Option<Stage>, change: Change)
    | Records(audit: AuditLog)

  function Planned(c: Core, id: Id, a: Action): Plan
    requires id in c.workers
  {
    var s := c.workers[id];
    match a
    case Spawn => if s.AtClaim? then Moves(Some(AtStart(s.forge))) else Stay
    case SpawnFails =>
      if s.AtClaim? then Publishes(None, Fail("execution worker unavailable")) else Stay
    case Check =>
      if !s.AtStart? || id !in c.registry then Stay
      else
        var stop := Observed(c.registry[id].control, c.now).stop;
        if stop.Some? then Publishes(Some(AtDone), Fail(StopText(stop.value)))
        else Moves(Some(AtChecked(s.forge)))
    case Observe => if Running(s) then Polls else Stay
    case RefuseWork(why) => if s.AtChecked? then Publishes(Some(AtDone), Refuse(why)) else Stay
    case FailWork(why) => if MayFail(s) then Publishes(Some(AtDone), Fail(why)) else Stay
    case Advance =>
      (match Advanced(s)
       case None => Stay
       case Some((next, None)) => Moves(Some(next))
       case Some((next, Some(p))) => Publishes(Some(next), Enter(p)))
    case Execute(cell, execution) =>
      if !s.AtLaunched? || id !in c.registry || exists e <- cell :: e.observed > c.now then Stay
      else
        var log := c.registry[id].audit;
        Records(log.(events := Audit.Merged(log.events, cell), execution := Some(execution)))
    case FinishWork(guest, note, text, details) =>
      if s.AtExecuted?
      then Publishes(Some(AtDone), Finish(if guest then Success else Failure, note, text, details))
      else Stay
    case Panic =>
      if s.AtClaim? then Stay else Publishes(None, Fail(PANICKED))
    case Exit => if s.AtDone? then Moves(None) else Stay
  }

  /** One step of the thread that owns `id`; a step its stage does not allow
      changes nothing. */
  function CarriedOut(c: Core, id: Id, p: Plan, io: CompleteIo): Core {
    match p
    case Stay => c
    case Moves(next) => Moved(c, id, next)
    case Polls => ObserveStop(c, id)
    case Publishes(next, change) => Update(Moved(c, id, next), id, change, io)
    case Records(log) =>
      if id in c.registry
      then Moved(c.(registry := c.registry[id := c.registry[id].(audit := log)]), id, Some(AtExecuted))
      else c
  }

  function Work(c: Core, id: Id, a: Action, io: CompleteIo): Core {
    if id !in c.workers then c else CarriedOut(c, id, Planned(c, id, a), io)
  }

  // ------------------------------------------------------------------- runs

  datatype Step =
    | Tick(now: nat, wall: string)
    | SubmitStep(request: Request, admission: Admission, sio: SubmitIo)
    | GetStep(id: Id, audit: bool, qio: QueryIo)
    | CancelStep(id: Id, qio: QueryIo)
    | WorkStep(id: Id, action: Action, wio: CompleteIo)
    | Restart                              // process exit; `serve` syncs before listening
    | PowerLoss(left: map<Id, Snapshot>)

  /** What the outside world can witness. `final` marks an audit answered for an
      execution that was over. */
  datatype Event =
    | Started(id: Id, body: Bytes)
    | Answered(id: Id, response: Response, final: bool)

  function Idle(c: Core, d: Disk): Core {
    c.(disk := d, registry := map[], workers := map[])
  }

  /** The core after a step. */
  ghost function Next(c: Core, s: Step): Core {
    match s
    case Tick(now, wall) => if now < c.now then c else c.(now := now, wall := wall)
    case SubmitStep(r, admission, io) => Submit(c, r, admission, io).0
    case GetStep(id, audit, io) => Get(c, id, audit, io).0
    case CancelStep(id, io) => Cancel(c, id, io).0
    case WorkStep(id, a, io) => Work(c, id, a, io)
    case Restart => Idle(c, Synced(c.disk))
    case PowerLoss(left) => if Survives(c.disk, left) then Idle(c, Disk(left, left)) else c
  }

  /** The event a step makes visible outside, if any. */
  function Witness(c: Core, s: Step): seq<Event> {
    match s
    case SubmitStep(r, admission, io) => [Answered(r.id, Submit(c, r, admission, io).1, false)]
    case GetStep(id, audit, io) =>
      [Answered(id, Get(c, id, audit, io).1,
                id in c.registry ==> !IsActive(c.registry[id].value))]
    case CancelStep(id, io) => [Answered(id, Cancel(c, id, io).1, false)]
    case WorkStep(id, Spawn, _) =>
      if id in c.workers && c.workers[id].AtClaim?
      then [Started(id, c.workers[id].body), Answered(id, Accepted(Fresh(id)), false)]
      else []
    case WorkStep(id, SpawnFails, _) =>
      if id in c.workers && c.workers[id].AtClaim?
      then [Answered(id, WorkerUnavailable, false)] else []
    case _ => []
  }

  datatype World = World(core: Core, trace: seq<Event>)

  const BOOT := World(Core(0, "", EMPTY_DISK, map[], map[]), [])

  ghost function Stepped(w: World, s: Step): World {
    World(Next(w.core, s), w.trace + Witness(w.core, s))
  }

  /** The world after a run that begins with an empty root. */
  ghost function Run(steps: seq<Step>): World {
    if steps == [] then BOOT
    else Stepped(Run(steps[..|steps| - 1]), steps[|steps| - 1])
  }
}
