/** The executions that hold capacity are exactly the active ones of the lifecycle
    model, and they change only as the capacity machine lets them. */
module LifecycleCapacity {
  import opened Common
  import opened Journal
  import opened Lifecycle
  import opened LifecycleInvariant
  import opened LifecycleAnswers
  import Capacity
  import ParentRegistry

  /** The reservations `apply_reservations` subtracts for this registry. */
  function Held(registry: map<Id, Entry>): map<Id, Reservation> {
    map id <- registry | IsActive(registry[id].value) :: registry[id].reservation
  }

  lemma EvictionHolds(c: Core, rio: map<Id, ReadIo>)
    ensures Held(Evicted(c, rio).registry) == Held(c.registry)
  {
  }

  lemma EnrollHolds(c: Core, r: Request, prepare: PrepareIo, publish: PublishIo)
    requires r.id !in c.registry
    ensures var (c', a) := Enroll(c, r, prepare, publish);
            Held(c'.registry) == if a.Launching? then Held(c.registry)[r.id := r.reservation] else Held(c.registry)
  {
  }

  lemma EntryHolds(registry: map<Id, Entry>, id: Id, e: Entry)
    requires id in registry && IsActive(registry[id].value) && e.reservation == registry[id].reservation
    ensures Held(registry[id := e]) == if IsActive(e.value) then Held(registry) else Held(registry) - {id}
  {
  }

  lemma FreshHolds(c: Core, r: Request, admission: Admission, io: SubmitIo)
    requires r.id !in c.registry
    ensures var after := Held(SubmitFresh(c, r, admission, io).0.registry);
            || after == Held(c.registry)
            || (admission.Admitted? && after == Held(c.registry)[r.id := r.reservation])
  {
    EvictionHolds(c, io.evict);
    EnrollHolds(Evicted(c, io.evict), r, io.prepare, io.publish);
  }

  lemma KnownHolds(c: Core, r: Request, s: Snapshot, io: CompleteIo)
    ensures SubmitKnown(c, r, s, io).0.registry == c.registry
  {
  }

  lemma SubmitHolds(c: Core, r: Request, admission: Admission, io: SubmitIo)
    ensures var after := Held(Submit(c, r, admission, io).0.registry);
            || after == Held(c.registry)
            || (admission.Admitted? && r.id !in Held(c.registry)
                && after == Held(c.registry)[r.id := r.reservation])
  {
    var (d, found) := Read(c.disk, r.id, io.read);
    match found
    case Unavailable =>
    case Present(s) => KnownHolds(c.(disk := d), r, s, io.reply);
    case Absent => if r.id !in c.registry { FreshHolds(c.(disk := d), r, admission, io); }
  }

  lemma PublishHolds(c: Core, id: Id, next: Option<Stage>, change: Change, io: CompleteIo)
    requires CoreInv(c) && id in c.workers && PublishRules(c, id, next, change)
    ensures var after := Held(Update(Moved(c, id, next), id, change, io).registry);
            after == Held(c.registry) || after == Held(c.registry) - {id}
  {
    if id in c.registry {
      var e := c.registry[id];
      var e' := UpdatedEntry(e, change, c.now, c.wall);
      UpdatedEntryRules(id, e, change, c.now, c.wall);
      if IsActive(e.value) {
        EntryHolds(c.registry, id, e');
      } else {
        assert Held(c.registry[id := e']) == Held(c.registry);
      }
    }
  }

  /** A change of an entry that leaves its record alone. */
  lemma QuietHolds(registry: map<Id, Entry>, id: Id, e: Entry)
    requires id in registry && e.value == registry[id].value && e.reservation == registry[id].reservation
    ensures Held(registry[id := e]) == Held(registry)
  {
  }

  /** A planned move, whatever it is. */
  lemma CarriedOutHolds(c: Core, id: Id, p: Plan, io: CompleteIo)
    requires CoreInv(c) && id in c.workers && PlanRules(c, id, p)
    ensures var after := Held(CarriedOut(c, id, p, io).registry);
            after == Held(c.registry) || after == Held(c.registry) - {id}
  {
    match p
    case Publishes(next, change) => PublishHolds(c, id, next, change, io);
    case Polls => if id in c.registry { QuietHolds(c.registry, id, ObserveStop(c, id).registry[id]); }
    case Records(log) => QuietHolds(c.registry, id, c.registry[id].(audit := log));
    case _ =>
  }

  lemma WorkHolds(c: Core, id: Id, a: Action, io: CompleteIo)
    requires CoreInv(c)
    ensures var after := Held(Work(c, id, a, io).registry);
            after == Held(c.registry) || after == Held(c.registry) - {id}
  {
    if id in c.workers {
      PlansFollowRules(c, id, a);
      CarriedOutHolds(c, id, Planned(c, id, a), io);
    }
  }

  lemma CancelHolds(c: Core, id: Id, io: QueryIo)
    ensures Held(Cancel(c, id, io).0.registry) == Held(c.registry)
  {
    if id in c.registry && IsActive(c.registry[id].value) {
      EntryHolds(c.registry, id, CancelledEntry(c.registry[id], c.now, c.wall));
    }
  }

  /** Over any step of any interleaving, the held reservations stay, gain exactly
      the one an accepted submit asked for, lose exactly the one whose worker
      published its outcome, or vanish with the process. */
  lemma ReservationsFollowTheLifecycle(c: Core, s: Step)
    requires CoreInv(c)
    ensures var before, after := Held(c.registry), Held(Next(c, s).registry);
            || after == before
            || (s.SubmitStep? && s.admission.Admitted? && s.request.id !in before
                && after == before[s.request.id := s.request.reservation])
            || (s.WorkStep? && after == before - {s.id})
            || ((s.Restart? || s.PowerLoss?) && after == map[])
  {
    match s
    case SubmitStep(r, admission, io) => SubmitHolds(c, r, admission, io);
    case WorkStep(id, a, io) => WorkHolds(c, id, a, io);
    case CancelStep(id, io) => CancelHolds(c, id, io);
    case _ =>
  }

  // ------------------------------------------------------------- composed machine

  /** One dispatcher whole: the lifecycle, and the rest of what `current_node` reads.
      The executions that hold capacity are those of the registry itself. */
  datatype Joint = Joint(
    core: Core, total: Capacity.Node, limits: ParentRegistry.Limits, prewarm: Option<Reservation>,
    parents: ParentRegistry.Parents, lock: Capacity.Lock)

  function View(j: Joint): Capacity.Sys {
    Capacity.Sys(j.total, j.limits, Held(j.core.registry), j.prewarm, j.parents, j.lock)
  }

  datatype Act =
    | Live(step: Step)                          // a lifecycle step other than an admission
    | Side(move: Capacity.Move)                 // a read, a release, or another path's decision
    | Admission(request: Request, io: SubmitIo) // the end of a submit that reached `node::admit`

  /** Steps that run without the registry lock: the clock, and a thread between its
      updates. */
  predicate Lockless(c: Core, s: Step) {
    s.Tick? || (s.WorkStep? && (s.id !in c.workers
                                || Planned(c, s.id, s.action).Stay? || Planned(c, s.id, s.action).Moves?
                                || Planned(c, s.id, s.action).Polls?))
  }

  /** `node::admit` on what the lock holder has read, as the lifecycle sees it. */
  function Verdict(ask: Capacity.Ask, node: Capacity.Node): Lifecycle.Admission {
    match Capacity.Admit(ask, node)
    case None => Admitted
    case Some(OutOfCapacity) => Full
    case Some(_) => Unfit
  }

  predicate Admitting(j: Joint, r: Request) {
    && j.lock.Held? && j.lock.stage.SawParents? && j.lock.job.Execute?
    && j.lock.job.id == r.id && Capacity.ForRequest(j.lock.job.ask) == r.reservation
  }

  /** A new process over the disk that was left. */
  function Exited(j: Joint, d: Disk): Joint {
    Joint(Idle(j.core, d), j.total, j.limits, None, ParentRegistry.NO_PARENTS, Capacity.Free)
  }

  ghost function JointNext(j: Joint, a: Act): Joint {
    match a
    case Live(s) =>
      if s.Restart? then Exited(j, Synced(j.core.disk))
      else if s.PowerLoss? then
        if Survives(j.core.disk, s.left) then Exited(j, Disk(s.left, s.left)) else j
      else if (j.lock.Free? || Lockless(j.core, s)) && !(s.SubmitStep? && s.admission.Admitted?)
      then j.(core := Next(j.core, s))
      else j
    case Side(m) =>
      if m.Publish? || (m.Decide? && j.lock.Held? && j.lock.job.Execute?) then j
      else
        var v := Capacity.After(View(j), m);
        j.(prewarm := v.prewarm, parents := v.parents, lock := v.lock)
    case Admission(r, io) =>
      if Admitting(j, r) then
        var verdict := Verdict(j.lock.job.ask, j.lock.node);
        j.(core := Next(j.core, SubmitStep(r, verdict, io)), lock := Capacity.Free)
      else j
  }

  ghost function JointRun(total: Capacity.Node, limits: ParentRegistry.Limits, acts: seq<Act>): Joint {
    if acts == [] then Joint(BOOT.core, total, limits, None, ParentRegistry.NO_PARENTS, Capacity.Free)
    else JointNext(JointRun(total, limits, acts[..|acts| - 1]), acts[|acts| - 1])
  }

  ghost predicate JointInv(j: Joint) {
    CoreInv(j.core) && Capacity.SysInv(View(j))
  }

  lemma LocklessHolds(c: Core, s: Step)
    requires Lockless(c, s)
    ensures Held(Next(c, s).registry) == Held(c.registry)
  {
    if s.WorkStep? && s.id in c.workers && Planned(c, s.id, s.action).Polls? && s.id in c.registry {
      QuietHolds(c.registry, s.id, ObserveStop(c, s.id).registry[s.id]);
    }
  }

  lemma SameHeldKeeps(j: Joint, c: Core)
    requires JointInv(j) && Held(c.registry) == Held(j.core.registry)
    ensures Capacity.SysInv(View(j.(core := c)))
  {
    assert View(j.(core := c)) == View(j);
  }

  lemma PublishedKeeps(v: Capacity.Sys, id: string)
    requires Capacity.SysInv(v) && v.lock.Free?
    ensures Capacity.SysInv(v.(executions := v.executions - {id}))
  {
    Capacity.PublishKeeps(v, id);
    assert Capacity.After(v, Capacity.Publish(id)) == v.(executions := v.executions - {id});
  }

  lemma LessHeldKeeps(j: Joint, c: Core, id: Id)
    requires JointInv(j) && j.lock.Free? && Held(c.registry) == Held(j.core.registry) - {id}
    ensures Capacity.SysInv(View(j.(core := c)))
  {
    assert Capacity.SysInv(View(j).(executions := Held(c.registry))) by { PublishedKeeps(View(j), id); }
  }

  /** A step of the lifecycle that admits nothing changes the held reservations only
      as a `Publish` of the capacity machine does. */
  lemma LiveKeeps(j: Joint, s: Step)
    requires JointInv(j) && !s.Restart? && !s.PowerLoss?
    requires (j.lock.Free? || Lockless(j.core, s)) && !(s.SubmitStep? && s.admission.Admitted?)
    ensures Capacity.SysInv(View(j.(core := Next(j.core, s))))
  {
    var c := Next(j.core, s);
    if Lockless(j.core, s) {
      assert Held(c.registry) == Held(j.core.registry) by { LocklessHolds(j.core, s); }
      SameHeldKeeps(j, c);
    } else {
      assert || Held(c.registry) == Held(j.core.registry)
             || (s.WorkStep? && Held(c.registry) == Held(j.core.registry) - {s.id}) by {
        ReservationsFollowTheLifecycle(j.core, s);
      }
      if Held(c.registry) == Held(j.core.registry) { SameHeldKeeps(j, c); } else { LessHeldKeeps(j, c, s.id); }
    }
  }

  lemma ExitKeeps(j: Joint, d: Disk)
    requires JointInv(j)
    ensures Capacity.SysInv(View(Exited(j, d)))
  {
    assert View(Exited(j, d)).executions == map[];
    Capacity.BootsFits(View(Exited(j, d)));
  }

  lemma FreeKeeps(v: Capacity.Sys)
    requires Capacity.SysInv(v)
    ensures Capacity.SysInv(v.(lock := Capacity.Free))
  {
  }

  /** The verdict of a submit is `node::admit` on what its thread read under the lock,
      and what it then inserts is what the capacity machine decides. */
  lemma AdmissionKeeps(j: Joint, r: Request, io: SubmitIo)
    requires JointInv(j) && Admitting(j, r)
    ensures Capacity.SysInv(View(JointNext(j, Admission(r, io))))
  {
    var v, v' := View(j), View(JointNext(j, Admission(r, io)));
    var verdict := Verdict(j.lock.job.ask, j.lock.node);
    SubmitHolds(j.core, r, verdict, io);
    if v'.executions == v.executions {
      FreeKeeps(v);
      assert v' == v.(lock := Capacity.Free);
    } else {
      var claimed := v.(lock := v.lock.(job := v.lock.job.(claimed := true)));
      assert v' == Capacity.Decided(claimed);
      Capacity.DecideKeeps(claimed);
    }
  }

  /** What a submit of a new id is told about capacity, from what its thread read under
      the lock: let in exactly when its request is in order, the node is ready and the
      cells, memory and brokers it read suffice; at capacity exactly when only these
      do not; otherwise ineligible. */
  lemma AdmissionAnswers(j: Joint, r: Request, io: SubmitIo)
    requires JointInv(j) && Admitting(j, r) && r.id !in j.core.disk.visible && !io.read.OpenFails?
    ensures var ask, node := j.lock.job.ask, j.lock.node;
            var a := Submit(j.core, r, Verdict(ask, node), io).1;
            var sound := Capacity.InOrder(ask) && ask.supported && (ask.requireHardware ==> node.kvm && node.cpu);
            var room := node.liveCells < node.maxCells && ask.memoryBytes <= node.memoryBytes
                        && (ask.egress ==> node.egressSlots > 0);
            && (a.AtCapacity? <==> sound && !room)
            && (a.Ineligible? <==> !sound || (room && !(node.kvm && node.cpu && node.stores)))
            && (a.Launching? || a.ClaimUnavailable? <==> sound && room && node.kvm && node.cpu && node.stores)
  {
    SubmitAnswers(j.core, r, Verdict(j.lock.job.ask, j.lock.node), io);
  }

  lemma LiveStepKeeps(j: Joint, s: Step)
    requires JointInv(j)
    ensures JointInv(JointNext(j, Live(s)))
  {
    StepKeeps(j.core, s);
    if s.Restart? {
      ExitKeeps(j, Synced(j.core.disk));
    } else if s.PowerLoss? {
      ExitKeeps(j, Disk(s.left, s.left));
    } else if (j.lock.Free? || Lockless(j.core, s)) && !(s.SubmitStep? && s.admission.Admitted?) {
      LiveKeeps(j, s);
    }
  }

  lemma JointKeeps(j: Joint, a: Act)
    requires JointInv(j)
    ensures JointInv(JointNext(j, a))
  {
    match a
    case Live(s) => LiveStepKeeps(j, s);
    case Side(m) => SideKeeps(j, m);
    case Admission(r, io) =>
      if Admitting(j, r) {
        StepKeeps(j.core, SubmitStep(r, Verdict(j.lock.job.ask, j.lock.node), io));
        AdmissionKeeps(j, r, io);
      }
  }

  lemma SideLeavesExecutions(v: Capacity.Sys, m: Capacity.Move)
    requires !m.Publish? && !(m.Decide? && v.lock.Held? && v.lock.job.Execute?)
    ensures var w := Capacity.After(v, m);
            w.executions == v.executions && w.total == v.total && w.limits == v.limits
  {
  }

  lemma SideKeeps(j: Joint, m: Capacity.Move)
    requires JointInv(j)
    ensures JointInv(JointNext(j, Side(m)))
  {
    if !(m.Publish? || (m.Decide? && j.lock.Held? && j.lock.job.Execute?)) {
      var v := View(j);
      var w := Capacity.After(v, m);
      assert Capacity.SysInv(w) by { Capacity.MoveKeeps(v, m); }
      SideLeavesExecutions(v, m);
      assert View(j.(prewarm := w.prewarm, parents := w.parents, lock := w.lock)) == w;
    }
  }

  lemma {:induction false} JointRunInv(total: Capacity.Node, limits: ParentRegistry.Limits, acts: seq<Act>)
    requires total.maxCells < ParentRegistry.U32 && total.egressSlots < ParentRegistry.U32
    requires total.memoryBytes < ParentRegistry.U64
    ensures JointInv(JointRun(total, limits, acts)) && JointRun(total, limits, acts).total == total
  {
    if acts == [] {
      RunInv([]);
      var v := View(JointRun(total, limits, acts));
      assert v.executions == map[];
      Capacity.BootsFits(v);
    } else {
      JointRunInv(total, limits, acts[..|acts| - 1]);
      JointKeeps(JointRun(total, limits, acts[..|acts| - 1]), acts[|acts| - 1]);
    }
  }

  /** Over every run of the whole dispatcher, with every admission decided by
      `node::admit` on what its own thread read under the lock: what the active
      executions of the registry, the prewarm and the parents hold never exceeds the
      configured memory, cells and brokers, and with what is advertised adds up to
      them exactly. */
  lemma TheDispatcherNeverOvercommits(total: Capacity.Node, limits: ParentRegistry.Limits, acts: seq<Act>)
    requires total.maxCells < ParentRegistry.U32 && total.egressSlots < ParentRegistry.U32
    requires total.memoryBytes < ParentRegistry.U64
    ensures var j := JointRun(total, limits, acts);
            var v, n := View(j), Capacity.Advertised(View(j));
            && v.executions == Held(j.core.registry)
            && Capacity.MemoryInUse(v) <= total.memoryBytes && Capacity.CellsInUse(v) <= total.maxCells
            && Capacity.BrokersInUse(v) <= total.egressSlots
            && n.memoryBytes + Capacity.MemoryInUse(v) == total.memoryBytes
            && n.liveCells == Capacity.CellsInUse(v)
            && n.egressSlots + Capacity.BrokersInUse(v) == total.egressSlots
  {
    JointRunInv(total, limits, acts);
    Capacity.AdvertisedIsFree(View(JointRun(total, limits, acts)));
  }
}
