/** What a node advertises and what it has promised (dispatch_http.rs,
    dispatch_prewarm.rs, dispatch_parents.rs, node.rs).

    Three admission paths share one lock, the execution registry's. The holder of
    that lock reads the executions, the prewarm slot and the parent registry one
    after the other; the last two have locks of their own, so releases run between
    those reads. Each read is therefore a step of its own here. */
module Capacity {
  import opened Common
  import opened Totals
  import opened ParentRegistry
  import Lifecycle

  type Reservation = Lifecycle.Reservation

  /** `NodeEligibility`; `stores` stands for the guest kernel and both stores. */
  datatype Node = Node(
    kvm: bool, cpu: bool, stores: bool,
    maxCells: nat, liveCells: nat, memoryBytes: nat, egressSlots: nat)

  /** What `admit` looks at in a request; `wellFormed` stands for the rules of
      `ExecutionRequest::problems` other than the one on its memory. */
  datatype Ask = Ask(
    wellFormed: bool, supported: bool, requireHardware: bool, memoryBytes: nat, egress: bool)

  datatype RefusalCode = InvalidRequest | Unsupported | NoEligibleNode | OutOfCapacity

  /** `Reservation::for_request`: all the guest memory, one broker however many
      destinations. */
  function ForRequest(a: Ask): Reservation {
    Lifecycle.Reservation(a.memoryBytes, if a.egress then 1 else 0)
  }

  /** The request has no problems; asking for no memory is one (crates/celln-spec/src/lib.rs). */
  predicate InOrder(a: Ask) {
    a.wellFormed && a.memoryBytes > 0
  }

  predicate Eligible(n: Node) {
    n.kvm && n.cpu && n.stores && n.liveCells < n.maxCells && n.memoryBytes > 0
  }

  /** `node::admit`. */
  function Admit(a: Ask, n: Node): Option<RefusalCode> {
    if !InOrder(a) then Some(InvalidRequest)
    else if !a.supported || (a.requireHardware && (!n.kvm || !n.cpu)) then Some(Unsupported)
    else if n.liveCells >= n.maxCells || a.memoryBytes > n.memoryBytes || (a.egress && n.egressSlots == 0)
    then Some(OutOfCapacity)
    else if !Eligible(n) then Some(NoEligibleNode)
    else None
  }

  /** The check of `spawn_after_check`. */
  predicate ParentFits(r: Reservation, n: Node) {
    && Monus(n.maxCells, n.liveCells) >= 2
    && r.memoryBytes != 0 && r.memoryBytes <= n.memoryBytes
    && r.egressSlots <= n.egressSlots
  }

  // ------------------------------------------------------------- reservations

  /** `saturating_add` of 32-bit counters. */
  function Plus32(a: nat, b: nat): nat {
    Min(a + b, U32 - 1)
  }

  /** One registry entry as `apply_reservations` sees it. */
  datatype Slot = Slot(active: bool, reservation: Option<Reservation>)

  /** The loop body of `apply_reservations`. */
  function Deducted(n: Node, s: Slot): Node {
    if !s.active then n
    else
      var n1 := n.(liveCells := Plus32(n.liveCells, 1));
      match s.reservation
      case Some(r) => n1.(memoryBytes := Monus(n.memoryBytes, r.memoryBytes),
                          egressSlots := Monus(n.egressSlots, r.egressSlots))
      case None => n1.(memoryBytes := 0, egressSlots := 0)
  }

  ghost function Active(registry: map<string, Slot>): set<string> {
    set id <- registry | registry[id].active
  }

  ghost predicate AllKnown(registry: map<string, Slot>) {
    forall id <- registry :: registry[id].active ==> registry[id].reservation.Some?
  }

  function MemoryOf(s: Slot): nat {
    if s.active && s.reservation.Some? then s.reservation.value.memoryBytes else 0
  }

  function EgressOf(s: Slot): nat {
    if s.active && s.reservation.Some? then s.reservation.value.egressSlots else 0
  }

  ghost function MemoryHeld(registry: map<string, Slot>): nat {
    Total(map id <- registry :: MemoryOf(registry[id]))
  }

  ghost function EgressHeld(registry: map<string, Slot>): nat {
    Total(map id <- registry :: EgressOf(registry[id]))
  }

  /** What `apply_reservations` leaves: the configured totals less the sums, and
      nothing at all while any live owner's usage is unknown. */
  ghost function Applied(n: Node, registry: map<string, Slot>, other: nat): Node {
    var known := other == 0 && AllKnown(registry);
    n.(liveCells := Plus32(other, |Active(registry)|),
       memoryBytes := if known then Monus(n.memoryBytes, MemoryHeld(registry)) else 0,
       egressSlots := if known then Monus(n.egressSlots, EgressHeld(registry)) else 0)
  }

  lemma SumsOneMore(seen: map<string, Slot>, id: string, s: Slot)
    requires id !in seen
    ensures MemoryHeld(seen[id := s]) == MemoryHeld(seen) + MemoryOf(s)
    ensures EgressHeld(seen[id := s]) == EgressHeld(seen) + EgressOf(s)
  {
    var next := seen[id := s];
    var m := map o <- seen :: MemoryOf(seen[o]);
    var e := map o <- seen :: EgressOf(seen[o]);
    assert (map o <- next :: MemoryOf(next[o])) == m[id := MemoryOf(s)];
    assert (map o <- next :: EgressOf(next[o])) == e[id := EgressOf(s)];
    TotalPuts(m, id, MemoryOf(s));
    TotalPuts(e, id, EgressOf(s));
  }

  lemma CountsOneMore(seen: map<string, Slot>, id: string, s: Slot)
    requires id !in seen
    ensures |Active(seen[id := s])| == |Active(seen)| + (if s.active then 1 else 0)
    ensures AllKnown(seen[id := s]) <==> AllKnown(seen) && (s.active ==> s.reservation.Some?)
  {
    var next := seen[id := s];
    assert Active(next) == if s.active then Active(seen) + {id} else Active(seen);
    if AllKnown(next) {
      assert next[id] == s;
      forall o <- seen ensures seen[o].active ==> seen[o].reservation.Some? {
        assert next[o] == seen[o];
      }
    }
  }

  lemma AppliedOneMore(n: Node, seen: map<string, Slot>, other: nat, id: string, s: Slot)
    requires id !in seen && other < U32
    ensures Applied(n, seen[id := s], other) == Deducted(Applied(n, seen, other), s)
  {
    SumsOneMore(seen, id, s);
    CountsOneMore(seen, id, s);
    var before, after := Applied(n, seen, other), Applied(n, seen[id := s], other);
    assert after.liveCells == Deducted(before, s).liveCells;
  }

  ghost predicate NothingHeld(registry: map<string, Slot>) {
    MemoryHeld(registry) == 0 && EgressHeld(registry) == 0
  }

  lemma AppliedNone(n: Node, other: nat)
    requires other < U32
    ensures Applied(n, map[], other) ==
              if other != 0 then n.(liveCells := other, memoryBytes := 0, egressSlots := 0)
              else n.(liveCells := 0)
  {
    var none: map<string, Slot> := map[];
    assert Active(none) == {} && NothingHeld(none);
  }

  /** `apply_reservations`: whatever order the hash map yields its entries in, the
      saturating loop leaves the total less the sum. */
  method ApplyReservations(n: Node, registry: map<string, Slot>, other: nat) returns (node: Node)
    requires other < U32
    ensures node == Applied(n, registry, other)
  {
    node := n.(liveCells := other);
    if other != 0 {
      node := node.(memoryBytes := 0, egressSlots := 0);
    }
    AppliedNone(n, other);
    var rest := registry.Keys;
    ghost var seen: map<string, Slot> := map[];
    while rest != {}
      invariant rest <= registry.Keys
      invariant seen == map id <- registry | id !in rest :: registry[id]
      invariant node == Applied(n, seen, other)
      decreases |rest|
    {
      var id :| id in rest;
      AppliedOneMore(n, seen, other, id, registry[id]);
      var entry := registry[id];
      if entry.active {
        node := node.(liveCells := Plus32(node.liveCells, 1));
        match entry.reservation {
          case Some(r) =>
            node := node.(memoryBytes := Monus(node.memoryBytes, r.memoryBytes),
                          egressSlots := Monus(node.egressSlots, r.egressSlots));
          case None =>
            node := node.(memoryBytes := 0, egressSlots := 0);
        }
      }
      rest, seen := rest - {id}, seen[id := entry];
    }
    assert seen == registry;
  }

  /** The second read of `current_node`. A prewarm charges its cell and its
      memory; the code does not subtract its broker. */
  function LessPrewarm(n: Node, prewarm: Option<Reservation>): Node {
    match prewarm
    case None => n
    case Some(r) => n.(liveCells := Plus32(n.liveCells, 1), memoryBytes := Monus(n.memoryBytes, r.memoryBytes))
  }

  /** The third read: two cells per owner still charged. */
  function LessParents(n: Node, read: Option<Charge>): Node {
    match read
    case Some(c) =>
      n.(liveCells := Plus32(n.liveCells, Min(c.owners * 2, U32 - 1)),
         memoryBytes := Monus(n.memoryBytes, c.memoryBytes),
         egressSlots := Monus(n.egressSlots, c.egressSlots))
    case None => n.(liveCells := n.maxCells, memoryBytes := 0, egressSlots := 0)
  }

  // ------------------------------------------------------------------ machine

  datatype Job =
    | Execute(id: string, ask: Ask, claimed: bool)
    | Prewarm(ask: Ask)
    | Enduring(principal: string, id: string, reservation: Reservation, admitted: bool, spawns: bool)

  datatype Stage = SawExecutions | SawPrewarm | SawParents

  /** Who holds the admission lock and what it has read so far. */
  datatype Lock = Free | Held(job: Job, stage: Stage, node: Node, other: nat)

  datatype Sys = Sys(
    total: Node, limits: Limits, executions: map<string, Reservation>,
    prewarm: Option<Reservation>, parents: Parents, lock: Lock)

  datatype Move =
    | Acquire(job: Job, other: nat)
    | ReadPrewarm
    | ReadParents(ok: bool)
    | Decide
    | Publish(id: string)                  // an execution's terminal update
    | DropLease
    | StopBegin(principal: string, id: string)
    | Reap(finished: set<string>)
    | JoinDone(id: string, joined: bool, status: Status)
    | Drain

  function Slots(executions: map<string, Reservation>): map<string, Slot> {
    map id <- executions :: Slot(true, Some(executions[id]))
  }

  ghost function Decided(s: Sys): Sys
    requires s.lock.Held?
  {
    var free := s.(lock := Free);
    var node := s.lock.node;
    match s.lock.job
    case Execute(id, ask, claimed) =>
      if Admit(ask, node).None? && claimed
      then free.(executions := s.executions[id := ForRequest(ask)]) else free
    case Prewarm(ask) =>
      if Admit(ask, node).None? then free.(prewarm := Some(ForRequest(ask))) else free
    case Enduring(principal, id, r, admitted, spawns) =>
      if ParentFits(r, node) && admitted
      then free.(parents := Inserted(s.parents, s.limits, principal, id, r.memoryBytes, r.egressSlots, spawns).0)
      else free
  }

  ghost function After(s: Sys, m: Move): Sys {
    match m
    case Acquire(job, other) =>
      if !s.lock.Free? || (job.Execute? && job.id in s.executions) || (job.Prewarm? && s.prewarm.Some?) then s
      else s.(lock := Held(job, SawExecutions, Applied(s.total, Slots(s.executions), other), other))
    case ReadPrewarm =>
      if s.lock.Held? && s.lock.stage.SawExecutions?
      then s.(lock := s.lock.(stage := SawPrewarm, node := LessPrewarm(s.lock.node, s.prewarm))) else s
    case ReadParents(ok) =>
      if s.lock.Held? && s.lock.stage.SawPrewarm?
      then s.(lock := s.lock.(stage := SawParents,
                node := LessParents(s.lock.node, if ok then Some(ReservedCapacity(s.parents)) else None)))
      else s
    case Decide => if s.lock.Held? && s.lock.stage.SawParents? then Decided(s) else s
    case Publish(id) => if s.lock.Free? then s.(executions := s.executions - {id}) else s
    case DropLease => s.(prewarm := None)
    case StopBegin(principal, id) => s.(parents := StopBegun(s.parents, principal, id).0)
    case Reap(finished) => s.(parents := Taken(s.parents, finished))
    case JoinDone(id, joined, status) =>
      if ParentsInv(s.parents) && id in s.parents.joining
      then (JoinReleases(s.parents, id, joined, status); s.(parents := Joined(s.parents, id, joined, status)))
      else s
    case Drain => s.(parents := s.parents.(draining := true))
  }

  /** A configured node at boot: 32-bit counters and 64-bit sizes. */
  ghost predicate Boots(s: Sys) {
    && s.total.maxCells < U32 && s.total.egressSlots < U32 && s.total.memoryBytes < U64
    && s.executions == map[] && s.prewarm.None? && s.parents == NO_PARENTS && s.lock.Free?
  }

  ghost function RunMoves(s: Sys, moves: seq<Move>): Sys {
    if moves == [] then s else After(RunMoves(s, moves[..|moves| - 1]), moves[|moves| - 1])
  }

  // --------------------------------------------------------------- invariants

  function PrewarmMemory(s: Sys): nat {
    if s.prewarm.Some? then s.prewarm.value.memoryBytes else 0
  }

  function PrewarmCells(s: Sys): nat {
    if s.prewarm.Some? then 1 else 0
  }

  ghost function MemoryInUse(s: Sys): nat {
    MemoryHeld(Slots(s.executions)) + PrewarmMemory(s) + s.parents.reservedBytes
  }

  ghost function CellsInUse(s: Sys): nat {
    |s.executions| + PrewarmCells(s) + 2 * |Charged(s.parents.entries)|
  }

  ghost function BrokersInUse(s: Sys): nat {
    EgressHeld(Slots(s.executions)) + s.parents.reservedEgress
  }

  ghost predicate WithinTotals(s: Sys) {
    && MemoryInUse(s) <= s.total.memoryBytes
    && CellsInUse(s) <= s.total.maxCells
    && BrokersInUse(s) <= s.total.egressSlots
  }

  /** What the lock holder has read never promises more than is free now: while
      the lock is held, executions stay put and the other two can only shrink. */
  ghost predicate ReadIsSafe(s: Sys, stage: Stage, n: Node) {
    var prewarm, parents := stage != SawExecutions, stage == SawParents;
    && n.maxCells == s.total.maxCells
    && n.memoryBytes + MemoryHeld(Slots(s.executions)) + (if prewarm then PrewarmMemory(s) else 0)
         + (if parents then s.parents.reservedBytes else 0) <= s.total.memoryBytes
    && |s.executions| + (if prewarm then PrewarmCells(s) else 0)
         + (if parents then 2 * |Charged(s.parents.entries)| else 0) <= n.liveCells
    && n.egressSlots + EgressHeld(Slots(s.executions))
         + (if parents then s.parents.reservedEgress else 0) <= s.total.egressSlots
  }

  /** And, with no other process about, what it has not read yet still fits in
      what it has: no later subtraction can be cut short. */
  ghost predicate RestFits(s: Sys, stage: Stage, n: Node) {
    var prewarm, parents := stage == SawExecutions, stage != SawParents;
    && (if prewarm then PrewarmMemory(s) else 0) + (if parents then s.parents.reservedBytes else 0) <= n.memoryBytes
    && n.liveCells + (if prewarm then PrewarmCells(s) else 0)
         + (if parents then 2 * |Charged(s.parents.entries)| else 0) <= n.maxCells
    && (if parents then s.parents.reservedEgress else 0) <= n.egressSlots
  }

  ghost predicate LockInv(s: Sys) {
    s.lock.Held? ==>
      && ReadIsSafe(s, s.lock.stage, s.lock.node)
      && (s.lock.job.Execute? ==> s.lock.job.id !in s.executions)
      && (s.lock.job.Prewarm? ==> s.prewarm.None?)
  }

  /** Reads in which no parent registry failure and no other process had a say. */
  ghost predicate QuietInv(s: Sys) {
    s.lock.Held? && s.lock.other == 0 && s.lock.stage != SawParents ==> RestFits(s, s.lock.stage, s.lock.node)
  }

  ghost predicate SysInv(s: Sys) {
    && s.total.maxCells < U32 && s.total.egressSlots < U32 && s.total.memoryBytes < U64
    && ParentsInv(s.parents)
    && WithinTotals(s)
    && LockInv(s)
    && QuietInv(s)
  }

  lemma SlotsPut(executions: map<string, Reservation>, id: string, r: Reservation)
    requires id !in executions
    ensures MemoryHeld(Slots(executions[id := r])) == MemoryHeld(Slots(executions)) + r.memoryBytes
    ensures EgressHeld(Slots(executions[id := r])) == EgressHeld(Slots(executions)) + r.egressSlots
  {
    assert Slots(executions[id := r]) == Slots(executions)[id := Slot(true, Some(r))];
    SumsOneMore(Slots(executions), id, Slot(true, Some(r)));
  }

  lemma SlotsDrop(executions: map<string, Reservation>, id: string)
    requires id in executions
    ensures MemoryHeld(Slots(executions - {id})) + executions[id].memoryBytes == MemoryHeld(Slots(executions))
    ensures EgressHeld(Slots(executions - {id})) + executions[id].egressSlots == EgressHeld(Slots(executions))
    ensures |executions - {id}| + 1 == |executions|
  {
    var without := executions - {id};
    assert without[id := executions[id]] == executions;
    SlotsPut(without, id, executions[id]);
  }

  lemma SlotsAreAllActive(executions: map<string, Reservation>)
    ensures Active(Slots(executions)) == executions.Keys && AllKnown(Slots(executions))
  {
  }

  lemma AcquireKeeps(s: Sys, job: Job, other: nat)
    requires SysInv(s)
    ensures SysInv(After(s, Acquire(job, other)))
  {
    SlotsAreAllActive(s.executions);
    assert |Active(Slots(s.executions))| == |s.executions.Keys| == |s.executions|;
  }

  lemma ReadPrewarmKeeps(s: Sys)
    requires SysInv(s)
    ensures SysInv(After(s, ReadPrewarm))
  {
  }

  lemma ReadParentsKeeps(s: Sys, ok: bool)
    requires SysInv(s)
    ensures SysInv(After(s, ReadParents(ok)))
  {
  }

  lemma DecideKeeps(s: Sys)
    requires SysInv(s) && s.lock.Held? && s.lock.stage.SawParents?
    ensures SysInv(Decided(s))
  {
    match s.lock.job
    case Execute(id, ask, claimed) => SlotsPut(s.executions, id, ForRequest(ask));
    case Prewarm(ask) =>
    case Enduring(principal, id, r, admitted, spawns) =>
      InsertCharges(s.parents, s.limits, principal, id, r.memoryBytes, r.egressSlots, spawns);
  }

  lemma PublishKeeps(s: Sys, id: string)
    requires SysInv(s)
    ensures SysInv(After(s, Publish(id)))
  {
    if id in s.executions { SlotsDrop(s.executions, id); } else { assert s.executions - {id} == s.executions; }
  }

  /** Whatever happens to the parents that charges them no more than before. */
  lemma ParentsKeep(s: Sys, p: Parents)
    requires SysInv(s) && ParentsInv(p)
    requires p.reservedBytes <= s.parents.reservedBytes && p.reservedEgress <= s.parents.reservedEgress
    requires |Charged(p.entries)| <= |Charged(s.parents.entries)|
    ensures SysInv(s.(parents := p))
  {
  }

  lemma DrainKeeps(p: Parents)
    requires ParentsInv(p)
    ensures ParentsInv(p.(draining := true))
  {
    forall id <- p.entries ensures EntryInv(p.(draining := true), id) {
      assert EntryInv(p, id);
    }
  }

  lemma StopKeeps(s: Sys, principal: string, id: string)
    requires SysInv(s)
    ensures SysInv(After(s, StopBegin(principal, id)))
  {
    var (p, outcome) := StopBegun(s.parents, principal, id);
    if outcome.Took? {
      TakenKeepsCharges(s.parents, {id});
      ParentsKeep(s, Taken(s.parents, {id}));
    } else {
      assert p == s.parents && s.(parents := p) == s;
    }
  }

  lemma ReapKeeps(s: Sys, finished: set<string>)
    requires SysInv(s)
    ensures SysInv(After(s, Reap(finished)))
  {
    TakenKeepsCharges(s.parents, finished);
    ParentsKeep(s, Taken(s.parents, finished));
  }

  lemma JoinKeeps(s: Sys, id: string, joined: bool, status: Status)
    requires SysInv(s)
    ensures SysInv(After(s, JoinDone(id, joined, status)))
  {
    if id in s.parents.joining {
      JoinReleases(s.parents, id, joined, status);
      ParentsKeep(s, Joined(s.parents, id, joined, status));
    }
  }

  lemma MoveKeeps(s: Sys, m: Move)
    requires SysInv(s)
    ensures SysInv(After(s, m))
  {
    match m
    case Acquire(job, other) => AcquireKeeps(s, job, other);
    case ReadPrewarm => ReadPrewarmKeeps(s);
    case ReadParents(ok) => ReadParentsKeeps(s, ok);
    case Decide => if s.lock.Held? && s.lock.stage.SawParents? { DecideKeeps(s); }
    case Publish(id) => PublishKeeps(s, id);
    case DropLease =>
    case StopBegin(principal, id) => StopKeeps(s, principal, id);
    case Reap(finished) => ReapKeeps(s, finished);
    case JoinDone(id, joined, status) => JoinKeeps(s, id, joined, status);
    case Drain =>
      DrainKeeps(s.parents);
      ParentsKeep(s, s.parents.(draining := true));
  }

  lemma BootsFits(s: Sys)
    requires Boots(s)
    ensures SysInv(s)
  {
    assert Slots(s.executions).Keys == {};
    assert NothingHeld(Slots(s.executions));
    assert Charged(s.parents.entries) == {};
  }

  lemma TotalStays(s: Sys, m: Move)
    ensures After(s, m).total == s.total
  {
  }

  lemma {:induction false} RunKeeps(s: Sys, moves: seq<Move>)
    requires Boots(s)
    ensures SysInv(RunMoves(s, moves)) && RunMoves(s, moves).total == s.total
  {
    if moves == [] {
      BootsFits(s);
    } else {
      RunKeeps(s, moves[..|moves| - 1]);
      MoveKeeps(RunMoves(s, moves[..|moves| - 1]), moves[|moves| - 1]);
      TotalStays(RunMoves(s, moves[..|moves| - 1]), moves[|moves| - 1]);
    }
  }

  // ------------------------------------------------------------ main theorems

  /** `current_node` evaluated in one state with no other process about. */
  ghost function Advertised(s: Sys): Node {
    LessParents(LessPrewarm(Applied(s.total, Slots(s.executions), 0), s.prewarm), Some(ReservedCapacity(s.parents)))
  }

  lemma AdvertisedIsFree(s: Sys)
    requires SysInv(s)
    ensures var n := Advertised(s);
            && n.memoryBytes + MemoryInUse(s) == s.total.memoryBytes
            && n.liveCells == CellsInUse(s) && n.egressSlots + BrokersInUse(s) == s.total.egressSlots
            && n == s.total.(liveCells := n.liveCells, memoryBytes := n.memoryBytes, egressSlots := n.egressSlots)
  {
    SlotsAreAllActive(s.executions);
    assert |Active(Slots(s.executions))| == |s.executions.Keys| == |s.executions|;
  }

  /** Conservation. In every state any interleaving of the admission paths and of
      the releases reaches, what is advertised and what is held add up to exactly
      what was configured: memory, cells (two per parent) and broker slots. */
  lemma CapacityIsConserved(s: Sys, moves: seq<Move>)
    requires Boots(s)
    ensures var now := RunMoves(s, moves);
            var n := Advertised(now);
            && n.memoryBytes + MemoryInUse(now) == s.total.memoryBytes
            && n.liveCells == CellsInUse(now) <= n.maxCells == s.total.maxCells
            && n.egressSlots + BrokersInUse(now) == s.total.egressSlots
  {
    RunKeeps(s, moves);
    AdvertisedIsFree(RunMoves(s, moves));
  }

  /** No overcommitment, whatever cells of other processes are seen or not seen. */
  lemma NeverOvercommitted(s: Sys, moves: seq<Move>)
    requires Boots(s)
    ensures WithinTotals(RunMoves(s, moves))
    ensures forall id <- RunMoves(s, moves).parents.entries :: EntryInv(RunMoves(s, moves).parents, id)
  {
    RunKeeps(s, moves);
  }

  ghost predicate PartOf(part: map<string, Reservation>, all: map<string, Reservation>) {
    forall id <- part :: id in all && part[id] == all[id]
  }

  lemma {:induction false} PartHolds(part: map<string, Reservation>, all: map<string, Reservation>)
    requires PartOf(part, all)
    ensures MemoryHeld(Slots(part)) <= MemoryHeld(Slots(all))
    ensures EgressHeld(Slots(part)) <= EgressHeld(Slots(all))
    ensures |part| <= |all|
    decreases all.Keys - part.Keys
  {
    if id :| id in all && id !in part {
      assert id in all.Keys - part.Keys;
      SlotsPut(part, id, all[id]);
      PartHolds(part[id := all[id]], all);
    } else {
      assert part == all;
    }
  }

  /** `after` is `before` less exactly these, with nothing cut short. */
  predicate Takes(before: Node, after: Node, memory: nat, cells: nat, brokers: nat) {
    && after.memoryBytes + memory == before.memoryBytes
    && after.liveCells == before.liveCells + cells
    && after.egressSlots + brokers == before.egressSlots
  }

  /** The loop of `apply_reservations`: whichever executions it has been through, the
      next one is deducted in full. */
  lemma LoopStepIsExact(s: Sys, seen: map<string, Reservation>, id: string)
    requires SysInv(s) && PartOf(seen, s.executions) && id in s.executions && id !in seen
    ensures var r := s.executions[id];
            var n := Applied(s.total, Slots(seen), 0);
            Takes(n, Deducted(n, Slot(true, Some(r))), r.memoryBytes, 1, r.egressSlots)
  {
    var r := s.executions[id];
    SlotsPut(seen, id, r);
    PartHolds(seen[id := r], s.executions);
    SlotsAreAllActive(seen);
    assert |Active(Slots(seen))| == |seen.Keys| == |seen|;
  }

  lemma FirstReadIsExact(s: Sys, job: Job)
    requires SysInv(s) && s.lock.Free? && After(s, Acquire(job, 0)).lock.Held?
    ensures Takes(s.total.(liveCells := 0), After(s, Acquire(job, 0)).lock.node,
                  MemoryHeld(Slots(s.executions)), |s.executions|, EgressHeld(Slots(s.executions)))
  {
    SlotsAreAllActive(s.executions);
    assert |Active(Slots(s.executions))| == |s.executions.Keys| == |s.executions|;
  }

  lemma LaterReadsAreExact(s: Sys)
    requires SysInv(s) && s.lock.Held? && s.lock.other == 0
    ensures s.lock.stage.SawExecutions? ==>
              Takes(s.lock.node, After(s, ReadPrewarm).lock.node, PrewarmMemory(s), PrewarmCells(s), 0)
    ensures s.lock.stage.SawPrewarm? ==>
              Takes(s.lock.node, After(s, ReadParents(true)).lock.node, s.parents.reservedBytes,
                    2 * |Charged(s.parents.entries)|, s.parents.reservedEgress)
  {
  }

  /** No saturation. Every subtraction and addition an admission performs, with
      releases running in between, is exact: each turn of the loop over the
      executions, what that loop leaves, and the reads of the prewarm and of the
      parents. */
  lemma NoSaturationIsTaken(s: Sys, moves: seq<Move>, job: Job, seen: map<string, Reservation>, id: string)
    requires Boots(s)
    ensures var now := RunMoves(s, moves);
            PartOf(seen, now.executions) && id in now.executions && id !in seen ==>
              var r := now.executions[id];
              var n := Applied(now.total, Slots(seen), 0);
              Takes(n, Deducted(n, Slot(true, Some(r))), r.memoryBytes, 1, r.egressSlots)
    ensures var now := RunMoves(s, moves);
            now.lock.Free? && After(now, Acquire(job, 0)).lock.Held? ==>
              Takes(now.total.(liveCells := 0), After(now, Acquire(job, 0)).lock.node,
                    MemoryHeld(Slots(now.executions)), |now.executions|, EgressHeld(Slots(now.executions)))
    ensures var now := RunMoves(s, moves);
            now.lock.Held? && now.lock.other == 0 && now.lock.stage.SawExecutions? ==>
              Takes(now.lock.node, After(now, ReadPrewarm).lock.node, PrewarmMemory(now), PrewarmCells(now), 0)
    ensures var now := RunMoves(s, moves);
            now.lock.Held? && now.lock.other == 0 && now.lock.stage.SawPrewarm? ==>
              Takes(now.lock.node, After(now, ReadParents(true)).lock.node, now.parents.reservedBytes,
                    2 * |Charged(now.parents.entries)|, now.parents.reservedEgress)
  {
    RunKeeps(s, moves);
    var now := RunMoves(s, moves);
    if PartOf(seen, now.executions) && id in now.executions && id !in seen { LoopStepIsExact(now, seen, id); }
    if now.lock.Free? && After(now, Acquire(job, 0)).lock.Held? { FirstReadIsExact(now, job); }
    if now.lock.Held? && now.lock.other == 0 { LaterReadsAreExact(now); }
  }

  /** While any live owner's usage is unknown, or another process has cells here, what
      is advertised is no memory and no broker; otherwise the totals less the sums. */
  lemma UnknownUsageHidesAll(n: Node, registry: map<string, Slot>, other: nat)
    requires other < U32
    ensures var shown := Applied(n, registry, other);
            if other > 0 || (exists id <- registry :: registry[id].active && registry[id].reservation.None?)
            then shown.memoryBytes == 0 && shown.egressSlots == 0
            else
              && (MemoryHeld(registry) <= n.memoryBytes ==>
                    shown.memoryBytes + MemoryHeld(registry) == n.memoryBytes)
              && (EgressHeld(registry) <= n.egressSlots ==>
                    shown.egressSlots + EgressHeld(registry) == n.egressSlots)
    ensures other + |Active(registry)| < U32 ==>
              Applied(n, registry, other).liveCells == other + |Active(registry)|
  {
  }

  /** A holder that could not read the parents admits nothing. */
  lemma BlindHolderAdmitsNothing(s: Sys)
    requires SysInv(s) && s.lock.Held? && s.lock.stage.SawPrewarm? && s.lock.node.maxCells > 0
    ensures After(After(s, ReadParents(false)), Decide) == s.(lock := Lock.Free)
  {
  }

  /** What a lock holder sees is never better than the truth at the moment it
      decides, so every acceptance fits what is free then. */
  lemma AcceptanceFits(s: Sys, moves: seq<Move>)
    requires Boots(s)
    requires var l := RunMoves(s, moves).lock; l.Held? && l.stage.SawParents?
    ensures var now := RunMoves(s, moves);
            var free := Advertised(now);
            && now.lock.node.memoryBytes <= free.memoryBytes
            && now.lock.node.liveCells >= free.liveCells
            && now.lock.node.egressSlots <= free.egressSlots
  {
    RunKeeps(s, moves);
    CapacityIsConserved(s, moves);
  }

  /** With no release in between, the lock holder reads the truth. */
  lemma QuietAdmissionReads(s: Sys, job: Job)
    requires SysInv(s) && s.lock.Free?
    requires (job.Execute? ==> job.id !in s.executions) && (job.Prewarm? ==> s.prewarm.None?)
    ensures After(After(After(s, Acquire(job, 0)), ReadPrewarm), ReadParents(true))
            == s.(lock := Lock.Held(job, SawParents, Advertised(s), 0))
  {
  }

  /** Then an execution gets in exactly when the request is in order, the node is
      ready, and one cell, its memory and (if it asks for egress) one broker are
      free. */
  lemma ExecutionAdmittedIff(s: Sys, id: string, ask: Ask)
    requires SysInv(s) && s.lock.Free? && id !in s.executions
    ensures var read := After(After(After(s, Acquire(Execute(id, ask, true), 0)), ReadPrewarm), ReadParents(true));
            var end := After(read, Decide);
            && end.lock.Free?
            && (id !in end.executions ==> end.executions == s.executions)
            && (id in end.executions ==>
                  && end.executions == s.executions[id := end.executions[id]]
                  && end.executions[id].memoryBytes == ask.memoryBytes
                  && end.executions[id].egressSlots == (if ask.egress then 1 else 0))
            && (id in end.executions <==>
                  && InOrder(ask) && ask.supported && s.total.kvm && s.total.cpu && s.total.stores
                  && CellsInUse(s) < s.total.maxCells
                  && MemoryInUse(s) + ask.memoryBytes <= s.total.memoryBytes
                  && (ask.egress ==> BrokersInUse(s) < s.total.egressSlots))
  {
    QuietAdmissionReads(s, Execute(id, ask, true));
    AdvertisedIsFree(s);
  }

  /** The same for a prewarm, one at a time; what is held is all its memory and, if it
      asks for egress, one broker. */
  lemma PrewarmAdmittedIff(s: Sys, ask: Ask)
    requires SysInv(s) && s.lock.Free?
    ensures var end := After(After(After(After(s, Acquire(Prewarm(ask), 0)), ReadPrewarm), ReadParents(true)), Decide);
            && (s.prewarm.Some? ==> end == s)
            && (s.prewarm.None? ==>
                  && end == s.(prewarm := end.prewarm)
                  && (end.prewarm.Some? <==>
                        && InOrder(ask) && ask.supported && s.total.kvm && s.total.cpu && s.total.stores
                        && CellsInUse(s) < s.total.maxCells
                        && MemoryInUse(s) + ask.memoryBytes <= s.total.memoryBytes
                        && (ask.egress ==> BrokersInUse(s) < s.total.egressSlots))
                  && (end.prewarm.Some? ==>
                        && end.prewarm.value.memoryBytes == ask.memoryBytes
                        && end.prewarm.value.egressSlots == (if ask.egress then 1 else 0)))
  {
    if s.prewarm.None? {
      QuietAdmissionReads(s, Prewarm(ask));
      AdvertisedIsFree(s);
    }
  }

  /** What releases give back: a published execution exactly what it held, a dropped
      lease exactly the prewarm, nothing else. */
  lemma ReleasesGiveBack(s: Sys, id: string)
    requires SysInv(s)
    ensures var now := After(s, Publish(id));
            if s.lock.Free? && id in s.executions then
              && now == s.(executions := now.executions) && now.executions.Keys == s.executions.Keys - {id}
              && MemoryInUse(now) + s.executions[id].memoryBytes == MemoryInUse(s)
              && BrokersInUse(now) + s.executions[id].egressSlots == BrokersInUse(s)
              && CellsInUse(now) + 1 == CellsInUse(s)
            else now == s
    ensures var now := After(s, DropLease);
            && now == s.(prewarm := None)
            && MemoryInUse(now) + PrewarmMemory(s) == MemoryInUse(s)
            && CellsInUse(now) + PrewarmCells(s) == CellsInUse(s) && BrokersInUse(now) == BrokersInUse(s)
  {
    if id in s.executions { SlotsDrop(s.executions, id); } else { assert s.executions - {id} == s.executions; }
  }

  /** A request in order is turned away for lack of capacity exactly when the cells
      are all taken, its memory does not fit, or it wants a broker and none is left;
      any other refusal is the one the same node gives with nothing running on it. */
  lemma CapacityRefusalIff(s: Sys, ask: Ask)
    requires SysInv(s)
    ensures Admit(ask, Advertised(s)) == Some(OutOfCapacity) <==>
              && InOrder(ask) && ask.supported && (ask.requireHardware ==> s.total.kvm && s.total.cpu)
              && (|| CellsInUse(s) == s.total.maxCells
                  || MemoryInUse(s) + ask.memoryBytes > s.total.memoryBytes
                  || (ask.egress && BrokersInUse(s) == s.total.egressSlots))
    ensures Admit(ask, Advertised(s)) in {Some(InvalidRequest), Some(Unsupported), Some(NoEligibleNode)} ==>
              Admit(ask, s.total.(liveCells := 0)) == Admit(ask, Advertised(s))
    ensures Admit(ask, Advertised(s)) == Some(InvalidRequest) <==> !(ask.wellFormed && ask.memoryBytes > 0)
    ensures Admit(ask, Advertised(s)) == Some(Unsupported) <==>
              && ask.wellFormed && ask.memoryBytes > 0
              && (!ask.supported || (ask.requireHardware && !(s.total.kvm && s.total.cpu)))
    ensures Admit(ask, Advertised(s)) == Some(NoEligibleNode) ==> !(s.total.kvm && s.total.cpu && s.total.stores)
  {
    AdvertisedIsFree(s);
  }

  /** A parent gets in exactly when two cells, its nonzero memory and its brokers
      are free, its own admission succeeds and its registry has room for a new
      identity. */
  lemma ParentAdmittedIff(s: Sys, principal: string, id: string, r: Reservation)
    requires SysInv(s) && s.lock.Free? && id !in s.parents.entries
    ensures var job := Enduring(principal, id, r, true, true);
            var end := After(After(After(After(s, Acquire(job, 0)), ReadPrewarm), ReadParents(true)), Decide);
            && end.lock.Free?
            && (id in end.parents.entries <==>
                  && CellsInUse(s) + 2 <= s.total.maxCells
                  && 0 < r.memoryBytes && MemoryInUse(s) + r.memoryBytes <= s.total.memoryBytes
                  && BrokersInUse(s) + r.egressSlots <= s.total.egressSlots
                  && 0 < |principal| <= 512 && !s.parents.draining
                  && |s.parents.entries| < s.limits.maxEntries
                  && s.parents.reservedBytes + r.memoryBytes <= s.limits.memoryBytes)
            && (id in end.parents.entries ==>
                  && end.parents.entries ==
                       s.parents.entries[id := Parent(principal, true, Initializing, r.memoryBytes, r.egressSlots)]
                  && end.parents.reservedBytes == s.parents.reservedBytes + r.memoryBytes
                  && end.parents.reservedEgress == s.parents.reservedEgress + r.egressSlots)
  {
    QuietAdmissionReads(s, Enduring(principal, id, r, true, true));
    AdvertisedIsFree(s);
  }

  // ----------------------------------------------------------------- incarnations

  lemma OthersLeaveParents(s: Sys, m: Move)
    requires !m.Decide? && !m.StopBegin? && !m.Reap? && !m.JoinDone?
    ensures After(s, m).parents.entries == s.parents.entries
  {
  }

  lemma StopRemembers(s: Sys, principal: string, id: string)
    ensures Remembers(s.parents, After(s, StopBegin(principal, id)).parents)
  {
    TakenRemembers(s.parents, {id});
  }

  lemma DecideRemembers(s: Sys)
    ensures Remembers(s.parents, After(s, Decide).parents)
  {
    if s.lock.Held? && s.lock.job.Enduring? {
      var job := s.lock.job;
      InsertRemembers(s.parents, s.limits, job.principal, job.id,
                      job.reservation.memoryBytes, job.reservation.egressSlots, job.spawns);
    }
  }

  lemma JoinMoveRemembers(s: Sys, id: string, joined: bool, status: Status)
    requires SysInv(s)
    ensures Remembers(s.parents, After(s, JoinDone(id, joined, status)).parents)
  {
    if id in s.parents.joining {
      JoinReleases(s.parents, id, joined, status);
      JoinRemembers(s.parents, id, joined, status);
    }
  }

  lemma MoveRemembers(s: Sys, m: Move)
    requires SysInv(s)
    ensures Remembers(s.parents, After(s, m).parents)
  {
    match m
    case Decide => DecideRemembers(s);
    case StopBegin(principal, id) => StopRemembers(s, principal, id);
    case Reap(finished) => TakenRemembers(s.parents, finished);
    case JoinDone(id, joined, status) => JoinMoveRemembers(s, id, joined, status);
    case _ => OthersLeaveParents(s, m);
  }

  lemma {:induction false} RunRemembers(s: Sys, moves: seq<Move>, more: seq<Move>)
    requires Boots(s)
    ensures Remembers(RunMoves(s, moves).parents, RunMoves(s, moves + more).parents)
  {
    if more == [] {
      assert moves + more == moves;
    } else {
      var last := |more| - 1;
      var before := moves + more[..last];
      RunRemembers(s, moves, more[..last]);
      assert (moves + more)[..|moves + more| - 1] == before;
      RunKeeps(s, before);
      MoveRemembers(RunMoves(s, before), more[last]);
      RemembersOn(RunMoves(s, moves).parents, RunMoves(s, before).parents, RunMoves(s, moves + more).parents);
    }
  }

  /** Over every run: an incarnation once claimed can never be claimed again, by
      anyone, whatever stops, reaps and joins came between, and a charge once given
      back is never charged again. */
  lemma IncarnationsAreClaimedOnce(s: Sys, moves: seq<Move>, more: seq<Move>, id: string,
                                   principal: string, bytes: nat, egress: nat, spawns: bool)
    requires Boots(s) && id in RunMoves(s, moves).parents.entries
    ensures var p, q := RunMoves(s, moves).parents, RunMoves(s, moves + more).parents;
            && Inserted(q, s.limits, principal, id, bytes, egress, spawns) == (q, false)
            && id in q.entries && q.entries[id].principal == p.entries[id].principal
            && (p.entries[id].reservedBytes == 0 ==> q.entries[id].reservedBytes == 0)
  {
    RunRemembers(s, moves, more);
  }
}
