/** Concrete runs in which a promise is not kept, one step at a time. The exact
    conditions stand with the theorems about all runs. */
module LifecycleWitnesses {
  import opened Common
  import opened Journal
  import opened Lifecycle
  import opened LifecycleInvariant
  import opened LifecycleTheorems

  /** The state on the way there: one execution whose claim is all the disk holds. */
  ghost predicate Poised(c: Core, stage: Stage, r: Record) {
    && c.now == 0 && c.workers == map["a" := stage]
    && "a" in c.registry && c.registry["a"].value == r && c.registry["a"].control == Control(10, None)
    && "a" in c.disk.visible && c.disk.visible["a"].version == 1
    && c.disk.visible["a"].record == Fresh("a")
  }

  /** The claim, then the worker's first move. */
  lemma ClaimThenSpawn() returns (steps: seq<Step>)
    ensures Poised(Run(steps).core, AtStart(false), Fresh("a"))
  {
    var r := Request("a", [], false, 10, Reservation(1, 0));
    var claim := SubmitStep(r, Admitted, SubmitIo(ReadWorks, ALL_WORKS, map[], PrepareWorks, PublishWorks));
    RunAppend([], claim);
    var c := Run([] + [claim]).core;
    assert Evicted(BOOT.core, map[]) == BOOT.core;
    var e := NewEntry(BOOT.core, r);
    ClaimSpec(EMPTY_DISK, HashOf([]), e.value, e.audit, CAPACITY, PrepareWorks, PublishWorks);
    assert c == Enroll(BOOT.core, r, PrepareWorks, PublishWorks).0;
    assert Poised(c, AtClaim([], false), Fresh("a"));
    steps := [] + [claim] + [WorkStep("a", Spawn, ALL_WORKS)];
    RunAppend([] + [claim], WorkStep("a", Spawn, ALL_WORKS));
  }

  lemma StartMoves(c: Core)
    requires Poised(c, AtStart(false), Fresh("a"))
    ensures Poised(Next(c, WorkStep("a", Check, ALL_WORKS)), AtChecked(false), Fresh("a"))
  {
  }

  lemma CheckedMoves(c: Core)
    requires Poised(c, AtChecked(false), Fresh("a"))
    ensures Poised(Next(c, WorkStep("a", Advance, ALL_WORKS)), AtResolve, Fresh("a").(phase := Resolving))
  {
  }

  lemma ResolveMoves(c: Core, r: Record)
    requires Poised(c, AtResolve, r)
    ensures Poised(Next(c, WorkStep("a", Advance, ALL_WORKS)), AtLaunched, r)
  {
  }

  lemma LaunchedMoves(c: Core, r: Record)
    requires Poised(c, AtLaunched, r)
    ensures Poised(Next(c, WorkStep("a", Execute([], ""), ALL_WORKS)), AtExecuted, r)
  {
  }

  const LOST := CompleteIo(ReadWorks, TempFails, true)

  lemma SuccessIsLost(c: Core)
    requires Poised(c, AtExecuted, Fresh("a").(phase := Resolving))
    ensures Poised(Next(c, WorkStep("a", FinishWork(true, None, None, ""), LOST)), AtDone,
                   Record("a", Succeeded, None, None, Some(Receipt("a", Success, ""))))
  {
    var c0 := Moved(c, "a", Some(AtDone));
    var change := Finish(Success, None, None, "");
    assert Next(c, WorkStep("a", FinishWork(true, None, None, ""), LOST)) == Update(c0, "a", change, LOST);
    var e := UpdatedEntry(c.registry["a"], change, 0, c.wall);
    assert Persisted(c.disk, e, LOST).0.visible == c.disk.visible;
  }

  /** Such a run exists: claim, run to a guest success whose publication cannot be
      written, panic while cleaning up. */
  lemma ARunThatRelabels() returns (steps: seq<Step>)
    ensures var c := Run(steps).core;
            "a" in c.disk.visible && !Readable(c.disk.visible["a"], "a")
  {
    steps := ClaimThenSpawn();
    StartMoves(Run(steps).core);
    steps := Then(steps, Check, ALL_WORKS);
    CheckedMoves(Run(steps).core);
    steps := Then(steps, Advance, ALL_WORKS);
    ResolveMoves(Run(steps).core, Fresh("a").(phase := Resolving));
    steps := Then(steps, Advance, ALL_WORKS);
    LaunchedMoves(Run(steps).core, Fresh("a").(phase := Resolving));
    steps := Then(steps, Execute([], ""), ALL_WORKS);
    SuccessIsLost(Run(steps).core);
    steps := Then(steps, FinishWork(true, None, None, ""), LOST);
    PanicRelabels(Run(steps).core);
    steps := Then(steps, Panic, ALL_WORKS);
  }

  lemma Then(steps: seq<Step>, a: Action, io: CompleteIo) returns (more: seq<Step>)
    ensures Run(more).core == Next(Run(steps).core, WorkStep("a", a, io))
  {
    more := steps + [WorkStep("a", a, io)];
    RunAppend(steps, WorkStep("a", a, io));
  }

  lemma PanicRelabels(c: Core)
    requires Poised(c, AtDone, Record("a", Succeeded, None, None, Some(Receipt("a", Success, ""))))
    ensures var d := Next(c, WorkStep("a", Panic, ALL_WORKS)).disk;
            "a" in d.visible && !Readable(d.visible["a"], "a")
  {
    var change := Fail(PANICKED);
    var c0 := Moved(c, "a", None);
    assert Next(c, WorkStep("a", Panic, ALL_WORKS)) == Update(c0, "a", change, ALL_WORKS);
    var e := UpdatedEntry(c.registry["a"], change, 0, c.wall);
    assert e.value.phase == Failed && e.value.receipt == Some(Receipt("a", Success, ""));
    assert Read(c.disk, "a", ReadWorks).1 == Present(c.disk.visible["a"]);
    assert Complete(c.disk, e.value, e.audit, ALL_WORKS).0.visible["a"].record == e.value;
  }

  /** The success that does get written, and a panic after it. */
  lemma SuccessIsKept(c: Core)
    requires Poised(c, AtExecuted, Fresh("a").(phase := Resolving))
    ensures var c' := Next(c, WorkStep("a", FinishWork(true, None, None, ""), ALL_WORKS));
            var r := Record("a", Succeeded, None, None, Some(Receipt("a", Success, "")));
            && c'.now == 0 && c'.workers == map["a" := AtDone]
            && "a" in c'.registry && c'.registry["a"].value == r && c'.registry["a"].control == Control(10, None)
            && "a" in c'.disk.visible && c'.disk.visible["a"].version == 1 && c'.disk.visible["a"].record == r
  {
    var c0 := Moved(c, "a", Some(AtDone));
    var change := Finish(Success, None, None, "");
    assert Next(c, WorkStep("a", FinishWork(true, None, None, ""), ALL_WORKS)) == Update(c0, "a", change, ALL_WORKS);
    var e := UpdatedEntry(c.registry["a"], change, 0, c.wall);
    assert Read(c.disk, "a", ReadWorks).1 == Present(c.disk.visible["a"]);
    assert Persisted(c.disk, e, ALL_WORKS).0.visible["a"].record == e.value;
  }

  lemma PanicHidesTheResult(c: Core)
    requires var r := Record("a", Succeeded, None, None, Some(Receipt("a", Success, "")));
             && c.now == 0 && c.workers == map["a" := AtDone]
             && "a" in c.registry && c.registry["a"].value == r && c.registry["a"].control == Control(10, None)
             && "a" in c.disk.visible && c.disk.visible["a"].version == 1 && c.disk.visible["a"].record == r
    ensures var c' := Next(c, WorkStep("a", Panic, ALL_WORKS));
            && "a" in c'.registry && c'.registry["a"].value.phase == Failed
            && "a" in c'.disk.visible && c'.disk.visible["a"] == c.disk.visible["a"]
  {
    var change := Fail(PANICKED);
    assert Next(c, WorkStep("a", Panic, ALL_WORKS)) == Update(Moved(c, "a", None), "a", change, ALL_WORKS);
    var e := UpdatedEntry(c.registry["a"], change, 0, c.wall);
    assert e.value.phase == Failed;
    assert Complete(c.disk, e.value, e.audit, ALL_WORKS).0.visible["a"] == c.disk.visible["a"];
  }

  /** The failing family is not empty: after a success that was written and a panic
      during cleanup, memory refuses to answer what the journal would. */
  lemma ARunWhoseEvictionShows() returns (steps: seq<Step>)
    ensures var c := Run(steps).core;
            && "a" in c.registry && !IsActive(c.registry["a"].value)
            && Get(c, "a", false, QUIET_QUERY).1 == NotDurable
            && Get(c.(registry := c.registry - {"a"}), "a", false, QUIET_QUERY).1.Answer?
  {
    steps := ClaimThenSpawn();
    StartMoves(Run(steps).core);
    steps := Then(steps, Check, ALL_WORKS);
    CheckedMoves(Run(steps).core);
    steps := Then(steps, Advance, ALL_WORKS);
    ResolveMoves(Run(steps).core, Fresh("a").(phase := Resolving));
    steps := Then(steps, Advance, ALL_WORKS);
    LaunchedMoves(Run(steps).core, Fresh("a").(phase := Resolving));
    steps := Then(steps, Execute([], ""), ALL_WORKS);
    SuccessIsKept(Run(steps).core);
    steps := Then(steps, FinishWork(true, None, None, ""), ALL_WORKS);
    PanicHidesTheResult(Run(steps).core);
    steps := Then(steps, Panic, ALL_WORKS);
    RunInv(steps);
    EvictionShows(Run(steps).core);
  }

  lemma EvictionShows(c: Core)
    requires CoreInv(c) && "a" in c.registry && c.registry["a"].value.phase == Failed
    requires "a" in c.disk.visible && c.disk.visible["a"].version == 1
    requires c.disk.visible["a"].record == Record("a", Succeeded, None, None, Some(Receipt("a", Success, "")))
    ensures Get(c, "a", false, QUIET_QUERY).1 == NotDurable
    ensures Get(c.(registry := c.registry - {"a"}), "a", false, QUIET_QUERY).1.Answer?
  {
    assert EntryRules("a", c.registry["a"], c.now);
  }

  // ----------------------------------------------------- a cancel after the deadline

  /** The state between a late cancel and the worker's next phase. */
  ghost predicate Told(c: Core, stage: Stage, phase: Phase) {
    && c.now == 20 && c.workers == map["a" := stage]
    && "a" in c.registry && c.registry["a"].value.phase == phase
    && c.registry["a"].control == Control(10, Some(ByDeadline))
  }

  lemma TickThenCancel(c: Core)
    requires Poised(c, AtChecked(false), Fresh("a"))
    ensures var late := Next(c, Tick(20, ""));
            && Told(Next(late, CancelStep("a", QUIET_QUERY)), AtChecked(false), Cancelling)
            && Cancel(late, "a", QUIET_QUERY).1.Accepted?
            && Cancel(late, "a", QUIET_QUERY).1.running.phase == Cancelling
  {
  }

  lemma PhaseAfterCancel(c: Core)
    requires Told(c, AtChecked(false), Cancelling)
    ensures Told(Next(c, WorkStep("a", Advance, ALL_WORKS)), AtResolve, Resolving)
  {
    var e := UpdatedEntry(c.registry["a"], Enter(Resolving), 20, c.wall);
    assert e.value.phase == Resolving && e.control == Control(10, Some(ByDeadline));
    assert Next(c, WorkStep("a", Advance, ALL_WORKS))
           == Update(Moved(c, "a", Some(AtResolve)), "a", Enter(Resolving), ALL_WORKS);
  }

  /** Such a run: a client whose cancel came after the deadline is told `Cancelling`,
      and the very next step shows the execution `Resolving`. */
  lemma ARunThatLeavesCancelling() returns (steps: seq<Step>, cancel: Step, next: Step)
    ensures cancel == CancelStep("a", QUIET_QUERY)
    ensures Witness(Run(steps).core, cancel) != []
            && Witness(Run(steps).core, cancel)[0].Answered?
            && Witness(Run(steps).core, cancel)[0].response.Accepted?
            && Witness(Run(steps).core, cancel)[0].response.running.phase == Cancelling
    ensures var c := Run(steps + [cancel] + [next]).core;
            "a" in c.registry && c.registry["a"].value.phase == Resolving
  {
    steps := ClaimThenSpawn();
    StartMoves(Run(steps).core);
    steps := Then(steps, Check, ALL_WORKS);
    var started := Run(steps).core;
    RunAppend(steps, Tick(20, ""));
    TickThenCancel(started);
    steps := steps + [Tick(20, "")];
    cancel := CancelStep("a", QUIET_QUERY);
    next := WorkStep("a", Advance, ALL_WORKS);
    RunAppend(steps, cancel);
    RunAppend(steps + [cancel], next);
    PhaseAfterCancel(Run(steps + [cancel]).core);
  }
}
