/** The bounded health-check queue as interleaved atomic steps.

    Each region under the lock is one step: an enqueuer reserves a document and
    later submits it; a worker starts it and later finishes it, whatever the check
    did.  When the write or the submission between them raises, the enqueuer gives
    up, and nothing ever releases the document. */
module HealthQueue {

  /** Where a task is: reserved but not yet submitted, waiting, running, or given up
      by its enqueuer. */
  datatype Phase = Reserved | Submitted | Running | Abandoned

  datatype Task = Task(docId: string, phase: Phase)

  /** The two sets the code keeps, and the live tasks behind them. */
  datatype Queue = Queue(pending: set<string>, running: set<string>, tasks: map<nat, Task>, nextId: nat)

  const EMPTY: Queue := Queue({}, {}, map[], 0)

  datatype Limits = Limits(maxQueueSize: int, maxConcurrent: nat)

  datatype Answer = Full | AlreadyQueued | Accepted(task: nat)

  // ---------- steps ----------

  /** The region under the lock in `enqueue`. */
  function Reserve(l: Limits, q: Queue, docId: string): (Queue, Answer) {
    if |q.pending| + |q.running| >= l.maxQueueSize then (q, Full)
    else if docId in q.pending || docId in q.running then (q, AlreadyQueued)
    else
      (Queue(q.pending + {docId}, q.running, q.tasks[q.nextId := Task(docId, Reserved)], q.nextId + 1),
       Accepted(q.nextId))
  }

  function SetPhase(q: Queue, t: nat, phase: Phase): map<nat, Task>
    requires t in q.tasks
  {
    q.tasks[t := q.tasks[t].(phase := phase)]
  }

  /** What `enqueue` does after the region: it submits the task, or an exception on
      the way leaves the document where it is. */
  function HandOver(q: Queue, t: nat, failed: bool): Queue
    requires t in q.tasks
  {
    q.(tasks := SetPhase(q, t, if failed then Abandoned else Submitted))
  }

  /** The first region under the lock in `_run`. */
  function Start(q: Queue, t: nat): Queue
    requires t in q.tasks
  {
    var d := q.tasks[t].docId;
    q.(pending := q.pending - {d}, running := q.running + {d}, tasks := SetPhase(q, t, Running))
  }

  /** The last region under the lock in `_run`. */
  function Finish(q: Queue, t: nat): Queue
    requires t in q.tasks
  {
    q.(running := q.running - {q.tasks[t].docId}, tasks := q.tasks - {t})
  }

  datatype Step =
    | Enqueue(docId: string)
    | SubmitStep(task: nat)
    | FailStep(task: nat)
    | StartStep(task: nat)
    | FinishStep(task: nat)

  predicate InPhase(q: Queue, t: nat, phase: Phase) {
    t in q.tasks && q.tasks[t].phase == phase
  }

  /** A worker is free when fewer tasks run than the pool has threads. */
  predicate Enabled(l: Limits, q: Queue, step: Step) {
    match step
    case Enqueue(_) => true
    case SubmitStep(t) => InPhase(q, t, Reserved)
    case FailStep(t) => InPhase(q, t, Reserved)
    case StartStep(t) => InPhase(q, t, Submitted) && |InState(q, Running)| < l.maxConcurrent
    case FinishStep(t) => InPhase(q, t, Running)
  }

  function Next(l: Limits, q: Queue, step: Step): Queue
    requires Enabled(l, q, step)
  {
    match step
    case Enqueue(d) => Reserve(l, q, d).0
    case SubmitStep(t) => HandOver(q, t, false)
    case FailStep(t) => HandOver(q, t, true)
    case StartStep(t) => Start(q, t)
    case FinishStep(t) => Finish(q, t)
  }

  function InState(q: Queue, phase: Phase): set<nat> {
    set t | t in q.tasks && q.tasks[t].phase == phase
  }

  // ---------- the invariant ----------

  /** Documents of the tasks that run, or that do not. */
  function Docs(q: Queue, running: bool): set<string> {
    set t | t in q.tasks && (q.tasks[t].phase == Running <==> running) :: q.tasks[t].docId
  }

  /** At most one task per document. */
  ghost predicate OneTaskEach(q: Queue) {
    forall t, u :: t in q.tasks && u in q.tasks && q.tasks[t].docId == q.tasks[u].docId ==> t == u
  }

  ghost predicate Invariant(l: Limits, q: Queue) {
    && q.pending == Docs(q, false)
    && q.running == Docs(q, true)
    && OneTaskEach(q)
    && (forall t :: t in q.tasks ==> t < q.nextId)
    && |q.pending| + |q.running| <= (if l.maxQueueSize > 0 then l.maxQueueSize else 0)
    && |InState(q, Running)| <= l.maxConcurrent
  }

  /** Pending and running are disjoint. */
  lemma HeldOnce(l: Limits, q: Queue)
    requires Invariant(l, q)
    ensures q.pending !! q.running
  {
    forall d | d in q.pending ensures d !in q.running {
      var t :| t in q.tasks && q.tasks[t].phase != Running && q.tasks[t].docId == d;
    }
  }

  lemma ReserveKeeps(l: Limits, q: Queue, docId: string)
    requires Invariant(l, q)
    ensures Invariant(l, Reserve(l, q, docId).0)
  {
    var n := Reserve(l, q, docId).0;
    if n != q {
      DocsGrow(q, n, docId);
      NewTask(q, n, docId);
      assert |n.pending| == |q.pending| + 1;
    }
  }

  lemma NewTask(q: Queue, n: Queue, docId: string)
    requires OneTaskEach(q) && q.nextId !in q.tasks && docId !in Docs(q, true) && docId !in Docs(q, false)
    requires n.tasks == q.tasks[q.nextId := Task(docId, Reserved)]
    ensures OneTaskEach(n) && InState(n, Running) == InState(q, Running)
  {
    forall t | t in q.tasks ensures q.tasks[t].docId != docId {
      DocsHas(q, t);
    }
  }

  lemma DocsHas(q: Queue, t: nat)
    requires t in q.tasks
    ensures q.tasks[t].docId in Docs(q, q.tasks[t].phase == Running)
  {
  }

  lemma DocsGrow(q: Queue, n: Queue, docId: string)
    requires q.nextId !in q.tasks && n.tasks == q.tasks[q.nextId := Task(docId, Reserved)]
    ensures Docs(n, false) == Docs(q, false) + {docId}
    ensures Docs(n, true) == Docs(q, true)
  {
    forall d ensures d in Docs(n, false) <==> d in Docs(q, false) + {docId} {
      if d in Docs(q, false) {
        var t :| t in q.tasks && q.tasks[t].phase != Running && q.tasks[t].docId == d;
        assert n.tasks[t].docId == d;
      }
      if d == docId {
        assert n.tasks[q.nextId].docId == d;
      }
    }
    forall d ensures d in Docs(n, true) <==> d in Docs(q, true) {
      if d in Docs(q, true) {
        var t :| t in q.tasks && q.tasks[t].phase == Running && q.tasks[t].docId == d;
        assert n.tasks[t].docId == d;
      }
    }
  }

  /** Changing the phase of one task moves at most its document. */
  lemma DocsMove(q: Queue, n: Queue, t: nat, phase: Phase)
    requires OneTaskEach(q) && t in q.tasks && n.tasks == SetPhase(q, t, phase)
    ensures Docs(n, false) == Docs(q, false) - {q.tasks[t].docId} + if phase == Running then {} else {q.tasks[t].docId}
    ensures Docs(n, true) == Docs(q, true) - {q.tasks[t].docId} + if phase == Running then {q.tasks[t].docId} else {}
    ensures OneTaskEach(n)
  {
    var own := q.tasks[t].docId;
    forall d, running: bool
      ensures d in Docs(n, running) <==> if d == own then running == (phase == Running) else d in Docs(q, running)
    {
      if d == own {
        assert n.tasks[t].docId == d;
      } else if d in Docs(q, running) {
        var u :| u in q.tasks && (q.tasks[u].phase == Running <==> running) && q.tasks[u].docId == d;
        assert n.tasks[u] == q.tasks[u];
      }
    }
  }

  lemma HandOverKeeps(l: Limits, q: Queue, t: nat, failed: bool)
    requires Invariant(l, q) && InPhase(q, t, Reserved)
    ensures Invariant(l, HandOver(q, t, failed))
  {
    var n := HandOver(q, t, failed);
    HandOverDocs(q, t, failed);
    StillRunning(q, n, t, n.tasks[t].phase);
  }

  /** Handing over a reserved task, or failing to, moves no document. */
  lemma HandOverDocs(q: Queue, t: nat, failed: bool)
    requires OneTaskEach(q) && InPhase(q, t, Reserved)
    ensures Docs(HandOver(q, t, failed), false) == Docs(q, false) && Docs(HandOver(q, t, failed), true) == Docs(q, true)
    ensures OneTaskEach(HandOver(q, t, failed))
  {
    DocsHas(q, t);
    DocsMove(q, HandOver(q, t, failed), t, if failed then Abandoned else Submitted);
  }

  lemma StillRunning(q: Queue, n: Queue, t: nat, phase: Phase)
    requires t in q.tasks && n.tasks == SetPhase(q, t, phase) && phase != Running && q.tasks[t].phase != Running
    ensures InState(n, Running) == InState(q, Running)
  {
  }

  lemma StartKeeps(l: Limits, q: Queue, t: nat)
    requires Invariant(l, q) && InPhase(q, t, Submitted) && |InState(q, Running)| < l.maxConcurrent
    ensures Invariant(l, Start(q, t))
  {
    StartDocs(q, t);
    PhaseMoves(q, Start(q, t), t, Running);
    StartCounts(l, q, t);
  }

  /** Starting a task moves its document. */
  lemma StartDocs(q: Queue, t: nat)
    requires OneTaskEach(q) && InPhase(q, t, Submitted)
    ensures Docs(Start(q, t), false) == Docs(q, false) - {q.tasks[t].docId}
    ensures Docs(Start(q, t), true) == Docs(q, true) + {q.tasks[t].docId}
    ensures OneTaskEach(Start(q, t))
  {
    DocsMove(q, Start(q, t), t, Running);
  }

  lemma StartCounts(l: Limits, q: Queue, t: nat)
    requires Invariant(l, q) && InPhase(q, t, Submitted)
    ensures |Start(q, t).pending| + |Start(q, t).running| == |q.pending| + |q.running|
  {
    HeldOnce(l, q);
    DocsHas(q, t);
  }

  lemma FinishKeeps(l: Limits, q: Queue, t: nat)
    requires Invariant(l, q) && InPhase(q, t, Running)
    ensures Invariant(l, Finish(q, t))
  {
    var n, d := Finish(q, t), q.tasks[t].docId;
    HeldOnce(l, q);
    assert d in Docs(q, true);
    forall x, running: bool ensures x in Docs(n, running) <==> x in Docs(q, running) && x != d {
      if x in Docs(q, running) && x != d {
        var u :| u in q.tasks && (q.tasks[u].phase == Running <==> running) && q.tasks[u].docId == x;
        assert n.tasks[u] == q.tasks[u];
      }
    }
    assert n.pending == Docs(n, false) && n.running == Docs(n, true);
    assert InState(n, Running) == InState(q, Running) - {t};
    assert |n.running| == |q.running| - 1;
  }

  /** Every step of every interleaving keeps the invariant. */
  lemma StepKeepsInvariant(l: Limits, q: Queue, step: Step)
    requires Invariant(l, q) && Enabled(l, q, step)
    ensures Invariant(l, Next(l, q, step))
  {
    match step {
      case Enqueue(d) => ReserveKeeps(l, q, d);
      case SubmitStep(t) => HandOverKeeps(l, q, t, false);
      case FailStep(t) => HandOverKeeps(l, q, t, true);
      case StartStep(t) => StartKeeps(l, q, t);
      case FinishStep(t) => FinishKeeps(l, q, t);
    }
  }

  /** `steps` can be taken one after the other from `q`. */
  ghost predicate IsRun(l: Limits, q: Queue, steps: seq<Step>)
    decreases |steps|
  {
    steps == [] || (Enabled(l, q, steps[0]) && IsRun(l, Next(l, q, steps[0]), steps[1..]))
  }

  ghost function After(l: Limits, q: Queue, steps: seq<Step>): Queue
    requires IsRun(l, q, steps)
    decreases |steps|
  {
    if steps == [] then q else After(l, Next(l, q, steps[0]), steps[1..])
  }

  /** After any interleaving: the bound holds, at most `maxConcurrent` tasks run,
      pending and running are disjoint, and a document is in their union exactly
      when it has a task, of which it has at most one. */
  lemma {:induction false} RunsKeepInvariant(l: Limits, q: Queue, steps: seq<Step>)
    requires Invariant(l, q) && IsRun(l, q, steps)
    ensures var n := After(l, q, steps);
      && Invariant(l, n) && n.pending !! n.running
      && n.pending + n.running == set t | t in n.tasks :: n.tasks[t].docId
    decreases |steps|
  {
    if steps == [] {
      HeldOnce(l, q);
    } else {
      StepKeepsInvariant(l, q, steps[0]);
      RunsKeepInvariant(l, Next(l, q, steps[0]), steps[1..]);
    }
  }

  // ---------- draining ----------

  /** Steps left to take without new enqueues, when none fails: three for a reserved
      task, two for a submitted one, one for a running one. */
  function Remaining(q: Queue): nat {
    3 * |InState(q, Reserved)| + 2 * |InState(q, Submitted)| + |InState(q, Running)|
  }

  /** Documents that nothing will release. */
  function Lost(q: Queue): set<string> {
    set t | t in q.tasks && q.tasks[t].phase == Abandoned :: q.tasks[t].docId
  }

  lemma PhaseMoves(q: Queue, n: Queue, t: nat, phase: Phase)
    requires t in q.tasks && n.tasks == SetPhase(q, t, phase) && phase != q.tasks[t].phase
    ensures |InState(n, phase)| == |InState(q, phase)| + 1
    ensures |InState(n, q.tasks[t].phase)| == |InState(q, q.tasks[t].phase)| - 1
    ensures forall other :: other != phase && other != q.tasks[t].phase ==> InState(n, other) == InState(q, other)
  {
    assert InState(n, phase) == InState(q, phase) + {t};
    assert InState(n, q.tasks[t].phase) == InState(q, q.tasks[t].phase) - {t};
  }

  /** Every step but an enqueue takes one off what remains, a failing one all three
      steps of its task. */
  lemma Progress(l: Limits, q: Queue, step: Step)
    requires Enabled(l, q, step) && !step.Enqueue?
    ensures Remaining(Next(l, q, step)) == Remaining(q) - if step.FailStep? then 3 else 1
  {
    var n, t := Next(l, q, step), step.task;
    match step {
      case SubmitStep(_) => PhaseMoves(q, n, t, Submitted);
      case FailStep(_) => PhaseMoves(q, n, t, Abandoned);
      case StartStep(_) => PhaseMoves(q, n, t, Running);
      case FinishStep(_) =>
        assert InState(n, Reserved) == InState(q, Reserved) && InState(n, Submitted) == InState(q, Submitted);
        assert InState(n, Running) == InState(q, Running) - {t};
    }
  }

  lemma LostSame(q: Queue, n: Queue)
    requires InState(n, Abandoned) == InState(q, Abandoned)
    requires forall t :: t in InState(q, Abandoned) ==> n.tasks[t] == q.tasks[t]
    ensures Lost(n) == Lost(q)
  {
    assert forall t :: t in InState(n, Abandoned) <==> t in InState(q, Abandoned);
  }

  lemma LostGrows(q: Queue, t: nat)
    requires InPhase(q, t, Reserved)
    ensures Lost(HandOver(q, t, true)) == Lost(q) + {q.tasks[t].docId}
  {
    var n := HandOver(q, t, true);
    assert n.tasks[t] == Task(q.tasks[t].docId, Abandoned);
    forall d | d in Lost(q) ensures d in Lost(n) {
      var u :| u in q.tasks && q.tasks[u].phase == Abandoned && q.tasks[u].docId == d;
      assert n.tasks[u] == q.tasks[u];
    }
  }

  /** Exactly a failing hand-over loses a document, its own; no step finds one again. */
  lemma StepLoses(l: Limits, q: Queue, step: Step)
    requires Invariant(l, q) && Enabled(l, q, step)
    ensures Lost(Next(l, q, step)) == Lost(q) + if step.FailStep? then {q.tasks[step.task].docId} else {}
  {
    match step {
      case Enqueue(d) => ReserveLosesNone(l, q, d);
      case FailStep(t) => LostGrows(q, t);
      case SubmitStep(t) => LostSame(q, HandOver(q, t, false));
      case StartStep(t) => LostSame(q, Start(q, t));
      case FinishStep(t) => LostSame(q, Finish(q, t));
    }
  }

  lemma ReserveLosesNone(l: Limits, q: Queue, docId: string)
    requires Invariant(l, q)
    ensures Lost(Reserve(l, q, docId).0) == Lost(q)
  {
    LostSame(q, Reserve(l, q, docId).0);
  }

  lemma LostIsPending(l: Limits, q: Queue)
    requires Invariant(l, q)
    ensures Lost(q) <= q.pending && |Lost(q)| <= |q.pending|
  {
    forall d | d in Lost(q) ensures d in q.pending {
      var t :| t in q.tasks && q.tasks[t].phase == Abandoned && q.tasks[t].docId == d;
      DocsHas(q, t);
    }
    SubsetSize(Lost(q), q.pending);
  }

  lemma SubsetSize(a: set<string>, b: set<string>)
    requires a <= b
    ensures |a| <= |b| && (|a| == |b| ==> a == b)
  {
    assert b == a + (b - a) && |b| == |a| + |b - a|;
  }

  /** The step neither enqueues nor fails. */
  predicate Proper(step: Step) {
    !step.Enqueue? && !step.FailStep?
  }

  /** A proper step is possible exactly while a document is held that is not lost. */
  lemma NeverStuck(l: Limits, q: Queue)
    requires Invariant(l, q) && l.maxConcurrent >= 1
    ensures (exists step: Step :: Proper(step) && Enabled(l, q, step)) <==> q.pending + q.running != Lost(q)
  {
    LostIsPending(l, q);
    if q.pending + q.running != Lost(q) {
      var step := ProperStep(l, q);
    }
    if step: Step :| Proper(step) && Enabled(l, q, step) {
      HeldNotLost(l, q, step.task);
    }
  }

  lemma HeldNotLost(l: Limits, q: Queue, t: nat)
    requires Invariant(l, q) && t in q.tasks && q.tasks[t].phase != Abandoned
    ensures q.tasks[t].docId in q.pending + q.running && q.tasks[t].docId !in Lost(q)
  {
    DocsHas(q, t);
  }

  lemma ProperStep(l: Limits, q: Queue) returns (step: Step)
    requires Invariant(l, q) && l.maxConcurrent >= 1 && q.pending + q.running != Lost(q)
    ensures Proper(step) && Enabled(l, q, step)
  {
    LostIsPending(l, q);
    if q.running != {} {
      var r :| r in q.running;
      var t := TaskOf(q, r, true);
      step := FinishStep(t);
    } else {
      var d :| d in q.pending && d !in Lost(q);
      NoneRunning(q);
      var t := TaskOf(q, d, false);
      step := if q.tasks[t].phase == Reserved then SubmitStep(t) else StartStep(t);
    }
  }

  lemma TaskOf(q: Queue, d: string, running: bool) returns (t: nat)
    requires d in Docs(q, running)
    ensures t in q.tasks && (q.tasks[t].phase == Running <==> running) && q.tasks[t].docId == d
  {
    t :| t in q.tasks && (q.tasks[t].phase == Running <==> running) && q.tasks[t].docId == d;
  }

  lemma NoneRunning(q: Queue)
    requires Docs(q, true) == {}
    ensures InState(q, Running) == {}
  {
    forall t | t in q.tasks ensures q.tasks[t].phase != Running {
      DocsHas(q, t);
    }
  }

  /** When only lost documents are held, nothing remains. */
  lemma OnlyLostHeld(l: Limits, q: Queue)
    requires Invariant(l, q) && q.pending + q.running == Lost(q)
    ensures q.pending == Lost(q) && q.running == {} && Remaining(q) == 0
  {
    LostIsPending(l, q);
    HeldOnce(l, q);
    forall t | t in q.tasks ensures q.tasks[t].phase == Abandoned {
      if q.tasks[t].phase != Abandoned {
        HeldNotLost(l, q, t);
      }
    }
    assert InState(q, Reserved) == {} && InState(q, Submitted) == {} && InState(q, Running) == {};
  }

  /** The failures among the steps. */
  function Failures(steps: seq<Step>): nat {
    if steps == [] then 0 else (if steps[0].FailStep? then 1 else 0) + Failures(steps[1..])
  }

  ghost predicate NoEnqueue(steps: seq<Step>) {
    forall k :: 0 <= k < |steps| ==> !steps[k].Enqueue?
  }

  /** With no new enqueues every run is at most `Remaining` steps long, and when it
      cannot go on, nothing runs and exactly the lost documents are still held. */
  lemma {:induction false} QueueDrains(l: Limits, q: Queue, steps: seq<Step>)
    requires Invariant(l, q) && l.maxConcurrent >= 1 && IsRun(l, q, steps) && NoEnqueue(steps)
    ensures |steps| + 2 * Failures(steps) <= Remaining(q)
    ensures (forall step: Step :: Enabled(l, After(l, q, steps), step) ==> step.Enqueue?) ==>
      && After(l, q, steps).running == {} && After(l, q, steps).pending == Lost(After(l, q, steps))
      && |steps| + 2 * Failures(steps) == Remaining(q)
    decreases |steps|
  {
    if steps == [] {
      if forall step: Step :: Enabled(l, q, step) ==> step.Enqueue? {
        NeverStuck(l, q);
        OnlyLostHeld(l, q);
      }
    } else {
      StepKeepsInvariant(l, q, steps[0]);
      Progress(l, q, steps[0]);
      QueueDrains(l, Next(l, q, steps[0]), steps[1..]);
    }
  }

  // ---------- what a failure leaves behind ----------

  /** After any run, new enqueues included, the lost documents are those lost before
      and those whose hand-over failed; as many as there were failures are new. */
  lemma {:induction false} LostForever(l: Limits, q: Queue, steps: seq<Step>)
    requires Invariant(l, q) && IsRun(l, q, steps)
    ensures Invariant(l, After(l, q, steps)) && Lost(q) <= Lost(After(l, q, steps))
    ensures |Lost(After(l, q, steps))| == |Lost(q)| + Failures(steps)
    decreases |steps|
  {
    if steps != [] {
      var n := Next(l, q, steps[0]);
      StepKeepsInvariant(l, q, steps[0]);
      StepLoses(l, q, steps[0]);
      if steps[0].FailStep? {
        HeldNotLost(l, q, steps[0].task);
      }
      LostForever(l, n, steps[1..]);
    }
  }

  /** The steps, none of which enqueues or fails, leave nothing but these documents. */
  ghost predicate Drains(l: Limits, q: Queue, steps: seq<Step>, lost: set<string>) {
    && (forall k :: 0 <= k < |steps| ==> Proper(steps[k]))
    && IsRun(l, q, steps)
    && After(l, q, steps).pending == lost && After(l, q, steps).running == {}
  }

  lemma DrainsThen(l: Limits, q: Queue, step: Step, rest: seq<Step>, lost: set<string>)
    requires Proper(step) && Enabled(l, q, step) && Drains(l, Next(l, q, step), rest, lost)
    ensures Drains(l, q, [step] + rest, lost)
  {
    var steps := [step] + rest;
    assert steps[0] == step && steps[1..] == rest;
    forall k | 0 <= k < |steps| ensures Proper(steps[k]) {
      assert k > 0 ==> steps[k] == rest[k - 1];
    }
  }

  lemma ProperAdvances(l: Limits, q: Queue) returns (step: Step)
    requires Invariant(l, q) && l.maxConcurrent >= 1 && q.pending + q.running != Lost(q)
    ensures Proper(step) && Enabled(l, q, step)
    ensures var n := Next(l, q, step);
      Invariant(l, n) && Lost(n) == Lost(q) && Remaining(n) < Remaining(q)
  {
    step := ProperStep(l, q);
    StepKeepsInvariant(l, q, step);
    StepLoses(l, q, step);
    Progress(l, q, step);
  }

  /** Some run without a failure or an enqueue leaves nothing but the lost documents. */
  lemma {:induction false} CanDrain(l: Limits, q: Queue) returns (steps: seq<Step>)
    requires Invariant(l, q) && l.maxConcurrent >= 1
    ensures Drains(l, q, steps, Lost(q))
    decreases Remaining(q)
  {
    if q.pending + q.running == Lost(q) {
      OnlyLostHeld(l, q);
      steps := [];
    } else {
      var step := ProperAdvances(l, q);
      var rest := CanDrain(l, Next(l, q, step));
      DrainsThen(l, q, step, rest, Lost(q));
      steps := [step] + rest;
    }
  }

  /** After `steps` the document would be reserved. */
  ghost predicate AcceptedAfter(l: Limits, q: Queue, steps: seq<Step>, docId: string) {
    IsRun(l, q, steps) && Reserve(l, After(l, q, steps), docId).1.Accepted?
  }

  /** A document can ever be accepted again exactly when it is not lost and fewer
      documents are lost than the queue may hold. */
  lemma AcceptedAgainExactly(l: Limits, q: Queue, docId: string)
    requires Invariant(l, q) && l.maxConcurrent >= 1
    ensures (exists steps :: AcceptedAfter(l, q, steps, docId)) <==> docId !in Lost(q) && |Lost(q)| < l.maxQueueSize
  {
    if docId !in Lost(q) && |Lost(q)| < l.maxQueueSize {
      var steps := CanDrain(l, q);
      assert AcceptedAfter(l, q, steps, docId);
    }
    if steps :| AcceptedAfter(l, q, steps, docId) {
      var n := After(l, q, steps);
      LostForever(l, q, steps);
      LostIsPending(l, n);
      SubsetSize(Lost(q), Lost(n));
    }
  }

  // ---------- the class ----------

  class DocumentHealthCheckQueue {
    var pendingDocIds: set<string>
    var runningDocIds: set<string>
    const limits: Limits
    ghost var tasks: map<nat, Task>
    ghost var nextId: nat

    ghost function Model(): Queue
      reads this
    {
      Queue(pendingDocIds, runningDocIds, tasks, nextId)
    }

    /** At least one worker. */
    constructor (maxQueueSize: int, maxConcurrent: int)
      ensures Model() == EMPTY
      ensures limits == Limits(maxQueueSize, if maxConcurrent >= 1 then maxConcurrent else 1)
      ensures Invariant(limits, Model())
    {
      limits := Limits(maxQueueSize, if maxConcurrent >= 1 then maxConcurrent else 1);
      pendingDocIds, runningDocIds, tasks, nextId := {}, {}, map[], 0;
      new;
    }

    /** `known`: accepted now or held already. */
    method EnqueueLocked(docId: string) returns (known: bool, submit: bool)
      requires Invariant(limits, Model())
      modifies this
      ensures Model() == Next(limits, old(Model()), Enqueue(docId)) && Invariant(limits, Model())
      ensures known <==> Reserve(limits, old(Model()), docId).1 != Full
      ensures submit <==> Reserve(limits, old(Model()), docId).1.Accepted?
    {
      ReserveKeeps(limits, Model(), docId);
      var outstanding := |pendingDocIds| + |runningDocIds|;
      if outstanding >= limits.maxQueueSize {
        return false, false;
      }
      if docId in pendingDocIds || docId in runningDocIds {
        return true, false;
      }
      pendingDocIds := pendingDocIds + {docId};
      tasks, nextId := tasks[nextId := Task(docId, Reserved)], nextId + 1;
      return true, true;
    }

    /** Handing the reserved document to the pool, or failing to. */
    ghost method HandOverTask(task: nat, failed: bool)
      requires Invariant(limits, Model()) && InPhase(Model(), task, Reserved)
      modifies this`tasks
      ensures Model() == Next(limits, old(Model()), if failed then FailStep(task) else SubmitStep(task))
      ensures Invariant(limits, Model())
    {
      HandOverKeeps(limits, Model(), task, failed);
      tasks := tasks[task := tasks[task].(phase := if failed then Abandoned else Submitted)];
    }

    method RunStarts(docId: string, ghost task: nat)
      requires Invariant(limits, Model()) && Enabled(limits, Model(), StartStep(task)) && tasks[task].docId == docId
      modifies this
      ensures Model() == Next(limits, old(Model()), StartStep(task)) && Invariant(limits, Model())
    {
      StartKeeps(limits, Model(), task);
      pendingDocIds := pendingDocIds - {docId};
      runningDocIds := runningDocIds + {docId};
      tasks := tasks[task := tasks[task].(phase := Running)];
    }

    method RunFinishes(docId: string, ghost task: nat)
      requires Invariant(limits, Model()) && Enabled(limits, Model(), FinishStep(task)) && tasks[task].docId == docId
      modifies this
      ensures Model() == Next(limits, old(Model()), FinishStep(task)) && Invariant(limits, Model())
    {
      FinishKeeps(limits, Model(), task);
      runningDocIds := runningDocIds - {docId};
      tasks := tasks - {task};
    }
  }
}
