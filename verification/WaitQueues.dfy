/** Sleeping and waking: the wait queue and the futex queue, at the grain of the
  * sections that run with interrupts off.
  */
module WaitQueues {
  /** What a task is doing, as the run queue sees it. A sleep with no deadline is
    * one only a wake ends. */
  datatype Run = Runnable | Asleep(deadline: bool) | Stopped | Zombie

  /** What a wake does to a task: a sleeper becomes runnable, and nothing else
    * changes. */
  function Woken(r: Run): Run {
    if r.Asleep? then Runnable else r
  }

  // ---- a wait queue --------------------------------------------------------

  /** One queue and its condition. `parked` are the tasks between going to sleep on
    * the queue and taking themselves off it again. `owed` counts the tasks that
    * have made the condition true and not yet called `wake_all`. */
  datatype Queue = Queue(ready: bool, owed: nat, waiters: seq<nat>, runs: map<nat, Run>, parked: set<nat>)

  datatype Step =
    // The section of a wait: look at the condition, and sleep if it does not hold.
    | Wait(pid: nat, deadline: bool)
    // Running again: off the queue, and round the loop.
    | Leave(pid: nat)
    // A change that makes the condition true, by a task that will wake the queue.
    | MakeReady
    // A change that uses the condition up.
    | UseUp
    | WakeAll
    // Any other wake, and a deadline passing.
    | Wake(pid: nat)
    | Deadline(pid: nat)
    // A running task stops, is continued, or exits.
    | Stop(pid: nat)
    | Continue(pid: nat)
    | Exit(pid: nat)

  predicate Enabled(q: Queue, step: Step) {
    match step
    case Wait(p, _) => p in q.runs && q.runs[p] == Runnable && p !in q.parked
    case Leave(p) => p in q.runs && q.runs[p] == Runnable && p in q.parked
    case WakeAll => true
    case MakeReady => true
    case UseUp => true
    case Wake(p) => p in q.runs
    case Deadline(p) => p in q.runs && q.runs[p] == Asleep(true)
    case Stop(p) => p in q.runs && q.runs[p] == Runnable && p !in q.parked
    case Continue(p) => p in q.runs && q.runs[p] == Stopped
    case Exit(p) => p in q.runs && q.runs[p] == Runnable && p !in q.parked
  }

  function WokenAll(runs: map<nat, Run>, pids: seq<nat>): map<nat, Run> {
    map p | p in runs :: if p in pids then Woken(runs[p]) else runs[p]
  }

  function Apply(q: Queue, step: Step): Queue
    requires Enabled(q, step)
  {
    match step
    case Wait(p, deadline) =>
      if q.ready then q else
      q.(waiters := q.waiters + [p], runs := q.runs[p := Asleep(deadline)], parked := q.parked + {p})
    case Leave(p) => q.(waiters := Without(q.waiters, p), parked := q.parked - {p})
    case MakeReady => q.(ready := true, owed := q.owed + 1)
    case UseUp => q.(ready := false)
    case WakeAll => q.(owed := if q.owed > 0 then q.owed - 1 else 0, runs := WokenAll(q.runs, q.waiters), waiters := [])
    case Wake(p) => q.(runs := q.runs[p := Woken(q.runs[p])])
    case Deadline(p) => q.(runs := q.runs[p := Runnable])
    case Stop(p) => q.(runs := q.runs[p := Stopped])
    case Continue(p) => q.(runs := q.runs[p := Runnable])
    case Exit(p) => q.(runs := q.runs[p := Zombie])
  }

  function Without(pids: seq<nat>, p: nat): seq<nat> {
    if pids == [] then [] else
    Without(pids[..|pids| - 1], p) + if pids[|pids| - 1] == p then [] else [pids[|pids| - 1]]
  }

  lemma {:induction false} WithoutHas(pids: seq<nat>, p: nat, x: nat)
    ensures x in Without(pids, p) <==> x in pids && x != p
  {
    if pids != [] {
      WithoutHas(pids[..|pids| - 1], p, x);
      assert pids == pids[..|pids| - 1] + [pids[|pids| - 1]];
    }
  }

  /** Asleep on the queue with nothing but a wake to end it. */
  predicate Stuck(q: Queue, p: nat) {
    p in q.parked && p in q.runs && q.runs[p] == Asleep(false)
  }

  /** A task asleep on the queue is on the queue's list, and if the condition holds
    * somebody still owes it a wake. */
  ghost predicate Inv(q: Queue) {
    && (forall p | Stuck(q, p) :: p in q.waiters)
    && (forall p | Stuck(q, p) :: q.ready ==> q.owed > 0)
  }

  /** A queue starts with nobody on it. */
  lemma StartKeeps(runs: map<nat, Run>)
    ensures Inv(Queue(false, 0, [], runs, {}))
  {
  }

  lemma StepKeeps(q: Queue, step: Step)
    requires Inv(q) && Enabled(q, step)
    ensures Inv(Apply(q, step))
  {
    var q' := Apply(q, step);
    forall p | Stuck(q', p) ensures p in q'.waiters && (q'.ready ==> q'.owed > 0) {
      match step
      case Leave(x) =>
        WithoutHas(q.waiters, x, p);
        assert Stuck(q, p);
      case Wait(x, _) =>
        if p != x || q.ready {
          assert Stuck(q, p);
        }
      case WakeAll => assert p in q.parked && p in q.runs;
      case _ => assert Stuck(q, p);
    }
  }

  ghost predicate Runs(q: Queue, steps: seq<Step>, q': Queue)
    decreases |steps|
  {
    if steps == [] then q' == q else
    Enabled(q, steps[0]) && Runs(Apply(q, steps[0]), steps[1..], q')
  }

  /** No lost wake-up: in no reachable state is a task asleep on the queue, with no
    * deadline, while the condition holds and no wake is owed. */
  lemma {:induction false} NoLostWakeUp(q: Queue, steps: seq<Step>, q': Queue, p: nat)
    requires Inv(q) && Runs(q, steps, q')
    ensures Inv(q')
    ensures Stuck(q', p) && q'.ready ==> q'.owed > 0
    decreases |steps|
  {
    if steps != [] {
      StepKeeps(q, steps[0]);
      NoLostWakeUp(Apply(q, steps[0]), steps[1..], q', p);
    }
  }

  /** A wake of the queue leaves nobody asleep on it. */
  lemma WakeAllFreesAll(q: Queue, p: nat)
    requires Inv(q)
    ensures !Stuck(Apply(q, WakeAll), p)
  {
    if Stuck(Apply(q, WakeAll), p) {
      assert Stuck(q, p);
    }
  }
}
