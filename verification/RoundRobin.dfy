/** Choosing the next task: round the table from the one running, past the idle
  * task, to the first that can run.
  */
module RoundRobin {
  import opened Machines

  datatype State = Runnable | Sleeping(wakeAt: nat) | Stopped | Zombie

  /** A sleep whose deadline has passed is over. Zero is no deadline. */
  function Expired(s: State, now: nat): State {
    if s.Sleeping? && s.wakeAt != 0 && now >= s.wakeAt then Runnable else s
  }

  predicate Ready(tasks: seq<State>, idle: nat, i: nat) {
    i < |tasks| && i != idle && tasks[i] == Runnable
  }

  /** How far round the table `t` is from `cur`: one for the next entry, and the
    * whole way for `cur` itself. */
  function Distance(cur: nat, t: nat, n: nat): nat
    requires cur < n && t < n
  {
    if t > cur then t - cur else t + n - cur
  }

  /** Whom a decision leaves running: the nearest that can, or idle when none can. */
  ghost predicate Chooses(tasks: seq<State>, idle: nat, cur: nat, next: nat) {
    && cur < |tasks| && next < |tasks| && idle < |tasks|
    && (Ready(tasks, idle, next) ==>
          forall t: nat | Ready(tasks, idle, t) :: Distance(cur, next, |tasks|) <= Distance(cur, t, |tasks|))
    && (!Ready(tasks, idle, next) ==> next == idle && forall t: nat :: !Ready(tasks, idle, t))
  }

  lemma AroundTable(cur: nat, k: nat, n: nat)
    requires cur < n && 1 <= k <= n
    ensures (cur + k) % n < n && Distance(cur, (cur + k) % n, n) == k
  {
    if cur + k < n {
      assert (cur + k) % n == cur + k;
    } else {
      assert (cur + k) % n == cur + k - n by {
        assert 0 <= cur + k - n < n && cur + k == n + (cur + k - n);
      }
    }
  }

  lemma DistanceIsInRange(cur: nat, t: nat, n: nat)
    requires cur < n && t < n
    ensures 1 <= Distance(cur, t, n) <= n && (cur + Distance(cur, t, n)) % n == t
  {
    AroundTable(cur, Distance(cur, t, n), n);
  }

  class Table {
    var tasks: array<State>

    /** Wake the sleepers whose time has come. */
    method Expire(now: nat)
      modifies tasks
      ensures forall i | 0 <= i < tasks.Length :: tasks[i] == Expired(old(tasks[i]), now)
    {
      for i := 0 to tasks.Length
        invariant forall j | 0 <= j < i :: tasks[j] == Expired(old(tasks[j]), now)
        invariant forall j | i <= j < tasks.Length :: tasks[j] == old(tasks[j])
      {
        tasks[i] := Expired(tasks[i], now);
      }
    }

    /** The first task round the table from `cur` that can run. */
    method Search(cur: nat, idle: nat) returns (found: Option<nat>)
      requires cur < tasks.Length && idle < tasks.Length
      ensures found.None? ==> forall t: nat :: !Ready(tasks[..], idle, t)
      ensures found.Some? ==> Ready(tasks[..], idle, found.value)
      ensures found.Some? ==> forall t: nat | Ready(tasks[..], idle, t) ::
              Distance(cur, found.value, tasks.Length) <= Distance(cur, t, tasks.Length)
    {
      hide Distance;
      var n := tasks.Length;
      forall t: nat | Ready(tasks[..], idle, t) ensures Distance(cur, t, n) >= 1 {
        DistanceIsInRange(cur, t, n);
      }
      for k := 1 to n + 1
        invariant forall t: nat | Ready(tasks[..], idle, t) :: Distance(cur, t, n) >= k
      {
        AroundTable(cur, k, n);
        var i := (cur + k) % n;
        if i != idle && tasks[i] == Runnable {
          return Some(i);
        }
        forall t: nat | Ready(tasks[..], idle, t) ensures Distance(cur, t, n) >= k + 1 {
          DistanceIsInRange(cur, t, n);
        }
      }
      forall t: nat | Ready(tasks[..], idle, t) ensures false {
        DistanceIsInRange(cur, t, n);
      }
      return None;
    }

    /** The task to switch to, or none to go on with the one running. */
    method PickNext(cur: nat, idle: nat, now: nat) returns (next: Option<nat>)
      requires cur < tasks.Length && idle < tasks.Length
      modifies tasks
      ensures forall i | 0 <= i < tasks.Length :: tasks[i] == Expired(old(tasks[i]), now)
      ensures Chooses(tasks[..], idle, cur, if next.None? then cur else next.value)
      ensures next.Some? ==> next.value != cur
    {
      Expire(now);
      var found := Search(cur, idle);
      if found.Some? {
        return if found.value == cur then None else found;
      }
      return if cur == idle then None else Some(idle);
    }
  }

  /** The tasks decisions leave running, one after another, over tables that may
    * change in every way but their length. */
  ghost predicate Decisions(tables: seq<seq<State>>, idle: nat, runs: seq<nat>) {
    && |runs| == |tables| + 1
    && forall i | 0 <= i < |tables| :: |tables[i]| == |tables[0]| && Chooses(tables[i], idle, runs[i], runs[i + 1])
  }

  /** Every decision that does not choose `t` brings the round nearer to it. */
  lemma NearerEachTime(tasks: seq<State>, idle: nat, cur: nat, next: nat, t: nat)
    requires Chooses(tasks, idle, cur, next) && Ready(tasks, idle, t) && next != t
    ensures Distance(next, t, |tasks|) < Distance(cur, t, |tasks|)
  {
    var n := |tasks|;
    assert Ready(tasks, idle, next);
    assert Distance(cur, next, n) <= Distance(cur, t, n);
  }

  /** A task that stays runnable is chosen within as many decisions as there are
    * tasks in the table, whatever the others do. */
  lemma {:induction false} ChosenWithinDistance(tables: seq<seq<State>>, idle: nat, runs: seq<nat>, t: nat, from: nat)
    requires Decisions(tables, idle, runs) && tables != [] && from < |tables|
    requires forall i | 0 <= i < |tables| :: Ready(tables[i], idle, t)
    requires runs[from] < |tables[0]| && t < |tables[0]| && from + Distance(runs[from], t, |tables[0]|) <= |tables|
    ensures exists k | from < k <= from + Distance(runs[from], t, |tables[0]|) :: runs[k] == t
    decreases Distance(runs[from], t, |tables[0]|)
  {
    var n := |tables[0]|;
    assert |tables[from]| == n && Ready(tables[from], idle, t)
           && Chooses(tables[from], idle, runs[from], runs[from + 1]);
    if runs[from + 1] != t {
      NearerEachTime(tables[from], idle, runs[from], runs[from + 1], t);
      DistanceIsInRange(runs[from + 1], t, n);
      ChosenWithinDistance(tables, idle, runs, t, from + 1);
      var k :| from + 1 < k <= from + 1 + Distance(runs[from + 1], t, n) && runs[k] == t;
      assert from < k <= from + Distance(runs[from], t, n);
    }
  }

  lemma StarvationFree(tables: seq<seq<State>>, idle: nat, runs: seq<nat>, t: nat)
    requires Decisions(tables, idle, runs) && tables != [] && |tables| >= |tables[0]|
    requires forall i | 0 <= i < |tables| :: Ready(tables[i], idle, t)
    ensures exists k | 0 < k <= |tables[0]| :: runs[k] == t
  {
    var n := |tables[0]|;
    assert Chooses(tables[0], idle, runs[0], runs[1]) && Ready(tables[0], idle, t);
    DistanceIsInRange(runs[0], t, n);
    ChosenWithinDistance(tables, idle, runs, t, 0);
    var k :| 0 < k <= Distance(runs[0], t, n) && runs[k] == t;
    assert 0 < k <= n;
  }
}
