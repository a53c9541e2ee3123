/** The futex queue, as a machine of three locks' sections. A wait is registering,
  * reading the word, and a look at the mark in one section with going to sleep; a
  * wake is marking registrations, and then waking each marked task in turn.
  */
module Futexes {
  import opened WaitQueues

  datatype Key = Key(space: nat, address: nat)

  datatype Waiter = Waiter(pid: nat, key: Key, woken: bool)

  predicate Wanted(w: Waiter, key: Key) {
    w.key == key && !w.woken
  }

  /** The waiters once the first `count` wanted of them have been marked, and the
    * tasks those are. */
  function Mark(waiters: seq<Waiter>, key: Key, count: nat): (seq<Waiter>, seq<nat>) {
    if waiters == [] then ([], []) else
    var w := waiters[|waiters| - 1];
    var (marked, pids) := Mark(waiters[..|waiters| - 1], key, count);
    if Wanted(w, key) && |pids| < count then (marked + [w.(woken := true)], pids + [w.pid]) else (marked + [w], pids)
  }

  function WantedIn(waiters: seq<Waiter>, key: Key): nat {
    if waiters == [] then 0 else
    WantedIn(waiters[..|waiters| - 1], key) + if Wanted(waiters[|waiters| - 1], key) then 1 else 0
  }

  /** As many are marked as were asked for and were there, oldest first, and nobody
    * else. */
  lemma {:induction false} MarkIsExact(waiters: seq<Waiter>, key: Key, count: nat)
    ensures var (marked, pids) := Mark(waiters, key, count);
            && |marked| == |waiters|
               && |pids| == (if WantedIn(waiters, key) < count then WantedIn(waiters, key) else count)
            && forall i | 0 <= i < |waiters| ::
                 marked[i] == if Wanted(waiters[i], key) && WantedIn(waiters[..i], key) < count
                   then waiters[i].(woken := true) else waiters[i]
  {
    if waiters != [] {
      var rest := waiters[..|waiters| - 1];
      MarkIsExact(rest, key, count);
      forall i | 0 <= i < |rest| ensures waiters[..i] == rest[..i] {
      }
    }
  }

  lemma {:induction false} MarkNamesMarked(waiters: seq<Waiter>, key: Key, count: nat, i: nat)
    requires i < |waiters|
    ensures |Mark(waiters, key, count).0| == |waiters|
    ensures var marked := Mark(waiters, key, count).0;
            && marked[i].pid == waiters[i].pid && marked[i].key == waiters[i].key
               && (waiters[i].woken ==> marked[i].woken)
            && (marked[i].woken && !waiters[i].woken ==> waiters[i].pid in Mark(waiters, key, count).1)
  {
    MarkIsExact(waiters, key, count);
    var rest := waiters[..|waiters| - 1];
    if i < |rest| {
      MarkNamesMarked(rest, key, count, i);
    }
  }

  class WaiterList {
    var waiters: seq<Waiter>

    /** The oldest `count` unmarked registrations of `key`, or all there are, become
      * marked. */
    method MarkWoken(key: Key, count: nat) returns (pids: seq<nat>)
      modifies this
      ensures (waiters, pids) == Mark(old(waiters), key, count)
    {
      pids := [];
      ghost var was := waiters;
      MarkIsExact(was, key, count);
      for i := 0 to |waiters|
        invariant |waiters| == |was| && waiters[i..] == was[i..]
        invariant (waiters[..i], pids) == Mark(was[..i], key, count)
      {
        assert was[..i + 1][..i] == was[..i];
        MarkIsExact(was[..i], key, count);
        if |pids| >= count {
          MarkStops(was, key, count, i);
          assert waiters == waiters[..i] + was[i..];
          return;
        }
        ghost var before := waiters[..i];
        assert waiters[i] == waiters[i..][0] == was[i];
        var w := waiters[i];
        if w.key == key && !w.woken {
          waiters := waiters[i := w.(woken := true)];
          pids := pids + [w.pid];
        }
        assert waiters[..i + 1] == before + [waiters[i]];
        assert waiters[i + 1..] == was[i + 1..];
      }
      assert waiters[..|waiters|] == waiters && was[..|was|] == was;
    }
  }

  /** Once enough have been marked the rest are left as they are. */
  lemma {:induction false} MarkStops(waiters: seq<Waiter>, key: Key, count: nat, i: nat)
    requires i <= |waiters| && |Mark(waiters[..i], key, count).1| >= count
    ensures Mark(waiters, key, count)
            == (Mark(waiters[..i], key, count).0 + waiters[i..], Mark(waiters[..i], key, count).1)
    decreases |waiters| - i
  {
    if i == |waiters| {
      assert waiters[..i] == waiters && waiters[i..] == [];
      assert Mark(waiters, key, count).0 + [] == Mark(waiters, key, count).0;
    } else {
      assert waiters[..i + 1][..i] == waiters[..i];
      MarkStops(waiters, key, count, i + 1);
      assert waiters[i..] == [waiters[i]] + waiters[i + 1..];
      var m := Mark(waiters[..i], key, count).0;
      assert m + [waiters[i]] + waiters[i + 1..] == m + waiters[i..];
    }
  }

  // ---- runs ----------------------------------------------------------------

  /** `asleep` says which key each sleeping task went to sleep on; `pending` are the
    * wakes that have marked their waiters and not yet woken the tasks; and `markers`
    * are the wakes that marked a registration of a task for a key. */
  datatype Futex = Futex(waiters: seq<Waiter>, runs: map<nat, Run>, asleep: map<nat, Key>, pending: map<nat, seq<nat>>,
                         markers: map<(nat, Key), set<nat>>)

  datatype Move =
    | Register(pid: nat, key: Key)
    | Sleep(pid: nat, key: Key, deadline: bool)
    | Unregister(pid: nat, key: Key)
    // The two halves of a wake.
    | MarkFor(waker: nat, key: Key, count: nat)
    | Finish(waker: nat)
    // Anything else that wakes a task.
    | Rouse(pid: nat)

  predicate May(f: Futex, move: Move) {
    match move
    case Register(p, _) => p in f.runs && f.runs[p] == Runnable
    case Sleep(p, _, _) => p in f.runs && f.runs[p] == Runnable
    case Unregister(p, _) => p in f.runs && f.runs[p] == Runnable
    case MarkFor(k, _, _) => k !in f.pending
    case Finish(k) => k in f.pending
    case Rouse(p) => p in f.runs
  }

  predicate IsWoken(waiters: seq<Waiter>, p: nat, key: Key) {
    Waiter(p, key, true) in waiters
  }

  function Others(waiters: seq<Waiter>, p: nat, key: Key): seq<Waiter> {
    if waiters == [] then [] else
    var w := waiters[|waiters| - 1];
    Others(waiters[..|waiters| - 1], p, key) + if w.pid == p && w.key == key then [] else [w]
  }

  function MarkersOf(markers: map<(nat, Key), set<nat>>, p: nat, key: Key): set<nat> {
    if (p, key) in markers then markers[(p, key)] else {}
  }

  /** The markers once wake `k` has marked these tasks' registrations for `key`. */
  function MarkedBy(markers: map<(nat, Key), set<nat>>, pids: seq<nat>, key: Key, k: nat): map<(nat, Key), set<nat>> {
    map r | r in markers.Keys + (set p | p in pids :: (p, key)) ::
      MarkersOf(markers, r.0, r.1) + if r.1 == key && r.0 in pids then {k} else {}
  }

  lemma MarkedByHas(markers: map<(nat, Key), set<nat>>, pids: seq<nat>, key: Key, k: nat, p: nat, y: Key)
    ensures MarkersOf(markers, p, y) <= MarkersOf(MarkedBy(markers, pids, key, k), p, y)
    ensures p in pids && y == key ==> k in MarkersOf(MarkedBy(markers, pids, key, k), p, y)
  {
  }

  function Do(f: Futex, move: Move): Futex
    requires May(f, move)
  {
    match move
    case Register(p, key) => f.(waiters := f.waiters + [Waiter(p, key, false)])
    case Sleep(p, key, deadline) =>
      if IsWoken(f.waiters, p, key) then f else
      f.(runs := f.runs[p := Asleep(deadline)], asleep := f.asleep[p := key])
    case Unregister(p, key) => f.(waiters := Others(f.waiters, p, key))
    case MarkFor(k, key, count) =>
      var (marked, pids) := Mark(f.waiters, key, count);
      f.(waiters := marked, pending := f.pending[k := pids], markers := MarkedBy(f.markers, pids, key, k))
    case Finish(k) => f.(runs := WokenAll(f.runs, f.pending[k]), pending := f.pending - {k})
    case Rouse(p) => f.(runs := f.runs[p := Woken(f.runs[p])])
  }

  /** Asleep on `key` with its registration marked. */
  predicate Owed(f: Futex, p: nat, key: Key) {
    p in f.runs && f.runs[p].Asleep? && p in f.asleep && f.asleep[p] == key && IsWoken(f.waiters, p, key)
  }

  /** A wake that marked the registration has still to wake the task. */
  ghost predicate StillTo(f: Futex, p: nat, key: Key, k: nat) {
    k in MarkersOf(f.markers, p, key) && k in f.pending && p in f.pending[k]
  }

  /** A task asleep whose registration is marked is on its way to being woken, by a
    * wake that marked it. */
  ghost predicate OnTheWay(f: Futex) {
    forall p, key | Owed(f, p, key) :: exists k :: StillTo(f, p, key, k)
  }

  /** An empty queue, whatever the tasks are doing. */
  lemma StartKeeps(runs: map<nat, Run>)
    ensures OnTheWay(Futex([], runs, map[], map[], map[]))
  {
  }

  lemma {:induction false} OthersHas(waiters: seq<Waiter>, p: nat, key: Key, w: Waiter)
    ensures w in Others(waiters, p, key) ==> w in waiters
  {
    if waiters != [] {
      OthersHas(waiters[..|waiters| - 1], p, key, w);
    }
  }

  lemma MarkedIsPending(waiters: seq<Waiter>, key: Key, count: nat, p: nat, k: Key)
    requires IsWoken(Mark(waiters, key, count).0, p, k) && !IsWoken(waiters, p, k)
    ensures p in Mark(waiters, key, count).1 && k == key
  {
    MarkIsExact(waiters, key, count);
    var marked := Mark(waiters, key, count).0;
    var i :| 0 <= i < |marked| && marked[i] == Waiter(p, k, true);
    MarkNamesMarked(waiters, key, count, i);
    assert waiters[i] != Waiter(p, k, true);
  }

  lemma MoveKeeps(f: Futex, move: Move)
    requires OnTheWay(f) && May(f, move)
    ensures OnTheWay(Do(f, move))
  {
    var f' := Do(f, move);
    forall p, key | Owed(f', p, key) ensures exists k :: StillTo(f', p, key, k) {
      match move
      case Unregister(x, y) =>
        OthersHas(f.waiters, x, y, Waiter(p, key, true));
        var k := MarkerOf(f, p, key);
        assert StillTo(f', p, key, k);
      case MarkFor(k, y, count) =>
        var pids := Mark(f.waiters, y, count).1;
        MarkedByHas(f.markers, pids, y, k, p, key);
        if IsWoken(f.waiters, p, key) {
          var j := MarkerOf(f, p, key);
          assert StillTo(f', p, key, j);
        } else {
          MarkedIsPending(f.waiters, y, count, p, key);
          assert StillTo(f', p, key, k);
        }
      case Finish(k) =>
        var j := MarkerOf(f, p, key);
        assert StillTo(f', p, key, j);
      case _ =>
        var k := MarkerOf(f, p, key);
        assert StillTo(f', p, key, k);
    }
  }

  lemma MarkerOf(f: Futex, p: nat, key: Key) returns (k: nat)
    requires OnTheWay(f) && Owed(f, p, key)
    ensures StillTo(f, p, key, k)
  {
    k :| StillTo(f, p, key, k);
  }

  ghost predicate Plays(f: Futex, moves: seq<Move>, f': Futex)
    decreases |moves|
  {
    if moves == [] then f' == f else
    May(f, moves[0]) && Plays(Do(f, moves[0]), moves[1..], f')
  }

  /** No futex waiter stays asleep once the wakes that marked its registration have
    * finished, whatever other wakes have still to. */
  lemma {:induction false} NoWaiterLeftAsleep(f: Futex, moves: seq<Move>, f': Futex, p: nat, key: Key)
    requires OnTheWay(f) && Plays(f, moves, f')
    ensures OnTheWay(f')
    ensures (forall k | k in MarkersOf(f'.markers, p, key) :: k !in f'.pending) ==> !Owed(f', p, key)
    decreases |moves|
  {
    hide May, Do, Owed, MarkersOf;
    if moves != [] {
      MoveKeeps(f, moves[0]);
      NoWaiterLeftAsleep(Do(f, moves[0]), moves[1..], f', p, key);
    }
  }
}
