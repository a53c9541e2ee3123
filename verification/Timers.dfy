/** Real interval timers, and the one bound the tick looks at before it walks the
  * process table.
  */
module Timers {

  const FOREVER: nat := 0xFFFF_FFFF_FFFF_FFFF

  function Sum(a: nat, b: nat): nat {
    if a + b < FOREVER then a + b else FOREVER
  }

  /** When the timer is next due, zero for never, and what is added each time. */
  datatype RealTimer = RealTimer(due: nat, interval: nat)

  datatype Setting = Setting(value: nat, interval: nat)

  const OFF: RealTimer := RealTimer(0, 0)

  function Armed(setting: Setting, now: nat): RealTimer {
    if setting.value == 0 then OFF else RealTimer(Sum(now, setting.value), setting.interval)
  }

  /** How the timer reads: one that is due but not taken yet is still armed. */
  function Reads(t: RealTimer, now: nat): (r: Setting)
    ensures r.value == 0 <==> t.due == 0
    ensures t.due >= now + 1000 ==> r.value == t.due - now
  {
    if t.due == 0 then Setting(0, 0) else
    var left := if t.due > now then t.due - now else 0;
    Setting(if left < 1000 then 1000 else left, t.interval)
  }

  predicate IsDue(t: RealTimer, now: nat) {
    t.due != 0 && now >= t.due
  }

  /** The timer once it has fired at `now`: off, or due at the next point of its
    * phase, skipping the ones that went by. */
  function Fired(t: RealTimer, now: nat): RealTimer
    requires t.due <= now
  {
    if t.interval == 0 then t.(due := 0) else
    var missed := (now - t.due) / t.interval;
    t.(due := Sum(t.due, (missed + 1) * t.interval))
  }

  /** A timer that reloads is next due at the first point of its original phase
    * strictly after `now`, or never if the clock cannot name that point. */
  lemma FiredIsNextPoint(t: RealTimer, now: nat)
    requires t.due <= now < FOREVER && t.interval > 0
    ensures var due := Fired(t, now).due;
            exists k: nat :: var point := t.due + k * t.interval;
              && now < point <= now + t.interval
              && (point < FOREVER ==> due == point) && (point >= FOREVER ==> due == FOREVER)
    ensures Fired(t, now).due > now && Fired(t, now).interval == t.interval
  {
    var missed := (now - t.due) / t.interval;
    var k := missed + 1;
    NextMultiple(now - t.due, t.interval);
    var point := t.due + k * t.interval;
    assert now < point <= now + t.interval;
  }

  lemma NextMultiple(gone: nat, interval: nat)
    requires interval > 0
    ensures gone < (gone / interval + 1) * interval <= gone + interval
  {
  }

  datatype Process = Process(timer: RealTimer, exited: bool)

  class RealTimers {
    var procs: seq<Process>
    /** No live process's real timer is due before this. */
    var earliest: nat

    ghost predicate Valid()
      reads this
    {
      && earliest <= FOREVER
      && forall i | 0 <= i < |procs| && !procs[i].exited && procs[i].timer.due != 0 :: earliest <= procs[i].timer.due
    }

    constructor ()
      ensures Valid() && procs == []
    {
      procs, earliest := [], FOREVER;
    }

    /** A process made by fork starts with no timer armed. */
    method Fork()
      requires Valid()
      modifies this`procs
      ensures Valid() && procs == old(procs) + [Process(OFF, false)]
    {
      procs := procs + [Process(OFF, false)];
    }

    /** A process that goes away leaves the bound lower than it need be. */
    method Exit(i: nat)
      requires Valid() && i < |procs|
      modifies this`procs
      ensures Valid() && procs == old(procs)[i := old(procs)[i].(exited := true)]
    {
      procs := procs[i := procs[i].(exited := true)];
    }

    /** Arm or disarm a process's timer, and say what it was. */
    method Set(i: nat, setting: Setting, now: nat) returns (was: Setting)
      requires Valid() && i < |procs|
      modifies this
      ensures Valid() && was == Reads(old(procs)[i].timer, now)
      ensures procs == old(procs)[i := old(procs)[i].(timer := Armed(setting, now))]
      ensures earliest <= old(earliest)
    {
      was := Reads(procs[i].timer, now);
      var timer := Armed(setting, now);
      procs := procs[i := procs[i].(timer := timer)];
      if timer.due != 0 && timer.due < earliest {
        earliest := timer.due;
      }
    }

    /** Take every timer that is due, and find the earliest that is left. */
    method FireRealTimers(now: nat) returns (raised: set<nat>)
      requires Valid() && now < FOREVER
      modifies this
      ensures Valid() && Ticked(old(procs), procs, now, raised)
    {
      var least: nat := FOREVER;
      raised := {};
      ghost var was := procs;
      for i := 0 to |procs|
        invariant |procs| == |was| && procs[i..] == was[i..]
        invariant Ticked(was[..i], procs[..i], now, raised)
        invariant least <= FOREVER
                  && forall j | 0 <= j < i && !procs[j].exited && procs[j].timer.due != 0 :: least <= procs[j].timer.due
      {
        var p := procs[i];
        assert p == procs[i..][0] == was[i];
        ghost var before := procs[..i];
        if !p.exited {
          if IsDue(p.timer, now) {
            procs := procs[i := p.(timer := Fired(p.timer, now))];
            raised := raised + {i};
          }
          if procs[i].timer.due != 0 && procs[i].timer.due < least {
            least := procs[i].timer.due;
          }
        }
        assert procs[..i + 1] == before + [procs[i]] && was[..i + 1] == was[..i] + [was[i]];
        assert procs[i + 1..] == was[i + 1..];
      }
      assert procs[..|procs|] == procs && was[..|was|] == was;
      earliest := least;
    }

    /** A tick at `now`. Exactly the timers due by then fire, although the table is
      * not walked while the bound is past `now`. */
    method OnTick(now: nat) returns (raised: set<nat>)
      requires Valid() && now < FOREVER
      modifies this
      ensures Valid() && Ticked(old(procs), procs, now, raised)
      ensures forall i | 0 <= i < |procs| && !procs[i].exited :: !IsDue(procs[i].timer, now)
    {
      raised := {};
      if earliest != FOREVER && now >= earliest {
        raised := FireRealTimers(now);
        NoneLeftDue(old(procs), procs, now, raised);
      }
    }
  }

  /** What a tick does: the timers due in live processes fire, and nothing else
    * changes. */
  ghost predicate Ticked(was: seq<Process>, now': seq<Process>, now: nat, raised: set<nat>) {
    && |now'| == |was|
    && (forall i: nat :: i in raised <==> i < |was| && !was[i].exited && IsDue(was[i].timer, now))
    && forall i | 0 <= i < |was| ::
       now'[i] == if i in raised then was[i].(timer := Fired(was[i].timer, now)) else was[i]
  }

  lemma NoneLeftDue(was: seq<Process>, now': seq<Process>, now: nat, raised: set<nat>)
    requires Ticked(was, now', now, raised) && now < FOREVER
    ensures forall i | 0 <= i < |now'| && !now'[i].exited :: !IsDue(now'[i].timer, now)
  {
    forall i | 0 <= i < |now'| && !now'[i].exited ensures !IsDue(now'[i].timer, now) {
      if i in raised && was[i].timer.interval > 0 {
        FiredIsNextPoint(was[i].timer, now);
      }
    }
  }
}
