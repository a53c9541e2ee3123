/** Processes ending: threads that exit, processes that finish with their last
  * thread, children handed to init, and the collecting of what is left. One step
  * is one hold of the process table.
  */
module Processes {
  const INIT: nat := 1

  datatype Task = Task(tgid: nat, ppid: nat, zombie: bool, code: int, released: bool)

  /** That process `tgid` had ended, whether it was told because it changed parents,
    * and the parent that was told. */
  datatype Notice = Notice(tgid: nat, adopted: bool, parent: nat)

  /** The table by pid, the next pid to give out, the status each thread group was
    * ended with, what parents have been told, and what has been collected. */
  datatype System = System(table: map<nat, Task>, next: nat, ended: map<nat, int>, told: seq<Notice>,
                           collected: seq<(nat, int)>)

  predicate Leads(s: System, g: nat) {
    g in s.table && s.table[g].tgid == g
  }

  /** Every task of the thread group has exited. */
  predicate GroupExited(table: map<nat, Task>, g: nat) {
    forall p | p in table && table[p].tgid == g :: table[p].zombie
  }

  datatype Step =
    | Fork(parent: nat)
    | Clone(maker: nat)
    | EndGroup(member: nat, status: int)
    | SetCode(pid: nat, status: int)
    // `unwaited`: processes whose parents will not wait for them.
    | Exit(pid: nat, unwaited: set<nat>)
    | Collect(parent: nat, leader: nat)
    | ReapDead(current: nat)

  predicate Alive(s: System, p: nat) {
    p in s.table && !s.table[p].zombie
  }

  predicate Enabled(s: System, step: Step) {
    match step
    case Fork(p) => Alive(s, p)
    case Clone(p) => Alive(s, p)
    case EndGroup(p, _) => p in s.table
    case SetCode(p, _) => Alive(s, p)
    case Exit(p, _) => Alive(s, p)
    case Collect(parent, g) =>
      Leads(s, g) && s.table[g].ppid == parent && !s.table[g].released && s.table[g].zombie && GroupExited(s.table, g)
    case ReapDead(_) => true
  }

  /** The status the process is collected with: the one the group was ended with, or
    * its leader's own. */
  function StatusOf(s: System, g: nat): int
    requires g in s.table
  {
    if g in s.ended then s.ended[g] else s.table[g].code
  }

  function Zombied(table: map<nat, Task>, p: nat): map<nat, Task>
    requires p in table
  {
    table[p := table[p].(zombie := true)]
  }

  /** The children of a process that has ended, handed to init. */
  function Adopted(table: map<nat, Task>, g: nat, unwaited: set<nat>): map<nat, Task> {
    map p | p in table ::
      var t := table[p];
      if t.ppid != g then t
      else t.(ppid := INIT, released := t.released || (p == t.tgid && GroupExited(table, p) && p in unwaited))
  }

  /** The children of it that had already ended, which init is told about. */
  ghost function Orphans(table: map<nat, Task>, g: nat): set<nat> {
    set p | p in table && table[p].ppid == g && p == table[p].tgid && GroupExited(table, p) && !table[p].released
  }

  ghost function AdoptionNotices(orphans: set<nat>): seq<Notice> {
    if orphans == {} then [] else
    var p :| p in orphans;
    AdoptionNotices(orphans - {p}) + [Notice(p, true, INIT)]
  }

  ghost function AfterExit(s: System, p: nat, unwaited: set<nat>): System
    requires p in s.table
  {
    var g := s.table[p].tgid;
    var table := Zombied(s.table, p);
    if !GroupExited(table, g) then s.(table := table) else
    var noticed := Noticed(table, g, unwaited);
    var told := if g in table then s.told + [Notice(g, false, table[g].ppid)] else s.told;
    s.(table := Adopted(noticed, g, unwaited), told := told + AdoptionNotices(Orphans(noticed, g)))
  }

  ghost function Apply(s: System, step: Step): System
    requires Enabled(s, step)
  {
    match step
    case Fork(p) => s.(table := s.table[s.next := Task(s.next, s.table[p].tgid, false, 0, false)], next := s.next + 1)
    case Clone(p) => s.(table := s.table[s.next := Task(s.table[p].tgid, s.table[p].ppid, false, 0, false)],
                        next := s.next + 1)
    case EndGroup(p, status) =>
      var g := s.table[p].tgid;
      if g in s.ended then s else s.(ended := s.ended[g := status])
    case SetCode(p, status) =>
      var g := s.table[p].tgid;
      s.(table := s.table[p := s.table[p].(code := if g in s.ended then s.ended[g] else status)])
    case Exit(p, unwaited) => AfterExit(s, p, unwaited)
    case Collect(_, g) =>
      s.(table := map p | p in s.table && s.table[p].tgid != g :: s.table[p],
         collected := s.collected + [(g, StatusOf(s, g))])
    case ReapDead(current) =>
      s.(table := map p | p in s.table
         && !(s.table[p].zombie && (p != s.table[p].tgid || s.table[p].released) && p != current) :: s.table[p])
  }

  // ---- what every step keeps -----------------------------------------------

  /** Times the parent was told that `g` ended, not counting changes of parent. */
  ghost function Tellings(told: seq<Notice>, g: nat): nat {
    if told == [] then 0 else
    Tellings(told[..|told| - 1], g) + if told[|told| - 1].tgid == g && !told[|told| - 1].adopted then 1 else 0
  }

  /** Times init was told of `g` as a process it had been handed. */
  ghost function Adoptions(told: seq<Notice>, g: nat): nat {
    if told == [] then 0 else
    Adoptions(told[..|told| - 1], g) + if told[|told| - 1].tgid == g && told[|told| - 1].adopted then 1 else 0
  }

  ghost predicate Fresh(s: System) {
    && (forall p | p in s.table :: p < s.next && s.table[p].tgid <= p)
    && (forall i | 0 <= i < |s.collected| :: s.collected[i].0 < s.next)
  }

  /** The leader stays in the table while any thread of the process lives. */
  ghost predicate Led(s: System) {
    forall p | Alive(s, p) :: Leads(s, s.table[p].tgid)
  }

  /** Only processes that have ended are let go without being waited for. */
  ghost predicate ReleasedEnded(s: System) {
    forall p | p in s.table && s.table[p].released :: p == s.table[p].tgid && GroupExited(s.table, p)
  }

  /** The parent has been told once if the process has ended, and not before. */
  ghost predicate ToldOnce(s: System) {
    forall g: nat ::
      && Tellings(s.told, g) <= 1 && (g >= s.next ==> Tellings(s.told, g) == 0)
      && (Leads(s, g) ==> (Tellings(s.told, g) == 1 <==> GroupExited(s.table, g)))
  }

  /** The parent an ended process has now is one that was told. */
  ghost predicate ParentsKnow(s: System) {
    forall g: nat | Leads(s, g) && GroupExited(s.table, g) && !s.table[g].released :: Told(s.told, g, s.table[g].ppid)
  }

  ghost predicate Told(told: seq<Notice>, g: nat, parent: nat) {
    exists n :: n in told && n.tgid == g && n.parent == parent
  }

  /** What has been collected is gone, with all its tasks, and was collected once. */
  ghost predicate CollectedGone(s: System) {
    && (forall i, p | 0 <= i < |s.collected| && p in s.table :: s.table[p].tgid != s.collected[i].0)
    && (forall i, j | 0 <= i < j < |s.collected| :: s.collected[i].0 != s.collected[j].0)
  }

  /** A process is collected with the status its group was ended with, if it was. */
  ghost predicate StatusKept(s: System) {
    forall i | 0 <= i < |s.collected| :: s.collected[i].0 in s.ended ==> s.collected[i].1 == s.ended[s.collected[i].0]
  }

  ghost predicate Inv(s: System) {
    Fresh(s) && Led(s) && ReleasedEnded(s) && ToldOnce(s) && ParentsKnow(s) && CollectedGone(s) && StatusKept(s)
  }

  /** The table at boot: the idle task, and the first number for a process. */
  const BOOT: System := System(map[0 := Task(0, 0, false, 0, false)], 1, map[], [], [])

  lemma BootKeeps()
    ensures Inv(BOOT)
  {
    assert BOOT.table[0] == Task(0, 0, false, 0, false);
    assert !GroupExited(BOOT.table, 0);
  }

  /** The two tables have the same tasks in the same groups, exited or not. */
  ghost predicate SameGroups(a: map<nat, Task>, b: map<nat, Task>) {
    a.Keys == b.Keys && forall p | p in a :: a[p].tgid == b[p].tgid && a[p].zombie == b[p].zombie
  }

  lemma SameGroupsExited(a: map<nat, Task>, b: map<nat, Task>, g: nat)
    requires SameGroups(a, b)
    ensures GroupExited(a, g) <==> GroupExited(b, g)
  {
  }

  lemma {:induction false} TellingsJoin(a: seq<Notice>, b: seq<Notice>, g: nat)
    ensures Tellings(a + b, g) == Tellings(a, g) + Tellings(b, g)
  {
    if b == [] {
      assert a + b == a;
    } else {
      assert (a + b)[..|a + b| - 1] == a + b[..|b| - 1];
      TellingsJoin(a, b[..|b| - 1], g);
    }
  }

  lemma {:induction false} AdoptionsDoNotTell(orphans: set<nat>, g: nat)
    ensures Tellings(AdoptionNotices(orphans), g) == 0
  {
    if orphans != {} {
      var p :| p in orphans && AdoptionNotices(orphans) == AdoptionNotices(orphans - {p}) + [Notice(p, true, INIT)];
      AdoptionsDoNotTell(orphans - {p}, g);
      TellOne(AdoptionNotices(orphans - {p}), Notice(p, true, INIT), g);
    }
  }

  lemma TellOne(told: seq<Notice>, n: Notice, g: nat)
    ensures Tellings(told + [n], g) == Tellings(told, g) + if n.tgid == g && !n.adopted then 1 else 0
    ensures Adoptions(told + [n], g) == Adoptions(told, g) + if n.tgid == g && n.adopted then 1 else 0
  {
    assert (told + [n])[..|told|] == told;
  }

  /** What an exit does, in one place: one zombie more, nobody moved between
    * groups, and the parent is told exactly when this was the last thread. */
  ghost predicate Exited(s: System, s': System, p: nat)
    requires p in s.table
  {
    var g := s.table[p].tgid;
    && SameGroups(s'.table, Zombied(s.table, p))
    && s'.next == s.next && s'.ended == s.ended && s'.collected == s.collected
    && (forall x :: Tellings(s'.told, x) == Tellings(s.told, x) + if x == g && GroupExited(s'.table, g) then 1 else 0)
    && (forall x | x in s'.table && s'.table[x].released ::
        (s.table[x].released || x == s.table[x].tgid) && GroupExited(s'.table, x))
  }

  lemma ExitTells(s: System, g: nat, noticed: map<nat, Task>, told: seq<Notice>, ppid: nat)
    requires told == s.told + [Notice(g, false, ppid)] + AdoptionNotices(Orphans(noticed, g))
    ensures forall x :: Tellings(told, x) == Tellings(s.told, x) + if x == g then 1 else 0
  {
    hide Orphans, AdoptionNotices, Tellings;
    forall x ensures Tellings(told, x) == Tellings(s.told, x) + if x == g then 1 else 0 {
      TellOne(s.told, Notice(g, false, ppid), x);
      TellingsJoin(s.told + [Notice(g, false, ppid)], AdoptionNotices(Orphans(noticed, g)), x);
      AdoptionsDoNotTell(Orphans(noticed, g), x);
    }
  }

  /** The table once the parent has been told that `g` ended. */
  function Noticed(table: map<nat, Task>, g: nat, unwaited: set<nat>): map<nat, Task> {
    if g in table then table[g := table[g].(released := table[g].released || g in unwaited)] else table
  }

  lemma NoticedGroups(table: map<nat, Task>, g: nat, unwaited: set<nat>)
    ensures SameGroups(Noticed(table, g, unwaited), table)
    ensures forall x | x in table && Noticed(table, g, unwaited)[x].released :: table[x].released || x == g
  {
  }

  lemma AdoptedGroups(table: map<nat, Task>, g: nat, unwaited: set<nat>)
    ensures SameGroups(Adopted(table, g, unwaited), table)
    ensures forall x | x in table && Adopted(table, g, unwaited)[x].released ::
            table[x].released || (x == table[x].tgid && GroupExited(table, x))
  {
    hide GroupExited;
  }

  lemma ExitSeen(s: System, p: nat, unwaited: set<nat>)
    requires Inv(s) && Alive(s, p)
    ensures Exited(s, AfterExit(s, p, unwaited), p)
  {
    hide ToldOnce, ParentsKnow, CollectedGone, StatusKept, Tellings, Orphans, AdoptionNotices, Adopted, Noticed,
         GroupExited, Fresh;
    var g := s.table[p].tgid;
    var table := Zombied(s.table, p);
    var s' := AfterExit(s, p, unwaited);
    assert Leads(s, g);
    StaysExited(s.table, p);
    if GroupExited(table, g) {
      var noticed := Noticed(table, g, unwaited);
      NoticedGroups(table, g, unwaited);
      AdoptedGroups(noticed, g, unwaited);
      forall x ensures (GroupExited(s'.table, x) <==> GroupExited(table, x))
        && (GroupExited(noticed, x) <==> GroupExited(table, x)) {
        SameGroupsExited(s'.table, table, x);
        SameGroupsExited(noticed, table, x);
      }
      ExitTells(s, g, noticed, s'.told, table[g].ppid);
    }
  }

  lemma StaysExited(table: map<nat, Task>, p: nat)
    requires p in table
    ensures forall g :: GroupExited(table, g) ==> GroupExited(Zombied(table, p), g)
    ensures forall g :: g != table[p].tgid ==> (GroupExited(table, g) <==> GroupExited(Zombied(table, p), g))
  {
    forall g | g != table[p].tgid ensures GroupExited(table, g) <==> GroupExited(Zombied(table, p), g) {
      if !GroupExited(table, g) {
        var q :| q in table && table[q].tgid == g && !table[q].zombie;
        assert Zombied(table, p)[q] == table[q];
      }
    }
  }

  lemma ExitKeepsLed(s: System, s': System, p: nat)
    requires Fresh(s) && Led(s) && ReleasedEnded(s) && Alive(s, p) && Exited(s, s', p)
    ensures Fresh(s') && Led(s') && ReleasedEnded(s')
  {
    hide Tellings, GroupExited;
    forall x | Alive(s', x) ensures Leads(s', s'.table[x].tgid) {
      assert Alive(s, x);
      assert Leads(s, s.table[x].tgid);
    }
  }

  lemma ZombiedGroups(table: map<nat, Task>, p: nat)
    requires p in table
    ensures Zombied(table, p).Keys == table.Keys && forall x | x in table :: Zombied(table, p)[x].tgid == table[x].tgid
  {
  }

  lemma ExitKeepsTold(s: System, s': System, p: nat)
    requires Led(s) && ToldOnce(s) && Alive(s, p) && Exited(s, s', p) && Fresh(s)
    ensures ToldOnce(s')
  {
    hide Tellings, GroupExited, Zombied;
    var g := s.table[p].tgid;
    LiveIsNotExited(s.table, p);
    assert Leads(s, g);
    StaysExited(s.table, p);
    ZombiedGroups(s.table, p);
    forall x: nat
      ensures Tellings(s'.told, x) <= 1 && (x >= s'.next ==> Tellings(s'.told, x) == 0)
      ensures Leads(s', x) ==> (Tellings(s'.told, x) == 1 <==> GroupExited(s'.table, x))
    {
      SameGroupsExited(s'.table, Zombied(s.table, p), x);
      assert Leads(s', x) <==> Leads(s, x);
    }
  }

  /** Each orphan is told of once, to init. */
  lemma {:induction false} OrphansTold(orphans: set<nat>, x: nat)
    ensures Adoptions(AdoptionNotices(orphans), x) == if x in orphans then 1 else 0
    ensures x in orphans ==> Notice(x, true, INIT) in AdoptionNotices(orphans)
  {
    if orphans != {} {
      var p :| p in orphans && AdoptionNotices(orphans) == AdoptionNotices(orphans - {p}) + [Notice(p, true, INIT)];
      OrphansTold(orphans - {p}, x);
      TellOne(AdoptionNotices(orphans - {p}), Notice(p, true, INIT), x);
    }
  }

  lemma ToldMore(told: seq<Notice>, more: seq<Notice>, g: nat, parent: nat)
    requires Told(told, g, parent)
    ensures Told(told + more, g, parent)
  {
    var n :| n in told && n.tgid == g && n.parent == parent;
    assert n in told + more;
  }

  lemma ToldHere(told: seq<Notice>, n: Notice)
    requires n in told
    ensures Told(told, n.tgid, n.parent)
  {
  }

  /** Whoever is the parent after an exit has been told of every child that has ended. */
  lemma ExitKeepsKnown(s: System, p: nat, unwaited: set<nat>)
    requires Inv(s) && Alive(s, p)
    ensures ParentsKnow(AfterExit(s, p, unwaited))
  {
    hide Fresh, ReleasedEnded, ToldOnce, CollectedGone, StatusKept, Tellings, GroupExited, AdoptionNotices, Told;
    var g, table, s' := s.table[p].tgid, Zombied(s.table, p), AfterExit(s, p, unwaited);
    assert Leads(s, g);
    StaysExited(s.table, p);
    ExitSeen(s, p, unwaited);
    forall x: nat | Leads(s', x) && GroupExited(s'.table, x) && !s'.table[x].released
      ensures Told(s'.told, x, s'.table[x].ppid) {
      SameGroupsExited(s'.table, table, x);
      if GroupExited(table, g) {
        KnownAfterEnd(s, p, unwaited, x);
      }
    }
  }

  lemma KnownAfterEnd(s: System, p: nat, unwaited: set<nat>, x: nat)
    requires ParentsKnow(s) && Alive(s, p) && Leads(s, s.table[p].tgid)
             && GroupExited(Zombied(s.table, p), s.table[p].tgid)
    requires Leads(AfterExit(s, p, unwaited), x) && GroupExited(Zombied(s.table, p), x)
             && !AfterExit(s, p, unwaited).table[x].released
    ensures Told(AfterExit(s, p, unwaited).told, x, AfterExit(s, p, unwaited).table[x].ppid)
  {
    hide GroupExited, AdoptionNotices, Told;
    var g, table, s' := s.table[p].tgid, Zombied(s.table, p), AfterExit(s, p, unwaited);
    var noticed := Noticed(table, g, unwaited);
    var more := [Notice(g, false, table[g].ppid)] + AdoptionNotices(Orphans(noticed, g));
    assert s'.told == s.told + more;
    NoticedGroups(table, g, unwaited);
    SameGroupsExited(noticed, table, x);
    if table[x].ppid == g {
      OrphansTold(Orphans(noticed, g), x);
      ToldHere(s'.told, Notice(x, true, INIT));
    } else if x == g {
      ToldHere(s'.told, Notice(g, false, table[g].ppid));
    } else {
      StaysExited(s.table, p);
      ToldMore(s.told, more, x, s.table[x].ppid);
    }
  }

  lemma ExitKeeps(s: System, p: nat, unwaited: set<nat>)
    requires Inv(s) && Alive(s, p)
    ensures Inv(AfterExit(s, p, unwaited))
  {
    hide AfterExit, Fresh, Led, ReleasedEnded, ToldOnce, ParentsKnow, GroupExited, Tellings;
    ExitSeen(s, p, unwaited);
    ExitKeepsKnown(s, p, unwaited);
    ExitKeepsLed(s, AfterExit(s, p, unwaited), p);
    ExitKeepsTold(s, AfterExit(s, p, unwaited), p);
  }

  // ---- the other steps -----------------------------------------------------

  lemma BornGroups(table: map<nat, Task>, n: nat, t: Task)
    requires n !in table && !t.zombie
    ensures forall g :: g != t.tgid ==> (GroupExited(table[n := t], g) <==> GroupExited(table, g))
    ensures !GroupExited(table[n := t], t.tgid)
  {
    var table' := table[n := t];
    assert table'[n] == t;
    forall g | g != t.tgid ensures GroupExited(table', g) <==> GroupExited(table, g) {
      if !GroupExited(table, g) {
        var q :| q in table && table[q].tgid == g && !table[q].zombie;
        assert table'[q] == table[q];
      }
      if !GroupExited(table', g) {
        var q :| q in table' && table'[q].tgid == g && !table'[q].zombie;
        assert table[q] == table'[q];
      }
    }
  }

  lemma BornKeeps(s: System, t: Task)
    requires Inv(s) && !t.zombie && !t.released
             && (t.tgid == s.next || (Leads(s, t.tgid) && !GroupExited(s.table, t.tgid)))
    ensures Inv(s.(table := s.table[s.next := t], next := s.next + 1))
  {
    hide Led, ReleasedEnded, ToldOnce, GroupExited, Tellings, Told;
    BornKeepsTold(s, t);
    BornKeepsLed(s, t);
    BornGroups(s.table, s.next, t);
  }

  lemma BornKeepsLed(s: System, t: Task)
    requires Fresh(s) && Led(s) && ReleasedEnded(s) && !t.zombie && !t.released
    requires t.tgid == s.next || (Leads(s, t.tgid) && !GroupExited(s.table, t.tgid))
    ensures var s' := s.(table := s.table[s.next := t], next := s.next + 1); Led(s') && ReleasedEnded(s')
  {
    hide GroupExited;
    var s' := s.(table := s.table[s.next := t], next := s.next + 1);
    BornGroups(s.table, s.next, t);
    forall p | Alive(s', p) ensures Leads(s', s'.table[p].tgid) {
      if p != s.next {
        assert Alive(s, p) && Leads(s, s.table[p].tgid);
      }
    }
  }

  lemma BornKeepsTold(s: System, t: Task)
    requires Fresh(s) && ToldOnce(s) && !t.zombie
             && (t.tgid == s.next || (Leads(s, t.tgid) && !GroupExited(s.table, t.tgid)))
    ensures ToldOnce(s.(table := s.table[s.next := t], next := s.next + 1))
  {
    hide Tellings, GroupExited;
    BornGroups(s.table, s.next, t);
    var s' := s.(table := s.table[s.next := t], next := s.next + 1);
    forall g: nat
      ensures Tellings(s'.told, g) <= 1 && (g >= s'.next ==> Tellings(s'.told, g) == 0)
      ensures Leads(s', g) ==> (Tellings(s'.told, g) == 1 <==> GroupExited(s'.table, g))
    {
      assert Leads(s', g) ==> g == s.next || Leads(s, g);
    }
  }

  /** Taking exited tasks out. */
  ghost predicate Removed(s: System, s': System, gone: set<nat>) {
    && s' == s.(table := s'.table, collected := s'.collected)
    && s'.table == (map p | p in s.table && p !in gone :: s.table[p])
    && forall p | p in gone :: p in s.table && s.table[p].zombie
  }

  lemma RemovedGroups(s: System, s': System, gone: set<nat>)
    requires Removed(s, s', gone)
    ensures forall g :: GroupExited(s'.table, g) <==> GroupExited(s.table, g)
  {
    forall g ensures GroupExited(s'.table, g) <==> GroupExited(s.table, g) {
      if !GroupExited(s.table, g) {
        var q :| q in s.table && s.table[q].tgid == g && !s.table[q].zombie;
        assert q in s'.table;
      }
    }
  }

  lemma RemovedKeeps(s: System, s': System, gone: set<nat>)
    requires Removed(s, s', gone) && Fresh(s) && Led(s) && ReleasedEnded(s) && ToldOnce(s) && ParentsKnow(s)
    requires forall p | p in gone && p == s.table[p].tgid :: GroupExited(s.table, p)
    ensures Led(s') && ReleasedEnded(s') && ToldOnce(s') && ParentsKnow(s')
  {
    hide Tellings, GroupExited, Told;
    RemovedGroups(s, s', gone);
    forall p | Alive(s', p) ensures Leads(s', s'.table[p].tgid) {
      var g := s.table[p].tgid;
      assert Alive(s, p) && Leads(s, g);
      if g in gone {
        LiveIsNotExited(s.table, p);
      }
    }
    forall g: nat
      ensures Tellings(s'.told, g) <= 1 && (g >= s'.next ==> Tellings(s'.told, g) == 0)
      ensures Leads(s', g) ==> (Tellings(s'.told, g) == 1 <==> GroupExited(s'.table, g))
    {
      assert Leads(s', g) ==> Leads(s, g);
    }
  }

  lemma LiveIsNotExited(table: map<nat, Task>, p: nat)
    requires p in table && !table[p].zombie
    ensures !GroupExited(table, table[p].tgid)
  {
  }

  lemma CollectRemoves(s: System, parent: nat, g: nat)
    requires Enabled(s, Collect(parent, g))
    ensures Removed(s, Apply(s, Collect(parent, g)), set p | p in s.table && s.table[p].tgid == g)
  {
  }

  lemma CollectKeeps(s: System, parent: nat, g: nat)
    requires Inv(s) && Enabled(s, Collect(parent, g))
    ensures Inv(Apply(s, Collect(parent, g)))
  {
    hide Led, ReleasedEnded, ToldOnce, ParentsKnow, GroupExited;
    var s' := Apply(s, Collect(parent, g));
    var gone := set p | p in s.table && s.table[p].tgid == g;
    CollectRemoves(s, parent, g);
    RemovedKeeps(s, s', gone);
    forall i, p | 0 <= i < |s'.collected| && p in s'.table ensures s'.table[p].tgid != s'.collected[i].0 {
      if i < |s.collected| {
        assert s'.collected[i] == s.collected[i] && p in s.table;
      }
    }
    forall i, j | 0 <= i < j < |s'.collected| ensures s'.collected[i].0 != s'.collected[j].0 {
      if j == |s.collected| {
        assert s.table[g].tgid != s.collected[i].0;
      }
    }
  }

  lemma ReapKeeps(s: System, current: nat)
    requires Inv(s)
    ensures Inv(Apply(s, ReapDead(current)))
  {
    var s' := Apply(s, ReapDead(current));
    var gone := set p | p in s.table && s.table[p].zombie && (p != s.table[p].tgid || s.table[p].released)
      && p != current;
    assert Removed(s, s', gone);
    RemovedKeeps(s, s', gone);
    hide Led, ReleasedEnded, ToldOnce, ParentsKnow, GroupExited;
  }

  lemma CodeKeeps(s: System, p: nat, code: int)
    requires Inv(s) && Alive(s, p)
    ensures Inv(s.(table := s.table[p := s.table[p].(code := code)]))
  {
    hide GroupExited, Tellings;
    var s' := s.(table := s.table[p := s.table[p].(code := code)]);
    assert SameGroups(s'.table, s.table);
    forall g ensures GroupExited(s'.table, g) <==> GroupExited(s.table, g) {
      SameGroupsExited(s'.table, s.table, g);
    }
    forall x | Alive(s', x) ensures Leads(s', s'.table[x].tgid) {
      assert Alive(s, x) && Leads(s, s.table[x].tgid);
    }
    forall g: nat ensures Leads(s', g) <==> Leads(s, g) {
    }
  }

  lemma EndKeeps(s: System, g: nat, status: int)
    requires Inv(s) && g !in s.ended && (exists p | p in s.table :: s.table[p].tgid == g)
    ensures Inv(s.(ended := s.ended[g := status]))
  {
    var s' := s.(ended := s.ended[g := status]);
    var p :| p in s.table && s.table[p].tgid == g;
    forall i | 0 <= i < |s.collected| ensures s.collected[i].0 != g {
      assert s.table[p].tgid != s.collected[i].0;
    }
    hide GroupExited, Tellings;
    forall x | Alive(s', x) ensures Leads(s', s'.table[x].tgid) {
      assert Alive(s, x);
    }
    forall x: nat ensures Leads(s', x) <==> Leads(s, x) {
    }
  }

  /** Every hold of the table keeps all of it. */
  lemma StepKeeps(s: System, step: Step)
    requires Inv(s) && Enabled(s, step)
    ensures Inv(Apply(s, step))
  {
    match step
    case Fork(p) => BornKeeps(s, Task(s.next, s.table[p].tgid, false, 0, false));
    case Clone(p) =>
      LiveIsNotExited(s.table, p);
      BornKeeps(s, Task(s.table[p].tgid, s.table[p].ppid, false, 0, false));
    case EndGroup(p, status) =>
      if s.table[p].tgid !in s.ended {
        EndKeeps(s, s.table[p].tgid, status);
      }
    case SetCode(p, status) => CodeKeeps(s, p, if s.table[p].tgid in s.ended then s.ended[s.table[p].tgid] else status);
    case Exit(p, unwaited) => ExitKeeps(s, p, unwaited);
    case Collect(parent, g) => CollectKeeps(s, parent, g);
    case ReapDead(current) => ReapKeeps(s, current);
  }

  // ---- what a step tells ---------------------------------------------------

  /** The parent is told exactly at the step where the last thread of the process
    * becomes a zombie, and by no other step. */
  lemma ToldAtTheEnd(s: System, step: Step, g: nat)
    requires Inv(s) && Enabled(s, step)
    ensures var s' := Apply(s, step);
            Tellings(s'.told, g) == Tellings(s.told, g)
              + if step.Exit? && s.table[step.pid].tgid == g && GroupExited(s'.table, g) then 1 else 0
  {
    hide Inv, GroupExited, Tellings;
    if step.Exit? {
      ExitSeen(s, step.pid, step.unwaited);
    }
  }

  /** The step is the last exit of the group that is this process's parent, and the
    * process has ended and has not been let go. */
  ghost predicate Orphaned(s: System, step: Step, x: nat)
    requires Enabled(s, step)
  {
    step.Exit? &&
    var g := s.table[step.pid].tgid;
    var table := Zombied(s.table, step.pid);
    && GroupExited(table, g) && x in table && x == table[x].tgid && table[x].ppid == g && GroupExited(table, x)
    && !table[x].released && !(x == g && x in step.unwaited)
  }

  /** Init is told again of a process that had already ended at exactly the step that
    * makes the process its child, once, and by no other step. */
  lemma AdoptedAtTheEnd(s: System, step: Step, x: nat)
    requires Inv(s) && Enabled(s, step)
    ensures var s' := Apply(s, step);
            && Adoptions(s'.told, x) == Adoptions(s.told, x) + (if Orphaned(s, step, x) then 1 else 0)
            && (Orphaned(s, step, x) ==> x in s'.table && s'.table[x].ppid == INIT)
  {
    hide Inv, GroupExited, Adoptions, AfterExit;
    if step.Exit? {
      AdoptedByExit(s, step.pid, step.unwaited, x);
    }
  }

  lemma AdoptedByExit(s: System, p: nat, unwaited: set<nat>, x: nat)
    requires Inv(s) && Alive(s, p)
    ensures var s', orphaned := AfterExit(s, p, unwaited), Orphaned(s, Exit(p, unwaited), x);
            && Adoptions(s'.told, x) == Adoptions(s.told, x) + (if orphaned then 1 else 0)
            && (orphaned ==> x in s'.table && s'.table[x].ppid == INIT)
  {
    hide Fresh, ReleasedEnded, ToldOnce, ParentsKnow, CollectedGone, StatusKept, GroupExited, AdoptionNotices,
         Adoptions, Orphans, Noticed, Adopted, Zombied;
    var g, table := s.table[p].tgid, Zombied(s.table, p);
    assert Leads(s, g);
    ZombiedGroups(s.table, p);
    if GroupExited(table, g) {
      var orphans := Orphans(Noticed(table, g, unwaited), g);
      OrphansAre(table, g, unwaited, x);
      OrphansTold(orphans, x);
      TellOne(s.told, Notice(g, false, table[g].ppid), x);
      AdoptionsJoin(s.told + [Notice(g, false, table[g].ppid)], AdoptionNotices(orphans), x);
    }
  }

  lemma OrphansAre(table: map<nat, Task>, g: nat, unwaited: set<nat>, x: nat)
    ensures x in Orphans(Noticed(table, g, unwaited), g) <==>
              && x in table && x == table[x].tgid && table[x].ppid == g && GroupExited(table, x)
              && !table[x].released && !(x == g && x in unwaited)
    ensures x in table && table[x].ppid == g ==>
              x in Adopted(Noticed(table, g, unwaited), g, unwaited)
                && Adopted(Noticed(table, g, unwaited), g, unwaited)[x].ppid == INIT
  {
    hide GroupExited;
    NoticedGroups(table, g, unwaited);
    SameGroupsExited(Noticed(table, g, unwaited), table, x);
  }

  lemma {:induction false} AdoptionsJoin(a: seq<Notice>, b: seq<Notice>, g: nat)
    ensures Adoptions(a + b, g) == Adoptions(a, g) + Adoptions(b, g)
  {
    if b == [] {
      assert a + b == a;
    } else {
      assert (a + b)[..|a + b| - 1] == a + b[..|b| - 1];
      AdoptionsJoin(a, b[..|b| - 1], g);
    }
  }

  // ---- runs ----------------------------------------------------------------

  ghost predicate Run(s: System, steps: seq<Step>, s': System)
    decreases |steps|
  {
    if steps == [] then s' == s else
    Enabled(s, steps[0]) && Run(Apply(s, steps[0]), steps[1..], s')
  }

  lemma {:induction false} RunKeeps(s: System, steps: seq<Step>, s': System)
    requires Inv(s) && Run(s, steps, s')
    ensures Inv(s')
    decreases |steps|
  {
    hide Inv, Enabled, Apply;
    if steps != [] {
      StepKeeps(s, steps[0]);
      RunKeeps(Apply(s, steps[0]), steps[1..], s');
    }
  }

  /** Over any run from the boot: no process is collected twice, none while a thread
    * of it lives or any task of it is left, its parent is told at most once that it
    * ended, and a leader is there for as long as any of its threads. */
  lemma ProcessEndsOnce(s: System, steps: seq<Step>, s': System, g: nat, p: nat)
    requires Inv(s) && Run(s, steps, s')
    ensures forall i, j | 0 <= i < j < |s'.collected| :: s'.collected[i].0 != s'.collected[j].0
    ensures forall i | 0 <= i < |s'.collected| && p in s'.table :: s'.table[p].tgid != s'.collected[i].0
    ensures Tellings(s'.told, g) <= 1
    ensures Alive(s', p) ==> Leads(s', s'.table[p].tgid)
    ensures Leads(s', g) && GroupExited(s'.table, g) && !s'.table[g].released ==> Told(s'.told, g, s'.table[g].ppid)
  {
    hide GroupExited, Tellings, Run, Fresh, ReleasedEnded, StatusKept, Told;
    RunKeeps(s, steps, s');
  }

  lemma EndedStays(s: System, step: Step, g: nat)
    requires Enabled(s, step) && g in s.ended
    ensures g in Apply(s, step).ended && Apply(s, step).ended[g] == s.ended[g]
  {
  }

  lemma {:induction false} EndedStaysOverRun(s: System, steps: seq<Step>, s': System, g: nat)
    requires Run(s, steps, s') && g in s.ended
    ensures g in s'.ended && s'.ended[g] == s.ended[g]
    decreases |steps|
  {
    hide Apply, Enabled;
    if steps != [] {
      EndedStays(s, steps[0], g);
      EndedStaysOverRun(Apply(s, steps[0]), steps[1..], s', g);
    }
  }

  /** Once a thread group has been ended, whatever its threads do after that, a
    * process collected from it is collected with that first status. */
  lemma FirstStatusWins(s: System, steps: seq<Step>, s': System, g: nat, i: nat)
    requires Inv(s) && Run(s, steps, s') && g in s.ended && i < |s'.collected| && s'.collected[i].0 == g
    ensures s'.collected[i].1 == s.ended[g]
  {
    hide Run, Fresh, Led, ReleasedEnded, ToldOnce, ParentsKnow, CollectedGone;
    RunKeeps(s, steps, s');
    EndedStaysOverRun(s, steps, s', g);
  }
}
