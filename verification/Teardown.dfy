/** Releasing an address space: everything below the limit is detached from the
  * top table, the walker is made to forget, and only then is anything handed
  * back.
  *
  * `start` is the memory as the teardown found it. The ghost `log` is the list of
  * positions in that memory whose frames have gone back.
  */
module Teardown {
  import opened Machines
  import opened Walk
  import opened Pages
  import opened Hierarchy
  import opened Descent
  import opened Reclaim
  import opened Tables
  import opened Accounts

  /** Whether a descriptor ends the walk does not depend on which level above the
    * last it is at. */
  ghost predicate LevelBlind(m: Machine) {
    forall b, level: nat | level >= 1 :: m.endsWalk(b, level) == m.endsWalk(b, 1)
  }

  lemma BothLevelBlind()
    ensures LevelBlind(X86) && LevelBlind(AArch64)
  {
  }

  /** `q` is below one of the first `n` descriptors of the table at `p`. */
  predicate UnderFirst(q: Path, p: Path, n: nat) {
    q.Down? && ((q.up == p && q.index < n) || UnderFirst(q.up, p, n))
  }

  /** The counts once the frame named at each position of the log has gone back. */
  ghost function ReleasedAlong(m: Machine, start: Words, h: Hier, counts: map<Phys, nat>, log: seq<Path>): map<Phys,
                               nat> {
    if log == [] then counts else
    Released(ReleasedAlong(m, start, h, counts, log[..|log| - 1]), m.addr(Desc(m, start, h.root, log[|log| - 1])))
  }

  lemma {:induction false} ReleasedJoin(m: Machine, start: Words, h: Hier, counts: map<Phys, nat>, a: seq<Path>,
                                        b: seq<Path>)
    ensures ReleasedAlong(m, start, h, counts, a + b)
            == ReleasedAlong(m, start, h, ReleasedAlong(m, start, h, counts, a), b)
  {
    if b == [] {
      assert a + b == a;
    } else {
      ReleasedJoin(m, start, h, counts, a, b[..|b| - 1]);
      assert (a + b)[..|a + b| - 1] == a + b[..|b| - 1];
    }
  }

  /** How many positions of the log name frame `f`. */
  ghost function TimesNamed(m: Machine, start: Words, h: Hier, log: seq<Path>, f: Phys): nat {
    if log == [] then 0 else
    TimesNamed(m, start, h, log[..|log| - 1], f) + if m.addr(Desc(m, start, h.root, log[|log| - 1])) == f then 1 else 0
  }

  /** A frame loses one reference for each position that named it, and no other
    * frame loses any. */
  lemma {:induction false} ReleasedOncePerName(m: Machine, start: Words, h: Hier, counts: map<Phys, nat>,
                                               log: seq<Path>, f: Phys)
    requires References(counts, f) >= TimesNamed(m, start, h, log, f)
    ensures References(ReleasedAlong(m, start, h, counts, log), f)
            == References(counts, f) - TimesNamed(m, start, h, log, f)
  {
    if log != [] {
      ReleasedOncePerName(m, start, h, counts, log[..|log| - 1], f);
    }
  }

  /** The positions of the log that name frame `f`. */
  ghost function LoggedAt(m: Machine, start: Words, h: Hier, log: seq<Path>, f: Phys): set<Path> {
    set q | q in log && m.addr(Desc(m, start, h.root, q)) == f
  }

  lemma LoggedNext(m: Machine, start: Words, h: Hier, rest: seq<Path>, q: Path, f: Phys)
    requires q !in rest
    ensures q !in LoggedAt(m, start, h, rest, f)
    ensures LoggedAt(m, start, h, rest + [q], f)
         == LoggedAt(m, start, h, rest, f) + if m.addr(Desc(m, start, h.root, q)) == f then {q} else {}
  {
    hide Desc;
  }

  lemma {:induction false} LoggedOnceEach(m: Machine, start: Words, h: Hier, log: seq<Path>, f: Phys)
    requires NoRepeats(log)
    ensures TimesNamed(m, start, h, log, f) == |LoggedAt(m, start, h, log, f)|
  {
    if log == [] {
      assert LoggedAt(m, start, h, log, f) == {};
    } else {
      hide Desc, LoggedAt;
      var rest, q := log[..|log| - 1], log[|log| - 1];
      assert log == rest + [q];
      LoggedOnceEach(m, start, h, rest, f);
      LoggedNext(m, start, h, rest, q, f);
    }
  }

  /** Releasing every position once takes from each frame exactly the references the
    * hierarchy's descriptors had on it, where every descriptor had one. */
  lemma ReleasedAllNames(m: Machine, start: Words, h: Hier, counts: map<Phys, nat>, held: multiset<Phys>,
                         log: seq<Path>, f: Phys)
    requires Tree(m, start, h) && !m.present(0) && Solvent(m, start, h, counts, held)
    requires NoRepeats(log) && forall q :: q in log <==> Position(m, start, h, q)
    ensures References(ReleasedAlong(m, start, h, counts, log), f) == References(counts, f) - |NamedAt(m, start, h, f)|
  {
    forall q ensures q in log <==> q in Positions(m, start, h) {
      PositionsAreAll(m, start, h, q);
    }
    assert LoggedAt(m, start, h, log, f) == NamedAt(m, start, h, f);
    LoggedOnceEach(m, start, h, log, f);
    assert Elsewhere(m, start, h, counts, held, f) >= 0;
    ReleasedOncePerName(m, start, h, counts, log, f);
  }

  /** Every position at or below `p`, each of them once. */
  ghost predicate Covers(m: Machine, start: Words, h: Hier, log: seq<Path>, p: Path) {
    NoRepeats(log) && forall q :: q in log <==> Position(m, start, h, q) && Under(q, p)
  }

  /** Every position below the first `n` descriptors of `p`, each of them once. */
  ghost predicate CoversFirst(m: Machine, start: Words, h: Hier, log: seq<Path>, p: Path, n: nat) {
    NoRepeats(log) && forall q :: q in log <==> Position(m, start, h, q) && UnderFirst(q, p, n)
  }

  // ---- positions -----------------------------------------------------------

  lemma {:induction false} UnderNext(q: Path, p: Path, n: nat)
    ensures UnderFirst(q, p, n + 1) <==> UnderFirst(q, p, n) || Under(q, Down(p, n))
    ensures !(UnderFirst(q, p, n) && Under(q, Down(p, n)))
    ensures UnderFirst(q, p, n) ==> Under(q, p) && q != p
    ensures Under(q, Down(p, n)) ==> Under(q, p) && q != p
  {
    if q.Down? {
      UnderNext(q.up, p, n);
      if Under(q.up, Down(p, n)) {
        UnderDepth(q.up, Down(p, n));
      }
      if UnderFirst(q.up, p, n) {
        assert Under(q.up, p) && q.up != p;
        UnderDepth(q.up, p);
      }
      UnderDepthStrict(q.up, q.index);
    }
  }

  lemma {:induction false} PositionBelow(m: Machine, start: Words, h: Hier, q: Path, p: Path)
    requires !m.present(0) && Tree(m, start, h) && IsTable(m, start, h, p) && Position(m, start, h, q) && Under(q, p)
             && q != p
    ensures UnderFirst(q, p, ENTRIES)
  {
    if q.up != p {
      assert Position(m, start, h, q.up) by {
        assert TableAt(m, start, h.root, q.up).Some?;
        assert q.up.Down? by {
          UnderDepth(q.up, p);
        }
      }
      PositionBelow(m, start, h, q.up, p);
    }
  }

  lemma {:induction false} NothingAtOrBelow(m: Machine, start: Words, h: Hier, q: Path, s: Path)
    requires !m.present(0) && !m.present(Desc(m, start, h.root, s)) && s.Down? && Under(q, s)
    ensures !m.present(Desc(m, start, h.root, q)) && TableAt(m, start, h.root, q).None?
  {
    if q != s {
      NothingAtOrBelow(m, start, h, q.up, s);
    }
  }

  /** The table at `p` reaches frame `f`. */
  ghost predicate InSubtree(m: Machine, start: Words, h: Hier, p: Path, f: Phys) {
    exists q :: IsTable(m, start, h, q) && Under(q, p) && TableAt(m, start, h.root, q) == Some(f)
  }

  /** Memory is as it was but for the frames `p` reaches. */
  ghost predicate WrittenBelow(m: Machine, start: Words, words: Words, words': Words, h: Hier, p: Path) {
    && words'.Keys == words.Keys && (forall f | f in words :: |words'[f]| == |words[f]|)
    && forall f | f in words && !InSubtree(m, start, h, p, f) :: words'[f] == words[f]
  }

  /** What the table at `p` reaches past its first `n` descriptors is as it was. */
  ghost predicate IntactFrom(m: Machine, start: Words, words: Words, h: Hier, p: Path, table: Phys, n: nat) {
    && words.Keys == start.Keys && (forall f | f in words :: |words[f]| == |start[f]|)
    && (forall q | IsTable(m, start, h, q) && Under(q, p) && q != p && !UnderFirst(q, p, n) ::
          var f := TableAt(m, start, h.root, q).value; f in words && words[f] == start[f])
    && (forall i: nat | n <= i < ENTRIES :: Read(words, table, i) == Read(start, table, i))
  }

  /** One descriptor of the table at `p` has been dealt with. */
  ghost predicate EntryWritten(m: Machine, start: Words, words: Words, words': Words, h: Hier, p: Path, table: Phys,
                               n: nat)
  {
    && words'.Keys == words.Keys && (forall f | f in words :: |words'[f]| == |words[f]|)
    && (forall f | f in words && f != table && !InSubtree(m, start, h, Down(p, n), f) :: words'[f] == words[f])
    && (forall i: nat | i != n :: Read(words', table, i) == Read(words, table, i))
  }

  /** The table at `p`, in memory as the teardown found it. */
  ghost predicate At(m: Machine, start: Words, h: Hier, p: Path, table: Phys) {
    && !m.present(0) && Tree(m, start, h) && IsTable(m, start, h, p) && TableAt(m, start, h.root, p) == Some(table)
  }

  lemma SubtreesApart(m: Machine, start: Words, h: Hier, p: Path, n: nat, q: Path)
    requires Tree(m, start, h) && IsTable(m, start, h, q) && !Under(q, Down(p, n))
    ensures !InSubtree(m, start, h, Down(p, n), TableAt(m, start, h.root, q).value)
  {
  }

  lemma IntactNext(m: Machine, start: Words, words: Words, words': Words, h: Hier, p: Path, table: Phys, n: nat)
    requires At(m, start, h, p, table) && n < ENTRIES
    requires IntactFrom(m, start, words, h, p, table, n) && EntryWritten(m, start, words, words', h, p, table, n)
    ensures IntactFrom(m, start, words', h, p, table, n + 1)
  {
    forall q | IsTable(m, start, h, q) && Under(q, p) && q != p && !UnderFirst(q, p, n + 1)
      ensures var f := TableAt(m, start, h.root, q).value; f in words' && words'[f] == start[f]
    {
      UnderNext(q, p, n);
      SubtreesApart(m, start, h, p, n, q);
    }
  }

  lemma WrittenNext(m: Machine, start: Words, w0: Words, words: Words, words': Words, h: Hier, p: Path, table: Phys,
                    n: nat)
    requires At(m, start, h, p, table)
    requires WrittenBelow(m, start, w0, words, h, p) && EntryWritten(m, start, words, words', h, p, table, n)
    ensures WrittenBelow(m, start, w0, words', h, p)
  {
    forall f | f in w0 && !InSubtree(m, start, h, p, f) ensures words'[f] == w0[f] {
      assert Under(p, p);
      if InSubtree(m, start, h, Down(p, n), f) {
        var q :| IsTable(m, start, h, q) && Under(q, Down(p, n)) && TableAt(m, start, h.root, q) == Some(f);
        UnderNext(q, p, n);
      }
    }
  }

  lemma ChildIntact(m: Machine, start: Words, words: Words, h: Hier, p: Path, table: Phys, n: nat, below: Phys)
    requires At(m, start, h, p, table) && IntactFrom(m, start, words, h, p, table, n)
    requires At(m, start, h, Down(p, n), below)
    ensures IntactFrom(m, start, words, h, Down(p, n), below, 0)
  {
    forall q | IsTable(m, start, h, q) && Under(q, Down(p, n))
      ensures var f := TableAt(m, start, h.root, q).value; f in words && words[f] == start[f]
    {
      UnderNext(q, p, n);
    }
    assert Under(Down(p, n), Down(p, n));
  }

  lemma EntryDone(m: Machine, start: Words, words: Words, words': Words, h: Hier, p: Path, table: Phys, n: nat)
    requires At(m, start, h, p, table) && n < ENTRIES && words.Keys == start.Keys
             && (forall f | f in words :: |words[f]| == |start[f]|)
    requires WrittenBelow(m, start, words, words', h, Down(p, n))
    ensures table in words' && n < |words'[table]| && words'[table] == words[table]
    ensures EntryWritten(m, start, words, Put(words', table, n, 0), h, p, table, n)
  {
    UnderDepthStrict(p, n);
    SubtreesApart(m, start, h, p, n, p);
    forall i: nat | i != n ensures Read(Put(words', table, n, 0), table, i) == Read(words, table, i) {
      ReadPut(words', table, n, 0, table, i);
    }
  }

  // ---- the log -------------------------------------------------------------

  lemma CoversNext(m: Machine, start: Words, h: Hier, log: seq<Path>, part: seq<Path>, p: Path, n: nat)
    requires CoversFirst(m, start, h, log, p, n) && Covers(m, start, h, part, Down(p, n))
    ensures CoversFirst(m, start, h, log + part, p, n + 1)
  {
    forall q ensures q in log + part <==> Position(m, start, h, q) && UnderFirst(q, p, n + 1) {
      UnderNext(q, p, n);
    }
    forall q | q in log ensures q !in part {
      UnderNext(q, p, n);
    }
    NoRepeatsJoin(log, part);
  }

  lemma CoversAll(m: Machine, start: Words, h: Hier, log: seq<Path>, p: Path, table: Phys)
    requires At(m, start, h, p, table) && p != Top && CoversFirst(m, start, h, log, p, ENTRIES)
    ensures Covers(m, start, h, log + [p], p) && m.addr(Desc(m, start, h.root, p)) == table
  {
    assert Position(m, start, h, p);
    forall q ensures q in log + [p] <==> Position(m, start, h, q) && Under(q, p) {
      UnderNext(q, p, ENTRIES);
      if Position(m, start, h, q) && Under(q, p) && q != p {
        PositionBelow(m, start, h, q, p);
      }
    }
    UnderNext(p, p, ENTRIES);
  }

  lemma CoversNone(m: Machine, start: Words, h: Hier, s: Path)
    requires !m.present(0) && s.Down? && !m.present(Desc(m, start, h.root, s))
    ensures Covers(m, start, h, [], s)
  {
    forall q ensures !(Position(m, start, h, q) && Under(q, s)) {
      if Under(q, s) {
        NothingAtOrBelow(m, start, h, q, s);
      }
    }
  }

  lemma CoversLeaf(m: Machine, start: Words, h: Hier, s: Path)
    requires !m.present(0) && Depth(s) == 4 && Position(m, start, h, s)
    ensures Covers(m, start, h, [s], s)
  {
    forall q ensures q in [s] <==> Position(m, start, h, q) && Under(q, s) {
      if Under(q, s) && q != s {
        UnderDepth(q.up, s);
        assert TableAt(m, start, h.root, q.up).None?;
      }
    }
  }

  // ---- giving back ---------------------------------------------------------

  /** Nothing the hierarchy owns is reached from the top table. */
  ghost predicate Detached(m: Machine, words: Words, h: Hier) {
    forall i: nat | h.lo <= i < h.hi :: !m.present(Read(words, h.root, i))
  }

  lemma {:induction false} DetachedHasNothing(m: Machine, words: Words, h: Hier, q: Path)
    requires !m.present(0) && Detached(m, words, h) && Ours(h, q) && q.Down?
    ensures !m.present(Desc(m, words, h.root, q)) && TableAt(m, words, h.root, q).None?
  {
    if q.up.Down? {
      DetachedHasNothing(m, words, h, q.up);
    }
  }

  lemma DetachedReadsNothing(m: Machine, words: Words, h: Hier)
    requires !m.present(0) && Detached(m, words, h)
    ensures Live(m, words, h) == iset{} && PageMap(m, words, h) == map[]
  {
    forall page: nat | page < PAGES ensures !Mapped(m, words, h, page) {
      if Ours(h, PathTo(page, 4)) {
        DetachedHasNothing(m, words, h, PathTo(page, 4));
      }
    }
    forall e ensures !Readable(m, words, h, e) {
      if e.Walks? && Ours(h, e.path) && e.path.Down? {
        DetachedHasNothing(m, words, h, e.path);
      }
    }
  }

  /** Clearing a descriptor below the top leaves the top alone. */
  lemma ClearedBelow(m: Machine, start: Words, words: Words, h: Hier, p: Path, table: Phys, n: nat)
    requires At(m, start, h, p, table) && p != Top && Detached(m, words, h) && table in words && n < |words[table]|
    ensures Detached(m, Put(words, table, n, 0), h) && Live(m, Put(words, table, n, 0), h) == iset{}
  {
    assert IsTable(m, start, h, Top) && table != h.root;
    forall i: nat | h.lo <= i < h.hi ensures !m.present(Read(Put(words, table, n, 0), h.root, i)) {
      ReadPut(words, table, n, 0, h.root, i);
    }
    DetachedReadsNothing(m, Put(words, table, n, 0), h);
  }

  lemma NothingThere(m: Machine, start: Words, words: Words, h: Hier, p: Path, table: Phys, n: nat,
                     counts: map<Phys, nat>)
    requires !m.present(0) && !m.present(Desc(m, start, h.root, Down(p, n)))
    ensures EntryWritten(m, start, words, words, h, p, table, n) && Covers(m, start, h, [], Down(p, n))
    ensures ReleasedAlong(m, start, h, counts, []) == counts
  {
    CoversNone(m, start, h, Down(p, n));
  }

  lemma LeafThere(m: Machine, start: Words, words: Words, h: Hier, p: Path, n: nat, counts: map<Phys, nat>)
    requires !m.present(0) && Depth(p) == 3 && Position(m, start, h, Down(p, n))
    ensures WrittenBelow(m, start, words, words, h, Down(p, n)) && Covers(m, start, h, [Down(p, n)], Down(p, n))
    ensures ReleasedAlong(m, start, h, counts, [Down(p, n)])
            == Released(counts, m.addr(Desc(m, start, h.root, Down(p, n))))
  {
    CoversLeaf(m, start, h, Down(p, n));
    ReleasedOne(m, start, h, counts, [], Down(p, n));
    assert [] + [Down(p, n)] == [Down(p, n)];
  }

  /** A teardown under way: all that is left of `start` is off the top table, and
    * the walker has forgotten it. */
  ghost predicate Tearing(t: Tables, start: Words)
    reads t, t.mem
  {
    && !t.m.present(0) && LevelBlind(t.m) && Tree(t.m, start, t.h) && Blockless(t.m, start, t.h)
    && t.mem.words.Keys == start.Keys && (forall f | f in start :: |t.mem.words[f]| == |start[f]|)
    && Detached(t.m, t.mem.words, t.h) && t.cached == iset{}
  }

  lemma EntryKind(m: Machine, start: Words, words: Words, h: Hier, p: Path, table: Phys, level: nat, n: nat)
    requires At(m, start, h, p, table) && LevelBlind(m) && Blockless(m, start, h)
             && IntactFrom(m, start, words, h, p, table, n)
    requires p != Top && n < ENTRIES && 1 <= level <= 3 && Depth(p) == 4 - level
    ensures Read(words, table, n) == Desc(m, start, h.root, Down(p, n))
    ensures m.present(Read(words, table, n)) ==> Position(m, start, h, Down(p, n))
    ensures m.present(Read(words, table, n)) && level > 1 ==>
              && !m.endsWalk(Read(words, table, n), level)
              && At(m, start, h, Down(p, n), m.addr(Read(words, table, n)))
  {
    assert Depth(Down(p, n)) == 5 - level;
  }

  /** Release what a present descriptor of the table at `p` reaches. */
  method FreeReached(tables: Tables, bits: Word, level: nat, ghost index: nat, ghost phys: Phys, ghost start: Words,
                     ghost p: Path)
    returns (ghost part: seq<Path>)
    requires Tearing(tables, start) && At(tables.m, start, tables.h, p, phys) && p != Top
    requires 1 <= level <= 3 && Depth(p) == 4 - level && index < ENTRIES
    requires IntactFrom(tables.m, start, tables.mem.words, tables.h, p, phys, index)
    requires bits == Read(tables.mem.words, phys, index) && tables.m.present(bits)
    modifies tables.mem, tables`cached
    ensures Tearing(tables, start)
    ensures WrittenBelow(tables.m, start, old(tables.mem.words), tables.mem.words, tables.h, Down(p, index))
    ensures Covers(tables.m, start, tables.h, part, Down(p, index))
    ensures tables.mem.counts == ReleasedAlong(tables.m, start, tables.h, old(tables.mem.counts), part)
    decreases level, 0
  {
    hide Tree, Blockless, IntactFrom, Live, WrittenBelow, Covers, Position, At, LevelBlind, Detached, ReleasedAlong,
         Released, Read, Desc;
    EntryKind(tables.m, start, tables.mem.words, tables.h, p, phys, level, index);
    if level == 1 || tables.m.endsWalk(bits, level) {
      LeafThere(tables.m, start, tables.mem.words, tables.h, p, index, tables.mem.counts);
      part := [Down(p, index)];
      tables.Release(tables.m.addr(bits));
    } else {
      ChildIntact(tables.m, start, tables.mem.words, tables.h, p, phys, index, tables.m.addr(bits));
      part := FreeTable(tables, tables.m.addr(bits), level - 1, start, Down(p, index));
    }
  }

  /** Release what one descriptor of the table at `p` reaches, and clear it. */
  method FreeEntry(tables: Tables, phys: Phys, level: nat, index: nat, ghost start: Words, ghost p: Path)
    returns (ghost part: seq<Path>)
    requires Tearing(tables, start) && At(tables.m, start, tables.h, p, phys) && p != Top
    requires 1 <= level <= 3 && Depth(p) == 4 - level && index < ENTRIES
    requires IntactFrom(tables.m, start, tables.mem.words, tables.h, p, phys, index)
    modifies tables.mem, tables`cached
    ensures Tearing(tables, start)
    ensures EntryWritten(tables.m, start, old(tables.mem.words), tables.mem.words, tables.h, p, phys, index)
    ensures Covers(tables.m, start, tables.h, part, Down(p, index))
    ensures tables.mem.counts == ReleasedAlong(tables.m, start, tables.h, old(tables.mem.counts), part)
    decreases level, 1
  {
    hide Tree, Blockless, IntactFrom, Live, WrittenBelow, EntryWritten, Covers, Position, At, LevelBlind, Detached,
         ReleasedAlong, Read, Desc;
    ghost var words := tables.mem.words;
    EntryKind(tables.m, start, words, tables.h, p, phys, level, index);
    var bits := Read(tables.mem.words, phys, index);
    if tables.m.present(bits) {
      part := FreeReached(tables, bits, level, index, phys, start, p);
      EntryDone(tables.m, start, words, tables.mem.words, tables.h, p, phys, index);
      ClearedBelow(tables.m, start, tables.mem.words, tables.h, p, phys, index);
      tables.Store(phys, index, 0);
    } else {
      NothingThere(tables.m, start, words, tables.h, p, phys, index, tables.mem.counts);
      part := [];
    }
  }

  /** The log is every position at or below this table, leaves before the tables that
    * held them and the table itself last. */
  method FreeTable(tables: Tables, phys: Phys, level: nat, ghost start: Words, ghost p: Path)
    returns (ghost log: seq<Path>)
    requires Tearing(tables, start) && At(tables.m, start, tables.h, p, phys) && p != Top
    requires 1 <= level <= 3 && Depth(p) == 4 - level
    requires IntactFrom(tables.m, start, tables.mem.words, tables.h, p, phys, 0)
    modifies tables.mem, tables`cached
    ensures Tearing(tables, start)
    ensures WrittenBelow(tables.m, start, old(tables.mem.words), tables.mem.words, tables.h, p)
    ensures Covers(tables.m, start, tables.h, log, p)
    ensures tables.mem.counts == ReleasedAlong(tables.m, start, tables.h, old(tables.mem.counts), log)
    decreases level, 2
  {
    hide Tree, Blockless, IntactFrom, Live, WrittenBelow, EntryWritten, Covers, CoversFirst, Position, At, LevelBlind,
         Detached, ReleasedAlong;
    ghost var w0, c0 := tables.mem.words, tables.mem.counts;
    log := [];
    FreeStarts(tables.m, start, w0, tables.h, p, c0);
    for index := 0 to ENTRIES
      invariant Tearing(tables, start)
      invariant IntactFrom(tables.m, start, tables.mem.words, tables.h, p, phys, index)
      invariant WrittenBelow(tables.m, start, w0, tables.mem.words, tables.h, p)
      invariant CoversFirst(tables.m, start, tables.h, log, p, index)
      invariant tables.mem.counts == ReleasedAlong(tables.m, start, tables.h, c0, log)
    {
      ghost var words := tables.mem.words;
      ghost var part := FreeEntry(tables, phys, level, index, start, p);
      IntactNext(tables.m, start, words, tables.mem.words, tables.h, p, phys, index);
      WrittenNext(tables.m, start, w0, words, tables.mem.words, tables.h, p, phys, index);
      CoversNext(tables.m, start, tables.h, log, part, p, index);
      ReleasedJoin(tables.m, start, tables.h, c0, log, part);
      log := log + part;
    }
    CoversAll(tables.m, start, tables.h, log, p, phys);
    ReleasedOne(tables.m, start, tables.h, c0, log, p);
    log := log + [p];
    tables.Release(phys);
  }

  lemma ReleasedOne(m: Machine, start: Words, h: Hier, counts: map<Phys, nat>, log: seq<Path>, p: Path)
    ensures ReleasedAlong(m, start, h, counts, log + [p])
            == Released(ReleasedAlong(m, start, h, counts, log), m.addr(Desc(m, start, h.root, p)))
  {
    assert (log + [p])[..|log|] == log;
  }

  lemma FreeStarts(m: Machine, start: Words, words: Words, h: Hier, p: Path, counts: map<Phys, nat>)
    ensures WrittenBelow(m, start, words, words, h, p) && CoversFirst(m, start, h, [], p, 0)
    ensures ReleasedAlong(m, start, h, counts, []) == counts
  {
    forall q ensures !UnderFirst(q, p, 0) {
      NotUnderNone(q, p);
    }
  }

  lemma {:induction false} NotUnderNone(q: Path, p: Path)
    ensures !UnderFirst(q, p, 0)
  {
    if q.Down? {
      NotUnderNone(q.up, p);
    }
  }

  // ---- from the top --------------------------------------------------------

  /** What is past the first `n` descriptors of the top table is as it was, and so
    * is everything outside the hierarchy. */
  ghost predicate RestIntact(m: Machine, start: Words, words: Words, h: Hier, n: nat) {
    && words.Keys == start.Keys && (forall f | f in words :: |words[f]| == |start[f]|)
    && (forall q | IsTable(m, start, h, q) && q != Top && !UnderFirst(q, Top, n) ::
          var f := TableAt(m, start, h.root, q).value; f in words && words[f] == start[f])
    && (forall f | f in words && !IsTableFrame(m, start, h, f) :: words[f] == start[f])
  }

  lemma RestNext(m: Machine, start: Words, words: Words, words': Words, h: Hier, n: nat)
    requires Tree(m, start, h) && RestIntact(m, start, words, h, n)
             && WrittenBelow(m, start, words, words', h, Down(Top, n))
    ensures RestIntact(m, start, words', h, n + 1) && SameTop(words, words', h)
  {
    forall q | IsTable(m, start, h, q) && q != Top && !UnderFirst(q, Top, n + 1)
      ensures var f := TableAt(m, start, h.root, q).value; f in words' && words'[f] == start[f]
    {
      UnderNext(q, Top, n);
      SubtreesApart(m, start, h, Top, n, q);
    }
    assert IsTable(m, start, h, Top);
    SubtreesApart(m, start, h, Top, n, Top);
    assert words'[h.root] == words[h.root];
    forall i: nat ensures Read(words', h.root, i) == Read(words, h.root, i) {
    }
  }

  lemma RestSkip(m: Machine, start: Words, words: Words, h: Hier, n: nat)
    requires Tree(m, start, h) && RestIntact(m, start, words, h, n)
    ensures RestIntact(m, start, words, h, n + 1)
  {
    forall q | q != Top && !UnderFirst(q, Top, n + 1) ensures !UnderFirst(q, Top, n) {
      UnderNext(q, Top, n);
    }
  }

  lemma RestBelow(m: Machine, start: Words, words: Words, h: Hier, n: nat, table: Phys)
    requires RestIntact(m, start, words, h, n) && At(m, start, h, Down(Top, n), table)
    ensures IntactFrom(m, start, words, h, Down(Top, n), table, 0)
  {
    forall q | IsTable(m, start, h, q) && Under(q, Down(Top, n))
      ensures var f := TableAt(m, start, h.root, q).value; f in words && words[f] == start[f]
    {
      UnderNext(q, Top, n);
    }
    assert Under(Down(Top, n), Down(Top, n));
  }

  lemma TopEntry(m: Machine, start: Words, h: Hier, n: nat)
    requires !m.present(0) && LevelBlind(m) && Tree(m, start, h) && Blockless(m, start, h) && h.lo <= n < h.hi
    ensures var bits := Read(start, h.root, n);
            m.present(bits) ==> !m.endsWalk(bits, 3) && At(m, start, h, Down(Top, n), m.addr(bits))
    ensures !m.present(Read(start, h.root, n)) ==> Covers(m, start, h, [], Down(Top, n))
  {
    assert TableAt(m, start, h.root, Top) == Some(h.root) && Depth(Down(Top, n)) == 1;
    assert Desc(m, start, h.root, Down(Top, n)) == Read(start, h.root, n);
    if !m.present(Read(start, h.root, n)) {
      CoversNone(m, start, h, Down(Top, n));
    }
  }

  lemma EveryPosition(m: Machine, start: Words, h: Hier, log: seq<Path>)
    requires !m.present(0) && h.lo == 0 && CoversFirst(m, start, h, log, Top, h.hi)
    ensures NoRepeats(log) && forall q :: q in log <==> Position(m, start, h, q)
  {
    forall q | Position(m, start, h, q) ensures UnderFirst(q, Top, h.hi) {
      OwnedIsUnder(h, q);
    }
  }

  lemma {:induction false} OwnedIsUnder(h: Hier, q: Path)
    requires q.Down? && Ours(h, q)
    ensures UnderFirst(q, Top, h.hi)
  {
    if q.up.Down? {
      OwnedIsUnder(h, q.up);
    }
  }

  /** The first `n` descriptors of the top table are off it. */
  ghost predicate Cut(m: Machine, start: Words, words: Words, root: Phys, n: nat) {
    && words.Keys == start.Keys && root in start && |start[root]| == ENTRIES && |words[root]| == ENTRIES
    && (forall f | f in start && f != root :: words[f] == start[f])
    && (forall i: nat | i < n :: !m.present(Read(words, root, i)))
    && (forall i: nat | i >= n :: Read(words, root, i) == Read(start, root, i))
  }

  lemma CutNext(m: Machine, start: Words, words: Words, root: Phys, n: nat)
    requires !m.present(0) && Cut(m, start, words, root, n) && n < ENTRIES
    ensures Cut(m, start, Put(words, root, n, 0), root, n + 1)
    ensures !m.present(Read(words, root, n)) ==> Cut(m, start, words, root, n + 1)
  {
    forall i ensures Read(Put(words, root, n, 0), root, i) == if i == n then 0 else Read(words, root, i) {
      ReadPut(words, root, n, 0, root, i);
    }
  }

  lemma CutIsDetached(m: Machine, start: Words, words: Words, h: Hier)
    requires Tree(m, start, h) && h.lo == 0 && Cut(m, start, words, h.root, h.hi)
    ensures Detached(m, words, h) && RestIntact(m, start, words, h, 0)
  {
    assert IsTable(m, start, h, Top) && TableAt(m, start, h.root, Top) == Some(h.root);
  }

  /** Take the owned descriptors off the top table. */
  method Detach(tables: Tables, tops: nat) returns (detached: seq<Word>)
    requires !tables.m.present(0) && tables.Valid() && tables.h.lo == 0 && tables.h.hi == tops <= ENTRIES
    modifies tables.mem`words, tables`cached
    ensures |detached| == tops
            && forall i: nat | i < tops :: detached[i] == Read(old(tables.mem.words), tables.h.root, i)
    ensures Cut(tables.m, old(tables.mem.words), tables.mem.words, tables.h.root, tops)
  {
    hide Live, Put, Read;
    ghost var start := tables.mem.words;
    var root := tables.h.root;
    assert IsTable(tables.m, start, tables.h, Top);
    assert root in start && |start[root]| == ENTRIES;
    detached := [];
    for index := 0 to tops
      invariant |detached| == index && forall i: nat | i < index :: detached[i] == Read(start, root, i)
      invariant Cut(tables.m, start, tables.mem.words, root, index)
    {
      var bits := Read(tables.mem.words, root, index);
      detached := detached + [bits];
      CutNext(tables.m, start, tables.mem.words, root, index);
      if tables.m.present(bits) {
        tables.Store(root, index, 0);
      }
    }
  }

  /** The log is every position the hierarchy owns. Where every descriptor had its
    * reference, each frame has lost exactly its names. */
  method FreeBelow(tables: Tables, limit: nat) returns (ghost log: seq<Path>)
    requires !tables.m.present(0) && LevelBlind(tables.m) && tables.Valid()
             && Blockless(tables.m, tables.mem.words, tables.h)
    requires tables.h.lo == 0 && tables.h.hi == if limit / LevelSize(3) < ENTRIES then limit / LevelSize(3) else ENTRIES
    modifies tables.mem, tables`cached
    ensures NoRepeats(log) && forall q :: q in log <==> Position(tables.m, old(tables.mem.words), tables.h, q)
    ensures tables.mem.counts == ReleasedAlong(tables.m, old(tables.mem.words), tables.h, old(tables.mem.counts), log)
    ensures PageMap(tables.m, tables.mem.words, tables.h) == map[] && tables.cached == iset{}
    ensures forall i: nat | tables.h.hi <= i ::
            Read(tables.mem.words, tables.h.root, i) == Read(old(tables.mem.words), tables.h.root, i)
    ensures forall f | f in old(tables.mem.words) && !IsTableFrame(tables.m, old(tables.mem.words), tables.h, f) ::
              f in tables.mem.words && tables.mem.words[f] == old(tables.mem.words)[f]
    ensures tables.mem.words.Keys == old(tables.mem.words).Keys
            && forall f | f in tables.mem.words :: |tables.mem.words[f]| == |old(tables.mem.words)[f]|
    ensures forall held | old(Solvent(tables.m, tables.mem.words, tables.h, tables.mem.counts, held)) ::
              forall f :: References(tables.mem.counts, f)
                == old(References(tables.mem.counts, f) - |NamedAt(tables.m, tables.mem.words, tables.h, f)|)
  {
    hide Solvent, NamedAt, Tree, Blockless, Live, Detached, Covers, CoversFirst, At, LevelBlind, IntactFrom,
         WrittenBelow, RestIntact, ReleasedAlong, IsTableFrame, PageMap, Position;
    ghost var start, c0 := tables.mem.words, tables.mem.counts;
    var tops := if limit / LevelSize(3) < ENTRIES then limit / LevelSize(3) else ENTRIES;
    var detached := Detach(tables, tops);
    CutIsDetached(tables.m, start, tables.mem.words, tables.h);
    DetachedReadsNothing(tables.m, tables.mem.words, tables.h);
    tables.FlushAll();
    log := [];
    FreeStarts(tables.m, start, start, tables.h, Top, c0);
    ghost var cleared := tables.mem.words;
    RestKeys(tables.m, start, cleared, tables.h, 0);
    for index := 0 to tops
      invariant Tearing(tables, start) && RestIntact(tables.m, start, tables.mem.words, tables.h, index)
      invariant SameTop(cleared, tables.mem.words, tables.h)
      invariant CoversFirst(tables.m, start, tables.h, log, Top, index)
      invariant tables.mem.counts == ReleasedAlong(tables.m, start, tables.h, c0, log)
    {
      ghost var words := tables.mem.words;
      TopEntry(tables.m, start, tables.h, index);
      var bits := detached[index];
      if tables.m.present(bits) && !tables.m.endsWalk(bits, 3) {
        RestBelow(tables.m, start, words, tables.h, index, tables.m.addr(bits));
        ghost var part := FreeTable(tables, tables.m.addr(bits), 3, start, Down(Top, index));
        RestNext(tables.m, start, words, tables.mem.words, tables.h, index);
        CoversNext(tables.m, start, tables.h, log, part, Top, index);
        ReleasedJoin(tables.m, start, tables.h, c0, log, part);
        log := log + part;
      } else {
        RestSkip(tables.m, start, words, tables.h, index);
        CoversNext(tables.m, start, tables.h, log, [], Top, index);
        assert log + [] == log;
      }
    }
    RestKeys(tables.m, start, tables.mem.words, tables.h, tops);
    DetachedReadsNothing(tables.m, tables.mem.words, tables.h);
    EveryPosition(tables.m, start, tables.h, log);
    forall held, f | Solvent(tables.m, start, tables.h, c0, held)
      ensures References(tables.mem.counts, f) == References(c0, f) - |NamedAt(tables.m, start, tables.h, f)|
    {
      ReleasedAllNames(tables.m, start, tables.h, c0, held, log, f);
    }
  }

  /** Release each position of the user half once, as `FreeBelow` does, and then
    * the top table. */
  method DropTables(tables: Tables) returns (ghost log: seq<Path>)
    requires !tables.m.present(0) && LevelBlind(tables.m) && tables.Valid()
             && Blockless(tables.m, tables.mem.words, tables.h)
    requires tables.h.lo == 0 && tables.h.hi == 256
    modifies tables.mem, tables`cached
    ensures NoRepeats(log) && forall q :: q in log <==> Position(tables.m, old(tables.mem.words), tables.h, q)
    ensures tables.mem.counts
            == Released(ReleasedAlong(tables.m, old(tables.mem.words), tables.h, old(tables.mem.counts), log),
                        tables.h.root)
    ensures tables.mem.words.Keys == old(tables.mem.words).Keys
            && forall f | f in tables.mem.words :: |tables.mem.words[f]| == |old(tables.mem.words)[f]|
    ensures forall f | f in old(tables.mem.words) && !IsTableFrame(tables.m, old(tables.mem.words), tables.h, f) ::
              f in tables.mem.words && tables.mem.words[f] == old(tables.mem.words)[f]
    ensures forall i: nat | tables.h.hi <= i ::
            Read(tables.mem.words, tables.h.root, i) == Read(old(tables.mem.words), tables.h.root, i)
  {
    hide Tree, Live, Blockless, Position, ReleasedAlong, Released, LevelBlind;
    log := FreeBelow(tables, 0x8000_0000_0000);
    tables.Release(tables.h.root);
  }

  ghost predicate SameTop(words: Words, words': Words, h: Hier) {
    forall i: nat :: Read(words', h.root, i) == Read(words, h.root, i)
  }

  lemma RestKeys(m: Machine, start: Words, words: Words, h: Hier, n: nat)
    requires RestIntact(m, start, words, h, n)
    ensures words.Keys == start.Keys && (forall f | f in start :: |words[f]| == |start[f]|)
    ensures forall f | f in start && !IsTableFrame(m, start, h, f) :: f in words && words[f] == start[f]
  {
  }
}
