/** What taking a page away leaves: the tables the removal emptied go, the rest
  * stay where they are, and the tables that remain are the ones the page map
  * needs.
  */
module Reclaim {
  import opened Machines
  import opened Walk
  import opened Pages
  import opened Hierarchy
  import opened Descent

  /** `words'` is `words` without the tables in `gone`: every table left is where
    * it was, and no frame outside the hierarchy is written. */
  ghost predicate Shrunk(m: Machine, words: Words, words': Words, h: Hier, gone: set<Phys>) {
    && Tree(m, words', h)
    && (forall q | IsTable(m, words', h, q) :: TableAt(m, words', h.root, q) == TableAt(m, words, h.root, q))
    && (forall f :: IsTableFrame(m, words', h, f) <==> IsTableFrame(m, words, h, f) && f !in gone)
    && (forall f | f in gone :: IsTableFrame(m, words, h, f))
    && words'.Keys == words.Keys
    && (forall f | f in words :: |words'[f]| == |words[f]|)
    && (forall f | f in words && !IsTableFrame(m, words, h, f) :: words'[f] == words[f])
    && (Blockless(m, words, h) ==> Blockless(m, words', h))
  }

  lemma ShrunkStep(m: Machine, w0: Words, w1: Words, w2: Words, h: Hier, gone: set<Phys>, more: set<Phys>)
    requires Shrunk(m, w0, w1, h, gone) && Shrunk(m, w1, w2, h, more)
    ensures Shrunk(m, w0, w2, h, gone + more) && forall f | f in more :: f !in gone
  {
    forall q | IsTable(m, w2, h, q)
      ensures TableAt(m, w2, h.root, q) == TableAt(m, w0, h.root, q)
    {
      assert IsTable(m, w1, h, q);
    }
  }

  /** A store at the last level moves no table. */
  lemma ExtendedByNoneIsShrunk(m: Machine, words: Words, words': Words, h: Hier)
    requires Extended(m, words, words', h, {})
    requires forall q | Ours(h, q) :: TableAt(m, words', h.root, q) == TableAt(m, words, h.root, q)
    ensures Shrunk(m, words, words', h, {})
  {
  }

  lemma UnlinkFrames(m: Machine, words: Words, words': Words, h: Hier, s: Path, table: Phys)
    requires Tree(m, words, h) && IsTable(m, words, h, s) && TableAt(m, words, h.root, s) == Some(table)
    requires TableAt(m, words', h.root, s).None? && SameTablesBut(m, words, words', h, s)
    ensures forall f :: IsTableFrame(m, words', h, f) <==> IsTableFrame(m, words, h, f) && f != table
  {
    forall f ensures IsTableFrame(m, words', h, f) <==> IsTableFrame(m, words, h, f) && f != table
    {
      if IsTableFrame(m, words, h, f) && f != table {
        var q :| IsTable(m, words, h, q) && TableAt(m, words, h.root, q) == Some(f);
        assert IsTable(m, words', h, q);
      }
      if IsTableFrame(m, words', h, f) {
        var q :| IsTable(m, words', h, q) && TableAt(m, words', h.root, q) == Some(f);
        assert q != s && IsTable(m, words, h, q);
      }
    }
  }

  lemma UnlinkShrinks(m: Machine, words: Words, h: Hier, p: Path, i: nat, table: Phys)
    requires Unlinkable(m, words, h, p, i) && TableAt(m, words, h.root, Down(p, i)) == Some(table)
    ensures var words' := Put(words, TableAt(m, words, h.root, p).value, i, 0);
            && Shrunk(m, words, words', h, {table})
            && PageMap(m, words', h) == PageMap(m, words, h)
  {
    var s, words' := Down(p, i), Put(words, TableAt(m, words, h.root, p).value, i, 0);
    UnlinkShape(m, words, h, p, i);
    UnlinkFrames(m, words, words', h, s, table);
    PagesKept(m, words, words', h, s);
    PutWritesOnly(m, words, h, p, i, 0);
    if Blockless(m, words, h) {
      StoredHere(m, words, h, p, i, 0);
      BlocklessKept(m, words, words', h, s);
    }
  }

  /** Taking out an empty table that is not the top one. */
  lemma UnlinkTurn(m: Machine, words: Words, h: Hier, page: nat, depth: nat, parent: Phys, table: Phys)
    requires !m.present(0) && depth < 3
    requires Arrived(m, words, h, page, depth, parent) && Arrived(m, words, h, page, depth + 1, table)
    requires Blank(m, words, table)
    ensures parent in words && PageIndex(page, 3 - depth) < |words[parent]|
    ensures var words' := Put(words, parent, PageIndex(page, 3 - depth), 0);
            && Shrunk(m, words, words', h, {table})
            && PageMap(m, words', h) == PageMap(m, words, h)
            && Arrived(m, words', h, page, depth, parent)
            && (PopulatedBut(m, words, h, PathTo(page, depth + 1)) ==> PopulatedBut(m, words', h, PathTo(page, depth)))
  {
    ArrivedIsTable(m, words, h, page, depth, parent);
    var p, i := PathTo(page, depth), PageIndex(page, 3 - depth);
    var s, words' := Down(p, i), Put(words, parent, i, 0);
    assert s == PathTo(page, depth + 1);
    UnlinkShrinks(m, words, h, p, i, table);
    UnlinkShape(m, words, h, p, i);
    if PopulatedBut(m, words, h, s) {
      PopulatedOneHigher(m, words, words', h, s);
    }
    hide Shrunk, PageMap;
  }

  lemma PopulatedOneHigher(m: Machine, words: Words, words': Words, h: Hier, s: Path)
    requires s.Down? && PopulatedBut(m, words, h, s) && TableAt(m, words', h.root, s).None?
    requires SameTablesBut(m, words, words', h, s) && PresentBut(m, words, words', h, s)
    ensures PopulatedBut(m, words', h, s.up)
  {
    forall p | IsTable(m, words', h, p) && p != Top && p != s.up
      ensures HasEntry(m, words', TableAt(m, words', h.root, p).value)
    {
      assert p != s && IsTable(m, words, h, p);
      EntryKept(m, words, words', h, s, p);
    }
  }

  /** Clearing a page can leave its last-level table empty, and no other. */
  lemma PopulatedAfterClear(m: Machine, words: Words, words': Words, h: Hier, page: nat)
    requires Populated(m, words, h) && ReadsBut(m, words, words', h, PathTo(page, 4), 0)
    ensures PopulatedBut(m, words', h, PathTo(page, 3))
  {
    ReadsButIsPresentBut(m, words, words', h, PathTo(page, 4), 0);
    forall p | IsTable(m, words', h, p) && p != Top && p != PathTo(page, 3)
      ensures HasEntry(m, words', TableAt(m, words', h.root, p).value)
    {
      assert IsTable(m, words, h, p);
      EntryKept(m, words, words', h, PathTo(page, 4), p);
    }
  }

  /** If the one table that may be empty is not, none is. */
  lemma PopulatedAfterAll(m: Machine, words: Words, h: Hier, s: Path)
    requires PopulatedBut(m, words, h, s)
    requires s != Top && IsTable(m, words, h, s) ==> !Blank(m, words, TableAt(m, words, h.root, s).value)
    ensures Populated(m, words, h)
  {
    forall p | IsTable(m, words, h, p) && p != Top
      ensures HasEntry(m, words, TableAt(m, words, h.root, p).value)
    {
    }
  }

  // ---- the loop ------------------------------------------------------------

  function References(counts: map<Phys, nat>, f: Phys): nat {
    if f in counts then counts[f] else 0
  }

  /** Every table below the top is held once. */
  ghost predicate SoleTables(m: Machine, words: Words, h: Hier, counts: map<Phys, nat>) {
    forall p | IsTable(m, words, h, p) && p != Top :: References(counts, TableAt(m, words, h.root, p).value) == 1
  }

  ghost predicate NoRepeats<T>(s: seq<T>) {
    forall i, j | 0 <= i < j < |s| :: s[i] != s[j]
  }

  lemma NoRepeatsJoin<T>(a: seq<T>, b: seq<T>)
    ensures NoRepeats(a + b) <==> NoRepeats(a) && NoRepeats(b) && forall f | f in a :: f !in b
  {
    if NoRepeats(a + b) {
      forall i, j | 0 <= i < j < |b| ensures b[i] != b[j] {
        assert (a + b)[|a| + i] != (a + b)[|a| + j];
      }
      forall i, j | 0 <= i < j < |a| ensures a[i] != a[j] {
        assert (a + b)[i] != (a + b)[j];
      }
      forall i, j | 0 <= i < |a| && 0 <= j < |b| ensures a[i] != b[j] {
        assert (a + b)[i] != (a + b)[|a| + j];
      }
    }
    if NoRepeats(a) && NoRepeats(b) && forall f | f in a :: f !in b {
      forall i, j | 0 <= i < j < |a + b| ensures (a + b)[i] != (a + b)[j] {
        if i < |a| <= j {
          assert a[i] in a && b[j - |a|] in b;
        }
      }
    }
  }

  /** Frames held once, made tables, leave every table held once. */
  lemma SoleAfterGrowth(m: Machine, words: Words, words': Words, h: Hier, used: set<Phys>, counts: map<Phys, nat>)
    requires SoleTables(m, words, h, counts) && Extended(m, words, words', h, used)
    requires forall f | f in used :: References(counts, f) == 1
    ensures SoleTables(m, words', h, counts)
  {
    forall p | IsTable(m, words', h, p) && p != Top
      ensures References(counts, TableAt(m, words', h.root, p).value) == 1 {
      var f := TableAt(m, words', h.root, p).value;
      assert IsTableFrame(m, words', h, f);
      if f !in used {
        var q :| IsTable(m, words, h, q) && TableAt(m, words, h.root, q) == Some(f);
        assert IsTable(m, words', h, q) && q == p;
      }
    }
  }

  lemma SoleAfterShrink(m: Machine, words: Words, words': Words, h: Hier, gone: set<Phys>, counts: map<Phys, nat>)
    requires SoleTables(m, words, h, counts) && Shrunk(m, words, words', h, gone)
    ensures SoleTables(m, words', h, counts)
  {
    forall p | IsTable(m, words', h, p) && p != Top
      ensures References(counts, TableAt(m, words', h.root, p).value) == 1 {
      assert IsTable(m, words, h, p);
    }
  }

  /** The tables in `frames`, and no others, have been taken out from below, and
    * the next to look at is at `depth`. */
  ghost predicate Reclaimed(m: Machine, words: Words, words': Words, h: Hier, page: nat, from: nat, depth: nat,
                            frames: seq<Phys>)
    requires depth <= from <= 3
  {
    && Shrunk(m, words, words', h, set f | f in frames) && NoRepeats(frames)
    && PageMap(m, words', h) == PageMap(m, words, h)
    && (TableAt(m, words, h.root, PathTo(page, from)).Some? ==>
          && TableAt(m, words', h.root, PathTo(page, depth)).Some?
          && (PopulatedBut(m, words, h, PathTo(page, from)) ==> PopulatedBut(m, words', h, PathTo(page, depth))))
  }

  /** The table at `depth` stays: it is not there, holds something, or is held
    * more than once. */
  ghost predicate Kept(m: Machine, words: Words, h: Hier, page: nat, depth: nat, counts: map<Phys, nat>)
    requires depth <= 3
  {
    match TableAt(m, words, h.root, PathTo(page, depth))
    case None => true
    case Some(table) => !Blank(m, words, table) || References(counts, table) != 1
  }

  /** Taking out `frames` maps the same pages and leaves no table empty, where
    * none but the last-level one was. */
  ghost predicate Settled(m: Machine, words: Words, words': Words, h: Hier, page: nat, frames: seq<Phys>,
                          counts: map<Phys, nat>)
  {
    && Shrunk(m, words, words', h, set f | f in frames) && NoRepeats(frames)
    && PageMap(m, words', h) == PageMap(m, words, h)
    && (TableAt(m, words, h.root, PathTo(page, 3)).Some? && PopulatedBut(m, words, h, PathTo(page, 3))
        && SoleTables(m, words, h, counts) ==>
          Populated(m, words', h))
  }

  lemma SettledAt(m: Machine, words: Words, words': Words, h: Hier, page: nat, depth: nat, frames: seq<Phys>,
                  counts: map<Phys, nat>)
    requires 1 <= depth <= 3 && Ours(h, PathTo(page, 4)) && Reclaimed(m, words, words', h, page, 3, depth, frames)
    requires Kept(m, words', h, page, depth, counts)
    ensures Settled(m, words, words', h, page, frames, counts)
  {
    if TableAt(m, words, h.root, PathTo(page, 3)).Some? && PopulatedBut(m, words, h, PathTo(page, 3))
      && SoleTables(m, words, h, counts) {
      var s := PathTo(page, depth);
      OursAlong(h, page, depth);
      assert IsTable(m, words', h, s) && TableAt(m, words', h.root, s) == TableAt(m, words, h.root, s);
      assert IsTable(m, words, h, s) && s != Top;
      PopulatedAfterAll(m, words', h, s);
    }
  }

  lemma SettledAtTop(m: Machine, words: Words, words': Words, h: Hier, page: nat, frames: seq<Phys>,
                     counts: map<Phys, nat>)
    requires Reclaimed(m, words, words', h, page, 3, 0, frames)
    ensures Settled(m, words, words', h, page, frames, counts)
  {
  }

  lemma ReclaimStarts(m: Machine, words: Words, h: Hier, page: nat)
    requires Tree(m, words, h)
    ensures Reclaimed(m, words, words, h, page, 3, 3, [])
  {
  }

  /** The empty table at `depth + 1` was taken out. */
  ghost predicate TookOne(m: Machine, words: Words, words': Words, h: Hier, page: nat, depth: nat, table: Phys)
    requires depth < 3
  {
    && Shrunk(m, words, words', h, {table})
    && PageMap(m, words', h) == PageMap(m, words, h)
    && TableAt(m, words', h.root, PathTo(page, depth)).Some?
    && (PopulatedBut(m, words, h, PathTo(page, depth + 1)) ==> PopulatedBut(m, words', h, PathTo(page, depth)))
  }

  lemma ReclaimTurn(m: Machine, words: Words, h: Hier, page: nat, depth: nat, parent: Phys, table: Phys)
    requires !m.present(0) && depth < 3
    requires Arrived(m, words, h, page, depth, parent) && Arrived(m, words, h, page, depth + 1, table)
    requires Blank(m, words, table)
    ensures parent in words && PageIndex(page, 3 - depth) < |words[parent]|
    ensures var words' := Put(words, parent, PageIndex(page, 3 - depth), 0);
            && TookOne(m, words, words', h, page, depth, table) && Tree(m, words', h)
            && Live(m, words', h) <= Live(m, words, h)
  {
    UnlinkTurn(m, words, h, page, depth, parent, table);
    ShrunkReads(m, words, Put(words, parent, PageIndex(page, 3 - depth), 0), h, {table});
    hide Shrunk, PageMap, PopulatedBut, Live, PathTo;
  }

  lemma ReclaimedOn(m: Machine, start: Words, words: Words, words': Words, h: Hier, page: nat, depth: nat, table: Phys,
                    frames: seq<Phys>)
    requires depth < 3 && Reclaimed(m, start, words, h, page, 3, depth + 1, frames)
    requires TookOne(m, words, words', h, page, depth, table)
    ensures Reclaimed(m, start, words', h, page, 3, depth, frames + [table])
  {
    hide Shrunk, PageMap, PopulatedBut, TableAt, PathTo;
    ShrunkStep(m, start, words, words', h, set f | f in frames, {table});
    assert (set f | f in frames + [table]) == (set f | f in frames) + {table};
  }

  lemma ShrunkReads(m: Machine, words: Words, words': Words, h: Hier, gone: set<Phys>)
    requires Shrunk(m, words, words', h, gone)
    requires PageMap(m, words', h) == PageMap(m, words, h)
    ensures Live(m, words', h) <= Live(m, words, h)
  {
    forall e | Readable(m, words', h, e) ensures Readable(m, words, h, e) {
      if e.Walks? {
        assert IsTable(m, words', h, e.path);
      }
    }
  }

  // ---- taking a page away --------------------------------------------------

  /** The page was taken away with the tables in `frames`, which it left empty;
    * or nothing was mapped there, and nothing was written. */
  ghost predicate Unmapped(m: Machine, words: Words, words': Words, h: Hier, page: nat, frames: seq<Phys>,
                           counts: map<Phys, nat>, r: Option<Phys>)
  {
    match r
    case None => words' == words && frames == [] && page !in PageMap(m, words, h)
    case Some(held) =>
      && page in PageMap(m, words, h) && held == m.addr(PageMap(m, words, h)[page])
      && PageMap(m, words', h) == PageMap(m, words, h) - {page}
      && Shrunk(m, words, words', h, set f | f in frames)
      && |frames| <= 3 && NoRepeats(frames)
      && (Populated(m, words, h) && SoleTables(m, words, h, counts) ==> Populated(m, words', h))
  }

  lemma LeafCleared(m: Machine, words: Words, h: Hier, page: nat, table: Phys, counts: map<Phys, nat>)
    requires Arrived(m, words, h, page, 3, table) && !m.present(0)
    ensures table in words && PageIndex(page, 0) < |words[table]|
    ensures var words' := Put(words, table, PageIndex(page, 0), 0);
            && Shrunk(m, words, words', h, {})
            && PageMap(m, words', h) == PageMap(m, words, h) - {page}
            && Live(m, words', h) <= Live(m, words, h)
            && TableAt(m, words', h.root, PathTo(page, 3)).Some?
            && (Populated(m, words, h) ==> PopulatedBut(m, words', h, PathTo(page, 3)))
            && (SoleTables(m, words, h, counts) ==> SoleTables(m, words', h, counts))
  {
    LeafStored(m, words, h, page, table, 0);
    var words' := Put(words, table, PageIndex(page, 0), 0);
    OursAlong(h, page, 3);
    ExtendedByNoneIsShrunk(m, words, words', h);
    assert Live(m, words', h) <= Live(m, words, h) by {
      forall e | Readable(m, words', h, e) ensures Readable(m, words, h, e) {
      }
    }
    if Populated(m, words, h) {
      PopulatedAfterClear(m, words, words', h, page);
    }
  }

  lemma UnmapDone(m: Machine, w0: Words, w1: Words, w2: Words, h: Hier, page: nat, frames: seq<Phys>,
                  counts: map<Phys, nat>)
    requires page in PageMap(m, w0, h) && |frames| <= 3
    requires Shrunk(m, w0, w1, h, {}) && PageMap(m, w1, h) == PageMap(m, w0, h) - {page}
    requires TableAt(m, w1, h.root, PathTo(page, 3)).Some?
    requires Populated(m, w0, h) ==> PopulatedBut(m, w1, h, PathTo(page, 3))
    requires SoleTables(m, w0, h, counts) ==> SoleTables(m, w1, h, counts)
    requires Settled(m, w1, w2, h, page, frames, counts)
    ensures Unmapped(m, w0, w2, h, page, frames, counts, Some(m.addr(PageMap(m, w0, h)[page])))
  {
    var gone := set f | f in frames;
    ShrunkStep(m, w0, w1, w2, h, {}, gone);
    assert {} + gone == gone;
    hide Shrunk, PageMap, PopulatedBut, Populated, SoleTables, TableAt, PathTo;
  }

  /** Taking a page away straight after putting it in undoes it: the page map is
    * what it was, every table is what it was and where it was, and the tables
    * handed back are exactly the ones the publish consumed. The stock's frames come
    * with one reference each, and every table is held once to begin with. */
  lemma UnmapUndoesPublish(m: Machine, w0: Words, w1: Words, w2: Words, h: Hier, page: nat, bits: Word,
                           was: seq<Phys>, now: seq<Phys>, frames: seq<Phys>, counts: map<Phys, nat>)
    requires !m.present(0) && Tree(m, w0, h) && Blockless(m, w0, h) && Populated(m, w0, h)
    requires SoleTables(m, w0, h, counts)
    requires |now| <= |was| && (forall f | f in was :: !IsTableFrame(m, w0, h, f) && References(counts, f) == 1)
    requires Published(m, w0, w1, h, page, bits, was, now, Done(()))
    requires Unmapped(m, w1, w2, h, page, frames, counts, Some(m.addr(bits)))
    ensures PageMap(m, w2, h) == PageMap(m, w0, h)
    ensures forall p | Ours(h, p) :: TableAt(m, w2, h.root, p) == TableAt(m, w0, h.root, p)
    ensures (set f | f in frames) == Taken(was, now)
  {
    assert PageMap(m, w2, h) == PageMap(m, w0, h);
    SoleAfterGrowth(m, w0, w1, h, Taken(was, now), counts);
    UndoneTables(m, w0, w1, w2, h, Taken(was, now), set f | f in frames);
  }

  lemma UndoneTables(m: Machine, w0: Words, w1: Words, w2: Words, h: Hier, used: set<Phys>, gone: set<Phys>)
    requires !m.present(0) && Tree(m, w0, h) && Blockless(m, w0, h) && Populated(m, w0, h) && Populated(m, w2, h)
    requires Extended(m, w0, w1, h, used) && Shrunk(m, w1, w2, h, gone) && PageMap(m, w2, h) == PageMap(m, w0, h)
    requires forall f | f in used :: !IsTableFrame(m, w0, h, f)
    ensures forall p | Ours(h, p) :: TableAt(m, w2, h.root, p) == TableAt(m, w0, h.root, p)
    ensures gone == used
  {
    forall p | Ours(h, p) ensures TableAt(m, w2, h.root, p) == TableAt(m, w0, h.root, p) {
      TablesUndone(m, w0, w1, w2, h, p);
    }
    SameTablesSameFrames(m, w0, w2, h);
    SameFramesBack(m, w0, w1, w2, h, gone, used);
  }

  lemma SameFramesBack(m: Machine, w0: Words, w1: Words, w2: Words, h: Hier, gone: set<Phys>, used: set<Phys>)
    requires Extended(m, w0, w1, h, used) && Shrunk(m, w1, w2, h, gone)
    requires forall f :: IsTableFrame(m, w2, h, f) <==> IsTableFrame(m, w0, h, f)
    requires forall f | f in used :: !IsTableFrame(m, w0, h, f)
    ensures gone == used
  {
    forall f ensures f in gone <==> f in used {
      assert IsTableFrame(m, w2, h, f) <==> IsTableFrame(m, w1, h, f) && f !in gone;
      assert IsTableFrame(m, w1, h, f) <==> IsTableFrame(m, w0, h, f) || f in used;
    }
  }

  lemma TablesUndone(m: Machine, w0: Words, w1: Words, w2: Words, h: Hier, p: Path)
    requires !m.present(0) && Tree(m, w0, h) && Tree(m, w2, h) && Blockless(m, w0, h) && Blockless(m, w2, h)
    requires Populated(m, w0, h) && Populated(m, w2, h) && PageMap(m, w2, h) == PageMap(m, w0, h) && Ours(h, p)
    requires forall q | IsTable(m, w0, h, q) :: TableAt(m, w1, h.root, q) == TableAt(m, w0, h.root, q)
    requires forall q | IsTable(m, w2, h, q) :: TableAt(m, w2, h.root, q) == TableAt(m, w1, h.root, q)
    ensures TableAt(m, w2, h.root, p) == TableAt(m, w0, h.root, p)
  {
    if p != Top && Depth(p) <= 3 {
      TablesFollowPages(m, w0, h, p);
      TablesFollowPages(m, w2, h, p);
      assert IsTable(m, w0, h, p) <==> IsTable(m, w2, h, p);
    }
  }

  // ---- the tables are the ones the page map needs --------------------------

  /** A page is mapped below the position. */
  ghost predicate PageBelow(m: Machine, words: Words, h: Hier, p: Path) {
    exists page :: page in PageMap(m, words, h) && Under(PathTo(page, 4), p)
  }

  /** In a hierarchy with no empty table and no block, the tables are exactly the
    * positions on the way to a mapped page: their set is a function of the page
    * map, whatever order the pages came and went in. */
  lemma TablesFollowPages(m: Machine, words: Words, h: Hier, p: Path)
    requires Tree(m, words, h) && Blockless(m, words, h) && Populated(m, words, h) && !m.present(0)
    requires Ours(h, p) && p != Top && Depth(p) <= 3
    ensures IsTable(m, words, h, p) <==> PageBelow(m, words, h, p)
  {
    if IsTable(m, words, h, p) {
      SomePageBelow(m, words, h, p);
    }
    if PageBelow(m, words, h, p) {
      var page :| page in PageMap(m, words, h) && Under(PathTo(page, 4), p);
      WayToPage(m, words, h, page, p);
    }
  }

  /** Every position on the way to a mapped page is a table. */
  lemma WayToPage(m: Machine, words: Words, h: Hier, page: nat, p: Path)
    requires page in PageMap(m, words, h) && Under(PathTo(page, 4), p) && !m.present(0)
    requires Depth(p) <= 3
    ensures TableAt(m, words, h.root, p).Some?
  {
    PathToDepth(page, 4);
    assert Under(PathTo(page, 3), p);
    if TableAt(m, words, h.root, p).None? {
      NoTableBelow(m, words, h.root, PathTo(page, 3), p);
    }
  }

  /** Follow present descriptors down from a table to a page. */
  lemma {:induction false} SomePageBelow(m: Machine, words: Words, h: Hier, p: Path)
    requires Tree(m, words, h) && Blockless(m, words, h) && Populated(m, words, h) && !m.present(0)
    requires IsTable(m, words, h, p) && p != Top
    ensures PageBelow(m, words, h, p)
    decreases 4 - Depth(p)
  {
    TableDepth(m, words, h.root, p);
    assert HasEntry(m, words, TableAt(m, words, h.root, p).value);
    var i :| m.present(Read(words, TableAt(m, words, h.root, p).value, i));
    var q := Down(p, i);
    assert Ours(h, q) && m.present(Desc(m, words, h.root, q));
    if Depth(p) == 3 {
      var page := PathsArePages(m, words, h, q);
      assert Under(PathTo(page, 4), p);
    } else {
      assert IsTable(m, words, h, q);
      SomePageBelow(m, words, h, q);
      var page :| page in PageMap(m, words, h) && Under(PathTo(page, 4), q);
      UnderChain(PathTo(page, 4), q, p);
    }
  }

  lemma {:induction false} TableDepth(m: Machine, words: Words, root: Phys, p: Path)
    requires TableAt(m, words, root, p).Some?
    ensures Depth(p) <= 3
  {
  }

  lemma {:induction false} UnderChain(a: Path, b: Path, c: Path)
    requires Under(a, b) && Under(b, c)
    ensures Under(a, c)
  {
    if a != b {
      UnderChain(a.up, b, c);
    }
  }

  /** A position with a present last-level descriptor is the position of a page. */
  lemma PathsArePages(m: Machine, words: Words, h: Hier, q: Path) returns (page: nat)
    requires Tree(m, words, h) && Ours(h, q) && Depth(q) == 4 && m.present(Desc(m, words, h.root, q)) && !m.present(0)
    ensures page in PageMap(m, words, h) && PathTo(page, 4) == q
  {
    IndexInTable(m, words, h, q);
    IndexInTable(m, words, h, q.up);
    IndexInTable(m, words, h, q.up.up);
    IndexInTable(m, words, h, q.up.up.up);
    page := PageAt(q.up.up.up.index, q.up.up.index, q.up.index, q.index);
  }

  lemma IndexInTable(m: Machine, words: Words, h: Hier, q: Path)
    requires Tree(m, words, h) && Ours(h, q) && q.Down? && !m.present(0)
    requires m.present(Desc(m, words, h.root, q))
    ensures q.index < ENTRIES && Ours(h, q.up)
    ensures q.up.Down? ==> m.present(Desc(m, words, h.root, q.up))
  {
    assert IsTable(m, words, h, q.up);
  }

  lemma PageAt(a: nat, b: nat, c: nat, d: nat) returns (page: nat)
    requires a < ENTRIES && b < ENTRIES && c < ENTRIES && d < ENTRIES
    ensures page < PAGES && PathTo(page, 4) == Down(Down(Down(Down(Top, a), b), c), d)
  {
    page := ((a * 512 + b) * 512 + c) * 512 + d;
    assert page / 512 == (a * 512 + b) * 512 + c && page % 512 == d;
    assert page / 0x4_0000 == a * 512 + b && page / 0x800_0000 == a;
    assert PathTo(page, 1) == Down(Top, a);
    assert PathTo(page, 2) == Down(Down(Top, a), b);
    assert PathTo(page, 3) == Down(Down(Down(Top, a), b), c);
  }
}
