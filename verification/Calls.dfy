/** The methods, called on one space of a world: in any consistent world each finds
  * what it asks for, and its contract is the move of `Moves` that it stands for. The
  * ghost world is followed beside the call.
  */
module Calls {
  import opened Machines
  import opened Walk
  import opened Pages
  import opened Hierarchy
  import opened Descent
  import opened Reclaim
  import opened Tables
  import opened Accounts
  import opened Ownership
  import opened Guard
  import opened Share
  import opened Spaces
  import opened Cow
  import opened Teardown
  import opened Worlds
  import opened Moves
  import opened Refinement
  import opened Runs

  /** The guard is space `a` of the world, with `out` handed out and not retired. */
  ghost predicate Stands(guard: MmGuard, w: World, a: nat, out: seq<Phys>)
    reads guard, guard.tables, guard.tables.mem, guard.tlb
  {
    && Lawful(guard.tables.m) && Consistent(guard.tables.m, w) && |guard.retired| <= RETIRED_MAX
    && Same(guard.tables.h, guard.tables.mem.words, guard.tables.mem.counts, guard.tables.cached, guard.tlb.pending,
            guard.retired + out, w, a)
  }

  ghost predicate Same(h: Hier, words: Words, counts: map<Phys, nat>, cached: iset<Entry>, pending: Pending,
                       waiting: seq<Phys>, w: World, a: nat)
  {
    && a in w.spaces && a in w.holds && w.spaces[a] == h && w.words == words && w.counts == counts
    && w.holds[a] == Hold(cached, pending, waiting)
  }

  /** The world with one space's part of it as it is now. */
  ghost function Now(w: World, a: nat, words: Words, counts: map<Phys, nat>, cached: iset<Entry>, pending: Pending,
                     waiting: seq<Phys>, held: multiset<Phys>): World
  {
    World(words, counts, w.spaces, w.holds[a := Hold(cached, pending, waiting)], held)
  }

  /** A space of a consistent world is what a guard asks of its tables. */
  lemma SpaceIsValid(m: Machine, w: World, a: nat)
    requires Lawful(m) && Consistent(m, w) && a in w.spaces
    ensures !m.present(0) && Tree(m, w.words, w.spaces[a]) && Blockless(m, w.words, w.spaces[a])
    ensures a in w.holds && Live(m, w.words, w.spaces[a]) <= w.holds[a].cached
    ensures Covered(m, w.words, w.spaces[a], w.holds[a].cached, w.holds[a].pending)
    ensures Waiting(m, w.words, w.spaces[a], w.holds[a].waiting)
            && Fenced(m, w.words, w.spaces[a], w.holds[a].cached, w.holds[a].waiting)
    ensures Apart(m, w.words, w.spaces[a])
  {
    hide Inv, Abstract, WaitingIsHeld, Stored, LawfulTable, LawfulSharing, LawfulOwning, Live, Covered, Waiting, Fenced,
         Apart, Tree, Blockless, IsTableFrame;
    NamedOnce(m, w, a);
  }

  lemma StandsIsValid(guard: MmGuard, w: World, a: nat, out: seq<Phys>)
    requires Stands(guard, w, a, out)
    ensures guard.Valid(out) && !guard.tables.m.present(0)
  {
    hide Lawful, Consistent, Live, Covered, Waiting, Fenced, Apart, Tree, Blockless;
    SpaceIsValid(guard.tables.m, w, a);
  }

  /** A guard that is valid keeps its space's hold. */
  lemma ValidIsGuarded(guard: MmGuard, out: seq<Phys>)
    requires guard.Valid(out)
    ensures Guarded(guard.tables.m, guard.tables.mem.words, guard.tables.h,
                    Hold(guard.tables.cached, guard.tlb.pending, guard.retired + out))
  {
    hide Live, Covered, Waiting, Fenced, Apart, Tree;
  }

  // ---- frames --------------------------------------------------------------

  method AllocCall(mem: Memory, ghost m: Machine, ghost w: World) returns (r: Option<Phys>, ghost w': World)
    requires Lawful(m) && Consistent(m, w) && w.words == mem.words && w.counts == mem.counts
    modifies mem
    ensures Consistent(m, w') && w'.words == mem.words && w'.counts == mem.counts
    ensures if r.Some? then Does(m, w, Allocates(r.value), w') else w' == w
  {
    hide Lawful, Consistent, Zeroed, Held, References;
    r := AllocZeroed(mem);
    w' := if r.Some? then w.(words := mem.words, counts := mem.counts, held := w.held + multiset{r.value}) else w;
    if r.Some? {
      MoveKeeps(m, w, Allocates(r.value), w');
    }
  }

  method GiveBackCall(prepared: Prepared, ghost m: Machine, ghost w: World) returns (ghost w': World)
    requires Lawful(m) && Consistent(m, w) && w.words == prepared.mem.words && w.counts == prepared.mem.counts
    requires |prepared.tables.frames| <= DEPTH && NoRepeats(prepared.Holds())
             && forall f | f in prepared.Holds() :: Loose(w, f)
    modifies prepared`page, prepared.tables, prepared.mem`counts
    ensures Consistent(m, w') && w'.words == prepared.mem.words && w'.counts == prepared.mem.counts
            && prepared.Holds() == []
    ensures Does(m, w, Gives(old(prepared.Holds())), w')
  {
    hide Lawful, Consistent, References, NoRepeats, Waiters;
    ghost var holds := prepared.Holds();
    prepared.GiveBack();
    w' := w.(counts := prepared.mem.counts, held := w.held - multiset(holds));
    WaitsHeld(m, w);
    GivesAll(w, w', holds);
    MoveKeeps(m, w, Gives(holds), w');
  }

  lemma GivesAll(w: World, w': World, holds: seq<Phys>)
    requires NoRepeats(holds) && (forall f | f in holds :: Loose(w, f)) && WaitingIsHeld(w.holds, w.held)
    requires w' == w.(counts := w'.counts, held := w.held - multiset(holds))
             && Ownership.Moved(w.counts, w'.counts, holds, -1)
    ensures DoesGive(w, w', holds)
  {
    forall f ensures multiset(holds)[f] + |Waiters(w.holds, f)| <= w.held[f] {
      OnceOnly(holds, f);
    }
    forall f ensures References(w'.counts, f) == Spaces.Less(References(w.counts, f), multiset(holds)[f]) {
      OnceOnly(holds, f);
    }
  }

  lemma WaitsHeld(m: Machine, w: World)
    requires Consistent(m, w)
    ensures WaitingIsHeld(w.holds, w.held)
  {
    hide Inv, Abstract, Forest, Guarded, Stored;
  }

  // ---- a guard's changes ---------------------------------------------------

  /** Loose frames that are blank are a stock, and the page is none of them. */
  lemma LooseIsStock(m: Machine, w: World, a: nat, frames: seq<Phys>)
    requires Consistent(m, w) && a in w.spaces && NoRepeats(frames) && forall f | f in frames ::
             Loose(w, f) && Blank(m, w.words, f)
    ensures StockReady(m, w.words, w.spaces[a], frames)
  {
    hide Inv, Abstract, Guarded, WaitingIsHeld, Stored, Blank, IsTableFrame, Loose, Tree, Blockless, Namers, SomeTable,
         Unnamed;
    forall i | 0 <= i < |frames| ensures Spare(m, w.words, w.spaces[a], frames[i]) {
      assert frames[i] in frames;
      LooseIsUnnamed(m, w, frames[i]);
      LooseFrame(m, w, a, frames[i]);
    }
  }

  /** The page and the tables a publish brings, all of them loose. */
  ghost predicate Brings(m: Machine, w: World, page: Option<Phys>, frames: seq<Phys>) {
    && page.Some? && Loose(w, page.value) && |frames| <= DEPTH && NoRepeats([page.value] + frames)
    && forall f | f in frames :: Loose(w, f) && Blank(m, w.words, f)
  }

  lemma BringsReady(m: Machine, w: World, a: nat, page: Phys, frames: seq<Phys>)
    requires Consistent(m, w) && a in w.spaces && a in w.holds && Brings(m, w, Some(page), frames)
    ensures StockReady(m, w.words, w.spaces[a], frames)
            && Waiting(m, w.words, w.spaces[a], w.holds[a].waiting + ([page] + frames))
    ensures m.frame(page) && (forall f | f in frames :: f != page)
            && forall f | f in [page] + frames :: References(w.counts, f) >= 1
  {
    hide Consistent, Blank, StockReady, Waiting, Namers, SomeTable, Abstract;
    NoRepeatsJoin([page], frames);
    LooseIsUnnamed(m, w, page);
    LooseIsStock(m, w, a, frames);
    ReadyToPublish(m, w, a, page, frames);
  }

  method PublishCall(guard: MmGuard, virt: nat, prepared: Prepared, flags: Word, ghost w: World, ghost a: nat)
    returns (r: Outcome<Phys>, ghost w': World, ghost move: Move)
    requires Stands(guard, w, a, []) && Aims(w, a, PageOf(virt)) && guard.tables.m.asked(flags)
    requires prepared.mem == guard.tables.mem && Brings(guard.tables.m, w, prepared.page, prepared.tables.frames)
    modifies guard.tables`cached, guard.tables.mem`words, guard.tlb, prepared`page, prepared.tables
    ensures Stands(guard, w', a, []) && Does(guard.tables.m, w, move, w')
    ensures move.Publishes? && move.space == a && move.page == PageOf(virt)
            && r == Answer(move.r, old(prepared.page).value)
  {
    hide Lawful, Consistent, Waiting, Covered, Fenced, Apart, Live, Tree, Blank, NoRepeats, Ours, PathTo, StockReady,
         Published, Solvent, Balanced, References, Loose, Guarded, Taken, LawfulTable, LawfulLeaf, LawfulSharing,
         LawfulOwning, Blockless, IsTableFrame, PageMap;
    ghost var m, page, was, counts := guard.tables.m, prepared.page.value, prepared.tables.frames,
      guard.tables.mem.counts;
    StandsIsValid(guard, w, a, []);
    BringsReady(m, w, a, page, was);
    IsLawful(m);
    assert guard.retired + [] == guard.retired;
    assert prepared.Holds() == [page] + was;
    ghost var found;
    r, found := guard.Publish(virt, prepared, flags);
    ghost var now := prepared.tables.frames;
    move := Publishes(a, PageOf(virt), page, flags, was, now, found);
    w' := Now(w, a, guard.tables.mem.words, counts, guard.tables.cached, guard.tlb.pending, guard.retired + [],
              w.held - multiset(Taken(was, now)) - if found.Done? then multiset{page} else multiset{});
    ValidIsGuarded(guard, []);
    MoveKeeps(m, w, move, w');
  }

  lemma IsLawful(m: Machine)
    requires Lawful(m)
    ensures LawfulTable(m) && LawfulLeaf(m) && LawfulSharing(m) && LawfulOwning(m) && !m.present(0)
  {
    hide LawfulTable, LawfulSharing, LawfulOwning;
  }

  /** What a replace hands back is handed out, for the caller to retire. */
  method ReplaceCall(guard: MmGuard, virt: nat, frame: Phys, flags: Word, ghost w: World, ghost a: nat)
    returns (stale: Option<Phys>, ghost w': World)
    requires Stands(guard, w, a, []) && Aims(w, a, PageOf(virt)) && guard.tables.m.asked(flags) && Loose(w, frame)
    modifies guard.tables`cached, guard.tables.mem`words, guard.tlb
    ensures Stands(guard, w', a, if stale.Some? then [stale.value] else [])
    ensures Does(guard.tables.m, w, Replaces(a, PageOf(virt), frame, flags, stale), w')
  {
    hide Lawful, Consistent, Waiting, Covered, Fenced, Apart, Live, Tree, Ours, PathTo, Rewritten, Solvent, Balanced,
         References, Loose, Guarded, Unnamed, LawfulTable, LawfulLeaf, LawfulSharing, LawfulOwning, Blockless, PageMap,
         Does;
    ghost var m := guard.tables.m;
    StandsIsValid(guard, w, a, []);
    IsLawful(m);
    ReadyToReplace(m, w, a, frame);
    assert guard.retired + [] == guard.retired;
    stale := guard.Replace(virt, frame, flags);
    ghost var out := if stale.Some? then [stale.value] else [];
    w' := Now(w, a, guard.tables.mem.words, guard.tables.mem.counts, guard.tables.cached, guard.tlb.pending,
              guard.retired + out, if stale.Some? then w.held - multiset{frame} + multiset{stale.value} else w.held);
    ValidIsGuarded(guard, out);
    ReplaceDoes(m, w, w', a, PageOf(virt), frame, flags, stale);
    MoveKeeps(m, w, Replaces(a, PageOf(virt), frame, flags, stale), w');
  }

  lemma ReadyToReplace(m: Machine, w: World, a: nat, f: Phys)
    requires Consistent(m, w) && a in w.spaces && Loose(w, f)
    ensures m.frame(f) && Unnamed(m, w.words, w.spaces[a], f) && f !in w.holds[a].waiting
  {
    hide Consistent, Loose, Unnamed, Namers, SomeTable, Abstract, IsTableFrame;
    LooseIsUnnamed(m, w, f);
    LooseFrame(m, w, a, f);
  }

  lemma ReplaceDoes(m: Machine, w: World, w': World, a: nat, page: nat, f: Phys, flags: Word, stale: Option<Phys>)
    requires Aims(w, a, page) && a in w.holds && m.asked(flags) && Loose(w, f)
    requires Rewritten(m, w.words, w'.words, w.spaces[a], page, LeafWord(m, f, flags), stale)
    requires var more := if stale.Some? then [stale.value] else [];
             && a in w'.holds && Guarded(m, w'.words, w.spaces[a], w'.holds[a])
             && w'.holds[a].waiting == w.holds[a].waiting + more
             && w' == World(w'.words, w.counts, w.spaces, w.holds[a := w'.holds[a]],
                            if stale.Some? then w.held - multiset{f} + multiset{stale.value} else w.held)
    ensures Does(m, w, Replaces(a, page, f, flags, stale), w')
  {
    hide Loose, Rewritten, Guarded, Ours, PathTo;
  }

  method ProtectCall(guard: MmGuard, virt: nat, flags: Word, ghost w: World, ghost a: nat)
    returns (r: Option<Phys>, ghost w': World)
    requires Stands(guard, w, a, []) && Aims(w, a, PageOf(virt)) && guard.tables.m.asked(flags)
    requires var s := Abstract(guard.tables.m, w);
             Slot(a, PageOf(virt)) in s.slots ==> Harmless(guard.tables.m, s, Slot(a, PageOf(virt)), flags)
    modifies guard.tables`cached, guard.tables.mem`words, guard.tlb
    ensures Stands(guard, w', a, []) && Does(guard.tables.m, w, Protects(a, PageOf(virt), flags, r), w')
  {
    hide Lawful, Consistent, Waiting, Covered, Fenced, Apart, Live, Tree, Ours, PathTo, Rewritten, Solvent, Balanced,
         References, Guarded, LawfulTable, LawfulLeaf, LawfulSharing, LawfulOwning, Blockless, PageMap, Abstract,
         Harmless, NamesFrames;
    ghost var m := guard.tables.m;
    StandsIsValid(guard, w, a, []);
    IsLawful(m);
    SpaceNamesFrames(m, w, a);
    assert guard.retired + [] == guard.retired;
    r := guard.Protect(virt, flags);
    w' := Now(w, a, guard.tables.mem.words, guard.tables.mem.counts, guard.tables.cached, guard.tlb.pending,
              guard.retired + [], w.held);
    ValidIsGuarded(guard, []);
    MoveKeeps(m, w, Protects(a, PageOf(virt), flags, r), w');
  }

  lemma SpaceNamesFrames(m: Machine, w: World, a: nat)
    requires LawfulLeaf(m) && Consistent(m, w) && a in w.spaces
    ensures NamesFrames(m, w.words, w.spaces[a])
  {
    hide Consistent, PageMap;
    SpaceIsBacked(m, w, a);
  }

  method FlushCall(guard: MmGuard, ghost w: World, ghost a: nat) returns (ghost w': World, ghost flushed: nat)
    requires Stands(guard, w, a, [])
    modifies guard, guard.tables`cached, guard.tables.mem`counts, guard.tlb
    ensures Stands(guard, w', a, []) && Does(guard.tables.m, w, Flushes(a, flushed), w')
    ensures flushed == old(|guard.retired|) && guard.retired == []
  {
    hide Lawful, Consistent, Waiting, Covered, Fenced, Apart, Live, Tree, Solvent, Balanced, References, Guarded,
         ReleasedAll;
    ghost var m, retired := guard.tables.m, guard.retired;
    StandsIsValid(guard, w, a, []);
    assert retired + [] == retired && retired[..|retired|] == retired && retired[|retired|..] == [];
    flushed := |retired|;
    guard.Flush([]);
    w' := Now(w, a, guard.tables.mem.words, guard.tables.mem.counts, guard.tables.cached, Clean, [],
              w.held - multiset(retired));
    MoveKeeps(m, w, Flushes(a, flushed), w');
  }

  /** An unmap and the retiring of what came of it, as `unmap_range` does them. */
  method UnmapCall(guard: MmGuard, virt: nat, ghost w: World, ghost a: nat)
    returns (ghost w1: World, ghost w': World, ghost stale: seq<Phys>, ghost flushed: nat)
    requires Stands(guard, w, a, []) && Aims(w, a, PageOf(virt))
    modifies guard, guard.tables`cached, guard.tables.mem, guard.tlb
    ensures Stands(guard, w', a, []) && Does(guard.tables.m, w, Unmaps(a, PageOf(virt), stale), w1)
    ensures w' == w1 || Does(guard.tables.m, w1, Flushes(a, flushed), w')
  {
    hide Lawful, Consistent, Waiting, Covered, Fenced, Apart, Live, Tree, Ours, PathTo, Solvent, Balanced, References,
         Guarded, TookAway, ReleasedAll;
    ghost var m := guard.tables.m;
    StandsIsValid(guard, w, a, []);
    assert guard.retired + [] == guard.retired;
    var out := guard.Unmap(virt);
    stale := out;
    w1 := Now(w, a, guard.tables.mem.words, guard.tables.mem.counts, guard.tables.cached, guard.tlb.pending,
              guard.retired + stale, w.held + multiset(stale));
    ValidIsGuarded(guard, stale);
    MoveKeeps(m, w, Unmaps(a, PageOf(virt), stale), w1);
    ghost var retired := guard.retired;
    flushed := |retired|;
    guard.Retire(out);
    assert guard.retired + [] == guard.retired;
    if |retired| + |stale| <= RETIRED_MAX {
      w' := w1;
    } else {
      assert (retired + stale)[..flushed] == retired && (retired + stale)[flushed..] == stale;
      w' := Now(w1, a, guard.tables.mem.words, guard.tables.mem.counts, guard.tables.cached, Clean, stale,
                w1.held - multiset(retired));
      MoveKeeps(m, w1, Flushes(a, flushed), w');
    }
  }

  method BreakCall(guard: MmGuard, virt: nat, spare: Option<Phys>, ghost w: World, ghost a: nat)
    returns (ok: bool, ghost w': World, ghost flushed: nat)
    requires Stands(guard, w, a, []) && Aims(w, a, PageOf(virt)) && (spare.Some? ==> Loose(w, spare.value))
    modifies guard, guard.tables`cached, guard.tables.mem, guard.tlb
    ensures Stands(guard, w', a, []) && Does(guard.tables.m, w, Breaks(a, PageOf(virt), spare, ok, flushed), w')
  {
    hide Lawful, Consistent, Waiting, Covered, Fenced, Apart, Live, Tree, Ours, PathTo, Solvent, Balanced, References,
         Loose, Guarded, Broke, Backed, Brought, ReleasedAll, PageMap, Conserved, CaseOf, Settles, DoesBreak, BreakCase,
         Copied, HeldAfterBreak, LawfulLeaf, LawfulOwning, LawfulTable, LawfulSharing, Blockless, IsTableFrame;
    ghost var m, page, retired := guard.tables.m, PageOf(virt), guard.retired;
    StandsIsValid(guard, w, a, []);
    IsLawful(m);
    assert guard.retired + [] == guard.retired;
    SpaceIsBacked(m, w, a);
    if spare.Some? {
      ReadyToBreak(m, w, a, spare.value);
    }
    ok := Cow.BreakCow(guard, virt, spare);
    ghost var c, copied := BreakCase(m, w, a, page, spare), Copied(m, w, a, page, spare);
    flushed := if c.CopyTo? && |retired| + 1 > RETIRED_MAX then |retired| else 0;
    w' := Now(w, a, guard.tables.mem.words, guard.tables.mem.counts, guard.tables.cached, guard.tlb.pending,
              guard.retired + [],
              HeldAfterBreak(w, c, copied) - multiset(retired[..flushed]));
    ValidIsGuarded(guard, []);
    BreakSettles(m, w, a, page, spare, guard.tables.mem.counts, retired, guard.retired, flushed);
    BreakDoes(m, w, w', a, page, spare, ok, flushed);
    MoveKeeps(m, w, Breaks(a, page, spare, ok, flushed), w');
  }

  lemma BreakDoes(m: Machine, w: World, w': World, a: nat, page: nat, spare: Option<Phys>, ok: bool, n: nat)
    requires Aims(w, a, page) && a in w.holds && a in w'.holds && (spare.Some? ==> Loose(w, spare.value))
             && n <= |w.holds[a].waiting|
    requires Broke(m, w.words, w'.words, w.spaces[a], page, w.counts, spare, ok)
    requires Guarded(m, w'.words, w.spaces[a], w'.holds[a])
    requires var gone, copied := w.holds[a].waiting[..n], Copied(m, w, a, page, spare);
             && w'.counts == ReleasedAll(w.counts, gone) && w'.spaces == w.spaces
                && w'.holds == w.holds[a := w'.holds[a]]
             && w'.held == HeldAfterBreak(w, BreakCase(m, w, a, page, spare), copied) - multiset(gone)
             && w'.holds[a].waiting == w.holds[a].waiting[n..] + copied
    ensures DoesBreak(m, w, w', a, page, spare, ok, n)
  {
    hide Guarded, Broke, Loose, Copied, HeldAfterBreak, BreakCase, ReleasedAll, Ours, PathTo;
  }

  lemma SpaceIsBacked(m: Machine, w: World, a: nat)
    requires Consistent(m, w) && a in w.spaces
    ensures Backed(m, w.words, w.spaces[a])
  {
    hide Consistent, PageMap, WellMade, SomeTable, References, Abstract;
    forall page | page in PageMap(m, w.words, w.spaces[a])
      ensures var bits := PageMap(m, w.words, w.spaces[a])[page];
              WellMade(m, bits) && m.addr(bits) in w.words && |w.words[m.addr(bits)]| == ENTRIES
    {
      PageFrame(m, w, a, page);
    }
  }

  lemma BreakSettles(m: Machine, w: World, a: nat, page: nat, spare: Option<Phys>, counts: map<Phys, nat>,
                     retired: seq<Phys>, retired': seq<Phys>, n: nat)
    requires a in w.spaces
             && Settles(m, PageMap(m, w.words, w.spaces[a]), page, spare, w.counts, counts, retired, retired')
    requires n == if BreakCase(m, w, a, page, spare).CopyTo? && |retired| + 1 > RETIRED_MAX then |retired| else 0
    ensures counts == ReleasedAll(w.counts, retired[..n]) && retired' == retired[n..] + Copied(m, w, a, page, spare)
  {
    hide PageMap, CaseOf;
    CaseMeans(m, w, a, page, spare);
    assert retired[..0] == [] && retired[0..] == retired && retired[..|retired|] == retired
           && retired[|retired|..] == [];
  }

  method CloseCall(tables: Tables, ghost w: World, ghost a: nat) returns (ghost w': World, ghost log: seq<Path>)
    requires Lawful(tables.m) && LevelBlind(tables.m) && Consistent(tables.m, w) && a in w.spaces && a in w.holds
             && w.holds[a].waiting == []
    requires Same(tables.h, tables.mem.words, tables.mem.counts, tables.cached, w.holds[a].pending, [], w, a)
    requires tables.h.lo == 0 && tables.h.hi == 256
    modifies tables.mem, tables`cached
    ensures Consistent(tables.m, w') && w'.words == tables.mem.words && w'.counts == tables.mem.counts
    ensures Does(tables.m, w, Closes(a, log), w')
  {
    hide Lawful, Consistent, LevelBlind, Live, Tree, Blockless, Position, ReleasedAlong, Released, IsTableFrame,
         Covered, Waiting, Fenced, Apart;
    SpaceIsValid(tables.m, w, a);
    log := DropTables(tables);
    w' := World(tables.mem.words, tables.mem.counts, w.spaces - {a}, w.holds - {a}, w.held);
    MoveKeeps(tables.m, w, Closes(a, log), w');
  }

  // ---- sharing -------------------------------------------------------------

  method ShareCall(child: Tables, parent: Tables, virt: nat, stock: TableStock, tlb: Tlb, ghost w: World, ghost p: nat,
                   ghost c: nat)
    returns (r: Outcome<()>, ghost w': World, ghost move: Move)
    requires Lawful(parent.m) && Consistent(parent.m, w) && p != c && Aims(w, p, PageOf(virt))
             && Aims(w, c, PageOf(virt))
    requires child != parent && child.mem == parent.mem && child.m == parent.m && c in w.holds && p in w.holds
    requires Same(parent.h, parent.mem.words, parent.mem.counts, parent.cached, tlb.pending, w.holds[p].waiting, w, p)
    requires Same(child.h, child.mem.words, child.mem.counts, child.cached, w.holds[c].pending, [], w, c)
             && child.Exact()
    requires NoRepeats(stock.frames) && forall f | f in stock.frames :: Loose(w, f) && Blank(parent.m, w.words, f)
    modifies parent.mem, parent`cached, child`cached, stock, tlb
    ensures Consistent(parent.m, w') && Does(parent.m, w, move, w') && move.Shares? && move.r == r
    ensures w'.words == parent.mem.words && w'.counts == parent.mem.counts && child.Exact()
  {
    hide Lawful, Consistent, Waiting, Covered, Fenced, Apart, Live, Tree, Blockless, Blank, Ours, PathTo, StockReady,
         References, Loose, SharedBy, SharedPage, PageMap, CountsAfter, Taken, IsTableFrame, Related, WellMadeMap,
         Referenced, LawfulTable, LawfulLeaf, LawfulSharing, LawfulOwning;
    ghost var m, page, was, pages, waiting := parent.m, PageOf(virt), stock.frames,
      PageMap(parent.m, w.words, parent.h), w.holds[p].waiting;
    ghost var pending := w.holds[c].pending;
    IsLawful(m);
    SpaceIsValid(m, w, p);
    SpaceIsValid(m, w, c);
    ReadyToShare(m, w, p, c);
    LooseIsStock(m, w, c, stock.frames);
    forall f | f in stock.frames ensures !IsTableFrame(m, w.words, parent.h, f) {
      LooseFrame(m, w, p, f);
    }
    ghost var mid;
    r, mid := ShareFrom(child, parent, virt, stock, tlb);
    move := Shares(p, c, page, was, stock.frames, r, mid);
    if page in pages {
      SharedShrinks(m, w.words, mid, parent.mem.words, parent.h, child.h, page, was, stock.frames, r);
      w' := World(parent.mem.words, parent.mem.counts, w.spaces,
                  w.holds[p := Hold(parent.cached, tlb.pending, waiting)][c := Hold(child.cached, pending, [])],
                    w.held - multiset(Taken(was, stock.frames)));
    } else {
      NothingToShare(m, w.words, parent.mem.words, parent.h, child.h, page, was, stock.frames, r, w.counts);
      w' := w;
    }
    MoveKeeps(m, w, move, w');
  }

  lemma SharedShrinks(m: Machine, words: Words, mid: Words, words': Words, hp: Hier, hc: Hier, page: nat,
                      was: seq<Phys>, now: seq<Phys>, r: Outcome<()>)
    requires SharedBy(m, words, mid, words', hp, hc, page, was, now, r)
    ensures now <= was
  {
  }

  lemma NothingToShare(m: Machine, words: Words, words': Words, hp: Hier, hc: Hier, page: nat, was: seq<Phys>,
                       now: seq<Phys>, r: Outcome<()>, counts: map<Phys, nat>)
    requires SharedPage(m, words, words', hp, hc, page, was, now, r) && page !in PageMap(m, words, hp)
    ensures words' == words && CountsAfter(m, PageMap(m, words, hp), page, counts, r.Done?) == counts
  {
    hide PageMap, StockReady, Related, IsTableFrame, Blockless;
  }
}
