/** Every move of a world is a step or two of the run machine in `Spaces`, on counts,
  * tables, pages, references held and contents alike.
  */
module Refinement {
  import opened Machines
  import opened Walk
  import opened Pages
  import opened Hierarchy
  import opened Descent
  import opened Reclaim
  import opened Tables
  import opened Accounts
  import opened Guard
  import opened Share
  import opened Spaces
  import opened Cow
  import opened Teardown
  import opened Worlds
  import opened Moves

  // ---- one space's change --------------------------------------------------

  /** What has to be shown of a move: the world keeps its shape and the move is the
    * step. */
  ghost predicate Refines(m: Machine, w: World, w': World, step: Step) {
    Shape(m, w') && Enabled(m, Abstract(m, w), step) && Alike(Apply(m, Abstract(m, w), step), Abstract(m, w'))
  }

  lemma AlikeSame(s: System, s': System)
    requires s == s'
    ensures Alike(s, s')
  {
  }

  lemma NoChange(m: Machine, words: Words, spaces: map<nat, Hier>, a: nat)
    requires Forest(m, words, spaces) && a in spaces
    ensures OneChanged(m, words, words, spaces, a, {}, {})
  {
    hide Tree, Blockless, PageMap, Live, Populated, IsTableFrame;
  }

  /** Everything of the run machine's view but the counts and what is held, after one
    * space's change. */
  lemma AbstractAfter(m: Machine, w: World, w': World, a: nat, taken: set<Phys>, gone: set<Phys>)
    requires Shape(m, w) && w'.spaces == w.spaces && OneChanged(m, w.words, w'.words, w.spaces, a, taken, gone)
             && taken !! gone
    ensures Abstract(m, w').tables == Abstract(m, w).tables + taken - gone && gone <= Abstract(m, w).tables
    ensures Abstract(m, w').data == Abstract(m, w).data - taken + RowsOf(w'.words, gone)
    ensures Abstract(m, w').slots == SlotsOf(Maps(m, w.words, w.spaces)[a := PageMap(m, w'.words, w.spaces[a])])
    ensures RowsOf(w'.words, gone).Keys == gone
  {
    hide Forest, Guarded, WaitingIsHeld, OneChanged, TablesIn, Maps, DataIn, SlotsOf, PageMap;
    OneChangedSeen(m, w.words, w'.words, w.spaces, a, taken, gone);
    GoneAreTables(m, w.words, w'.words, w.spaces, a, taken, gone);
    SameKeys(m, w.words, w'.words, w.spaces, a, taken, gone);
  }

  lemma SameKeys(m: Machine, words: Words, words': Words, spaces: map<nat, Hier>, a: nat, taken: set<Phys>,
                 gone: set<Phys>)
    requires OneChanged(m, words, words', spaces, a, taken, gone)
    ensures words'.Keys == words.Keys
  {
  }

  /** The slots after a page is put in, is taken away, or is left alone. */
  lemma SlotsAfter(m: Machine, words: Words, words': Words, spaces: map<nat, Hier>, a: nat, page: nat, bits: Word)
    requires a in spaces
    ensures var was, now := PageMap(m, words, spaces[a]), PageMap(m, words', spaces[a]);
            var slots, slots' := SlotsOf(Maps(m, words, spaces)), SlotsOf(Maps(m, words, spaces)[a := now]);
            && (now == was[page := bits] ==> slots' == slots[Slot(a, page) := bits])
            && (now == was - {page} ==> slots' == slots - {Slot(a, page)})
            && (now == was ==> slots' == slots)
  {
    hide PageMap, SlotsOf;
    var was, now, maps := PageMap(m, words, spaces[a]), PageMap(m, words', spaces[a]), Maps(m, words, spaces);
    assert maps[a] == was;
    if now == was[page := bits] {
      SlotsPut(maps, a, page, bits, now);
    }
    if now == was - {page} {
      SlotsCut(maps, a, page, now);
    }
    if now == was {
      assert maps[a := now] == maps;
    }
  }

  lemma StoredKeys(words: Words, words': Words, counts: map<Phys, nat>)
    requires Stored(words, counts) && words'.Keys == words.Keys
    ensures Stored(words', counts)
  {
  }

  // ---- publishing ----------------------------------------------------------

  lemma PublishWaits(m: Machine, w: World, w': World, a: nat, page: nat, f: Phys, flags: Word, was: seq<Phys>,
                     now: seq<Phys>, r: Outcome<()>)
    requires Consistent(m, w) && DoesPublish(m, w, w', a, page, f, flags, was, now, r)
    ensures WaitingIsHeld(w'.holds, w'.held)
  {
    hide Abstract, Inv, Forest, Guarded, Published, StockReady, Waiters, WaitingIsHeld;
    assert w.holds[a].waiting + [] == w.holds[a].waiting;
    WaitSame(w.holds, a, w'.holds[a]);
    SameWaiters(w.holds, w'.holds, w.held);
    var gone := multiset(Taken(was, now)) + if r.Done? then multiset{f} else multiset{};
    forall g | g in gone ensures Waiters(w'.holds, g) == {} {
      assert g in Taken(was, now) ==> g in was;
    }
    HoldLess(w'.holds, w.held, gone);
    assert w.held - gone == w'.held;
  }

  lemma SameWaiters(holds: map<nat, Hold>, holds': map<nat, Hold>, held: multiset<Phys>)
    requires WaitingIsHeld(holds, held) && forall f :: Waiters(holds', f) == Waiters(holds, f)
    ensures WaitingIsHeld(holds', held)
  {
    hide Waiters;
  }

  lemma StockLoose(m: Machine, w: World, frames: set<Phys>)
    requires Consistent(m, w) && forall t | t in frames :: Loose(w, t)
    ensures NoTables(m, w.words, w.spaces, frames) && forall t | t in frames :: Exclusive(Abstract(m, w), t)
  {
    hide Consistent, Abstract, Loose, SomeTable;
    forall t | t in frames ensures t in w.words && !SomeTable(m, w.words, w.spaces, t) && Exclusive(Abstract(m, w), t) {
      LooseIsUnnamed(m, w, t);
    }
  }

  lemma PublishedPages(m: Machine, words: Words, words': Words, h: Hier, page: nat, bits: Word, was: seq<Phys>,
                       now: seq<Phys>, r: Outcome<()>)
    requires |now| <= |was| && Published(m, words, words', h, page, bits, was, now, r)
    ensures Extended(m, words, words', h, Taken(was, now))
    ensures PageMap(m, words', h) == (if r.Done? then PageMap(m, words, h)[page := bits] else PageMap(m, words, h))
    ensures r.Done? ==> page !in PageMap(m, words, h)
  {
  }

  lemma PublishShape(m: Machine, w: World, w': World, a: nat, page: nat, f: Phys, flags: Word, was: seq<Phys>,
                     now: seq<Phys>, r: Outcome<()>)
    requires Consistent(m, w) && DoesPublish(m, w, w', a, page, f, flags, was, now, r)
    ensures Shape(m, w') && OneChanged(m, w.words, w'.words, w.spaces, a, Taken(was, now), {})
  {
    hide Forest, Guarded, WaitingIsHeld, OneChanged, Abstract, PageMap, Inv, Published, StockReady, Taken, Extended,
         Loose, Ours, PathTo, Stored;
    TakenAreStock(was, now);
    StockLoose(m, w, Taken(was, now));
    PublishedPages(m, w.words, w'.words, w.spaces[a], page, LeafWord(m, f, flags), was, now, r);
    GrownForest(m, w.words, w'.words, w.spaces, a, Taken(was, now));
    PublishWaits(m, w, w', a, page, f, flags, was, now, r);
    ShapeAfter(m, w, w', a, Taken(was, now), {});
  }

  /** What a publish comes to in the run machine's terms. */
  lemma PublishSeen(m: Machine, w: World, w': World, a: nat, page: nat, bits: Word, was: seq<Phys>, now: seq<Phys>,
                    r: Outcome<()>)
    requires Shape(m, w) && a in w.spaces && w'.spaces == w.spaces && |now| <= |was|
    requires Published(m, w.words, w'.words, w.spaces[a], page, bits, was, now, r)
    requires OneChanged(m, w.words, w'.words, w.spaces, a, Taken(was, now), {})
    ensures var s, s' := Abstract(m, w), Abstract(m, w');
            && s'.tables == s.tables + Taken(was, now) && s'.data == s.data - Taken(was, now)
            && s'.slots == (if r.Done? then s.slots[Slot(a, page) := bits] else s.slots)
            && (r.Done? ==> Slot(a, page) !in s.slots)
  {
    hide Forest, Guarded, WaitingIsHeld, OneChanged, TablesIn, Maps, DataIn, SlotsOf, PageMap, Published, Taken,
         Extended, Stored;
    PublishedPages(m, w.words, w'.words, w.spaces[a], page, bits, was, now, r);
    AbstractAfter(m, w, w', a, Taken(was, now), {});
    SlotsAfter(m, w.words, w'.words, w.spaces, a, page, bits);
    SlotIsPage(m, w.words, w.spaces, a, page);
    NoRows(w'.words, Abstract(m, w).data - Taken(was, now));
  }

  lemma PublishIsStep(m: Machine, w: World, w': World, a: nat, page: nat, f: Phys, flags: Word, was: seq<Phys>,
                      now: seq<Phys>, r: Outcome<()>)
    requires LawfulLeaf(m) && Consistent(m, w) && DoesPublish(m, w, w', a, page, f, flags, was, now, r)
    ensures Refines(m, w, w', Publish(Slot(a, page), f, flags, Taken(was, now), r.Done?))
  {
    hide LawfulLeaf, Shape, OneChanged, Abstract, Inv, Published, StockReady, Taken, Loose, Ours, PathTo, References;
    TakenAreStock(was, now);
    StockLoose(m, w, Taken(was, now));
    LooseIsUnnamed(m, w, f);
    LeafNames(m, f, flags);
    PublishShape(m, w, w', a, page, f, flags, was, now, r);
    PublishSeen(m, w, w', a, page, LeafWord(m, f, flags), was, now, r);
    AbstractRest(m, w');
    AbstractRest(m, w);
    AlikeSame(Apply(m, Abstract(m, w), Publish(Slot(a, page), f, flags, Taken(was, now), r.Done?)), Abstract(m, w'));
  }

  lemma TakenAreStock(was: seq<Phys>, now: seq<Phys>)
    requires now <= was
    ensures forall t | t in Taken(was, now) :: t in was
  {
  }

  lemma NoRows(words: Words, data: map<Phys, Bytes>)
    ensures data + RowsOf(words, {}) == data
  {
  }

  // ---- rewriting -----------------------------------------------------------

  lemma RewrittenPages(m: Machine, words: Words, words': Words, h: Hier, page: nat, bits: Word, was: Phys)
    requires Rewritten(m, words, words', h, page, bits, Some(was))
    ensures Extended(m, words, words', h, {}) && page in PageMap(m, words, h)
            && was == m.addr(PageMap(m, words, h)[page])
    ensures PageMap(m, words', h) == PageMap(m, words, h)[page := bits]
  {
  }

  /** A page's descriptor is written over, and nothing else of any space changes. */
  lemma RewriteSeen(m: Machine, w: World, w': World, a: nat, page: nat, bits: Word, was: Phys)
    requires Shape(m, w) && a in w.spaces && w'.spaces == w.spaces
             && Rewritten(m, w.words, w'.words, w.spaces[a], page, bits, Some(was))
    ensures OneChanged(m, w.words, w'.words, w.spaces, a, {}, {})
    ensures Lookup(Abstract(m, w).slots, Slot(a, page)).Some? && m.addr(Abstract(m, w).slots[Slot(a, page)]) == was
    ensures Abstract(m, w').slots == Abstract(m, w).slots[Slot(a, page) := bits]
    ensures Abstract(m, w').tables == Abstract(m, w).tables && Abstract(m, w').data == Abstract(m, w).data
  {
    hide Forest, Guarded, WaitingIsHeld, OneChanged, TablesIn, Maps, DataIn, SlotsOf, PageMap, Rewritten, Extended,
         Stored;
    RewrittenPages(m, w.words, w'.words, w.spaces[a], page, bits, was);
    GrownForest(m, w.words, w'.words, w.spaces, a, {});
    AbstractAfter(m, w, w', a, {}, {});
    SlotsAfter(m, w.words, w'.words, w.spaces, a, page, bits);
    SlotIsPage(m, w.words, w.spaces, a, page);
    NoRows(w'.words, Abstract(m, w).data - {});
  }

  /** One frame in another's place in what is held. */
  lemma SwapWaits(w: World, w': World, a: nat, f: Phys, more: seq<Phys>)
    requires WaitingIsHeld(w.holds, w.held) && Loose(w, f) && a in w.holds && a in w'.holds
    requires w'.holds == w.holds[a := w'.holds[a]] && w'.holds[a].waiting == w.holds[a].waiting + more
    requires w'.held == w.held - multiset{f} + multiset(more)
    ensures WaitingIsHeld(w'.holds, w'.held)
  {
    hide WaitingIsHeld, Waiters;
    HoldLess(w.holds, w.held, multiset{f});
    WaitMore(w.holds, w.held - multiset{f}, a, w'.holds[a], more);
  }

  /** Nothing was there, and no hold but this one's cache can differ. */
  lemma NothingDone(m: Machine, w: World, w': World, a: nat, counts: map<Phys, nat>, held: multiset<Phys>)
    requires Shape(m, w) && Held1(m, w, w', a, [], counts, held) && w'.words == w.words && counts == w.counts
             && held == w.held
    ensures Shape(m, w') && Abstract(m, w') == Abstract(m, w)
  {
    hide Forest, Guarded, WaitingIsHeld, OneChanged, TablesIn, Maps, DataIn, SlotsOf;
    NoChange(m, w.words, w.spaces, a);
    assert w.holds[a].waiting + [] == w.holds[a].waiting;
    WaitSame(w.holds, a, w'.holds[a]);
    SameWaiters(w.holds, w'.holds, w.held);
    ShapeAfter(m, w, w', a, {}, {});
  }

  lemma ReplaceShape(m: Machine, w: World, w': World, a: nat, page: nat, f: Phys, flags: Word, was: Phys)
    requires Consistent(m, w) && DoesReplace(m, w, w', a, page, f, flags, Some(was))
    ensures Shape(m, w')
  {
    hide Forest, Guarded, WaitingIsHeld, OneChanged, Inv, Rewritten, Loose, Ours, PathTo, Stored, Abstract;
    RewriteSeen(m, w, w', a, page, LeafWord(m, f, flags), was);
    assert multiset([was]) == multiset{was};
    SwapWaits(w, w', a, f, [was]);
    ShapeAfter(m, w, w', a, {}, {});
  }

  lemma ReplaceIsStep(m: Machine, w: World, w': World, a: nat, page: nat, f: Phys, flags: Word, stale: Option<Phys>)
    requires LawfulLeaf(m) && Consistent(m, w) && DoesReplace(m, w, w', a, page, f, flags, stale)
    ensures Refines(m, w, w', Replace(Slot(a, page), f, flags))
  {
    hide LawfulLeaf, Shape, OneChanged, Abstract, PageMap, Inv, Rewritten, Loose, Ours, PathTo, References;
    LooseIsUnnamed(m, w, f);
    LeafNames(m, f, flags);
    if stale.Some? {
      ReplaceShape(m, w, w', a, page, f, flags, stale.value);
      RewriteSeen(m, w, w', a, page, LeafWord(m, f, flags), stale.value);
    } else {
      NotThere1(m, w.words, w'.words, w.spaces[a], page, LeafWord(m, f, flags));
      NothingDone(m, w, w', a, w.counts, w.held);
      SlotMissing(m, w, a, page);
    }
    AbstractRest(m, w');
    AbstractRest(m, w);
    AlikeSame(Apply(m, Abstract(m, w), Replace(Slot(a, page), f, flags)), Abstract(m, w'));
  }

  lemma AbstractRest(m: Machine, w: World)
    ensures Abstract(m, w).counts == w.counts && Abstract(m, w).held == w.held
  {
  }

  lemma NotThere1(m: Machine, words: Words, words': Words, h: Hier, page: nat, bits: Word)
    requires Rewritten(m, words, words', h, page, bits, None)
    ensures words' == words && page !in PageMap(m, words, h)
  {
  }

  lemma SlotMissing(m: Machine, w: World, a: nat, page: nat)
    requires a in w.spaces && page !in PageMap(m, w.words, w.spaces[a])
    ensures Slot(a, page) !in Abstract(m, w).slots
  {
    hide PageMap, SlotsOf, Maps, TablesIn, DataIn;
    SlotIsPage(m, w.words, w.spaces, a, page);
  }

  lemma ProtectIsStep(m: Machine, w: World, w': World, a: nat, page: nat, flags: Word, at: Option<Phys>)
    requires Consistent(m, w) && DoesProtect(m, w, w', a, page, flags, at)
    ensures Refines(m, w, w', Protect(Slot(a, page), flags))
  {
    hide Forest, Guarded, WaitingIsHeld, OneChanged, TablesIn, Maps, DataIn, SlotsOf, PageMap, Inv, Rewritten, Ours,
         PathTo, Stored, Abstract, Harmless;
    var s := Abstract(m, w);
    if at.Some? {
      RewriteSeen(m, w, w', a, page, LeafWord(m, at.value, flags), at.value);
      assert w.holds[a].waiting + [] == w.holds[a].waiting;
      WaitSame(w.holds, a, w'.holds[a]);
      SameWaiters(w.holds, w'.holds, w.held);
      ShapeAfter(m, w, w', a, {}, {});
    } else {
      NothingDone(m, w, w', a, w.counts, w.held);
      SlotMissing(m, w, a, page);
    }
    AbstractRest(m, w');
    AbstractRest(m, w);
    AlikeSame(Apply(m, s, Protect(Slot(a, page), flags)), Abstract(m, w'));
  }

  // ---- taking away ---------------------------------------------------------

  lemma OnceAsSet(s: seq<Phys>)
    requires NoRepeats(s)
    ensures multiset(s) == multiset(set f | f in s)
  {
    forall f ensures multiset(s)[f] == multiset(set g | g in s)[f] {
      OnceOnly(s, f);
    }
  }

  lemma UnmappedPages(m: Machine, words: Words, words': Words, h: Hier, page: nat, frames: seq<Phys>,
                      counts: map<Phys, nat>, was: Phys)
    requires Unmapped(m, words, words', h, page, frames, counts, Some(was))
    ensures Shrunk(m, words, words', h, set f | f in frames) && NoRepeats(frames)
    ensures page in PageMap(m, words, h) && was == m.addr(PageMap(m, words, h)[page])
            && PageMap(m, words', h) == PageMap(m, words, h) - {page}
  {
  }

  lemma UnmapSeen(m: Machine, w: World, w': World, a: nat, page: nat, stale: seq<Phys>)
    requires Shape(m, w) && DoesUnmap(m, w, w', a, page, stale) && stale != []
    ensures Shape(m, w')
    ensures var s, s', gone := Abstract(m, w), Abstract(m, w'), RowsOf(w'.words, set f | f in stale[1..]);
            && gone.Keys <= s.tables && s'.tables == s.tables - gone.Keys && s'.data == s.data + gone
            && Slot(a, page) in s.slots && m.addr(s.slots[Slot(a, page)]) == stale[0]
               && s'.slots == s.slots - {Slot(a, page)}
            && multiset(stale) == multiset{stale[0]} + multiset(gone.Keys)
  {
    hide Forest, Guarded, WaitingIsHeld, OneChanged, TablesIn, Maps, DataIn, SlotsOf, PageMap, Unmapped, Shrunk, Stored,
         NoRepeats, Ours, PathTo;
    var frames, was := stale[1..], stale[0];
    var out := set f | f in frames;
    UnmappedPages(m, w.words, w'.words, w.spaces[a], page, frames, w.counts, was);
    ShrunkForest(m, w.words, w'.words, w.spaces, a, out);
    WaitMore(w.holds, w.held, a, w'.holds[a], stale);
    ShapeAfter(m, w, w', a, {}, out);
    AbstractAfter(m, w, w', a, {}, out);
    SlotsAfter(m, w.words, w'.words, w.spaces, a, page, 0);
    SlotIsPage(m, w.words, w.spaces, a, page);
    OnceAsSet(frames);
    assert stale == [was] + frames;
    assert Abstract(m, w).data - {} == Abstract(m, w).data;
  }

  lemma UnmapIsStep(m: Machine, w: World, w': World, a: nat, page: nat, stale: seq<Phys>)
    requires Consistent(m, w) && DoesUnmap(m, w, w', a, page, stale)
    ensures Refines(m, w, w', Unmap(Slot(a, page), TablesOut(w'.words, stale)))
  {
    hide Shape, Abstract, Inv, Unmapped, References, RowsOf, PageMap, Ours, PathTo;
    if stale != [] {
      UnmapSeen(m, w, w', a, page, stale);
    } else {
      NotUnmapped1(m, w.words, w'.words, w.spaces[a], page, w.counts);
      assert w.held + multiset(stale) == w.held;
      NothingDone(m, w, w', a, w.counts, w.held);
      SlotMissing(m, w, a, page);
    }
    AbstractRest(m, w');
    AbstractRest(m, w);
    AlikeSame(Apply(m, Abstract(m, w), Unmap(Slot(a, page), TablesOut(w'.words, stale))), Abstract(m, w'));
  }

  lemma NotUnmapped1(m: Machine, words: Words, words': Words, h: Hier, page: nat, counts: map<Phys, nat>)
    requires Unmapped(m, words, words', h, page, [], counts, None)
    ensures words' == words && page !in PageMap(m, words, h)
  {
  }

  // ---- giving back ---------------------------------------------------------

  /** The first of what waits goes, and no more is held of it. */
  lemma WaitLess(holds: map<nat, Hold>, held: multiset<Phys>, a: nat, hold: Hold, n: nat)
    requires WaitingIsHeld(holds, held) && a in holds && NoRepeats(holds[a].waiting) && n <= |holds[a].waiting|
    requires hold.waiting == holds[a].waiting[n..]
    ensures WaitingIsHeld(holds[a := hold], held - multiset(holds[a].waiting[..n]))
            && multiset(holds[a].waiting[..n]) <= held
  {
    hide Waiters, NoRepeats;
    var gone, all := holds[a].waiting[..n], holds[a].waiting;
    assert all == gone + hold.waiting;
    NoRepeatsJoin(gone, hold.waiting);
    forall f ensures |Waiters(holds[a := hold], f)| <= (held - multiset(gone))[f] && multiset(gone)[f] <= held[f] {
      WaitersPut(holds, a, hold, f);
      OnceOnly(gone, f);
      assert f in all <==> f in gone || f in hold.waiting;
      if f in gone {
        assert f !in hold.waiting && a in Waiters(holds, f);
        OneFewer(Waiters(holds, f), a);
      }
    }
  }

  lemma OneFewer(s: set<nat>, a: nat)
    requires a in s
    ensures |s - {a}| == |s| - 1 && |s| >= 1
  {
  }

  lemma StoredAfter(words: Words, counts: map<Phys, nat>, counts': map<Phys, nat>)
    requires Stored(words, counts) && forall f :: References(counts', f) <= References(counts, f)
    ensures Stored(words, counts')
  {
  }

  lemma {:induction false} ReleasedFewer(counts: map<Phys, nat>, frames: seq<Phys>, f: Phys)
    ensures References(ReleasedAll(counts, frames), f) <= References(counts, f)
  {
    if frames != [] {
      ReleasedFewer(counts, frames[..|frames| - 1], f);
    }
  }

  lemma ReleasedStored(words: Words, counts: map<Phys, nat>, frames: seq<Phys>)
    requires Stored(words, counts)
    ensures Stored(words, ReleasedAll(counts, frames))
  {
    forall f ensures References(ReleasedAll(counts, frames), f) <= References(counts, f) {
      ReleasedFewer(counts, frames, f);
    }
    StoredAfter(words, counts, ReleasedAll(counts, frames));
  }

  lemma FlushedIsGuarded(m: Machine, words: Words, h: Hier, hold: Hold, n: nat)
    requires Guarded(m, words, h, hold) && n <= |hold.waiting|
    ensures Guarded(m, words, h, Hold(Live(m, words, h), Clean, hold.waiting[n..])) && NoRepeats(hold.waiting)
  {
    hide Live;
    assert hold.waiting == hold.waiting[..n] + hold.waiting[n..];
    NoRepeatsJoin(hold.waiting[..n], hold.waiting[n..]);
  }

  lemma FlushIsStep(m: Machine, w: World, w': World, a: nat, n: nat)
    requires Consistent(m, w) && DoesFlush(m, w, w', a, n)
    ensures Refines(m, w, w', Drop(w.holds[a].waiting[..n]))
  {
    hide Forest, Guarded, WaitingIsHeld, OneChanged, Inv, TablesIn, DataIn, SlotsOf, Maps, ReleasedAll, Stored, Live;
    FlushedIsGuarded(m, w.words, w.spaces[a], w.holds[a], n);
    WaitLess(w.holds, w.held, a, w'.holds[a], n);
    ReleasedStored(w.words, w.counts, w.holds[a].waiting[..n]);
    NoChange(m, w.words, w.spaces, a);
    ShapeAfter(m, w, w', a, {}, {});
    AlikeSame(Apply(m, Abstract(m, w), Drop(w.holds[a].waiting[..n])), Abstract(m, w'));
  }

  lemma GiveIsStep(m: Machine, w: World, w': World, frames: seq<Phys>)
    requires Consistent(m, w) && DoesGive(w, w', frames)
    ensures Refines(m, w, w', Drop(frames))
  {
    hide Forest, Guarded, Inv, TablesIn, DataIn, SlotsOf, Maps, ReleasedAll, Waiters, References, Stored;
    forall f ensures |Waiters(w.holds, f)| <= w'.held[f] && multiset(frames)[f] <= w.held[f] {
    }
    StoredAfter(w.words, w.counts, w'.counts);
    forall f ensures References(ReleasedAll(w.counts, frames), f) == References(w'.counts, f) {
      HeldIsCounted(m, w, f);
      ReleasedEach(w.counts, frames, f);
    }
  }

  lemma HeldIsCounted(m: Machine, w: World, f: Phys)
    requires Consistent(m, w)
    ensures w.held[f] <= References(w.counts, f)
  {
    hide Shape, Sole, Isolated, Aligned, Made, TablesIn, DataIn, SlotsOf, Maps, Namers;
    assert Counted(m, Abstract(m, w));
  }

  // ---- filling -------------------------------------------------------------

  lemma FillIsStep(m: Machine, w: World, w': World, f: Phys, row: Bytes)
    requires Consistent(m, w) && DoesFill(w, w', f, row)
    ensures Refines(m, w, w', Fill(f, row))
  {
    hide Shape, Abstract, Inv, References, Loose, SomeTable;
    LooseIsUnnamed(m, w, f);
    ShapeFilled(m, w, f, row);
    AlikeSame(Apply(m, Abstract(m, w), Fill(f, row)), Abstract(m, w'));
  }

  lemma FreeIsNoTable(m: Machine, w: World, f: Phys)
    requires Consistent(m, w) && References(w.counts, f) == 0
    ensures !SomeTable(m, w.words, w.spaces, f)
  {
    hide Abstract, SomeTable, Forest, Guarded, WaitingIsHeld, Isolated, Aligned, Made, Namers;
    AbstractRest(m, w);
    FreeIsUnnamed(m, Abstract(m, w), f);
    TableInAbstract(m, w, f);
  }

  lemma AllocateIsStep(m: Machine, w: World, w': World, f: Phys)
    requires Consistent(m, w) && DoesAllocate(w, w', f)
    ensures Refines(m, w, w', Alloc(f, seq(ENTRIES, _ => 0)))
  {
    hide Forest, Guarded, TablesIn, DataIn, SlotsOf, Maps, Inv, SomeTable, Waiters;
    var zero := seq(ENTRIES, _ => 0);
    var mid := w.(words := w.words[f := zero]);
    FreeIsNoTable(m, w, f);
    ShapeFilled(m, w, f, zero);
    WholeFrame(m, w, f);
    assert Zeroed(w.words, f) == mid.words;
    assert w' == mid.(counts := Held(w.counts, f), held := w.held + multiset{f});
    AlikeSame(Apply(m, Abstract(m, w), Alloc(f, zero)), Abstract(m, w'));
  }

  lemma WholeFrame(m: Machine, w: World, f: Phys)
    requires Shape(m, w) && f in w.words
    ensures m.frame(f)
  {
  }

  /** A store through a kept translation lands on the page it was kept for. */
  lemma StoreIsStep(m: Machine, w: World, w': World, a: nat, page: nat, f: Phys, row: Bytes)
    requires Consistent(m, w) && DoesStore(w, w', a, page, f, row)
    ensures Refines(m, w, w', Write(Slot(a, page), row))
  {
    hide Shape, Abstract, Inv, References, SomeTable;
    StoreLands(m, w, a, page, f);
    ShapeFilled(m, w, f, row);
    AlikeSame(Apply(m, Abstract(m, w), Write(Slot(a, page), row)), Abstract(m, w'));
  }

  lemma StoreLands(m: Machine, w: World, a: nat, page: nat, f: Phys)
    requires Consistent(m, w) && a in w.spaces && w.holds[a].pending == Clean
             && Translates(page, f, true) in w.holds[a].cached
    ensures var s := Abstract(m, w);
            Slot(a, page) in s.slots && m.addr(s.slots[Slot(a, page)]) == f && m.writes(s.slots[Slot(a, page)])
    ensures f in w.words && !SomeTable(m, w.words, w.spaces, f)
  {
    hide Forest, WaitingIsHeld, TablesIn, DataIn, SlotsOf, Maps, Isolated, Aligned, Made, Namers, SomeTable, References;
    assert Readable(m, w.words, w.spaces[a], Translates(page, f, true));
    SlotIsPage(m, w.words, w.spaces, a, page);
    PageIsNoTable(m, Abstract(m, w), Slot(a, page));
    TableInAbstract(m, w, f);
    PageIsStored(m, w, Slot(a, page));
  }

  lemma PageIsStored(m: Machine, w: World, k: Slot)
    requires Consistent(m, w) && k in Abstract(m, w).slots
    ensures References(w.counts, m.addr(Abstract(m, w).slots[k])) >= 1 && m.addr(Abstract(m, w).slots[k]) in w.words
  {
    hide Forest, Guarded, WaitingIsHeld, TablesIn, DataIn, SlotsOf, Maps, Isolated, Aligned, Made, Sole;
    var s := Abstract(m, w);
    assert k in Namers(m, s.slots, m.addr(s.slots[k]));
    assert |Namers(m, s.slots, m.addr(s.slots[k]))| >= 1;
  }

  // ---- breaking a share ----------------------------------------------------

  /** A page of a consistent world is on a frame of memory that is no table. */
  lemma PageFrame(m: Machine, w: World, a: nat, page: nat)
    requires Consistent(m, w) && a in w.spaces && page in PageMap(m, w.words, w.spaces[a])
    ensures var f := m.addr(PageMap(m, w.words, w.spaces[a])[page]);
            && f in w.words && |w.words[f]| == ENTRIES && !SomeTable(m, w.words, w.spaces, f)
            && WellMade(m, PageMap(m, w.words, w.spaces[a])[page]) && References(w.counts, f) >= 1
    ensures Slot(a, page) in Abstract(m, w).slots
            && Abstract(m, w).slots[Slot(a, page)] == PageMap(m, w.words, w.spaces[a])[page]
  {
    hide Guarded, WaitingIsHeld, TablesIn, DataIn, SlotsOf, Maps, Isolated, Aligned, Namers, SomeTable, References,
         PageMap, WellMade;
    SlotIsPage(m, w.words, w.spaces, a, page);
    PageIsNoTable(m, Abstract(m, w), Slot(a, page));
    TableInAbstract(m, w, m.addr(PageMap(m, w.words, w.spaces[a])[page]));
    PageIsStored(m, w, Slot(a, page));
  }

  /** The case the method finds is the run machine's. */
  lemma SameCase(m: Machine, w: World, a: nat, page: nat, spare: Option<Phys>)
    requires a in w.spaces
    ensures CaseOf(m, Lookup(Abstract(m, w).slots, Slot(a, page)), Abstract(m, w).counts, spare)
            == BreakCase(m, w, a, page, spare)
    ensures Lookup(Abstract(m, w).slots, Slot(a, page)) == Lookup(PageMap(m, w.words, w.spaces[a]), page)
  {
    hide PageMap, SlotsOf, Maps, TablesIn, DataIn, CaseOf;
    SlotIsPage(m, w.words, w.spaces, a, page);
  }

  /** The world with the copy made and nothing else done. */
  ghost function Prepared(m: Machine, w: World, a: nat, page: nat, c: CowCase): World
    requires a in w.spaces
  {
    if page in PageMap(m, w.words, w.spaces[a])
      then w.(words := Prefilled(w.words, m.addr(PageMap(m, w.words, w.spaces[a])[page]), c)) else w
  }

  lemma PreparedSeen(m: Machine, w: World, a: nat, page: nat, c: CowCase)
    requires Consistent(m, w) && a in w.spaces && page in PageMap(m, w.words, w.spaces[a])
             && (c.CopyTo? ==> Loose(w, c.to))
    ensures var s, mid := Abstract(m, w), Prepared(m, w, a, page, c);
            && Shape(m, mid) && mid == w.(words := mid.words) && mid.words.Keys == w.words.Keys
            && Slot(a, page) in s.slots
            && Abstract(m, mid) == if c.CopyTo?
               then s.(data := s.data[c.to := Contents(s, m.addr(s.slots[Slot(a, page)]))]) else s
  {
    hide Shape, Abstract, Inv, References, Loose, SomeTable, PageMap, WellMade;
    PageFrame(m, w, a, page);
    if c.CopyTo? {
      var from := m.addr(PageMap(m, w.words, w.spaces[a])[page]);
      LooseIsUnnamed(m, w, c.to);
      ShapeFilled(m, w, c.to, Row(w.words, from));
      DataIsRow(m, w, from);
    }
  }

  lemma DataIsRow(m: Machine, w: World, f: Phys)
    requires f in w.words && !SomeTable(m, w.words, w.spaces, f)
    ensures Contents(Abstract(m, w), f) == w.words[f]
  {
    hide SlotsOf, Maps, SomeTable;
  }

  /** Breaking the share, before anything is flushed. */
  lemma BreakSeen1(m: Machine, w: World, w': World, a: nat, page: nat, spare: Option<Phys>, ok: bool)
    requires LawfulLeaf(m) && LawfulOwning(m) && Consistent(m, w) && Aims(w, a, page) && w'.spaces == w.spaces
             && (spare.Some? ==> Loose(w, spare.value))
    requires Broke(m, w.words, w'.words, w.spaces[a], page, w.counts, spare, ok)
    ensures var s, s', c := Abstract(m, w), Apply(m, Abstract(m, w), Step.BreakCow(Slot(a, page), spare)),
            BreakCase(m, w, a, page, spare);
            && Enabled(m, s, Step.BreakCow(Slot(a, page), spare))
            && Abstract(m, w').slots == s'.slots && Abstract(m, w').tables == s'.tables
               && Abstract(m, w').data == s'.data
            && s'.counts == w.counts && s'.held == HeldAfterBreak(w, c, Copied(m, w, a, page, spare))
  {
    hide LawfulLeaf, LawfulOwning, Shape, Abstract, Inv, References, Loose, SomeTable, PageMap, WellMade, Rewritten,
         Broken, CaseOf, Prefilled, Ours, PathTo;
    var s, c := Abstract(m, w), BreakCase(m, w, a, page, spare);
    SameCase(m, w, a, page, spare);
    AbstractRest(m, w);
    if spare.Some? {
      LooseIsUnnamed(m, w, spare.value);
    }
    CaseMeans(m, w, a, page, spare);
    if c.TakeBack? || c.CopyTo? {
      var mid := Prepared(m, w, a, page, c);
      PreparedSeen(m, w, a, page, c);
      PageFrame(m, w, a, page);
      var bits := PageMap(m, w.words, w.spaces[a])[page];
      RewriteSeen(m, mid, w', a, page, Broken(m, bits, c), m.addr(bits));
      if c.CopyTo? {
        OwnedIsMade(m, bits, c.to);
        assert multiset(Copied(m, w, a, page, spare)) == multiset{m.addr(bits)};
      }
    } else {
      SameWords(m, w, w');
      if Slot(a, page) in s.slots {
        NothingBroken(m, s, Slot(a, page), c);
      }
    }
  }

  lemma SameWords(m: Machine, w: World, w': World)
    requires w'.words == w.words && w'.spaces == w.spaces
    ensures Abstract(m, w').slots == Abstract(m, w).slots && Abstract(m, w').tables == Abstract(m, w).tables
    ensures Abstract(m, w').data == Abstract(m, w).data
  {
  }

  lemma CaseMeans(m: Machine, w: World, a: nat, page: nat, spare: Option<Phys>)
    requires a in w.spaces
    ensures var c := BreakCase(m, w, a, page, spare);
            && (c.TakeBack? || c.CopyTo? ==> page in PageMap(m, w.words, w.spaces[a]))
            && (c.CopyTo? ==>
                spare == Some(c.to) && References(w.counts, m.addr(PageMap(m, w.words, w.spaces[a])[page])) > 1)
  {
    hide PageMap;
  }

  lemma BreakShape(m: Machine, w: World, w': World, a: nat, page: nat, spare: Option<Phys>, ok: bool, n: nat)
    requires Consistent(m, w) && DoesBreak(m, w, w', a, page, spare, ok, n)
    ensures Shape(m, w')
    ensures multiset(w.holds[a].waiting[..n]) <= HeldAfterBreak(w, BreakCase(m, w, a, page, spare),
              Copied(m, w, a, page, spare))
  {
    hide Forest, Guarded, WaitingIsHeld, OneChanged, Inv, Abstract, Rewritten, Stored, PageMap, Ours, PathTo, Broken,
         Prefilled, Loose, ReleasedAll, Copied, HeldAfterBreak, CaseOf;
    var c := BreakCase(m, w, a, page, spare);
    BreakWaits(m, w, w', a, page, spare, ok, n);
    ReleasedStored(w.words, w.counts, w.holds[a].waiting[..n]);
    CaseMeans(m, w, a, page, spare);
    if c.TakeBack? || c.CopyTo? {
      var mid := Prepared(m, w, a, page, c);
      PreparedSeen(m, w, a, page, c);
      var bits := PageMap(m, w.words, w.spaces[a])[page];
      RewriteSeen(m, mid, w', a, page, Broken(m, bits, c), m.addr(bits));
      StoredKeys(w.words, mid.words, w'.counts);
      ShapeAfter(m, mid, w', a, {}, {});
    } else {
      NoChange(m, w.words, w.spaces, a);
      ShapeAfter(m, w, w', a, {}, {});
    }
  }

  /** What waits after a break is held, whatever was flushed to make room for it. */
  lemma BreakWaits(m: Machine, w: World, w': World, a: nat, page: nat, spare: Option<Phys>, ok: bool, n: nat)
    requires Consistent(m, w) && DoesBreak(m, w, w', a, page, spare, ok, n)
    ensures WaitingIsHeld(w'.holds, w'.held)
    ensures multiset(w.holds[a].waiting[..n]) <= HeldAfterBreak(w, BreakCase(m, w, a, page, spare),
              Copied(m, w, a, page, spare))
  {
    hide Forest, WaitingIsHeld, Inv, Abstract, Broke, PageMap, Ours, PathTo, ReleasedAll, CaseOf, Waiters, Guarded,
         Stored, References;
    var c, copied, gone := BreakCase(m, w, a, page, spare), Copied(m, w, a, page, spare), w.holds[a].waiting[..n];
    CaseMeans(m, w, a, page, spare);
    GuardedWaits(m, w.words, w.spaces[a], w.holds[a]);
    LessAndMore(w, w', a, n, copied);
    if c.CopyTo? {
      assert c.to !in copied;
      NotWaiting(w, w', a, c.to, n, copied);
      SpareGoes(w, w', a, c.to, gone, copied);
    } else {
      assert copied == [];
      assert w.held - multiset(gone) + multiset(copied) == w.held - multiset(gone);
    }
  }

  lemma LessAndMore(w: World, w': World, a: nat, n: nat, more: seq<Phys>)
    requires WaitingIsHeld(w.holds, w.held) && a in w.holds && NoRepeats(w.holds[a].waiting)
             && n <= |w.holds[a].waiting|
    requires a in w'.holds && w'.holds == w.holds[a := w'.holds[a]]
             && w'.holds[a].waiting == w.holds[a].waiting[n..] + more
    ensures WaitingIsHeld(w'.holds, w.held - multiset(w.holds[a].waiting[..n]) + multiset(more))
    ensures multiset(w.holds[a].waiting[..n]) <= w.held
  {
    hide WaitingIsHeld, NoRepeats;
    var left := Hold(w'.holds[a].cached, w'.holds[a].pending, w.holds[a].waiting[n..]);
    WaitLess(w.holds, w.held, a, left, n);
    var holds := w.holds[a := left];
    WaitMore(holds, w.held - multiset(w.holds[a].waiting[..n]), a, w'.holds[a], more);
    assert holds[a := w'.holds[a]] == w'.holds;
  }

  lemma NotWaiting(w: World, w': World, a: nat, to: Phys, n: nat, more: seq<Phys>)
    requires Loose(w, to) && a in w.holds && n <= |w.holds[a].waiting| && to !in more
    requires a in w'.holds && w'.holds == w.holds[a := w'.holds[a]]
             && w'.holds[a].waiting == w.holds[a].waiting[n..] + more
    ensures Waiters(w'.holds, to) == {} && forall f | f in w.holds[a].waiting[..n] :: f != to
  {
    assert a !in Waiters(w.holds, to);
    forall f | f in w.holds[a].waiting[..n] ensures f in w.holds[a].waiting {
    }
    WaitersPut(w.holds, a, w'.holds[a], to);
  }

  lemma GuardedWaits(m: Machine, words: Words, h: Hier, hold: Hold)
    requires Guarded(m, words, h, hold)
    ensures NoRepeats(hold.waiting)
  {
  }

  lemma SpareGoes(w: World, w': World, a: nat, to: Phys, gone: seq<Phys>, copied: seq<Phys>)
    requires Loose(w, to) && (forall f | f in gone :: f != to) && multiset(gone) <= w.held && to !in copied
    requires WaitingIsHeld(w'.holds, w.held - multiset(gone) + multiset(copied)) && Waiters(w'.holds, to) == {}
    ensures WaitingIsHeld(w'.holds, w.held - multiset{to} + multiset(copied) - multiset(gone))
    ensures multiset(gone) <= w.held - multiset{to} + multiset(copied)
  {
    hide Waiters;
    assert to !in gone;
    assert to !in multiset(gone);
    HoldLess(w'.holds, w.held - multiset(gone) + multiset(copied), multiset{to});
    assert w.held - multiset(gone) + multiset(copied) - multiset{to}
           == w.held - multiset{to} + multiset(copied) - multiset(gone);
  }

  lemma BreakIsSteps(m: Machine, w: World, w': World, a: nat, page: nat, spare: Option<Phys>, ok: bool, n: nat)
    requires LawfulLeaf(m) && LawfulOwning(m) && Consistent(m, w) && DoesBreak(m, w, w', a, page, spare, ok, n)
    ensures Shape(m, w')
    ensures Leads(m, Abstract(m, w), [Step.BreakCow(Slot(a, page), spare), Drop(w.holds[a].waiting[..n])],
                  Abstract(m, w'))
  {
    hide LawfulLeaf, LawfulOwning, Shape, Abstract, Inv, Broke, Loose, Guarded, ReleasedAll, HeldAfterBreak, Copied,
         Ours, PathTo, CaseOf, Leads, References;
    BreakShape(m, w, w', a, page, spare, ok, n);
    BreakSeen1(m, w, w', a, page, spare, ok);
    AbstractRest(m, w');
    var one, two := Step.BreakCow(Slot(a, page), spare), Drop(w.holds[a].waiting[..n]);
    var s' := Apply(m, Abstract(m, w), one);
    DropOnly(m, s', w.holds[a].waiting[..n], Abstract(m, w'));
    LeadsTwo(m, Abstract(m, w), one, two, Abstract(m, w'));
  }

  lemma DropOnly(m: Machine, s: System, frames: seq<Phys>, s': System)
    requires multiset(frames) <= s.held && s'.slots == s.slots && s'.tables == s.tables && s'.data == s.data
    requires s'.counts == ReleasedAll(s.counts, frames) && s'.held == s.held - multiset(frames)
    ensures Enabled(m, s, Drop(frames)) && Alike(Apply(m, s, Drop(frames)), s')
  {
  }

  // ---- sharing -------------------------------------------------------------

  lemma MarkedIsRewritten(m: Machine, words: Words, mid: Words, words': Words, hp: Hier, hc: Hier, page: nat,
                          was: seq<Phys>, now: seq<Phys>, r: Outcome<()>)
    requires SharedBy(m, words, mid, words', hp, hc, page, was, now, r)
    ensures now <= was && page in PageMap(m, words, hp)
    ensures var bits := PageMap(m, words, hp)[page];
            && Rewritten(m, words, mid, hp, page, SharedBits(m, bits), Some(m.addr(bits)))
            && Published(m, mid, words', hc, page, SharedBits(m, bits), was, now, r)
  {
  }

  /** The parent's hold once its page is marked, in the memory the mark left. */
  lemma MarkGuarded(m: Machine, w: World, mid: Words, p: nat, page: nat, bits: Word, hold: Hold)
    requires Consistent(m, w) && p in w.spaces
             && Rewritten(m, w.words, mid, w.spaces[p], page, bits, Some(m.addr(bits)))
    requires Live(m, mid, w.spaces[p]) <= hold.cached <= w.holds[p].cached + Live(m, mid, w.spaces[p])
    requires Covered(m, mid, w.spaces[p], hold.cached, hold.pending) && hold.waiting == w.holds[p].waiting
    ensures Guarded(m, mid, w.spaces[p], hold)
  {
    hide Live, Covered, Fenced, Waiting, Rewritten, Inv, Abstract, WaitingIsHeld, Stored, Apart, Tree, Blockless,
         IsTableFrame;
    NamedOnce(m, w, p);
    RewriteApart(m, w.words, mid, w.spaces[p], page, bits, m.addr(bits), hold.waiting);
    FencedByRewrite(m, w.words, mid, w.spaces[p], page, bits, m.addr(bits), w.holds[p].cached, hold.cached,
                    hold.waiting);
  }

  /** The world with the parent marked and the child not told yet. */
  ghost function Midway(w: World, w': World, p: nat, mid: Words): World
    requires p in w'.holds
  {
    w.(words := mid, holds := w.holds[p := w'.holds[p]])
  }

  lemma MidwayShape(m: Machine, w: World, w': World, p: nat, c: nat, page: nat, was: seq<Phys>, now: seq<Phys>,
                    r: Outcome<()>, mid: Words)
    requires LawfulLeaf(m) && LawfulSharing(m) && Consistent(m, w) && DoesShare(m, w, w', p, c, page, was, now, r, mid)
    requires page in PageMap(m, w.words, w.spaces[p])
    ensures Shape(m, Midway(w, w', p, mid))
    ensures var bits := PageMap(m, w.words, w.spaces[p])[page];
            && Rewritten(m, w.words, mid, w.spaces[p], page, SharedBits(m, bits), Some(m.addr(bits)))
            && m.addr(SharedBits(m, bits)) == m.addr(bits)
            && OneChanged(m, w.words, mid, w.spaces, p, {}, {})
            && OneChanged(m, mid, w'.words, w.spaces, c, Taken(was, now), {})
            && Published(m, mid, w'.words, w.spaces[c], page, SharedBits(m, bits), was, now, r) && now <= was
  {
    hide LawfulLeaf, LawfulSharing, Forest, Inv, Abstract, Rewritten, Published, StockReady, MarkedPage, PageMap,
         SharedBits, WellMade, Loose, WaitingIsHeld, Stored, OneChanged, Guarded, Live, Covered, Ours, PathTo,
         SomeTable, CountsAfter, Taken, References;
    var bits := PageMap(m, w.words, w.spaces[p])[page];
    MarkedIsRewritten(m, w.words, mid, w'.words, w.spaces[p], w.spaces[c], page, was, now, r);
    PageFrame(m, w, p, page);
    SharedIsReadOnly(m, bits);
    var w1 := Midway(w, w', p, mid);
    RewriteSeen(m, w, w1, p, page, SharedBits(m, bits), m.addr(bits));
    ChildGrows(m, w, mid, w'.words, c, p, page, SharedBits(m, bits), was, now, r);
    ParentSame(m, mid, w'.words, w.spaces, c, p, Taken(was, now));
    CoveredSame(m, mid, w'.words, w.spaces[p], w'.holds[p]);
    MarkGuarded(m, w, mid, p, page, SharedBits(m, bits), w'.holds[p]);
    WaitSame(w.holds, p, w'.holds[p]);
    SameWaiters(w.holds, w1.holds, w.held);
    ShapeAfter(m, w, w1, p, {}, {});
  }

  lemma CoveredSame(m: Machine, words: Words, words': Words, h: Hier, hold: Hold)
    requires Live(m, words', h) == Live(m, words, h)
    ensures Covered(m, words', h, hold.cached, hold.pending) <==> Covered(m, words, h, hold.cached, hold.pending)
  {
    hide Live;
  }

  lemma ChildGrows(m: Machine, w: World, mid: Words, words': Words, c: nat, p: nat, page: nat, bits: Word,
                   was: seq<Phys>, now: seq<Phys>, r: Outcome<()>)
    requires Consistent(m, w) && OneChanged(m, w.words, mid, w.spaces, p, {}, {}) && c in w.spaces && now <= was
    requires (forall t | t in was :: Loose(w, t)) && Published(m, mid, words', w.spaces[c], page, bits, was, now, r)
    ensures OneChanged(m, mid, words', w.spaces, c, Taken(was, now), {}) && Forest(m, mid, w.spaces)
  {
    hide Forest, Guarded, WaitingIsHeld, Stored, Inv, Abstract, Published, Taken, Loose, SomeTable, PageMap;
    TakenAreStock(was, now);
    StockLoose(m, w, Taken(was, now));
    OneChangedForest(m, w.words, mid, w.spaces, p, {}, {});
    PublishedPages(m, mid, words', w.spaces[c], page, bits, was, now, r);
    GrownForest(m, mid, words', w.spaces, c, Taken(was, now));
  }

  lemma ParentSame(m: Machine, words: Words, words': Words, spaces: map<nat, Hier>, c: nat, p: nat, taken: set<Phys>)
    requires OneChanged(m, words, words', spaces, c, taken, {}) && p in spaces && p != c
    ensures Live(m, words', spaces[p]) == Live(m, words, spaces[p])
  {
  }

  lemma ShareShape(m: Machine, w: World, w': World, p: nat, c: nat, page: nat, was: seq<Phys>, now: seq<Phys>,
                   r: Outcome<()>, mid: Words)
    requires LawfulLeaf(m) && LawfulSharing(m) && Consistent(m, w) && DoesShare(m, w, w', p, c, page, was, now, r, mid)
    requires page in PageMap(m, w.words, w.spaces[p])
    ensures Shape(m, w')
  {
    hide LawfulLeaf, LawfulSharing, Inv, Abstract, Rewritten, Published, StockReady, SharedBy, PageMap, SharedBits,
         WaitingIsHeld, Stored, OneChanged, Covered, Ours, PathTo, CountsAfter, Taken, Forest, Guarded, Waiters, Live;
    MidwayShape(m, w, w', p, c, page, was, now, r, mid);
    var w1 := Midway(w, w', p, mid);
    ExactIsGuarded(m, w'.words, w.spaces[c], w'.holds[c]);
    ShareWaits(w, w', p, c, Taken(was, now), was, now);
    ShareStored(m, w, page, PageMap(m, w.words, w.spaces[p]), p, r.Done?);
    SameKeys(m, w.words, mid, w.spaces, p, {}, {});
    StoredKeys(w.words, mid, w'.counts);
    ShapeAfter(m, w1, w', c, Taken(was, now), {});
  }

  lemma ExactIsGuarded(m: Machine, words: Words, h: Hier, hold: Hold)
    requires hold.cached == Live(m, words, h) && hold.waiting == []
    ensures Guarded(m, words, h, hold)
  {
    hide Live;
  }

  lemma ShareWaits(w: World, w': World, p: nat, c: nat, taken: set<Phys>, was: seq<Phys>, now: seq<Phys>)
    requires WaitingIsHeld(w.holds, w.held) && p != c && p in w.holds && c in w.holds && p in w'.holds && c in w'.holds
             && now <= was
    requires w'.holds == w.holds[p := w'.holds[p]][c := w'.holds[c]] && w'.holds[p].waiting == w.holds[p].waiting
    requires w'.holds[c].waiting == w.holds[c].waiting && taken == Taken(was, now)
             && (forall t | t in was :: Loose(w, t))
    requires w'.held == w.held - multiset(taken)
    ensures WaitingIsHeld(w'.holds, w'.held)
  {
    hide WaitingIsHeld, Waiters, Taken;
    TakenAreStock(was, now);
    WaitSame(w.holds, p, w'.holds[p]);
    WaitSame(w.holds[p := w'.holds[p]], c, w'.holds[c]);
    SameWaiters(w.holds, w'.holds, w.held);
    HoldLess(w'.holds, w.held, multiset(taken));
  }

  lemma ShareStored(m: Machine, w: World, page: nat, pages: map<nat, Word>, p: nat, done: bool)
    requires Consistent(m, w) && p in w.spaces && pages == PageMap(m, w.words, w.spaces[p])
    ensures Stored(w.words, CountsAfter(m, pages, page, w.counts, done))
  {
    hide Forest, Guarded, WaitingIsHeld, Inv, Abstract, PageMap, SomeTable, WellMade;
    if page in pages {
      PageFrame(m, w, p, page);
    }
  }

  lemma ShareSlots(m: Machine, w: World, w': World, p: nat, c: nat, page: nat, was: seq<Phys>, now: seq<Phys>,
                   r: Outcome<()>, mid: Words)
    requires LawfulLeaf(m) && LawfulSharing(m) && Consistent(m, w) && DoesShare(m, w, w', p, c, page, was, now, r, mid)
    requires page in PageMap(m, w.words, w.spaces[p])
    ensures var s, s', from, to := Abstract(m, w), Abstract(m, w'), Slot(p, page), Slot(c, page);
            && from in s.slots && s.slots[from] == PageMap(m, w.words, w.spaces[p])[page]
            && s'.tables == s.tables + Taken(was, now) && s'.data == s.data - Taken(was, now)
            && (r.Done? ==> to !in s.slots)
            && var bits := SharedBits(m, s.slots[from]);
               && s'.slots == (if r.Done? then s.slots[from := bits][to := bits] else s.slots[from := bits])
               && m.addr(bits) == m.addr(s.slots[from])
  {
    hide LawfulLeaf, LawfulSharing, Shape, Inv, Abstract, Rewritten, Published, StockReady, SharedBy, PageMap,
         SharedBits, WellMade, OneChanged, Covered, Ours, PathTo, CountsAfter, Taken, Live, Waiters, References,
         SomeTable;
    MidwayShape(m, w, w', p, c, page, was, now, r, mid);
    PageFrame(m, w, p, page);
    var w1, bits := Midway(w, w', p, mid), PageMap(m, w.words, w.spaces[p])[page];
    RewriteSeen(m, w, w1, p, page, SharedBits(m, bits), m.addr(bits));
    PublishSeen(m, w1, w', c, page, SharedBits(m, bits), was, now, r);
  }

  lemma ShareIsStep(m: Machine, w: World, w': World, p: nat, c: nat, page: nat, was: seq<Phys>, now: seq<Phys>,
                    r: Outcome<()>, mid: Words)
    requires LawfulLeaf(m) && LawfulSharing(m) && Consistent(m, w) && DoesShare(m, w, w', p, c, page, was, now, r, mid)
    requires page in PageMap(m, w.words, w.spaces[p])
    ensures now <= was && Refines(m, w, w', ShareOne(p, c, page, Taken(was, now), r.Done?))
  {
    hide LawfulLeaf, LawfulSharing, Shape, Inv, Abstract, StockReady, PageMap, SharedBits, WellMade, Covered, Ours,
         PathTo, Taken, Live, Waiters, References, Held, MarkedPage, Published, Loose;
    ShareShape(m, w, w', p, c, page, was, now, r, mid);
    ShareSlots(m, w, w', p, c, page, was, now, r, mid);
    TakenAreStock(was, now);
    StockLoose(m, w, Taken(was, now));
    AbstractRest(m, w);
    AbstractRest(m, w');
    AlikeSame(Apply(m, Abstract(m, w), ShareOne(p, c, page, Taken(was, now), r.Done?)), Abstract(m, w'));
  }

  // ---- a space's beginning and end -----------------------------------------

  lemma DetachedTables(m: Machine, words: Words, h: Hier, f: Phys)
    requires !m.present(0) && Detached(m, words, h)
    ensures IsTableFrame(m, words, h, f) <==> f == h.root
  {
    RootIsTable(m, words, h);
    if IsTableFrame(m, words, h, f) {
      var q :| IsTable(m, words, h, q) && TableAt(m, words, h.root, q) == Some(f);
      if q.Down? {
        DetachedHasNothing(m, words, h, q);
      }
    }
  }

  /** A top table with nothing below it is a tree, without blocks or empty tables. */
  lemma DetachedTree(m: Machine, words: Words, h: Hier)
    requires !m.present(0) && Detached(m, words, h) && h.root in words && |words[h.root]| == ENTRIES && m.frame(h.root)
    ensures Tree(m, words, h) && Blockless(m, words, h) && Populated(m, words, h)
  {
    forall q | Ours(h, q) && q.Down?
      ensures TableAt(m, words, h.root, q).None? && !m.present(Desc(m, words, h.root, q)) {
      DetachedHasNothing(m, words, h, q);
    }
  }

  lemma OpenForest(m: Machine, words: Words, spaces: map<nat, Hier>, a: nat, h: Hier)
    requires Forest(m, words, spaces) && a !in spaces && !m.present(0) && Detached(m, words, h)
    requires h.root in words && m.frame(h.root) && !SomeTable(m, words, spaces, h.root)
    ensures Forest(m, words, spaces[a := h])
    ensures forall f :: SomeTable(m, words, spaces[a := h], f) <==> SomeTable(m, words, spaces, f) || f == h.root
  {
    DetachedTree(m, words, h);
    forall f ensures IsTableFrame(m, words, h, f) <==> f == h.root {
      DetachedTables(m, words, h, f);
    }
    hide Tree, Blockless, IsTableFrame, Detached, Populated;
    var spaces' := spaces[a := h];
    forall f ensures SomeTable(m, words, spaces', f) <==> SomeTable(m, words, spaces, f) || f == h.root {
      if SomeTable(m, words, spaces, f) {
        var b :| b in spaces && IsTableFrame(m, words, spaces[b], f);
        assert b in spaces' && spaces'[b] == spaces[b];
      }
      if f == h.root {
        assert IsTableFrame(m, words, spaces'[a], f);
      }
    }
    forall b, c, f | b in spaces' && c in spaces' && b != c
      ensures !(IsTableFrame(m, words, spaces'[b], f) && IsTableFrame(m, words, spaces'[c], f))
    {
      assert b != a && IsTableFrame(m, words, spaces'[b], f) ==> SomeTable(m, words, spaces, f);
      assert c != a && IsTableFrame(m, words, spaces'[c], f) ==> SomeTable(m, words, spaces, f);
    }
  }

  lemma OpenShape(m: Machine, w: World, w': World, a: nat, h: Hier)
    requires !m.present(0) && Consistent(m, w) && DoesOpen(m, w, w', a, h)
    ensures Shape(m, w')
    ensures forall f :: SomeTable(m, w'.words, w'.spaces, f) <==> SomeTable(m, w.words, w.spaces, f) || f == h.root
  {
    hide Forest, Guarded, Stored, Inv, Abstract, Detached, SomeTable, WaitingIsHeld, Waiters, Loose;
    LooseIsUnnamed(m, w, h.root);
    OpenForest(m, w.words, w.spaces, a, h);
    DetachedReadsNothing(m, w.words, h);
    ExactIsGuarded(m, w.words, h, Hold(iset{}, Clean, []));
    OpenWaits(w, w', a, h.root);
  }

  lemma OpenWaits(w: World, w': World, a: nat, root: Phys)
    requires WaitingIsHeld(w.holds, w.held) && Loose(w, root) && w'.held == w.held - multiset{root}
    requires w'.holds == w.holds[a := Hold(iset{}, Clean, [])]
    ensures WaitingIsHeld(w'.holds, w'.held)
  {
    forall f ensures Waiters(w'.holds, f) <= Waiters(w.holds, f) {
      WaitersPut(w.holds, a, Hold(iset{}, Clean, []), f);
    }
    hide Waiters;
    HoldLess(w.holds, w.held, multiset{root});
    FewerWaiters(w.holds, w'.holds, w'.held);
  }

  lemma FewerWaiters(holds: map<nat, Hold>, holds': map<nat, Hold>, held: multiset<Phys>)
    requires WaitingIsHeld(holds, held) && forall f :: Waiters(holds', f) <= Waiters(holds, f)
    ensures WaitingIsHeld(holds', held)
  {
    hide Waiters;
    forall f ensures |Waiters(holds', f)| <= held[f] {
      var few, many := Waiters(holds', f), Waiters(holds, f);
      assert many == few + (many - few);
    }
  }

  lemma OpenSlots(m: Machine, words: Words, spaces: map<nat, Hier>, a: nat, h: Hier)
    requires a !in spaces && PageMap(m, words, h) == map[]
    ensures SlotsOf(Maps(m, words, spaces[a := h])) == SlotsOf(Maps(m, words, spaces))
  {
    hide PageMap, SlotsOf;
    assert Maps(m, words, spaces[a := h]) == Maps(m, words, spaces)[a := map[]];
    SlotsStart(Maps(m, words, spaces), a);
  }

  lemma OpenIsStep(m: Machine, w: World, w': World, a: nat, h: Hier)
    requires !m.present(0) && Consistent(m, w) && DoesOpen(m, w, w', a, h)
    ensures Refines(m, w, w', Open(h.root))
  {
    hide Shape, Inv, Detached, SomeTable, Loose, PageMap, SlotsOf, References, Maps, TablesIn, DataIn, Live, Namers;
    LooseIsUnnamed(m, w, h.root);
    OpenShape(m, w, w', a, h);
    DetachedReadsNothing(m, w.words, h);
    OpenSlots(m, w.words, w.spaces, a, h);
    OpenData(m, w, w', h.root);
    AlikeSame(Apply(m, Abstract(m, w), Open(h.root)), Abstract(m, w'));
  }

  lemma OpenData(m: Machine, w: World, w': World, root: Phys)
    requires w'.words == w.words && root in w.words
    requires forall f :: SomeTable(m, w'.words, w'.spaces, f) <==> SomeTable(m, w.words, w.spaces, f) || f == root
    ensures TablesIn(m, w'.words, w'.spaces) == TablesIn(m, w.words, w.spaces) + {root}
    ensures DataIn(w'.words, TablesIn(m, w'.words, w'.spaces))
            == DataIn(w.words, TablesIn(m, w.words, w.spaces)) - {root}
  {
    hide SomeTable;
  }

  // ---- closing -------------------------------------------------------------

  /** The rest of the forest, once one space's tables are gone from it. */
  lemma CloseForest(m: Machine, words: Words, words': Words, spaces: map<nat, Hier>, a: nat)
    requires Forest(m, words, spaces) && a in spaces
             && Wrote(words, words', iset f | IsTableFrame(m, words, spaces[a], f))
    ensures forall b | b in spaces && b != a :: SameFor(m, words, words', spaces[b])
    ensures Forest(m, words', spaces - {a})
    ensures forall f :: SomeTable(m, words', spaces - {a}, f)
                        <==> SomeTable(m, words, spaces, f) && !IsTableFrame(m, words, spaces[a], f)
  {
    var rest, touched := spaces - {a}, iset f | IsTableFrame(m, words, spaces[a], f);
    forall b | b in rest ensures SameFor(m, words, words', spaces[b]) {
      Unwritten(m, words, words', spaces[b], touched);
    }
    hide Tree, Blockless, IsTableFrame, PageMap, Live, Populated;
    FewerForest(m, words, spaces, a);
    SameForest(m, words, words', rest);
    forall f ensures SomeTable(m, words', rest, f) <==> SomeTable(m, words, rest, f) {
      if SomeTable(m, words', rest, f) {
        var b :| b in rest && IsTableFrame(m, words', rest[b], f);
        assert IsTableFrame(m, words, rest[b], f);
      }
      if SomeTable(m, words, rest, f) {
        var b :| b in rest && IsTableFrame(m, words, rest[b], f);
        assert IsTableFrame(m, words', rest[b], f);
      }
    }
  }

  lemma FewerForest(m: Machine, words: Words, spaces: map<nat, Hier>, a: nat)
    requires Forest(m, words, spaces) && a in spaces
    ensures Forest(m, words, spaces - {a})
    ensures forall f :: SomeTable(m, words, spaces - {a}, f)
                        <==> SomeTable(m, words, spaces, f) && !IsTableFrame(m, words, spaces[a], f)
  {
    hide Tree, Blockless, IsTableFrame;
    var rest := spaces - {a};
    forall f ensures SomeTable(m, words, rest, f)
      <==> SomeTable(m, words, spaces, f) && !IsTableFrame(m, words, spaces[a], f) {
      if SomeTable(m, words, rest, f) {
        var b :| b in rest && IsTableFrame(m, words, rest[b], f);
        assert b in spaces && IsTableFrame(m, words, spaces[b], f);
      }
      if SomeTable(m, words, spaces, f) && !IsTableFrame(m, words, spaces[a], f) {
        var b :| b in spaces && IsTableFrame(m, words, spaces[b], f);
        assert b in rest && IsTableFrame(m, words, rest[b], f);
      }
    }
  }

  /** A frame's names among the slots are the space's pages and the other spaces'. */
  lemma SpaceNames(m: Machine, maps: map<nat, map<nat, Word>>, a: nat, f: Phys)
    requires a in maps
    ensures |Namers(m, SlotsOf(maps), f)| == |Namers(m, SlotsOf(maps - {a}), f)| + |PagesOn(m, maps[a], f)|
  {
    hide SlotsOf, Namers, Others, PagesOn;
    var all, rest := Namers(m, SlotsOf(maps), f), Namers(m, SlotsOf(maps - {a}), f);
    SlotsEnd(maps, a);
    OthersNamed(m, SlotsOf(maps), a, f);
    var mine := all - rest;
    MyNames(m, maps, a, f);
    assert all == rest + mine;
  }

  lemma MyNames(m: Machine, maps: map<nat, map<nat, Word>>, a: nat, f: Phys)
    requires a in maps
    ensures |Namers(m, SlotsOf(maps), f) - Namers(m, SlotsOf(maps - {a}), f)| == |PagesOn(m, maps[a], f)|
  {
    hide SlotsOf;
    var mine, pages := Namers(m, SlotsOf(maps), f) - Namers(m, SlotsOf(maps - {a}), f), PagesOn(m, maps[a], f);
    forall k: Slot ensures k in mine <==> k.space == a && k.page in pages {
      SlotAt(maps, k);
      SlotAt(maps - {a}, k);
    }
    hide Namers, PagesOn;
    forall k | k in mine ensures exists page :: page in pages && Slot(a, page) == k {
      assert k.page in pages && Slot(a, k.page) == k;
    }
    SameSize(pages, mine, (page: nat) => Slot(a, page));
  }

  /** Every descriptor of the space has its reference. */
  lemma SpaceSolvent(m: Machine, w: World, a: nat)
    requires !m.present(0) && Consistent(m, w) && a in w.spaces
    ensures Solvent(m, w.words, w.spaces[a], w.counts, multiset{})
  {
    hide Guarded, WaitingIsHeld, Stored, NamedAt, Sole, Isolated, Aligned, Made, Tree, Blockless, Whole;
    forall f ensures Elsewhere(m, w.words, w.spaces[a], w.counts, multiset{}, f) >= 0 {
      SpaceNamed(m, w, a, f);
    }
  }

  /** How many of a frame's references are this space's. */
  lemma SpaceNamed(m: Machine, w: World, a: nat, f: Phys)
    requires !m.present(0) && Shape(m, w) && a in w.spaces
    ensures var s := Abstract(m, w);
            && |NamedAt(m, w.words, w.spaces[a], f)| + (if f == w.spaces[a].root then 1 else 0)
            == |Namers(m, s.slots, f)| - |Namers(m, Others(s.slots, a), f)|
               + Tabled(Reached(m, w.words, w.spaces[a]), f)
            && Reached(m, w.words, w.spaces[a]) <= s.tables
            && |Namers(m, Others(s.slots, a), f)| <= |Namers(m, s.slots, f)|
  {
    hide Guarded, WaitingIsHeld, Stored, NamedAt, PagesOn, Namers, SlotsOf, DataIn, Tree, Blockless, Whole, PageMap,
         IsTableFrame, Others;
    var h, maps := w.spaces[a], Maps(m, w.words, w.spaces);
    NamesSplit(m, w.words, h, f);
    SpaceNames(m, maps, a, f);
    SlotsEnd(maps, a);
    RootIsTable(m, w.words, h);
    TablesReached(m, w, a, f);
    OthersNamed(m, SlotsOf(maps), a, f);
  }

  lemma TablesReached(m: Machine, w: World, a: nat, f: Phys)
    requires Shape(m, w) && a in w.spaces
    ensures f in Reached(m, w.words, w.spaces[a]) <==> IsTableFrame(m, w.words, w.spaces[a], f)
    ensures Reached(m, w.words, w.spaces[a]) <= TablesIn(m, w.words, w.spaces)
  {
    if IsTableFrame(m, w.words, w.spaces[a], f) {
      TableIsStored(m, w.words, w.spaces[a], f);
    }
  }

  lemma ClosedCounts(m: Machine, w: World, a: nat, log: seq<Path>, f: Phys)
    requires !m.present(0) && Consistent(m, w) && a in w.spaces
    requires NoRepeats(log) && forall q :: q in log <==> Position(m, w.words, w.spaces[a], q)
    ensures References(Released(ReleasedAlong(m, w.words, w.spaces[a], w.counts, log), w.spaces[a].root), f)
         == References(w.counts, f) - |NamedAt(m, w.words, w.spaces[a], f)| - (if f == w.spaces[a].root then 1 else 0)
  {
    hide Guarded, WaitingIsHeld, Stored, NamedAt, Sole, Isolated, Aligned, Made, Blockless, Whole, Position,
         ReleasedAlong, Solvent, Abstract, Namers, Tabled;
    SpaceSolvent(m, w, a);
    ReleasedAllNames(m, w.words, w.spaces[a], w.counts, multiset{}, log, f);
    SpaceNamed(m, w, a, f);
    if f == w.spaces[a].root {
      RootCounted(m, w, a);
    }
    ReleasedHere(ReleasedAlong(m, w.words, w.spaces[a], w.counts, log), w.spaces[a].root, f);
  }

  lemma ReleasedHere(counts: map<Phys, nat>, g: Phys, f: Phys)
    requires f == g ==> References(counts, f) >= 1
    ensures References(Released(counts, g), f) == References(counts, f) - if f == g then 1 else 0
  {
  }

  /** A top table is held by its space and by nothing else. */
  lemma RootCounted(m: Machine, w: World, a: nat)
    requires !m.present(0) && Consistent(m, w) && a in w.spaces
    ensures References(w.counts, w.spaces[a].root) == 1 && |NamedAt(m, w.words, w.spaces[a], w.spaces[a].root)| == 0
  {
    hide Guarded, WaitingIsHeld, Stored, NamedAt, Isolated, Aligned, Made, Blockless, Whole, Tree;
    var root := w.spaces[a].root;
    RootIsTable(m, w.words, w.spaces[a]);
    TablesReached(m, w, a, root);
    TableIsNoPage(m, Abstract(m, w), root);
    SpaceNamed(m, w, a, root);
  }

  lemma CloseShape(m: Machine, w: World, w': World, a: nat, log: seq<Path>)
    requires !m.present(0) && Consistent(m, w) && DoesClose(m, w, w', a, log)
    ensures Shape(m, w')
    ensures forall f :: SomeTable(m, w'.words, w'.spaces, f)
                        <==> SomeTable(m, w.words, w.spaces, f) && !IsTableFrame(m, w.words, w.spaces[a], f)
    ensures forall b | b in w.spaces && b != a :: SameFor(m, w.words, w'.words, w.spaces[b])
  {
    hide Forest, Guarded, Stored, Inv, Abstract, SomeTable, WaitingIsHeld, Waiters, Position, ReleasedAlong, Released,
         IsTableFrame, SameFor, References, NamedAt;
    CloseForest(m, w.words, w'.words, w.spaces, a);
    forall b | b in w'.spaces ensures Guarded(m, w'.words, w'.spaces[b], w'.holds[b]) {
      KeptSame(m, w.words, w'.words, w.spaces[b], w.holds[b]);
    }
    forall f ensures Waiters(w'.holds, f) <= Waiters(w.holds, f) {
      WaitersCut(w.holds, a, f);
    }
    FewerWaiters(w.holds, w'.holds, w.held);
    forall f ensures References(w'.counts, f) <= References(w.counts, f) {
      ClosedCounts(m, w, a, log, f);
    }
    StoredAfter(w.words, w.counts, w'.counts);
    StoredKeys(w.words, w'.words, w'.counts);
  }

  lemma WaitersCut(holds: map<nat, Hold>, a: nat, f: Phys)
    ensures Waiters(holds - {a}, f) <= Waiters(holds, f)
  {
  }

  lemma CloseSeen(m: Machine, w: World, w': World, a: nat)
    requires Shape(m, w) && a in w.spaces && w'.spaces == w.spaces - {a} && w'.words.Keys == w.words.Keys
    requires forall b | b in w.spaces && b != a :: SameFor(m, w.words, w'.words, w.spaces[b])
    requires forall f :: SomeTable(m, w'.words, w'.spaces, f)
                         <==> SomeTable(m, w.words, w.spaces, f) && !IsTableFrame(m, w.words, w.spaces[a], f)
    requires forall f | f in w.words && !IsTableFrame(m, w.words, w.spaces[a], f) :: w'.words[f] == w.words[f]
    ensures var s, s', gone := Abstract(m, w), Abstract(m, w'), RowsOf(w'.words, Reached(m, w.words, w.spaces[a]));
            && s'.slots == Others(s.slots, a) && s'.tables == s.tables - gone.Keys && s'.data == s.data + gone
            && gone.Keys == Reached(m, w.words, w.spaces[a]) && gone.Keys <= s.tables
  {
    hide Forest, Guarded, Stored, WaitingIsHeld, SlotsOf, IsTableFrame, PageMap, Live, Tree, Blockless, Populated,
         SomeTable, Shape, Others, Maps, DataIn;
    assert Maps(m, w'.words, w'.spaces) == Maps(m, w.words, w.spaces) - {a} by {
      CloseMaps(m, w, w', a);
    }
    SlotsEnd(Maps(m, w.words, w.spaces), a);
    forall f ensures f in Reached(m, w.words, w.spaces[a]) <==> IsTableFrame(m, w.words, w.spaces[a], f) {
      TablesReached(m, w, a, f);
    }
    TablesReached(m, w, a, w.spaces[a].root);
    var gone := RowsOf(w'.words, Reached(m, w.words, w.spaces[a]));
    assert gone.Keys == Reached(m, w.words, w.spaces[a]);
    assert TablesIn(m, w'.words, w'.spaces) == TablesIn(m, w.words, w.spaces) - gone.Keys;
    CloseData(w.words, w'.words, TablesIn(m, w.words, w.spaces), Reached(m, w.words, w.spaces[a]));
  }

  lemma CloseMaps(m: Machine, w: World, w': World, a: nat)
    requires a in w.spaces && w'.spaces == w.spaces - {a}
    requires forall b | b in w.spaces && b != a :: SameFor(m, w.words, w'.words, w.spaces[b])
    ensures Maps(m, w'.words, w'.spaces) == Maps(m, w.words, w.spaces) - {a}
  {
    hide PageMap, Live, Tree, Blockless, Populated, IsTableFrame;
  }

  lemma CloseData(words: Words, words': Words, tables: set<Phys>, gone: set<Phys>)
    requires words'.Keys == words.Keys && gone <= tables
             && (forall f | f in words && f !in gone :: words'[f] == words[f])
    ensures DataIn(words', tables - gone) == DataIn(words, tables) + RowsOf(words', gone)
  {
  }

  lemma CloseIsStep(m: Machine, w: World, w': World, a: nat, log: seq<Path>)
    requires !m.present(0) && Consistent(m, w) && DoesClose(m, w, w', a, log)
    ensures Refines(m, w, w', Close(a, RowsOf(w'.words, Reached(m, w.words, w.spaces[a]))))
  {
    hide Shape, Abstract, Inv, Position, ReleasedAlong, Released, IsTableFrame, SomeTable, SameFor, RowsOf, Reached,
         References, NamedAt, Left, Others, NoRepeats;
    CloseShape(m, w, w', a, log);
    CloseSeen(m, w, w', a);
    AbstractRest(m, w);
    AbstractRest(m, w');
    var s, gone := Abstract(m, w), RowsOf(w'.words, Reached(m, w.words, w.spaces[a]));
    forall f ensures References(Left(m, s, a, gone.Keys), f) == References(w'.counts, f) {
      ClosedCounts(m, w, a, log, f);
      SpaceNamed(m, w, a, f);
      InvIsCounted(m, s);
      CloseCounts(m, s, a, gone.Keys, f);
    }
  }

  lemma InvIsCounted(m: Machine, s: System)
    requires Inv(m, s)
    ensures Counted(m, s)
  {
  }
}
