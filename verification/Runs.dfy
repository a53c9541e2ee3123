/** What holds of the memory itself after any sequence of moves by any number of
  * address spaces: every reference is accounted for, no translation anyone has kept
  * reaches a free frame, a shared frame is written by nobody, and no table stays
  * empty.
  */
module Runs {
  import opened Machines
  import opened Walk
  import opened Pages
  import opened Hierarchy
  import opened Descent
  import opened Reclaim
  import opened Tables
  import opened Accounts
  import opened Guard
  import opened Share
  import opened Spaces
  import opened Cow
  import opened Teardown
  import opened Worlds
  import opened Moves
  import opened Refinement

  // ---- one move ------------------------------------------------------------

  lemma RefinesLeads(m: Machine, w: World, w': World, step: Step)
    requires Refines(m, w, w', step)
    ensures Shape(m, w') && Leads(m, Abstract(m, w), [step], Abstract(m, w'))
  {
    hide Shape, Abstract, Enabled, Alike, Apply, Leads;
    LeadsOne(m, Abstract(m, w), step, Abstract(m, w'));
  }

  /** Every move is the steps it is said to be. */
  lemma MoveRefines(m: Machine, w: World, move: Move, w': World)
    requires Lawful(m) && Consistent(m, w) && Does(m, w, move, w')
    ensures Shape(m, w') && Leads(m, Abstract(m, w), StepsOf(m, w, move, w'), Abstract(m, w'))
  {
    hide LawfulLeaf, LawfulTable, LawfulSharing, LawfulOwning, Consistent, Shape, Abstract, Leads, Refines, Taken,
         Reached, RowsOf, PageMap, DoesAllocate, DoesFill, DoesGive, DoesOpen, DoesReplace, DoesProtect, DoesUnmap,
         DoesStore;
    AbsentZero(m);
    match move
    case Allocates(f) =>
      AllocateIsStep(m, w, w', f);
      RefinesLeads(m, w, w', Alloc(f, seq(ENTRIES, _ => 0)));
    case Fills(f, row) =>
      FillIsStep(m, w, w', f, row);
      RefinesLeads(m, w, w', Fill(f, row));
    case Gives(frames) =>
      GiveIsStep(m, w, w', frames);
      RefinesLeads(m, w, w', Drop(frames));
    case Opens(a, h) =>
      OpenIsStep(m, w, w', a, h);
      RefinesLeads(m, w, w', Open(h.root));
    case Publishes(a, page, f, flags, was, now, r) => PublishLeads(m, w, w', a, page, f, flags, was, now, r);
    case Replaces(a, page, f, flags, out) =>
      ReplaceIsStep(m, w, w', a, page, f, flags, out);
      RefinesLeads(m, w, w', Replace(Slot(a, page), f, flags));
    case Protects(a, page, flags, at) =>
      ProtectIsStep(m, w, w', a, page, flags, at);
      RefinesLeads(m, w, w', Protect(Slot(a, page), flags));
    case Unmaps(a, page, stale) =>
      UnmapIsStep(m, w, w', a, page, stale);
      RefinesLeads(m, w, w', Unmap(Slot(a, page), TablesOut(w'.words, stale)));
    case Breaks(a, page, spare, ok, n) => BreakLeads(m, w, w', a, page, spare, ok, n);
    case Shares(p, c, page, was, now, r, mid) => ShareLeads(m, w, w', p, c, page, was, now, r, mid);
    case Flushes(a, n) => FlushLeads(m, w, w', a, n);
    case Stores(a, page, f, row) =>
      StoreIsStep(m, w, w', a, page, f, row);
      RefinesLeads(m, w, w', Write(Slot(a, page), row));
    case Closes(a, log) => CloseLeads(m, w, w', a, log);
  }

  lemma PublishLeads(m: Machine, w: World, w': World, a: nat, page: nat, f: Phys, flags: Word, was: seq<Phys>,
                     now: seq<Phys>, r: Outcome<()>)
    requires LawfulLeaf(m) && Consistent(m, w) && DoesPublish(m, w, w', a, page, f, flags, was, now, r)
    ensures Shape(m, w') && Leads(m, Abstract(m, w), StepsOf(m, w, Publishes(a, page, f, flags, was, now, r), w'),
                                  Abstract(m, w'))
  {
    hide LawfulLeaf, Consistent, Shape, Abstract, Leads, Refines, Taken, Published, StockReady, Loose, Held1;
    PublishIsStep(m, w, w', a, page, f, flags, was, now, r);
    RefinesLeads(m, w, w', Publish(Slot(a, page), f, flags, Taken(was, now), r.Done?));
  }

  lemma BreakLeads(m: Machine, w: World, w': World, a: nat, page: nat, spare: Option<Phys>, ok: bool, n: nat)
    requires LawfulLeaf(m) && LawfulOwning(m) && Consistent(m, w) && DoesBreak(m, w, w', a, page, spare, ok, n)
    ensures Shape(m, w') && Leads(m, Abstract(m, w), StepsOf(m, w, Breaks(a, page, spare, ok, n), w'), Abstract(m, w'))
  {
    hide LawfulLeaf, LawfulOwning, Consistent, Shape, Abstract, Leads, Broke, Guarded, Loose, HeldAfterBreak, BreakCase,
         Copied;
    BreakIsSteps(m, w, w', a, page, spare, ok, n);
  }

  lemma ShareLeads(m: Machine, w: World, w': World, p: nat, c: nat, page: nat, was: seq<Phys>, now: seq<Phys>,
                   r: Outcome<()>, mid: Words)
    requires LawfulLeaf(m) && LawfulSharing(m) && Consistent(m, w) && DoesShare(m, w, w', p, c, page, was, now, r, mid)
    ensures Shape(m, w') && Leads(m, Abstract(m, w), StepsOf(m, w, Shares(p, c, page, was, now, r, mid), w'),
                                  Abstract(m, w'))
  {
    hide LawfulLeaf, LawfulSharing, Shape, Abstract, Leads, Refines, Taken, Published, StockReady, Loose, MarkedPage,
         PageMap, Inv, CountsAfter, Live, Covered;
    if page in PageMap(m, w.words, w.spaces[p]) {
      ShareIsStep(m, w, w', p, c, page, was, now, r, mid);
      RefinesLeads(m, w, w', ShareOne(p, c, page, Taken(was, now), r.Done?));
    } else {
      AlikeSame(Abstract(m, w), Abstract(m, w'));
      LeadsNone(m, Abstract(m, w), Abstract(m, w'));
    }
  }

  lemma LeadsNone(m: Machine, s: System, s': System)
    requires Alike(s, s')
    ensures Leads(m, s, [], s')
  {
  }

  lemma FlushLeads(m: Machine, w: World, w': World, a: nat, n: nat)
    requires Consistent(m, w) && DoesFlush(m, w, w', a, n)
    ensures Shape(m, w') && Leads(m, Abstract(m, w), StepsOf(m, w, Flushes(a, n), w'), Abstract(m, w'))
  {
    hide Consistent, Shape, Abstract, Leads, Refines, Live, ReleasedAll;
    FlushIsStep(m, w, w', a, n);
    RefinesLeads(m, w, w', Drop(w.holds[a].waiting[..n]));
  }

  lemma CloseLeads(m: Machine, w: World, w': World, a: nat, log: seq<Path>)
    requires !m.present(0) && Consistent(m, w) && DoesClose(m, w, w', a, log)
    ensures Shape(m, w') && Leads(m, Abstract(m, w), StepsOf(m, w, Closes(a, log), w'), Abstract(m, w'))
  {
    hide Consistent, Shape, Abstract, Leads, Refines, Position, ReleasedAlong, IsTableFrame, Reached, RowsOf;
    CloseIsStep(m, w, w', a, log);
    RefinesLeads(m, w, w', Close(a, RowsOf(w'.words, Reached(m, w.words, w.spaces[a]))));
  }

  /** Every move keeps the world consistent. */
  lemma MoveKeeps(m: Machine, w: World, move: Move, w': World)
    requires Lawful(m) && Consistent(m, w) && Does(m, w, move, w')
    ensures Consistent(m, w')
  {
    hide Lawful, Shape, Abstract, Leads, Inv, Does, StepsOf;
    MoveRefines(m, w, move, w');
    LeadsKeeps(m, Abstract(m, w), StepsOf(m, w, move, w'), Abstract(m, w'));
  }

  // ---- runs ----------------------------------------------------------------

  /** The worlds a run goes through, one more of them than moves. */
  ghost predicate Run(m: Machine, worlds: seq<World>, moves: seq<Move>) {
    && |worlds| == |moves| + 1
    && forall i | 0 <= i < |moves| :: Does(m, worlds[i], moves[i], worlds[i + 1])
  }

  /** Memory with nothing in use and no address space yet. */
  ghost function Start(words: Words): World {
    World(words, map[], map[], map[], multiset{})
  }

  lemma StartSeen(m: Machine, words: Words)
    ensures Abstract(m, Start(words)) == System(map[], {}, map[], multiset{}, DataIn(words, {}))
  {
    hide PageMap, IsTableFrame;
    assert TablesIn(m, words, map[]) == {};
    assert Maps(m, words, map[]) == map[];
    assert SlotsOf(map[]) == map[];
  }

  lemma StartConsistent(m: Machine, words: Words)
    requires Whole(m, words)
    ensures Consistent(m, Start(words))
  {
    hide Abstract, Inv, Whole, Guarded, Tree, Blockless, IsTableFrame;
    StartSeen(m, words);
    StartKeeps(m, DataIn(words, {}));
    forall f ensures Waiters(map[], f) == {} {
    }
  }

  lemma {:induction false} RunConsistent(m: Machine, worlds: seq<World>, moves: seq<Move>, i: nat)
    requires Lawful(m) && Run(m, worlds, moves) && Consistent(m, worlds[0]) && i <= |moves|
    ensures Consistent(m, worlds[i])
  {
    hide Lawful, Consistent, Does;
    if i > 0 {
      RunConsistent(m, worlds, moves, i - 1);
      MoveKeeps(m, worlds[i - 1], moves[i - 1], worlds[i]);
    }
  }

  // ---- every reference is accounted for ------------------------------------

  /** The descriptors of every space that name frame `f`, tables' and pages' alike. */
  ghost function NamesIn(m: Machine, words: Words, spaces: map<nat, Hier>, f: Phys): set<(nat, Path)> {
    set a, q | a in spaces && q in NamedAt(m, words, spaces[a], f) :: (a, q)
  }

  /** The spaces whose top table is frame `f`. */
  ghost function Roots(spaces: map<nat, Hier>, f: Phys): set<nat> {
    set a | a in spaces && spaces[a].root == f
  }

  /** Each count is the descriptors that name the frame, in every space, with the
    * spaces it is the top table of and the references held elsewhere: in prepared
    * pages, stocks and spares, and waiting for an invalidation. */
  ghost predicate Accounted(m: Machine, w: World) {
    forall f :: References(w.counts, f) == |NamesIn(m, w.words, w.spaces, f)| + |Roots(w.spaces, f)| + w.held[f]
  }

  lemma NamesOfOne(m: Machine, words: Words, spaces: map<nat, Hier>, a: nat, f: Phys)
    requires a in spaces
    ensures |NamesIn(m, words, spaces, f)| == |NamesIn(m, words, spaces - {a}, f)| + |NamedAt(m, words, spaces[a], f)|
    ensures |Roots(spaces, f)| == |Roots(spaces - {a}, f)| + if spaces[a].root == f then 1 else 0
  {
    hide NamedAt;
    var mine := set q | q in NamedAt(m, words, spaces[a], f) :: (a, q);
    SameSize(NamedAt(m, words, spaces[a], f), mine, (q: Path) => (a, q));
    NamesParted(m, words, spaces, a, f, mine);
    if spaces[a].root == f {
      assert Roots(spaces, f) == Roots(spaces - {a}, f) + {a};
    } else {
      assert Roots(spaces, f) == Roots(spaces - {a}, f);
    }
  }

  lemma NamesParted(m: Machine, words: Words, spaces: map<nat, Hier>, a: nat, f: Phys, mine: set<(nat, Path)>)
    requires a in spaces && mine == set q | q in NamedAt(m, words, spaces[a], f) :: (a, q)
    ensures |NamesIn(m, words, spaces, f)| == |NamesIn(m, words, spaces - {a}, f)| + |mine|
  {
    hide NamedAt;
    var rest := NamesIn(m, words, spaces - {a}, f);
    assert NamesIn(m, words, spaces, f) == rest + mine;
    assert rest !! mine;
  }

  /** The positions of all the hierarchies are the run machine's slots and tables. */
  lemma {:induction false} NamesOfAll(m: Machine, words: Words, spaces: map<nat, Hier>, f: Phys)
    requires !m.present(0) && Forest(m, words, spaces)
    ensures |NamesIn(m, words, spaces, f)| + |Roots(spaces, f)|
         == |Namers(m, SlotsOf(Maps(m, words, spaces)), f)| + if SomeTable(m, words, spaces, f) then 1 else 0
    decreases |spaces|
  {
    if a :| a in spaces {
      NamesStep(m, words, spaces, a, f);
      NamesOfAll(m, words, spaces - {a}, f);
    } else {
      assert NamesIn(m, words, spaces, f) == {} && Roots(spaces, f) == {};
      assert SlotsOf(Maps(m, words, spaces)) == map[];
      assert Namers(m, map[], f) == {};
    }
  }

  lemma NamesStep(m: Machine, words: Words, spaces: map<nat, Hier>, a: nat, f: Phys)
    requires !m.present(0) && Forest(m, words, spaces) && a in spaces
    ensures Forest(m, words, spaces - {a}) && |spaces - {a}| < |spaces|
    ensures var rest := spaces - {a};
            && |NamesIn(m, words, spaces, f)| + |Roots(spaces, f)| - |NamesIn(m, words, rest, f)| - |Roots(rest, f)|
            == |Namers(m, SlotsOf(Maps(m, words, spaces)), f)| - |Namers(m, SlotsOf(Maps(m, words, rest)), f)|
             + (if SomeTable(m, words, spaces, f) then 1 else 0) - (if SomeTable(m, words, rest, f) then 1 else 0)
  {
    hide NamesIn, Roots, NamedAt, Namers, SlotsOf, PagesOn, SomeTable, PageMap, IsTableFrame, Tree, Blockless, Maps,
         Whole;
    var rest := spaces - {a};
    NamesOfOne(m, words, spaces, a, f);
    NamesSplit(m, words, spaces[a], f);
    MapsFewer(m, words, spaces, a);
    SpaceNames(m, Maps(m, words, spaces), a, f);
    FewerForest(m, words, spaces, a);
    RootIsTable(m, words, spaces[a]);
    TableOfOne(m, words, spaces, a, f);
    MapSmaller(spaces, a);
  }

  lemma MapsFewer(m: Machine, words: Words, spaces: map<nat, Hier>, a: nat)
    requires a in spaces
    ensures a in Maps(m, words, spaces) && Maps(m, words, spaces)[a] == PageMap(m, words, spaces[a])
    ensures Maps(m, words, spaces - {a}) == Maps(m, words, spaces) - {a}
  {
    hide PageMap;
  }

  lemma MapSmaller<V>(spaces: map<nat, V>, a: nat)
    requires a in spaces
    ensures |spaces - {a}| < |spaces|
  {
    assert (spaces - {a}).Keys == spaces.Keys - {a};
    assert |(spaces - {a}).Keys| == |spaces - {a}| && |spaces.Keys| == |spaces|;
  }

  lemma TableOfOne(m: Machine, words: Words, spaces: map<nat, Hier>, a: nat, f: Phys)
    requires a in spaces
    ensures IsTableFrame(m, words, spaces[a], f) ==> SomeTable(m, words, spaces, f)
  {
  }

  /** A consistent world's counts are exactly its references. */
  lemma ConsistentIsAccounted(m: Machine, w: World)
    requires !m.present(0) && Consistent(m, w)
    ensures Accounted(m, w)
  {
    hide Guarded, WaitingIsHeld, Stored, Forest, NamesIn, Roots, Namers, SlotsOf, Maps, SomeTable, Sole, Isolated,
         Aligned, Made, DataIn, References;
    forall f ensures References(w.counts, f) == |NamesIn(m, w.words, w.spaces, f)| + |Roots(w.spaces, f)| + w.held[f] {
      NamesOfAll(m, w.words, w.spaces, f);
      TableInAbstract(m, w, f);
    }
  }

  /** Over every run, in every world it goes through, every reference to every frame is
    * accounted for: a table's descriptor, a page's, a space's top table, or one held. */
  lemma RunAccounted(m: Machine, worlds: seq<World>, moves: seq<Move>, i: nat)
    requires Lawful(m) && Run(m, worlds, moves) && Consistent(m, worlds[0]) && i <= |moves|
    ensures Accounted(m, worlds[i])
  {
    hide LawfulLeaf, LawfulTable, LawfulSharing, LawfulOwning, Consistent, Accounted, Does;
    RunConsistent(m, worlds, moves, i);
    AbsentZero(m);
    ConsistentIsAccounted(m, worlds[i]);
  }

  // ---- nothing kept reaches a free frame -----------------------------------

  /** Whatever any space's walker has kept, in a hold or out of one, the frame it names
    * has a reference: the allocator cannot hand it to anybody else. */
  lemma NothingCachedIsFree(m: Machine, w: World, a: nat, e: Entry)
    requires Consistent(m, w) && a in w.spaces && e in w.holds[a].cached
    ensures References(w.counts, e.frame) >= 1
  {
    hide Forest, Covered, Waiting, Stored, TablesIn, SlotsOf, Maps, DataIn, Namers, Isolated, Aligned, Made;
    if e.frame in w.holds[a].waiting {
      assert a in Waiters(w.holds, e.frame);
      OneFewer(Waiters(w.holds, e.frame), a);
      AbstractRest(m, w);
    } else {
      assert !Guard.Unnamed(m, w.words, w.spaces[a], e.frame);
      var live :| live in Live(m, w.words, w.spaces[a]) && live.frame == e.frame;
      LiveIsCounted(m, w, a, live);
    }
  }

  lemma LiveIsCounted(m: Machine, w: World, a: nat, e: Entry)
    requires Consistent(m, w) && a in w.spaces && Readable(m, w.words, w.spaces[a], e)
    ensures References(w.counts, e.frame) >= 1
  {
    hide Forest, Guarded, WaitingIsHeld, Stored, TablesIn, SlotsOf, Maps, DataIn, Namers, Isolated, Aligned, Made;
    AbstractRest(m, w);
    if e.Walks? {
      assert IsTable(m, w.words, w.spaces[a], e.path);
      assert IsTableFrame(m, w.words, w.spaces[a], e.frame);
      assert SomeTable(m, w.words, w.spaces, e.frame);
      TableInAbstract(m, w, e.frame);
    } else {
      PageFrame(m, w, a, e.page);
    }
  }

  lemma RunNeverFreesCached(m: Machine, worlds: seq<World>, moves: seq<Move>, i: nat, a: nat, e: Entry)
    requires Lawful(m) && Run(m, worlds, moves) && Consistent(m, worlds[0]) && i <= |moves|
    requires a in worlds[i].spaces && a in worlds[i].holds && e in worlds[i].holds[a].cached
    ensures References(worlds[i].counts, e.frame) >= 1
  {
    hide Lawful, Consistent, Does, References;
    RunConsistent(m, worlds, moves, i);
    NothingCachedIsFree(m, worlds[i], a, e);
  }

  // ---- isolation -----------------------------------------------------------

  /** What a program reads at a page: the row of memory its descriptor names. */
  ghost function Reads(m: Machine, w: World, a: nat, page: nat): Option<Bytes> {
    if a !in w.spaces || page !in PageMap(m, w.words, w.spaces[a]) then None else
    Some(Row(w.words, m.addr(PageMap(m, w.words, w.spaces[a])[page])))
  }

  lemma ReadsIsView(m: Machine, w: World, a: nat, page: nat)
    requires Consistent(m, w)
    ensures Reads(m, w, a, page) == View(m, Abstract(m, w), Slot(a, page))
  {
    hide Shape, Inv, PageMap, SlotsOf, SomeTable, DataIn, TablesIn, References, WellMade;
    if a in w.spaces {
      SlotIsPage(m, w.words, w.spaces, a, page);
      if page in PageMap(m, w.words, w.spaces[a]) {
        PageFrame(m, w, a, page);
        DataIsRow(m, w, m.addr(PageMap(m, w.words, w.spaces[a])[page]));
      }
    } else {
      SlotAt(Maps(m, w.words, w.spaces), Slot(a, page));
    }
  }

  /** The move is about what this space has at this page. */
  predicate About(move: Move, a: nat, page: nat) {
    match move
    case Publishes(b, p, _, _, _, _, r) => r.Done? && b == a && p == page
    case Replaces(b, p, _, _, _) => b == a && p == page
    case Unmaps(b, p, _) => b == a && p == page
    case Shares(_, b, p, _, _, r, _) => r.Done? && b == a && p == page
    case Stores(b, p, _, _) => b == a && p == page
    case Closes(b, _) => b == a
    case _ => false
  }

  lemma AboutTouches(m: Machine, w: World, move: Move, w': World, a: nat, page: nat)
    requires !About(move, a, page)
    ensures forall step | step in StepsOf(m, w, move, w') :: !Touches(step, Slot(a, page))
  {
    hide PageMap, Taken, Reached, RowsOf, TablesOut;
  }

  lemma MoveUnseen(m: Machine, w: World, move: Move, w': World, a: nat, page: nat)
    requires Lawful(m) && Consistent(m, w) && Does(m, w, move, w') && !About(move, a, page)
    ensures Reads(m, w', a, page) == Reads(m, w, a, page)
  {
    hide Lawful, Shape, Inv, Does, StepsOf, Leads, Abstract, Reads, View, Touches, About;
    MoveRefines(m, w, move, w');
    MoveKeeps(m, w, move, w');
    AboutTouches(m, w, move, w', a, page);
    LeadsSeen(m, Abstract(m, w), StepsOf(m, w, move, w'), Abstract(m, w'), Slot(a, page));
    ReadsIsView(m, w, a, page);
    ReadsIsView(m, w', a, page);
  }

  /** Over every run, the bytes a program reads at a page of its space change only by
    * moves about that page of that space: no other space's writes, copies, forks,
    * unmaps or exits reach them. */
  lemma {:induction false} RunIsolated(m: Machine, worlds: seq<World>, moves: seq<Move>, i: nat, a: nat, page: nat)
    requires Lawful(m) && Run(m, worlds, moves) && Consistent(m, worlds[0]) && i <= |moves|
    requires forall j | 0 <= j < i :: !About(moves[j], a, page)
    ensures Reads(m, worlds[i], a, page) == Reads(m, worlds[0], a, page)
  {
    hide Lawful, Consistent, Does, Reads, About;
    if i > 0 {
      RunIsolated(m, worlds, moves, i - 1, a, page);
      RunConsistent(m, worlds, moves, i - 1);
      MoveUnseen(m, worlds[i - 1], moves[i - 1], worlds[i], a, page);
    }
  }

  /** Outside a hold, a translation that lets stores through is the only page of any
    * space on its frame, so nobody's caches let a store reach a shared page. */
  lemma CachedStoresAreAlone(m: Machine, w: World, a: nat, page: nat, f: Phys, b: nat, other: nat)
    requires Consistent(m, w) && a in w.spaces && a in w.holds && w.holds[a].pending == Clean
    requires Translates(page, f, true) in w.holds[a].cached
    requires b in w.spaces && other in PageMap(m, w.words, w.spaces[b])
             && m.addr(PageMap(m, w.words, w.spaces[b])[other]) == f
    ensures b == a && other == page
  {
    hide Shape, Abstract, PageMap, Counted, Sole, Aligned, Made, References, SomeTable, WellMade;
    StoreLands(m, w, a, page, f);
    PageFrame(m, w, b, other);
    SoleWriter(m, Abstract(m, w).slots, Slot(b, other), Slot(a, page));
  }

  // ---- no table stays empty ------------------------------------------------

  lemma SpaceSole(m: Machine, w: World, a: nat)
    requires Consistent(m, w) && a in w.spaces
    ensures SoleTables(m, w.words, w.spaces[a], w.counts)
  {
    hide Guarded, WaitingIsHeld, Stored, SlotsOf, Maps, DataIn, Counted, Isolated, Aligned, Made, TablesIn, Forest;
    AbstractRest(m, w);
    forall p | IsTable(m, w.words, w.spaces[a], p) && p != Top
      ensures References(w.counts, TableAt(m, w.words, w.spaces[a].root, p).value) == 1
    {
      var f := TableAt(m, w.words, w.spaces[a].root, p).value;
      assert IsTableFrame(m, w.words, w.spaces[a], f);
      assert SomeTable(m, w.words, w.spaces, f);
      TableInAbstract(m, w, f);
    }
  }

  /** The move was refused for want of tables, with some of them linked already. */
  predicate Short(move: Move, a: nat) {
    match move
    case Publishes(b, _, _, _, _, _, r) => b == a && r == Err(ShortOfTables)
    case Shares(_, b, _, _, _, r, _) => b == a && r == Err(ShortOfTables)
    case _ => false
  }

  /** Every space's tables below the top have something in them. */
  ghost predicate Full(m: Machine, w: World, a: nat) {
    a in w.spaces ==> Populated(m, w.words, w.spaces[a])
  }

  lemma OthersPopulated(m: Machine, words: Words, words': Words, spaces: map<nat, Hier>, a: nat, taken: set<Phys>,
                        gone: set<Phys>, b: nat)
    requires OneChanged(m, words, words', spaces, a, taken, gone) && b in spaces && b != a
             && Populated(m, words, spaces[b])
    ensures Populated(m, words', spaces[b])
  {
  }

  lemma PublishFull(m: Machine, words: Words, words': Words, h: Hier, page: nat, bits: Word, was: seq<Phys>,
                    now: seq<Phys>, r: Outcome<()>)
    requires |now| <= |was| && Published(m, words, words', h, page, bits, was, now, r) && r != Err(ShortOfTables)
             && Blockless(m, words, h)
    ensures Populated(m, words, h) ==> Populated(m, words', h)
  {
    if r.Err? {
      match r.refused
      case Occupied =>
      case ShortOfTables =>
      case Blocked =>
    }
  }

  lemma PublishKeepsFull(m: Machine, w: World, w': World, a: nat, page: nat, f: Phys, flags: Word, was: seq<Phys>,
                         now: seq<Phys>, r: Outcome<()>, b: nat)
    requires Consistent(m, w) && DoesPublish(m, w, w', a, page, f, flags, was, now, r) && Full(m, w, b)
    requires b == a ==> r != Err(ShortOfTables)
    ensures Full(m, w', b)
  {
    hide Guarded, WaitingIsHeld, Stored, Abstract, Inv, OneChanged, Populated, Published, StockReady, Loose, Ours,
         PathTo, Taken, Tree, Blockless, IsTableFrame;
    PublishShape(m, w, w', a, page, f, flags, was, now, r);
    if b in w.spaces && b != a {
      OthersPopulated(m, w.words, w'.words, w.spaces, a, Taken(was, now), {}, b);
    } else if b == a {
      PublishFull(m, w.words, w'.words, w.spaces[a], page, LeafWord(m, f, flags), was, now, r);
    }
  }

  lemma RewriteFull(m: Machine, words: Words, words': Words, h: Hier, page: nat, bits: Word, r: Option<Phys>)
    requires Rewritten(m, words, words', h, page, bits, r)
    ensures Populated(m, words, h) ==> Populated(m, words', h)
  {
  }

  lemma RewriteKeepsFull(m: Machine, w: World, w': World, a: nat, page: nat, bits: Word, r: Option<Phys>, b: nat)
    requires Shape(m, w) && a in w.spaces && w'.spaces == w.spaces
             && Rewritten(m, w.words, w'.words, w.spaces[a], page, bits, r) && Full(m, w, b)
    ensures Full(m, w', b)
  {
    hide Shape, Abstract, OneChanged, Populated, Rewritten, PageMap;
    if r.None? {
      NotThere1(m, w.words, w'.words, w.spaces[a], page, bits);
    } else if b in w.spaces && b != a {
      RewriteSeen(m, w, w', a, page, bits, r.value);
      OthersPopulated(m, w.words, w'.words, w.spaces, a, {}, {}, b);
    } else if b == a {
      RewriteFull(m, w.words, w'.words, w.spaces[a], page, bits, r);
    }
  }

  lemma UnmapFull(m: Machine, words: Words, words': Words, h: Hier, page: nat, frames: seq<Phys>,
                  counts: map<Phys, nat>, r: Option<Phys>)
    requires Unmapped(m, words, words', h, page, frames, counts, r) && SoleTables(m, words, h, counts)
    ensures Populated(m, words, h) ==> Populated(m, words', h)
  {
  }

  lemma UnmapKeepsFull(m: Machine, w: World, w': World, a: nat, page: nat, stale: seq<Phys>, b: nat)
    requires Consistent(m, w) && DoesUnmap(m, w, w', a, page, stale) && Full(m, w, b)
    ensures Full(m, w', b)
  {
    hide Guarded, WaitingIsHeld, Stored, Abstract, Inv, OneChanged, Populated, Unmapped, Ours, PathTo, Shrunk, PageMap,
         SoleTables, Tree, Blockless, IsTableFrame;
    if stale == [] {
      NotUnmapped1(m, w.words, w'.words, w.spaces[a], page, w.counts);
    } else if b == a {
      SpaceSole(m, w, a);
      UnmapFull(m, w.words, w'.words, w.spaces[a], page, stale[1..], w.counts, Some(stale[0]));
    } else if b in w.spaces {
      UnmappedPages(m, w.words, w'.words, w.spaces[a], page, stale[1..], w.counts, stale[0]);
      var gone := set f | f in stale[1..];
      ShrunkForest(m, w.words, w'.words, w.spaces, a, gone);
      OthersPopulated(m, w.words, w'.words, w.spaces, a, {}, gone, b);
    }
  }

  lemma FillFull(m: Machine, w: World, f: Phys, row: Bytes, b: nat)
    requires Shape(m, w) && f in w.words && |row| == ENTRIES && !SomeTable(m, w.words, w.spaces, f) && Full(m, w, b)
    ensures Full(m, w.(words := w.words[f := row]), b)
  {
    hide Guarded, WaitingIsHeld, Stored, Populated, Tree, Blockless, IsTableFrame, PageMap, Live, SomeTable, Forest,
         TablesIn, Maps, DataIn;
    FilledForest(m, w.words, w.spaces, f, row);
  }

  lemma BreakKeepsFull(m: Machine, w: World, w': World, a: nat, page: nat, spare: Option<Phys>, ok: bool, n: nat,
                       b: nat)
    requires Consistent(m, w) && DoesBreak(m, w, w', a, page, spare, ok, n) && Full(m, w, b)
    ensures Full(m, w', b)
  {
    hide Shape, Abstract, Inv, Rewritten, PageMap, Broken, CaseOf, Loose, Populated, Ours, PathTo, SomeTable,
         References, WellMade, Guarded, Copied, HeldAfterBreak;
    var c := BreakCase(m, w, a, page, spare);
    CaseMeans(m, w, a, page, spare);
    if c.TakeBack? || c.CopyTo? {
      PreparedSeen(m, w, a, page, c);
      PageFrame(m, w, a, page);
      var mid := Refinement.Prepared(m, w, a, page, c);
      if c.CopyTo? {
        LooseIsUnnamed(m, w, c.to);
        FillFull(m, w, c.to, Row(w.words, m.addr(PageMap(m, w.words, w.spaces[a])[page])), b);
      }
      var bits := PageMap(m, w.words, w.spaces[a])[page];
      RewriteKeepsFull(m, mid, w', a, page, Broken(m, bits, c), Some(m.addr(bits)), b);
    }
  }

  lemma ShareKeepsFull(m: Machine, w: World, w': World, p: nat, c: nat, page: nat, was: seq<Phys>, now: seq<Phys>,
                       r: Outcome<()>, mid: Words, b: nat)
    requires LawfulLeaf(m) && LawfulSharing(m) && Consistent(m, w) && DoesShare(m, w, w', p, c, page, was, now, r, mid)
             && Full(m, w, b)
    requires b == c ==> r != Err(ShortOfTables)
    ensures Full(m, w', b)
  {
    hide LawfulLeaf, LawfulSharing, Inv, Abstract, Rewritten, Published, StockReady, SharedBy, PageMap, SharedBits,
         OneChanged, Covered, Ours, PathTo, CountsAfter, Taken, Live, Waiters, Populated, Guarded, WaitingIsHeld,
         Stored, Tree, Blockless, IsTableFrame;
    if page in PageMap(m, w.words, w.spaces[p]) {
      MidwayShape(m, w, w', p, c, page, was, now, r, mid);
      var w1, bits := Midway(w, w', p, mid), PageMap(m, w.words, w.spaces[p])[page];
      RewriteKeepsFull(m, w, w1, p, page, SharedBits(m, bits), Some(m.addr(bits)), b);
      if b == c {
        PublishFull(m, mid, w'.words, w.spaces[c], page, SharedBits(m, bits), was, now, r);
      } else if b in w.spaces {
        OthersPopulated(m, mid, w'.words, w.spaces, c, Taken(was, now), {}, b);
      }
    }
  }

  lemma OpenFull(m: Machine, w: World, w': World, a: nat, h: Hier, b: nat)
    requires !m.present(0) && Consistent(m, w) && DoesOpen(m, w, w', a, h) && Full(m, w, b)
    ensures Full(m, w', b)
  {
    hide Guarded, WaitingIsHeld, Stored, Abstract, Inv, Populated, Tree, Blockless, IsTableFrame, Detached, Loose,
         SomeTable, Namers;
    if b == a {
      LooseIsUnnamed(m, w, h.root);
      DetachedTree(m, w.words, h);
    }
  }

  lemma CloseFull(m: Machine, w: World, w': World, a: nat, log: seq<Path>, b: nat)
    requires !m.present(0) && Consistent(m, w) && DoesClose(m, w, w', a, log) && Full(m, w, b)
    ensures Full(m, w', b)
  {
    hide Shape, Abstract, Inv, Populated, Tree, Blockless, IsTableFrame, SomeTable, Position, ReleasedAlong, PageMap,
         Live;
    CloseShape(m, w, w', a, log);
  }

  lemma MoveKeepsFull(m: Machine, w: World, move: Move, w': World, b: nat)
    requires Lawful(m) && Consistent(m, w) && Does(m, w, move, w') && Full(m, w, b) && !Short(move, b)
    ensures Full(m, w', b)
  {
    hide LawfulLeaf, LawfulTable, LawfulSharing, LawfulOwning, Consistent, Full, DoesPublish, DoesUnmap, DoesBreak,
         DoesShare, DoesOpen, DoesClose;
    AbsentZero(m);
    match move
    case Publishes(a, page, f, flags, was, now, r) => PublishKeepsFull(m, w, w', a, page, f, flags, was, now, r, b);
    case Unmaps(a, page, stale) => UnmapKeepsFull(m, w, w', a, page, stale, b);
    case Breaks(a, page, spare, ok, n) => BreakKeepsFull(m, w, w', a, page, spare, ok, n, b);
    case Shares(p, c, page, was, now, r, mid) => ShareKeepsFull(m, w, w', p, c, page, was, now, r, mid, b);
    case Opens(a, h) => OpenFull(m, w, w', a, h, b);
    case Closes(a, log) => CloseFull(m, w, w', a, log, b);
    case _ => SmallKeepsFull(m, w, move, w', b);
  }

  lemma SmallKeepsFull(m: Machine, w: World, move: Move, w': World, b: nat)
    requires Consistent(m, w) && Does(m, w, move, w') && Full(m, w, b)
    requires move.Allocates? || move.Fills? || move.Gives? || move.Replaces? || move.Protects? || move.Flushes?
             || move.Stores?
    ensures Full(m, w', b)
  {
    hide Shape, Abstract, Inv, Populated, SomeTable, Rewritten, Loose, Harmless, References, PageMap, Ours, PathTo,
         Guarded, Live, ReleasedAll, Waiters;
    match move
    case Allocates(f) =>
      FreeIsNoTable(m, w, f);
      var zero := seq(ENTRIES, _ => 0);
      assert Zeroed(w.words, f) == w.words[f := zero];
      FillFull(m, w, f, zero, b);
    case Fills(f, row) =>
      LooseIsUnnamed(m, w, f);
      FillFull(m, w, f, row, b);
    case Replaces(a, page, f, flags, out) => RewriteKeepsFull(m, w, w', a, page, LeafWord(m, f, flags), out, b);
    case Protects(a, page, flags, at) =>
      if at.Some? {
        RewriteKeepsFull(m, w, w', a, page, LeafWord(m, at.value, flags), at, b);
      }
    case Stores(a, page, f, row) =>
      StoreLands(m, w, a, page, f);
      FillFull(m, w, f, row, b);
    case _ =>
  }

  /** Over every run in which no publish into a space is cut short for want of tables,
    * whatever else happens and in whatever order, no table of that space below the top
    * is ever left empty. A space that is opened in the run starts that way. */
  lemma {:induction false} RunLeavesNoEmptyTable(m: Machine, worlds: seq<World>, moves: seq<Move>, i: nat, a: nat)
    requires Lawful(m) && Run(m, worlds, moves) && Consistent(m, worlds[0]) && i <= |moves| && Full(m, worlds[0], a)
    requires forall j | 0 <= j < i :: !Short(moves[j], a)
    ensures Full(m, worlds[i], a)
  {
    hide Lawful, Consistent, Does, Full, Short;
    if i > 0 {
      RunLeavesNoEmptyTable(m, worlds, moves, i - 1, a);
      RunConsistent(m, worlds, moves, i - 1);
      MoveKeepsFull(m, worlds[i - 1], moves[i - 1], worlds[i], a);
    }
  }

  /** In any world, taking a page away straight after putting it in undoes it. */
  lemma PublishThenUnmap(m: Machine, w0: World, w1: World, w2: World, a: nat, page: nat, f: Phys, flags: Word,
                         was: seq<Phys>, now: seq<Phys>, stale: seq<Phys>)
    requires Lawful(m) && Consistent(m, w0) && DoesPublish(m, w0, w1, a, page, f, flags, was, now, Done(()))
             && DoesUnmap(m, w1, w2, a, page, stale)
    requires Full(m, w0, a)
    ensures PageMap(m, w2.words, w0.spaces[a]) == PageMap(m, w0.words, w0.spaces[a])
    ensures forall p | Ours(w0.spaces[a], p) ::
            TableAt(m, w2.words, w0.spaces[a].root, p) == TableAt(m, w0.words, w0.spaces[a].root, p)
    ensures stale != [] && stale[0] == f && (set t | t in stale[1..]) == Taken(was, now)
  {
    hide LawfulTable, LawfulSharing, LawfulOwning, LawfulLeaf, Guarded, WaitingIsHeld, Stored, Abstract, Inv, Populated,
         Published, Unmapped, StockReady, Ours, PathTo, SoleTables, Tree, Blockless, IsTableFrame, TableAt, PageMap,
         SomeTable;
    AbsentZero(m);
    SpaceSole(m, w0, a);
    forall t | t in was ensures !IsTableFrame(m, w0.words, w0.spaces[a], t) && References(w0.counts, t) == 1 {
      LooseFrame(m, w0, a, t);
    }
    LooseIsUnnamed(m, w0, f);
    LeafNames(m, f, flags);
    var h, bits := w0.spaces[a], LeafWord(m, f, flags);
    PublishedPages(m, w0.words, w1.words, h, page, bits, was, now, Done(()));
    if stale == [] {
      NotUnmapped1(m, w1.words, w2.words, h, page, w1.counts);
    }
    UnmappedPages(m, w1.words, w2.words, h, page, stale[1..], w1.counts, stale[0]);
    UnmapUndoesPublish(m, w0.words, w1.words, w2.words, h, page, bits, was, now, stale[1..], w0.counts);
  }

  // ---- what the methods ask for holds --------------------------------------

  /** A guard over any space of a consistent world, about to publish loose frames, has
    * what `MmGuard.Publish` asks for. */
  lemma ReadyToPublish(m: Machine, w: World, a: nat, f: Phys, was: seq<Phys>)
    requires Consistent(m, w) && a in w.spaces && Loose(w, f) && (forall t | t in was :: Loose(w, t) && t != f)
             && NoRepeats(was)
    ensures Apart(m, w.words, w.spaces[a]) && Waiting(m, w.words, w.spaces[a], w.holds[a].waiting + ([f] + was))
  {
    hide Forest, Inv, Abstract, Stored, WaitingIsHeld, Live, Covered, Fenced, Unnamed, IsTableFrame, Loose;
    NamedOnce(m, w, a);
    forall t | t in [f] + was ensures Guard.Unnamed(m, w.words, w.spaces[a], t) && t !in w.holds[a].waiting {
      LooseFrame(m, w, a, t);
    }
    NoRepeatsJoin([f], was);
    NoRepeatsJoin(w.holds[a].waiting, [f] + was);
  }

  /** Any two spaces of a consistent world can be parent and child of a fork: their
    * trees are apart, and every page shared was made by the kernel and has its
    * reference. */
  lemma ReadyToShare(m: Machine, w: World, p: nat, c: nat)
    requires Consistent(m, w) && p in w.spaces && c in w.spaces && p != c
    ensures Related(m, w.words, w.spaces[p], w.spaces[c])
    ensures WellMadeMap(m, PageMap(m, w.words, w.spaces[p]))
            && Referenced(m, PageMap(m, w.words, w.spaces[p]), w.counts)
  {
    hide Guarded, WaitingIsHeld, Stored, Inv, Abstract, PageMap, WellMade, SomeTable, References;
    forall page | page in PageMap(m, w.words, w.spaces[p])
      ensures WellMade(m, PageMap(m, w.words, w.spaces[p])[page])
              && References(w.counts, m.addr(PageMap(m, w.words, w.spaces[p])[page])) >= 1
    {
      PageFrame(m, w, p, page);
    }
  }

  /** And any space can have a share broken, with a loose frame to copy to. */
  lemma ReadyToBreak(m: Machine, w: World, a: nat, spare: Phys)
    requires Consistent(m, w) && a in w.spaces && Loose(w, spare)
    ensures Backed(m, w.words, w.spaces[a]) && Brought(m, w.words, w.spaces[a], w.holds[a].waiting, spare)
  {
    hide Guarded, WaitingIsHeld, Stored, Inv, Abstract, PageMap, WellMade, SomeTable, References, Unnamed, Namers,
         Loose, Tree, Blockless, IsTableFrame;
    LooseIsUnnamed(m, w, spare);
    LooseFrame(m, w, a, spare);
    forall page | page in PageMap(m, w.words, w.spaces[a])
      ensures var bits := PageMap(m, w.words, w.spaces[a])[page];
              WellMade(m, bits) && m.addr(bits) in w.words && |w.words[m.addr(bits)]| == ENTRIES
    {
      PageFrame(m, w, a, page);
    }
  }
}
