/** The real memory with every address space's hierarchy in it, and what a change to
  * one hierarchy leaves of all of them.
  *
  * `Abstract` reads the run machine's `System` off a world: the slots are the page
  * maps, the tables are the frames the walks reach, the counts are memory's, and the
  * data is every row that is no table's.
  */
module Worlds {
  import opened Machines
  import opened Walk
  import opened Pages
  import opened Hierarchy
  import opened Descent
  import opened Reclaim
  import opened Tables
  import opened Accounts
  import opened Guard
  import opened Share
  import opened Spaces

  /** How one space's hold of its lock stands: what its walker has kept, what is
    * pending, and the frames waiting for that. Between holds nothing is pending. */
  datatype Hold = Hold(cached: iset<Entry>, pending: Pending, waiting: seq<Phys>)

  /** Memory, its counts, every space's hierarchy and hold, and the references held
    * outside descriptors: prepared pages, stocks, spares, and whatever is waiting. */
  datatype World = World(words: Words, counts: map<Phys, nat>, spaces: map<nat, Hier>, holds: map<nat, Hold>,
                         held: multiset<Phys>)

  // ---- the forest ----------------------------------------------------------

  ghost predicate Whole(m: Machine, words: Words) {
    forall f | f in words :: |words[f]| == ENTRIES && m.frame(f)
  }

  /** Every space's tables are a tree without blocks, and no two trees meet. */
  ghost predicate Forest(m: Machine, words: Words, spaces: map<nat, Hier>) {
    && Whole(m, words)
    && (forall a | a in spaces :: Tree(m, words, spaces[a]) && Blockless(m, words, spaces[a]))
    && (forall a, b, f | a in spaces && b in spaces && a != b ::
          !(IsTableFrame(m, words, spaces[a], f) && IsTableFrame(m, words, spaces[b], f)))
  }

  /** What each space maps. */
  ghost function Maps(m: Machine, words: Words, spaces: map<nat, Hier>): map<nat, map<nat, Word>> {
    map a | a in spaces :: PageMap(m, words, spaces[a])
  }

  ghost function SlotsOf(maps: map<nat, map<nat, Word>>): map<Slot, Word> {
    map a, page | a in maps && page in maps[a] :: Slot(a, page) := maps[a][page]
  }

  ghost predicate SomeTable(m: Machine, words: Words, spaces: map<nat, Hier>, f: Phys) {
    exists a :: a in spaces && IsTableFrame(m, words, spaces[a], f)
  }

  ghost function TablesIn(m: Machine, words: Words, spaces: map<nat, Hier>): set<Phys> {
    set f | f in words && SomeTable(m, words, spaces, f)
  }

  ghost function DataIn(words: Words, tables: set<Phys>): map<Phys, Bytes> {
    map f | f in words && f !in tables :: words[f]
  }

  /** The run machine's view of the world. */
  ghost function Abstract(m: Machine, w: World): System {
    var tables := TablesIn(m, w.words, w.spaces);
    System(SlotsOf(Maps(m, w.words, w.spaces)), tables, w.counts, w.held, DataIn(w.words, tables))
  }

  // ---- slots and maps ------------------------------------------------------

  lemma SlotAt(maps: map<nat, map<nat, Word>>, k: Slot)
    ensures k in SlotsOf(maps) <==> k.space in maps && k.page in maps[k.space]
    ensures k in SlotsOf(maps) ==> SlotsOf(maps)[k] == maps[k.space][k.page]
  {
  }

  lemma SlotsPut(maps: map<nat, map<nat, Word>>, a: nat, page: nat, bits: Word, pages: map<nat, Word>)
    requires a in maps && pages == maps[a][page := bits]
    ensures SlotsOf(maps[a := pages]) == SlotsOf(maps)[Slot(a, page) := bits]
  {
    hide SlotsOf;
    var was, now := SlotsOf(maps)[Slot(a, page) := bits], SlotsOf(maps[a := pages]);
    forall k: Slot ensures (k in now <==> k in was) && (k in now ==> now[k] == was[k]) {
      SlotAt(maps, k);
      SlotAt(maps[a := pages], k);
    }
  }

  lemma SlotsCut(maps: map<nat, map<nat, Word>>, a: nat, page: nat, pages: map<nat, Word>)
    requires a in maps && pages == maps[a] - {page}
    ensures SlotsOf(maps[a := pages]) == SlotsOf(maps) - {Slot(a, page)}
  {
    hide SlotsOf;
    var was, now := SlotsOf(maps) - {Slot(a, page)}, SlotsOf(maps[a := pages]);
    forall k: Slot ensures (k in now <==> k in was) && (k in now ==> now[k] == was[k]) {
      SlotAt(maps, k);
      SlotAt(maps[a := pages], k);
    }
  }

  lemma SlotsEnd(maps: map<nat, map<nat, Word>>, a: nat)
    ensures SlotsOf(maps - {a}) == Others(SlotsOf(maps), a)
  {
    hide SlotsOf;
    var was, now := Others(SlotsOf(maps), a), SlotsOf(maps - {a});
    forall k: Slot ensures (k in now <==> k in was) && (k in now ==> now[k] == was[k]) {
      SlotAt(maps, k);
      SlotAt(maps - {a}, k);
    }
  }

  lemma SlotsStart(maps: map<nat, map<nat, Word>>, a: nat)
    requires a !in maps
    ensures SlotsOf(maps[a := map[]]) == SlotsOf(maps)
  {
    hide SlotsOf;
    var was, now := SlotsOf(maps), SlotsOf(maps[a := map[]]);
    forall k: Slot ensures (k in now <==> k in was) && (k in now ==> now[k] == was[k]) {
      SlotAt(maps, k);
      SlotAt(maps[a := map[]], k);
    }
  }

  /** The slot is the page map's entry. */
  lemma SlotIsPage(m: Machine, words: Words, spaces: map<nat, Hier>, a: nat, page: nat)
    requires a in spaces
    ensures Lookup(SlotsOf(Maps(m, words, spaces)), Slot(a, page)) == Lookup(PageMap(m, words, spaces[a]), page)
  {
    hide PageMap;
  }

  // ---- a hierarchy nobody wrote --------------------------------------------

  /** The two memories are the same but for the rows of `touched`. */
  ghost predicate Wrote(words: Words, words': Words, touched: iset<Phys>) {
    && words'.Keys == words.Keys && (forall f | f in words :: |words'[f]| == |words[f]|)
    && forall f | f in words && f !in touched :: words'[f] == words[f]
  }

  /** The hierarchy is the hierarchy it was. */
  ghost predicate SameFor(m: Machine, words: Words, words': Words, h: Hier) {
    && Tree(m, words', h) && (Blockless(m, words, h) ==> Blockless(m, words', h))
    && PageMap(m, words', h) == PageMap(m, words, h) && Live(m, words', h) == Live(m, words, h)
    && (forall f :: IsTableFrame(m, words', h, f) <==> IsTableFrame(m, words, h, f))
    && (Populated(m, words, h) ==> Populated(m, words', h))
  }

  lemma Unwritten(m: Machine, words: Words, words': Words, h: Hier, touched: iset<Phys>)
    requires Tree(m, words, h) && Wrote(words, words', touched)
    requires forall f | f in touched :: !IsTableFrame(m, words, h, f)
    ensures SameFor(m, words, words', h)
  {
    forall f | IsTableFrame(m, words, h, f) ensures f in words && f in words' && words'[f] == words[f] {
      var q :| IsTable(m, words, h, q) && TableAt(m, words, h.root, q) == Some(f);
    }
    hide Tree, PageMap, Live, Blockless, Populated, IsTableFrame;
    HierarchyKept(m, words, words', h);
  }

  /** One space's tables changed, from and to known frames, and no other space's. */
  ghost predicate OneChanged(m: Machine, words: Words, words': Words, spaces: map<nat, Hier>, a: nat, taken: set<Phys>,
                             gone: set<Phys>)
  {
    && a in spaces && Tree(m, words', spaces[a]) && Blockless(m, words', spaces[a])
    && (forall b | b in spaces && b != a :: SameFor(m, words, words', spaces[b]))
    && (forall f ::
        IsTableFrame(m, words', spaces[a], f) <==> (IsTableFrame(m, words, spaces[a], f) || f in taken) && f !in gone)
    && (forall f | f in gone :: IsTableFrame(m, words, spaces[a], f))
    && (forall f | f in taken :: f in words && !SomeTable(m, words, spaces, f))
    && words'.Keys == words.Keys && (forall f | f in words :: |words'[f]| == |words[f]|)
    && (forall f | f in words && !SomeTable(m, words, spaces, f) && f !in taken :: words'[f] == words[f])
  }

  lemma OneChangedForest(m: Machine, words: Words, words': Words, spaces: map<nat, Hier>, a: nat, taken: set<Phys>,
                         gone: set<Phys>)
    requires Forest(m, words, spaces) && OneChanged(m, words, words', spaces, a, taken, gone)
    ensures Forest(m, words', spaces)
    ensures forall f ::
            SomeTable(m, words', spaces, f) <==> (SomeTable(m, words, spaces, f) || f in taken) && f !in gone
  {
    hide Tree, Blockless, PageMap, Live, Populated, IsTableFrame;
    forall f ensures SomeTable(m, words', spaces, f) <==> (SomeTable(m, words, spaces, f) || f in taken) && f !in gone {
      OneChangedTable(m, words, words', spaces, a, taken, gone, f);
    }
    forall b, c, f | b in spaces && c in spaces && b != c
      ensures !(IsTableFrame(m, words', spaces[b], f) && IsTableFrame(m, words', spaces[c], f))
    {
      assert IsTableFrame(m, words, spaces[b], f) ==> SomeTable(m, words, spaces, f);
      assert IsTableFrame(m, words, spaces[c], f) ==> SomeTable(m, words, spaces, f);
    }
  }

  lemma OneChangedTable(m: Machine, words: Words, words': Words, spaces: map<nat, Hier>, a: nat, taken: set<Phys>,
                        gone: set<Phys>, f: Phys)
    requires Forest(m, words, spaces) && OneChanged(m, words, words', spaces, a, taken, gone)
    ensures SomeTable(m, words', spaces, f) <==> (SomeTable(m, words, spaces, f) || f in taken) && f !in gone
  {
    hide Tree, Blockless, PageMap, Live, Populated, IsTableFrame;
    if SomeTable(m, words', spaces, f) {
      var b :| b in spaces && IsTableFrame(m, words', spaces[b], f);
      assert b != a ==> IsTableFrame(m, words, spaces[b], f);
    }
    if SomeTable(m, words, spaces, f) && f !in gone {
      var b :| b in spaces && IsTableFrame(m, words, spaces[b], f);
      assert IsTableFrame(m, words', spaces[b], f);
    }
    if f in taken && f !in gone {
      assert IsTableFrame(m, words', spaces[a], f);
    }
  }

  /** The tables, the data and the other spaces' maps, after one space's change. */
  lemma OneChangedSeen(m: Machine, words: Words, words': Words, spaces: map<nat, Hier>, a: nat, taken: set<Phys>,
                       gone: set<Phys>)
    requires Forest(m, words, spaces) && OneChanged(m, words, words', spaces, a, taken, gone) && taken !! gone
    ensures Forest(m, words', spaces) && gone <= TablesIn(m, words, spaces)
    ensures TablesIn(m, words', spaces) == TablesIn(m, words, spaces) + taken - gone
    ensures Maps(m, words', spaces) == Maps(m, words, spaces)[a := PageMap(m, words', spaces[a])]
    ensures DataIn(words', TablesIn(m, words', spaces))
            == DataIn(words, TablesIn(m, words, spaces)) - taken + RowsOf(words', gone)
  {
    hide Tree, Blockless, PageMap, Live, Populated, IsTableFrame, SomeTable, Forest, Maps, DataIn, SameFor;
    OneChangedForest(m, words, words', spaces, a, taken, gone);
    GoneAreTables(m, words, words', spaces, a, taken, gone);
    OneChangedMaps(m, words, words', spaces, a, taken, gone);
    OneChangedData(m, words, words', spaces, a, taken, gone);
  }

  lemma OneChangedMaps(m: Machine, words: Words, words': Words, spaces: map<nat, Hier>, a: nat, taken: set<Phys>,
                       gone: set<Phys>)
    requires OneChanged(m, words, words', spaces, a, taken, gone)
    ensures Maps(m, words', spaces) == Maps(m, words, spaces)[a := PageMap(m, words', spaces[a])]
  {
    hide Tree, Blockless, PageMap, Live, Populated, IsTableFrame, SomeTable;
  }

  lemma OneChangedData(m: Machine, words: Words, words': Words, spaces: map<nat, Hier>, a: nat, taken: set<Phys>,
                       gone: set<Phys>)
    requires OneChanged(m, words, words', spaces, a, taken, gone) && taken !! gone
    requires forall f ::
             SomeTable(m, words', spaces, f) <==> (SomeTable(m, words, spaces, f) || f in taken) && f !in gone
    requires forall f | f in gone :: f in words && SomeTable(m, words, spaces, f)
    ensures DataIn(words', TablesIn(m, words', spaces))
            == DataIn(words, TablesIn(m, words, spaces)) - taken + RowsOf(words', gone)
  {
    hide Tree, Blockless, PageMap, Live, Populated, IsTableFrame, SomeTable, SameFor;
    var was, now := DataIn(words, TablesIn(m, words, spaces)) - taken + RowsOf(words', gone),
      DataIn(words', TablesIn(m, words', spaces));
    forall f ensures f in now <==> f in was {
    }
    forall f | f in now ensures now[f] == was[f] {
    }
  }

  lemma GoneAreTables(m: Machine, words: Words, words': Words, spaces: map<nat, Hier>, a: nat, taken: set<Phys>,
                      gone: set<Phys>)
    requires Forest(m, words, spaces) && OneChanged(m, words, words', spaces, a, taken, gone)
    ensures forall f | f in gone :: f in words && SomeTable(m, words, spaces, f)
  {
    forall f | f in gone ensures f in words && SomeTable(m, words, spaces, f) {
      assert IsTableFrame(m, words, spaces[a], f);
      TableIsStored(m, words, spaces[a], f);
    }
  }

  lemma TableIsStored(m: Machine, words: Words, h: Hier, f: Phys)
    requires Tree(m, words, h) && IsTableFrame(m, words, h, f)
    ensures f in words && m.frame(f)
  {
    var q :| IsTable(m, words, h, q) && TableAt(m, words, h.root, q) == Some(f);
  }

  /** What these frames hold. */
  ghost function RowsOf(words: Words, frames: set<Phys>): map<Phys, Bytes> {
    map f | f in frames && f in words :: words[f]
  }

  // ---- the three changes to tables -----------------------------------------

  ghost predicate NoTables(m: Machine, words: Words, spaces: map<nat, Hier>, frames: set<Phys>) {
    forall f | f in frames :: f in words && !SomeTable(m, words, spaces, f)
  }

  lemma GrownForest(m: Machine, words: Words, words': Words, spaces: map<nat, Hier>, a: nat, taken: set<Phys>)
    requires Forest(m, words, spaces) && a in spaces && Extended(m, words, words', spaces[a], taken)
             && NoTables(m, words, spaces, taken)
    ensures OneChanged(m, words, words', spaces, a, taken, {})
  {
    var h := spaces[a];
    var touched := iset f | IsTableFrame(m, words', h, f);
    assert Wrote(words, words', touched);
    forall b | b in spaces && b != a ensures SameFor(m, words, words', spaces[b]) {
      forall f | f in touched ensures !IsTableFrame(m, words, spaces[b], f) {
        assert IsTableFrame(m, words, h, f) || f in taken;
        assert IsTableFrame(m, words, spaces[b], f) ==> SomeTable(m, words, spaces, f);
      }
      Unwritten(m, words, words', spaces[b], touched);
    }
    hide Tree, Blockless, PageMap, Live, Populated, IsTableFrame, SameFor;
    forall f | f in words && !SomeTable(m, words, spaces, f) && f !in taken ensures words'[f] == words[f] {
      assert !IsTableFrame(m, words, h, f);
    }
  }

  lemma ShrunkForest(m: Machine, words: Words, words': Words, spaces: map<nat, Hier>, a: nat, gone: set<Phys>)
    requires Forest(m, words, spaces) && a in spaces && Shrunk(m, words, words', spaces[a], gone)
    ensures OneChanged(m, words, words', spaces, a, {}, gone)
  {
    var h := spaces[a];
    var touched := iset f | IsTableFrame(m, words, h, f);
    assert Wrote(words, words', touched);
    forall b | b in spaces && b != a ensures SameFor(m, words, words', spaces[b]) {
      Unwritten(m, words, words', spaces[b], touched);
    }
    hide Tree, Blockless, PageMap, Live, Populated, IsTableFrame, SameFor;
    forall f | f in words && !SomeTable(m, words, spaces, f) ensures words'[f] == words[f] {
      assert !IsTableFrame(m, words, h, f);
    }
  }

  /** A row that is no table's. */
  lemma FilledForest(m: Machine, words: Words, spaces: map<nat, Hier>, f: Phys, row: Bytes)
    requires Forest(m, words, spaces) && f in words && |row| == ENTRIES && !SomeTable(m, words, spaces, f)
    ensures var words' := words[f := row];
            && Forest(m, words', spaces) && (forall a | a in spaces :: SameFor(m, words, words', spaces[a]))
            && TablesIn(m, words', spaces) == TablesIn(m, words, spaces)
               && Maps(m, words', spaces) == Maps(m, words, spaces)
            && DataIn(words', TablesIn(m, words', spaces)) == DataIn(words, TablesIn(m, words, spaces))[f := row]
  {
    var words' := words[f := row];
    forall a | a in spaces ensures SameFor(m, words, words', spaces[a]) {
      assert IsTableFrame(m, words, spaces[a], f) ==> SomeTable(m, words, spaces, f);
      Unwritten(m, words, words', spaces[a], iset{f});
    }
    SameForest(m, words, words', spaces);
    hide Tree, Blockless, PageMap, Live, Populated, IsTableFrame, SomeTable, Forest, SameFor;
  }

  lemma SameForest(m: Machine, words: Words, words': Words, spaces: map<nat, Hier>)
    requires Forest(m, words, spaces) && Whole(m, words') && words'.Keys == words.Keys
    requires forall a | a in spaces :: SameFor(m, words, words', spaces[a])
    ensures Forest(m, words', spaces) && TablesIn(m, words', spaces) == TablesIn(m, words, spaces)
    ensures Maps(m, words', spaces) == Maps(m, words, spaces)
  {
    hide Tree, Blockless, PageMap, Live, Populated, IsTableFrame;
    forall f ensures SomeTable(m, words', spaces, f) <==> SomeTable(m, words, spaces, f) {
      if SomeTable(m, words', spaces, f) {
        var a :| a in spaces && IsTableFrame(m, words', spaces[a], f);
        assert IsTableFrame(m, words, spaces[a], f);
      }
      if SomeTable(m, words, spaces, f) {
        var a :| a in spaces && IsTableFrame(m, words, spaces[a], f);
        assert IsTableFrame(m, words', spaces[a], f);
      }
    }
  }

  // ---- worlds --------------------------------------------------------------

  /** The hold keeps its side: as `MmGuard.Valid`, for the frames waiting. */
  ghost predicate Guarded(m: Machine, words: Words, h: Hier, hold: Hold) {
    && Live(m, words, h) <= hold.cached && Covered(m, words, h, hold.cached, hold.pending)
    && Waiting(m, words, h, hold.waiting) && Fenced(m, words, h, hold.cached, hold.waiting)
  }

  /** The spaces that have frame `f` waiting. */
  ghost function Waiters(holds: map<nat, Hold>, f: Phys): set<nat> {
    set a | a in holds && f in holds[a].waiting
  }

  /** Whatever waits is held, once for each space it waits in. */
  ghost predicate WaitingIsHeld(holds: map<nat, Hold>, held: multiset<Phys>) {
    forall f :: |Waiters(holds, f)| <= held[f]
  }

  ghost predicate Stored(words: Words, counts: map<Phys, nat>) {
    forall f | References(counts, f) > 0 :: f in words
  }

  ghost predicate Shape(m: Machine, w: World) {
    && Forest(m, w.words, w.spaces) && w.holds.Keys == w.spaces.Keys
    && (forall a | a in w.spaces :: Guarded(m, w.words, w.spaces[a], w.holds[a]))
    && WaitingIsHeld(w.holds, w.held) && Stored(w.words, w.counts)
  }

  ghost predicate Consistent(m: Machine, w: World) {
    Shape(m, w) && Inv(m, Abstract(m, w))
  }

  /** A reference outside descriptors that is the only one, and that nothing waits
    * for. */
  ghost predicate Loose(w: World, f: Phys) {
    f in w.held && References(w.counts, f) == 1 && Waiters(w.holds, f) == {}
  }

  /** The same hierarchy, to a walker, is as well kept. */
  lemma KeptSame(m: Machine, words: Words, words': Words, h: Hier, hold: Hold)
    requires Guarded(m, words, h, hold) && SameFor(m, words, words', h)
    ensures Guarded(m, words', h, hold)
  {
    hide Tree, Live, PageMap, Blockless, Populated, IsTableFrame;
  }

  lemma WaitersPut(holds: map<nat, Hold>, a: nat, hold: Hold, f: Phys)
    ensures Waiters(holds[a := hold], f) == (Waiters(holds, f) - {a}) + (if f in hold.waiting then {a} else {})
    ensures a in Waiters(holds, f) <==> a in holds && f in holds[a].waiting
  {
  }

  /** More waiting, and as much more held. */
  lemma WaitMore(holds: map<nat, Hold>, held: multiset<Phys>, a: nat, hold: Hold, more: seq<Phys>)
    requires WaitingIsHeld(holds, held) && a in holds && hold.waiting == holds[a].waiting + more
    ensures WaitingIsHeld(holds[a := hold], held + multiset(more))
  {
    hide Waiters;
    forall f ensures |Waiters(holds[a := hold], f)| <= (held + multiset(more))[f] {
      WaitersPut(holds, a, hold, f);
    }
  }

  /** Less held, where nothing waits for what has gone. */
  lemma HoldLess(holds: map<nat, Hold>, held: multiset<Phys>, gone: multiset<Phys>)
    requires WaitingIsHeld(holds, held) && forall f | f in gone :: Waiters(holds, f) == {}
    ensures WaitingIsHeld(holds, held - gone)
  {
    hide Waiters;
    forall f ensures |Waiters(holds, f)| <= (held - gone)[f] {
      if f in gone {
        assert |Waiters(holds, f)| == 0;
      }
    }
  }

  /** One hold has changed without anything more waiting. */
  lemma WaitSame(holds: map<nat, Hold>, a: nat, hold: Hold)
    requires a in holds && hold.waiting == holds[a].waiting
    ensures forall f :: Waiters(holds[a := hold], f) == Waiters(holds, f)
  {
  }

  /** A shape is kept when one space's change is, and the accounts of what waits. */
  lemma ShapeAfter(m: Machine, w: World, w': World, a: nat, taken: set<Phys>, gone: set<Phys>)
    requires Shape(m, w) && OneChanged(m, w.words, w'.words, w.spaces, a, taken, gone) && a in w'.holds
    requires w'.spaces == w.spaces && w'.holds == w.holds[a := w'.holds[a]]
    requires Guarded(m, w'.words, w.spaces[a], w'.holds[a]) && WaitingIsHeld(w'.holds, w'.held)
             && Stored(w.words, w'.counts)
    ensures Shape(m, w')
  {
    hide Tree, Blockless, PageMap, Live, Populated, IsTableFrame, Forest, Guarded, WaitingIsHeld, SomeTable, SameFor;
    OneChangedForest(m, w.words, w'.words, w.spaces, a, taken, gone);
    forall b | b in w.spaces ensures Guarded(m, w'.words, w.spaces[b], w'.holds[b]) {
      if b != a {
        KeptSame(m, w.words, w'.words, w.spaces[b], w.holds[b]);
      }
    }
  }

  lemma ShapeFilled(m: Machine, w: World, f: Phys, row: Bytes)
    requires Shape(m, w) && f in w.words && |row| == ENTRIES && !SomeTable(m, w.words, w.spaces, f)
    ensures Shape(m, w.(words := w.words[f := row]))
    ensures Abstract(m, w.(words := w.words[f := row])) == Abstract(m, w).(data := Abstract(m, w).data[f := row])
  {
    hide Tree, Blockless, PageMap, Live, Populated, IsTableFrame, Forest, Guarded, WaitingIsHeld, SomeTable, SameFor,
         TablesIn, Maps, DataIn, SlotsOf;
    FilledForest(m, w.words, w.spaces, f, row);
    forall a | a in w.spaces ensures Guarded(m, w.words[f := row], w.spaces[a], w.holds[a]) {
      KeptSame(m, w.words, w.words[f := row], w.spaces[a], w.holds[a]);
    }
  }

  // ---- what the run machine's invariant says of the world -------------------

  lemma TableInAbstract(m: Machine, w: World, f: Phys)
    requires Shape(m, w)
    ensures f in Abstract(m, w).tables <==> SomeTable(m, w.words, w.spaces, f)
  {
    if SomeTable(m, w.words, w.spaces, f) {
      var a :| a in w.spaces && IsTableFrame(m, w.words, w.spaces[a], f);
      TableIsStored(m, w.words, w.spaces[a], f);
    }
  }

  /** A loose frame is in memory and is no table and no page of any space. */
  lemma LooseIsUnnamed(m: Machine, w: World, f: Phys)
    requires Consistent(m, w) && Loose(w, f)
    ensures Exclusive(Abstract(m, w), f) && f in w.words && m.frame(f) && !SomeTable(m, w.words, w.spaces, f)
    ensures Namers(m, Abstract(m, w).slots, f) == {}
  {
    hide Forest, Guarded, WaitingIsHeld, SomeTable, TablesIn, Maps, DataIn, SlotsOf, Isolated, Aligned, Namers;
    OnlyHeld(m, Abstract(m, w), f);
    TableInAbstract(m, w, f);
  }

  /** No page of a space is on a frame that no slot names. */
  lemma UnnamedInSpace(m: Machine, w: World, a: nat, f: Phys)
    requires Consistent(m, w) && a in w.spaces && Namers(m, Abstract(m, w).slots, f) == {}
             && !SomeTable(m, w.words, w.spaces, f)
    ensures Guard.Unnamed(m, w.words, w.spaces[a], f)
  {
    hide Forest, Guarded, WaitingIsHeld, TablesIn, DataIn, SlotsOf, Inv, Namers;
    var h := w.spaces[a];
    forall e | e in Live(m, w.words, h) ensures e.frame != f {
      if e.Walks? {
        assert IsTable(m, w.words, h, e.path);
        assert IsTableFrame(m, w.words, h, e.frame);
      } else {
        SlotIsPage(m, w.words, w.spaces, a, e.page);
        NotNaming(m, Abstract(m, w).slots, f);
      }
    }
  }

  lemma LooseFrame(m: Machine, w: World, a: nat, f: Phys)
    requires Consistent(m, w) && a in w.spaces && Loose(w, f)
    ensures Guard.Unnamed(m, w.words, w.spaces[a], f) && f !in w.holds[a].waiting && f != w.spaces[a].root
    ensures !IsTableFrame(m, w.words, w.spaces[a], f)
  {
    LooseIsUnnamed(m, w, f);
    UnnamedInSpace(m, w, a, f);
    assert a !in Waiters(w.holds, f);
    RootIsTable(m, w.words, w.spaces[a]);
  }

  /** One space never names a frame in two places: a page is no table, and a frame is
    * at one page only. */
  lemma NamedOnce(m: Machine, w: World, a: nat)
    requires Consistent(m, w) && a in w.spaces
    ensures Apart(m, w.words, w.spaces[a])
  {
    var h := w.spaces[a];
    forall e, e' | e in Live(m, w.words, h) && e' in Live(m, w.words, h) && e.frame == e'.frame ensures e == e' {
      SameEntry(m, w, a, e, e');
    }
  }

  lemma SameEntry(m: Machine, w: World, a: nat, e: Entry, e': Entry)
    requires Consistent(m, w) && a in w.spaces && Readable(m, w.words, w.spaces[a], e)
             && Readable(m, w.words, w.spaces[a], e') && e.frame == e'.frame
    ensures e == e'
  {
    hide Guarded, WaitingIsHeld, TablesIn, DataIn, SlotsOf, Namers, Maps, Isolated;
    var h := w.spaces[a];
    if e.Walks? && e'.Walks? {
      assert IsTable(m, w.words, h, e.path) && IsTable(m, w.words, h, e'.path);
    } else if e.Walks? {
      WalkIsNoPage(m, w, a, e, e');
    } else if e'.Walks? {
      WalkIsNoPage(m, w, a, e', e);
    } else {
      SlotIsPage(m, w.words, w.spaces, a, e.page);
      SlotIsPage(m, w.words, w.spaces, a, e'.page);
      assert Abstract(m, w).slots[Slot(a, e.page)] == PageMap(m, w.words, h)[e.page];
      assert Abstract(m, w).slots[Slot(a, e'.page)] == PageMap(m, w.words, h)[e'.page];
    }
  }

  lemma WalkIsNoPage(m: Machine, w: World, a: nat, walk: Entry, page: Entry)
    requires Consistent(m, w) && a in w.spaces && walk.Walks? && page.Translates?
    requires Readable(m, w.words, w.spaces[a], walk) && Readable(m, w.words, w.spaces[a], page)
    ensures walk.frame != page.frame
  {
    hide Guarded, WaitingIsHeld, TablesIn, DataIn, SlotsOf, Namers, Maps, Isolated;
    assert IsTable(m, w.words, w.spaces[a], walk.path);
    assert IsTableFrame(m, w.words, w.spaces[a], walk.frame) && SomeTable(m, w.words, w.spaces, walk.frame);
    TableInAbstract(m, w, walk.frame);
    SlotIsPage(m, w.words, w.spaces, a, page.page);
    PageIsNoTable(m, Abstract(m, w), Slot(a, page.page));
  }
}
