/** A hierarchy of translation tables in memory, and every change the kernel
  * makes to one.
  *
  * Each method is proved against the page map the hierarchy stands for. The
  * ghost field `cached` is the worst a hardware walker can have kept: every
  * translation and every unfinished walk that has been readable at some moment
  * since it was last told to forget.
  */
module Tables {
  import opened Machines
  import opened Walk
  import opened Pages
  import opened Hierarchy
  import opened Descent
  import opened Reclaim

  /** The levels below the top one. */
  const DEPTH: nat := 3

  /** Physical memory, and how many references each frame has. */
  class Memory {
    var words: Words
    var counts: map<Phys, nat>

    constructor (words: Words, counts: map<Phys, nat>)
      ensures this.words == words && this.counts == counts
    {
      this.words, this.counts := words, counts;
    }
  }

  /** Blank frames, used last in first out. */
  class TableStock {
    var frames: seq<Phys>

    constructor ()
      ensures frames == []
    {
      frames := [];
    }

    method Push(frame: Phys)
      requires |frames| < DEPTH
      modifies this
      ensures frames == old(frames) + [frame]
    {
      frames := frames + [frame];
    }

    method Take() returns (frame: Option<Phys>)
      modifies this
      ensures old(frames) == [] ==> frame.None? && frames == []
      ensures old(frames) != [] ==> frame.Some? && old(frames) == frames + [frame.value]
    {
      if |frames| == 0 {
        return None;
      }
      frame := Some(frames[|frames| - 1]);
      frames := frames[..|frames| - 1];
    }
  }

  datatype Pending = Clean | Page(virt: nat) | All

  /** What is pending once the descriptor of `virt` has changed as well. */
  function Noted(pending: Pending, virt: nat): Pending {
    match pending
    case Clean => Page(virt)
    case Page(already) => if already == virt then pending else All
    case All => All
  }

  /** What has still to be invalidated: nothing, one address, or everything. */
  class Tlb {
    var pending: Pending

    constructor ()
      ensures pending == Clean
    {
      pending := Clean;
    }

    method Note(virt: nat)
      modifies this
      ensures pending == Noted(old(pending), virt)
    {
      pending := match pending
                 case Clean => Page(virt)
                 case Page(already) => if already == virt then Page(virt) else All
                 case All => All;
    }

    method NoteAll()
      modifies this
      ensures pending == All
    {
      pending := All;
    }
  }

  /** A whole frame, and flags a caller may ask for. */
  ghost predicate Mappable(m: Machine, phys: Phys, flags: Word) {
    m.frame(phys) && m.asked(flags)
  }

  function LeafWord(m: Machine, phys: Phys, flags: Word): Word {
    m.leaf(phys, flags)
  }

  /** The counts once a reference to `f` has been given back. */
  function Released(counts: map<Phys, nat>, f: Phys): map<Phys, nat> {
    if f in counts && counts[f] > 0 then counts[f := counts[f] - 1] else counts
  }

  /** The counts once another reference to `f` has been taken. */
  function Held(counts: map<Phys, nat>, f: Phys): map<Phys, nat> {
    counts[f := References(counts, f) + 1]
  }

  /** The counts once a reference to each of `frames` has been given back. */
  function ReleasedAll(counts: map<Phys, nat>, frames: seq<Phys>): map<Phys, nat> {
    if frames == [] then counts else Released(ReleasedAll(counts, frames[..|frames| - 1]), frames[|frames| - 1])
  }

  lemma {:induction false} ReleasedEach(counts: map<Phys, nat>, frames: seq<Phys>, f: Phys)
    requires References(counts, f) >= multiset(frames)[f]
    ensures References(ReleasedAll(counts, frames), f) == References(counts, f) - multiset(frames)[f]
  {
    if frames != [] {
      var rest := frames[..|frames| - 1];
      assert frames == rest + [frames[|frames| - 1]];
      ReleasedEach(counts, rest, f);
    }
  }

  function Zeroed(words: Words, f: Phys): Words {
    words[f := seq(ENTRIES, _ => 0)]
  }

  /** No frame of memory is without a reference. */
  ghost predicate Exhausted(words: Words, counts: map<Phys, nat>) {
    forall f | f in words :: References(counts, f) > 0
  }

  /** A zeroed frame nothing was using, or nothing when every frame is in use. */
  method AllocZeroed(mem: Memory) returns (r: Option<Phys>)
    modifies mem
    ensures match r
            case None => mem.words == old(mem.words) && mem.counts == old(mem.counts)
              && Exhausted(mem.words, mem.counts)
            case Some(f) =>
              && f in old(mem.words) && References(old(mem.counts), f) == 0
              && mem.words == Zeroed(old(mem.words), f) && mem.counts == Held(old(mem.counts), f)
  {
    if f :| f in mem.words && References(mem.counts, f) == 0 {
      mem.words, mem.counts := Zeroed(mem.words, f), Held(mem.counts, f);
      return Some(f);
    }
    return None;
  }

  /** What is pending reaches the entry. */
  predicate Reaches(pending: Pending, e: Entry) {
    match pending
    case Clean => false
    case Page(virt) => e.Translates? && e.page == PageOf(virt)
    case All => true
  }

  /** Whatever the walker can have kept is either still so or will be thrown
    * away by what is pending. */
  ghost predicate Covered(m: Machine, words: Words, h: Hier, cached: iset<Entry>, pending: Pending) {
    forall e | e in cached :: e in Live(m, words, h) || Reaches(pending, e)
  }

  function Lookup<K, T>(pages: map<K, T>, page: K): Option<T> {
    if page in pages then Some(pages[page]) else None
  }

  /** When the sweep of a table that starts one past `cleared` comes to `i`. */
  function SweptAt(cleared: nat, i: nat): nat
    requires cleared < ENTRIES && i < ENTRIES
  {
    if i > cleared then i - cleared else i + ENTRIES - cleared
  }

  class Tables {
    const m: Machine
    const h: Hier
    const mem: Memory
    ghost var cached: iset<Entry>

    constructor (m: Machine, h: Hier, mem: Memory)
      ensures this.m == m && this.h == h && this.mem == mem
      ensures cached == Live(m, mem.words, h)
    {
      this.m, this.h, this.mem := m, h, mem;
      cached := Live(m, mem.words, h);
    }

    ghost predicate Valid()
      reads this, mem
    {
      && Tree(m, mem.words, h)
      && Live(m, mem.words, h) <= cached
    }

    /** The walker has kept nothing that is not so. */
    ghost predicate Exact()
      reads this, mem
    {
      cached == Live(m, mem.words, h)
    }

    /** Where the hardware goes from `table`, if a table is next. */
    function Step(table: Phys, virt: nat, level: nat): (next: Option<Phys>)
      requires 1 <= level <= 3
      reads mem
    {
      Next(m, Read(mem.words, table, IndexOf(virt, level)), level)
    }

    /** The table that the hardware's walk of `virt` reaches at `level`, or none when
      * the walk ends before. Nothing is written. */
    method TableFor(virt: nat, level: nat) returns (r: Option<Phys>)
      requires level <= 3
      ensures r == TableAt(m, mem.words, h.root, PathTo(PageOf(virt), 3 - level))
    {
      var table := h.root;
      ghost var page := PageOf(virt);
      for above := 4 downto level + 1
        invariant TableAt(m, mem.words, h.root, PathTo(page, 4 - above)) == Some(table)
      {
        IndexOfPage(virt, above);
        StepAlong(m, mem.words, h.root, page, 3 - above);
        var next := Step(table, virt, above);
        if next.None? {
          ReachedBelow(m, mem.words, h.root, page, 4 - above);
          return None;
        }
        table := next.value;
      }
      return Some(table);
    }

    method MissingTables(virt: nat) returns (n: nat)
      ensures n == Missing(m, mem.words, h.root, PageOf(virt))
    {
      var table := h.root;
      ghost var page := PageOf(virt);
      for level := 4 downto 1
        invariant TableAt(m, mem.words, h.root, PathTo(page, 4 - level)) == Some(table)
        invariant level <= 3 ==> TableAt(m, mem.words, h.root, PathTo(page, 1)).Some?
        invariant level <= 2 ==> TableAt(m, mem.words, h.root, PathTo(page, 2)).Some?
      {
        IndexOfPage(virt, level);
        StepAlong(m, mem.words, h.root, page, 3 - level);
        match Step(table, virt, level)
        case Some(next) => table := next;
        case None => return level;
      }
      return 0;
    }

    /** Write a descriptor. What it makes readable the walker can keep. */
    method Store(table: Phys, index: nat, bits: Word)
      requires table in mem.words && index < |mem.words[table]|
      modifies mem`words, this`cached
      ensures mem.words == Put(old(mem.words), table, index, bits)
      ensures cached == old(cached) + Live(m, mem.words, h)
    {
      mem.words := Put(mem.words, table, index, bits);
      cached := cached + Live(m, mem.words, h);
    }

    /** One level of the descent to `virt`, putting a frame of the stock in where
      * the level is missing. */
    method NextCreating(table: Phys, virt: nat, level: nat, under: Word, stock: TableStock) returns (r: Outcome<Phys>)
      requires LawfulTable(m) && !m.present(0)
      requires Valid() && 1 <= level <= 3 && Arrived(m, mem.words, h, PageOf(virt), 3 - level, table)
      requires StockReady(m, mem.words, h, stock.frames)
      modifies mem`words, this`cached, stock
      ensures Valid() && cached <= old(cached) + Live(m, mem.words, h)
      ensures Descended(m, old(mem.words), mem.words, h, PageOf(virt), 3 - level, 4 - level, old(stock.frames),
                        stock.frames, r)
    {
      ghost var page, depth := PageOf(virt), 3 - level;
      ghost var words, frames := mem.words, stock.frames;
      IndexOfPage(virt, level);
      var index := IndexOf(virt, level);
      var bits := Read(mem.words, table, index);
      if !m.present(bits) {
        var spare := stock.Take();
        if spare.None? {
          RefusedTurn(m, words, h, page, depth, table, frames, ShortOfTables);
          return Err(ShortOfTables);
        }
        LinkTurn(m, words, h, page, depth, table, under, spare.value, stock.frames);
        Store(table, index, m.table(spare.value, under));
        return Done(spare.value);
      }
      if m.endsWalk(bits, level) {
        RefusedTurn(m, words, h, page, depth, table, frames, Blocked);
        return Err(Blocked);
      }
      PassTurn(m, words, h, page, depth, table, frames);
      match m.widen(bits, under) {
        case Some(wider) =>
          WidenTurn(m, words, h, page, depth, table, wider, frames);
          Store(table, index, wider);
        case None =>
      }
      return Done(m.addr(bits));
    }

    /** The whole descent: the stock loses exactly the tables made, and every page
      * still translates as it did. */
    method LeafTableCreating(virt: nat, under: Word, stock: TableStock) returns (r: Outcome<Phys>)
      requires LawfulTable(m) && !m.present(0)
      requires Valid() && Ours(h, PathTo(PageOf(virt), 4))
      requires StockReady(m, mem.words, h, stock.frames)
      modifies mem`words, this`cached, stock
      ensures Valid() && cached <= old(cached) + Live(m, mem.words, h)
      ensures Descended(m, old(mem.words), mem.words, h, PageOf(virt), 0, 3, old(stock.frames), stock.frames, r)
    {
      ghost var page, start, frames := PageOf(virt), mem.words, stock.frames;
      r := Done(h.root);
      DescentStarts(m, mem.words, h, page, frames);
      for level := 4 downto 1
        invariant Valid() && cached <= old(cached) + Live(m, mem.words, h)
        invariant r.Done? && Descended(m, start, mem.words, h, page, 0, 4 - level, frames, stock.frames, r)
      {
        ghost var words, now := mem.words, stock.frames;
        var table := r.value;
        r := NextCreating(table, virt, level, under, stock);
        DescendedOn(m, start, words, mem.words, h, page, 3 - level, frames, now, stock.frames, table, r);
        if r.Err? {
          return;
        }
      }
    }

    /** The page map gains the page of `virt`, or says why it cannot: `Published`. */
    method Publish(virt: nat, phys: Phys, flags: Word, stock: TableStock, tlb: Tlb) returns (r: Outcome<()>)
      requires LawfulTable(m) && LawfulLeaf(m) && Mappable(m, phys, flags)
      requires Valid() && Ours(h, PathTo(PageOf(virt), 4))
      requires StockReady(m, mem.words, h, stock.frames)
      modifies mem`words, this`cached, stock, tlb
      ensures Valid() && cached <= old(cached) + Live(m, mem.words, h)
      ensures stock.frames <= old(stock.frames) && StockReady(m, mem.words, h, stock.frames)
      ensures Published(m, old(mem.words), mem.words, h, PageOf(virt), LeafWord(m, phys, flags), old(stock.frames),
                        stock.frames, r)
      ensures tlb.pending == if r.Done? then Noted(old(tlb.pending), virt) else old(tlb.pending)
    {
      ghost var page, start, frames, bits := PageOf(virt), mem.words, stock.frames, LeafWord(m, phys, flags);
      var found := LeafTableCreating(virt, flags, stock);
      if found.Err? {
        RefusedPublish(m, start, mem.words, h, page, bits, frames, stock.frames, found.refused);
        return Err(found.refused);
      }
      ghost var words := mem.words;
      IndexOfPage(virt, 0);
      var table, index := found.value, IndexOf(virt, 0);
      LeafRead(m, words, h, page, table);
      if m.present(Read(mem.words, table, index)) {
        OccupiedPublish(m, start, mem.words, h, page, bits, frames, stock.frames, table);
        return Err(Occupied);
      }
      DonePublish(m, start, words, h, page, bits, frames, stock.frames, table);
      Store(table, index, LeafWord(m, phys, flags));
      tlb.Note(virt);
      return Done(());
    }

    /** One page changes frame; the one it had is the answer, and `None` means
      * that there was no page and nothing was written. */
    method Replace(virt: nat, phys: Phys, flags: Word, tlb: Tlb) returns (r: Option<Phys>)
      requires LawfulLeaf(m) && Mappable(m, phys, flags)
      requires Valid() && Ours(h, PathTo(PageOf(virt), 4))
      modifies mem`words, this`cached, tlb
      ensures Valid() && cached <= old(cached) + Live(m, mem.words, h)
      ensures Rewritten(m, old(mem.words), mem.words, h, PageOf(virt), LeafWord(m, phys, flags), r)
      ensures tlb.pending == if r.Some? then Noted(old(tlb.pending), virt) else old(tlb.pending)
    {
      var found := TableFor(virt, 0);
      if found.None? {
        UnreachedUnmapped(m, mem.words, h, PageOf(virt));
        return None;
      }
      IndexOfPage(virt, 0);
      var table, index := found.value, IndexOf(virt, 0);
      LeafRead(m, mem.words, h, PageOf(virt), table);
      var bits := Read(mem.words, table, index);
      if !m.present(bits) {
        return None;
      }
      LeafRewritten(m, mem.words, h, PageOf(virt), table, LeafWord(m, phys, flags));
      Store(table, index, LeafWord(m, phys, flags));
      tlb.Note(virt);
      return Some(m.addr(bits));
    }

    /** The page at `virt` takes `flags` on the frame it is on. */
    method Protect(virt: nat, flags: Word, tlb: Tlb) returns (r: Option<Phys>)
      requires LawfulLeaf(m) && m.asked(flags)
      requires Valid() && Ours(h, PathTo(PageOf(virt), 4)) && NamesFrames(m, mem.words, h)
      modifies mem`words, this`cached, tlb
      ensures Valid() && cached <= old(cached) + Live(m, mem.words, h)
      ensures r.Some? ==> Rewritten(m, old(mem.words), mem.words, h, PageOf(virt), LeafWord(m, r.value, flags), r)
      ensures r.None? ==> mem.words == old(mem.words) && PageOf(virt) !in PageMap(m, mem.words, h)
      ensures tlb.pending == if r.Some? then Noted(old(tlb.pending), virt) else old(tlb.pending)
    {
      var found := TableFor(virt, 0);
      if found.None? {
        UnreachedUnmapped(m, mem.words, h, PageOf(virt));
        return None;
      }
      IndexOfPage(virt, 0);
      var table, index := found.value, IndexOf(virt, 0);
      LeafRead(m, mem.words, h, PageOf(virt), table);
      var bits := Read(mem.words, table, index);
      if !m.present(bits) {
        return None;
      }
      var phys := m.addr(bits);
      LeafRewritten(m, mem.words, h, PageOf(virt), table, LeafWord(m, phys, flags));
      Store(table, index, LeafWord(m, phys, flags));
      tlb.Note(virt);
      return Some(phys);
    }

    /** Whether the table is blank, by a sweep that begins past index `cleared`. */
    method TableIsEmpty(phys: Phys, cleared: nat) returns (empty: bool)
      requires cleared < ENTRIES && phys in mem.words && |mem.words[phys]| == ENTRIES && !m.present(0)
      ensures empty <==> Blank(m, mem.words, phys)
    {
      for step := 1 to ENTRIES + 1
        invariant forall i: nat | i < ENTRIES && SweptAt(cleared, i) < step :: !m.present(Read(mem.words, phys, i))
      {
        var index := (cleared + step) % ENTRIES;
        assert SweptAt(cleared, index) == step;
        if m.present(Read(mem.words, phys, index)) {
          return false;
        }
      }
      return true;
    }

    /** The table below `level` on the way to `virt`, and the one above it, when it
      * is empty and nothing else holds it. */
    method Reclaimable(virt: nat, level: nat) returns (r: Option<(Phys, Phys)>)
      requires !m.present(0) && Valid() && Ours(h, PathTo(PageOf(virt), 4)) && 1 <= level <= 3
      ensures r.None? ==> Kept(m, mem.words, h, PageOf(virt), 4 - level, mem.counts)
      ensures r.Some? ==>
                && Arrived(m, mem.words, h, PageOf(virt), 3 - level, r.value.0)
                   && Arrived(m, mem.words, h, PageOf(virt), 4 - level, r.value.1)
                && Blank(m, mem.words, r.value.1) && References(mem.counts, r.value.1) == 1
    {
      hide Live, Tree, PageMap, Ours;
      ghost var page := PageOf(virt);
      StepAlong(m, mem.words, h.root, page, 3 - level);
      var parent := TableFor(virt, level);
      if parent.None? {
        return None;
      }
      IndexOfPage(virt, level);
      var bits := Read(mem.words, parent.value, IndexOf(virt, level));
      if !m.present(bits) || m.endsWalk(bits, level) {
        return None;
      }
      var table := m.addr(bits);
      ArrivedIsTable(m, mem.words, h, page, 4 - level, table);
      var empty := TableIsEmpty(table, IndexOf(virt, level - 1));
      if !empty || References(mem.counts, table) != 1 {
        return None;
      }
      return Some((parent.value, table));
    }

    /** Take out the table below `level` on the way to `virt` when it is empty
      * and nothing else holds it. */
    method ReclaimLevel(virt: nat, level: nat, tlb: Tlb, reclaimed: TableStock) returns (taken: bool)
      requires !m.present(0) && Valid() && Ours(h, PathTo(PageOf(virt), 4))
      requires 1 <= level <= 3 && |reclaimed.frames| < DEPTH
      modifies mem`words, this`cached, tlb, reclaimed
      ensures Valid() && cached <= old(cached) + Live(m, old(mem.words), h)
      ensures Live(m, mem.words, h) <= Live(m, old(mem.words), h)
      ensures !taken ==> mem.words == old(mem.words) && reclaimed.frames == old(reclaimed.frames)
                         && tlb.pending == old(tlb.pending)
      ensures !taken ==> Kept(m, mem.words, h, PageOf(virt), 4 - level, mem.counts)
      ensures taken ==> |reclaimed.frames| == old(|reclaimed.frames|) + 1 && old(reclaimed.frames) <= reclaimed.frames
                        && tlb.pending == All
      ensures taken ==> TookOne(m, old(mem.words), mem.words, h, PageOf(virt), 3 - level,
                                reclaimed.frames[|reclaimed.frames| - 1])
    {
      hide Live, Tree, TookOne, Kept, Arrived, Blank, Ours, PathTo, Put, IndexOf, PageIndex, PageOf;
      var found := Reclaimable(virt, level);
      if found.None? {
        return false;
      }
      var (parent, table) := found.value;
      IndexOfPage(virt, level);
      ReclaimTurn(m, mem.words, h, PageOf(virt), 3 - level, parent, table);
      Store(parent, IndexOf(virt, level), 0);
      tlb.NoteAll();
      reclaimed.Push(table);
      return true;
    }

    /** No page is affected: the run of blank tables above `virt` goes, lowest
      * first, until one that is not blank or is held elsewhere. */
    method ReclaimTables(virt: nat, tlb: Tlb, reclaimed: TableStock)
      requires !m.present(0) && Valid() && Ours(h, PathTo(PageOf(virt), 4)) && reclaimed.frames == []
      modifies mem`words, this`cached, tlb, reclaimed
      ensures Valid() && cached <= old(cached) + Live(m, old(mem.words), h)
      ensures |reclaimed.frames| <= DEPTH
      ensures Settled(m, old(mem.words), mem.words, h, PageOf(virt), reclaimed.frames, mem.counts)
      ensures tlb.pending == if reclaimed.frames == [] then old(tlb.pending) else All
    {
      hide Tree, Live, Reclaimed, TookOne, Settled, Kept;
      ghost var page, start := PageOf(virt), mem.words;
      ReclaimStarts(m, start, h, page);
      for level := 1 to 4
        invariant Valid() && cached <= old(cached) + Live(m, start, h)
        invariant Live(m, mem.words, h) <= Live(m, start, h)
        invariant |reclaimed.frames| == level - 1
        invariant Reclaimed(m, start, mem.words, h, page, 3, 4 - level, reclaimed.frames)
        invariant tlb.pending == if reclaimed.frames == [] then old(tlb.pending) else All
      {
        ghost var words, frames := mem.words, reclaimed.frames;
        var taken := ReclaimLevel(virt, level, tlb, reclaimed);
        if !taken {
          SettledAt(m, start, mem.words, h, page, 4 - level, reclaimed.frames, mem.counts);
          return;
        }
        assert reclaimed.frames == frames + [reclaimed.frames[|frames|]];
        ReclaimedOn(m, start, words, mem.words, h, page, 3 - level, reclaimed.frames[|frames|], frames);
      }
      SettledAtTop(m, start, mem.words, h, page, reclaimed.frames, mem.counts);
    }

    /** The page map without this page. Its frame is the answer and the tables
      * that were only there for it are in `reclaimed`. */
    method Unmap(virt: nat, tlb: Tlb, reclaimed: TableStock) returns (r: Option<Phys>)
      requires !m.present(0) && Valid() && Ours(h, PathTo(PageOf(virt), 4)) && reclaimed.frames == []
      modifies mem`words, this`cached, tlb, reclaimed
      ensures Valid() && cached <= old(cached) + Live(m, old(mem.words), h)
      ensures Unmapped(m, old(mem.words), mem.words, h, PageOf(virt), reclaimed.frames, mem.counts, r)
      ensures tlb.pending == if r.None? then old(tlb.pending)
                             else if reclaimed.frames == [] then Noted(old(tlb.pending), virt)
                             else All
    {
      ghost var page, start := PageOf(virt), mem.words;
      var found := TableFor(virt, 0);
      if found.None? {
        UnreachedUnmapped(m, mem.words, h, page);
        return None;
      }
      IndexOfPage(virt, 0);
      var table, index := found.value, IndexOf(virt, 0);
      LeafRead(m, mem.words, h, page, table);
      var bits := Read(mem.words, table, index);
      if !m.present(bits) {
        return None;
      }
      LeafCleared(m, mem.words, h, page, table, mem.counts);
      hide Tree, Live, Shrunk, Settled, Unmapped, PageMap, PopulatedBut, SoleTables;
      Store(table, index, 0);
      tlb.Note(virt);
      ghost var words := mem.words;
      ReclaimTables(virt, tlb, reclaimed);
      UnmapDone(m, start, words, mem.words, h, page, reclaimed.frames, mem.counts);
      return Some(m.addr(bits));
    }

    /** What the page map has at the page of `virt`. */
    method Leaf(virt: nat) returns (r: Option<Word>)
      requires !m.present(0) && Valid() && Ours(h, PathTo(PageOf(virt), 4))
      ensures r == Lookup(PageMap(m, mem.words, h), PageOf(virt))
    {
      var found := TableFor(virt, 0);
      if found.None? {
        UnreachedUnmapped(m, mem.words, h, PageOf(virt));
        return None;
      }
      IndexOfPage(virt, 0);
      LeafRead(m, mem.words, h, PageOf(virt), found.value);
      var bits := Read(mem.words, found.value, IndexOf(virt, 0));
      if m.present(bits) {
        return Some(bits);
      }
      return None;
    }

    /** The flags in what the page map has there. */
    method FlagsOf(virt: nat) returns (r: Option<Word>)
      requires !m.present(0) && Valid() && Ours(h, PathTo(PageOf(virt), 4))
      ensures match Lookup(PageMap(m, mem.words, h), PageOf(virt))
              case None => r.None?
              case Some(bits) => r == Some(m.flags(bits))
    {
      var bits := Leaf(virt);
      return match bits case None => None case Some(b) => Some(m.flags(b));
    }

    /** What `virt` reaches: where the descriptor that ends the walk points, at
      * which level, and how far into what it covers the address is. */
    method Translate(virt: nat) returns (r: Option<(Phys, nat, nat)>)
      requires !m.present(0) && Valid() && Ours(h, PathTo(PageOf(virt), 4))
      ensures match r
              case None => PageOf(virt) !in PageMap(m, mem.words, h)
              case Some((base, level, offset)) =>
                && level <= 3 && offset == Within(virt, level)
                && (level == 0 ==> Lookup(PageMap(m, mem.words, h), PageOf(virt)) != None
                                   && base == m.addr(PageMap(m, mem.words, h)[PageOf(virt)]))
                && (level > 0 ==> PageOf(virt) !in PageMap(m, mem.words, h)
                                  && BlockAt(m, mem.words, h.root, PageOf(virt), level, base))
    {
      hide Tree, PageMap, Within, Ours, BlockAt;
      var table := h.root;
      ghost var page := PageOf(virt);
      for level := 4 downto 1
        invariant Arrived(m, mem.words, h, page, 4 - level, table)
      {
        IndexOfPage(virt, level);
        var bits := Read(mem.words, table, IndexOf(virt, level));
        DescentGoesOn(m, mem.words, h, page, 3 - level, table);
        if !m.present(bits) || m.endsWalk(bits, level) {
          return if m.present(bits) then Some((m.addr(bits), level, Within(virt, level))) else None;
        }
        table := m.addr(bits);
      }
      IndexOfPage(virt, 0);
      LeafRead(m, mem.words, h, page, table);
      var bits := Read(mem.words, table, IndexOf(virt, 0));
      if !m.present(bits) {
        return None;
      }
      return Some((m.addr(bits), 0, Within(virt, 0)));
    }

    // ---- the translation caches --------------------------------------------

    /** The walker forgets what it kept for one page. */
    method FlushPage(virt: nat)
      modifies this`cached
      ensures cached == (iset e | e in old(cached) && !(e.Translates? && e.page == PageOf(virt)))
              + Live(m, mem.words, h)
    {
      cached := (iset e | e in cached && !(e.Translates? && e.page == PageOf(virt))) + Live(m, mem.words, h);
    }

    /** The walker forgets everything it kept. */
    method FlushAll()
      modifies this`cached
      ensures cached == Live(m, mem.words, h)
    {
      cached := Live(m, mem.words, h);
    }

    /** Give a reference back. However many others there are, nothing stale may
      * name the frame; and while the hierarchy names it, this may not be the last. */
    method Release(f: Phys)
      requires forall e | e in cached && e.frame == f :: e in Live(m, mem.words, h) && References(mem.counts, f) > 1
      modifies mem`counts
      ensures mem.counts == Released(old(mem.counts), f)
    {
      mem.counts := Released(mem.counts, f);
    }
  }
}
