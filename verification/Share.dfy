/** The fork: a walk of the parent's tables, driven by address, that shares every
  * page with a child hierarchy and leaves both sides marked.
  */
module Share {
  import opened Machines
  import opened Walk
  import opened Pages
  import opened Hierarchy
  import opened Descent
  import opened Reclaim
  import opened Tables
  import opened Guard

  // ---- a change to one hierarchy and the other -----------------------------

  ghost predicate RowsKept(m: Machine, words: Words, words': Words, h: Hier) {
    forall f | IsTableFrame(m, words, h, f) :: f in words && f in words' && words'[f] == words[f]
  }

  /** A hierarchy whose tables are not written is the hierarchy it was. */
  lemma {:induction false} PathKept(m: Machine, words: Words, words': Words, h: Hier, q: Path)
    requires RowsKept(m, words, words', h) && Ours(h, q)
    ensures TableAt(m, words', h.root, q) == TableAt(m, words, h.root, q)
    ensures Desc(m, words', h.root, q) == Desc(m, words, h.root, q)
  {
    if q.Down? {
      assert Ours(h, q.up);
      PathKept(m, words, words', h, q.up);
      if TableAt(m, words, h.root, q.up).Some? {
        assert IsTable(m, words, h, q.up);
        assert IsTableFrame(m, words, h, TableAt(m, words, h.root, q.up).value);
      }
    }
  }

  ghost predicate SameHierarchy(m: Machine, words: Words, words': Words, h: Hier) {
    && (forall q | Ours(h, q) :: TableAt(m, words', h.root, q) == TableAt(m, words, h.root, q))
    && (forall q | Ours(h, q) :: Desc(m, words', h.root, q) == Desc(m, words, h.root, q))
  }

  lemma HierarchyKept(m: Machine, words: Words, words': Words, h: Hier)
    requires Tree(m, words, h) && RowsKept(m, words, words', h)
    requires words'.Keys == words.Keys && forall f | f in words :: |words'[f]| == |words[f]|
    ensures SameHierarchy(m, words, words', h) && Tree(m, words', h)
    ensures PageMap(m, words', h) == PageMap(m, words, h)
    ensures forall f :: IsTableFrame(m, words', h, f) <==> IsTableFrame(m, words, h, f)
    ensures Blockless(m, words, h) ==> Blockless(m, words', h)
    ensures Populated(m, words, h) ==> Populated(m, words', h)
    ensures Live(m, words', h) == Live(m, words, h)
  {
    forall q | Ours(h, q)
      ensures TableAt(m, words', h.root, q) == TableAt(m, words, h.root, q)
      ensures Desc(m, words', h.root, q) == Desc(m, words, h.root, q)
    {
      PathKept(m, words, words', h, q);
    }
    hide Live, PageMap, Tree, Blockless, Populated, IsTableFrame, RowsKept;
    SamePopulated(m, words, words', h);
    SameTablesSameFrames(m, words, words', h);
    SameTablesIsTree(m, words, words', h);
    SameDescsSamePages(m, words, words', h);
    SameDescsSameReads(m, words, words', h);
  }

  lemma SameDescsSamePages(m: Machine, words: Words, words': Words, h: Hier)
    requires SameHierarchy(m, words, words', h)
    ensures PageMap(m, words', h) == PageMap(m, words, h)
    ensures Blockless(m, words, h) ==> Blockless(m, words', h)
  {
    assert PresentBut(m, words, words', h, Top);
    PagesKept(m, words, words', h, Top);
  }

  lemma SamePopulated(m: Machine, words: Words, words': Words, h: Hier)
    requires SameHierarchy(m, words, words', h)
    ensures Populated(m, words, h) ==> Populated(m, words', h)
  {
    assert PresentBut(m, words, words', h, Top);
    if Populated(m, words, h) {
      forall p | IsTable(m, words', h, p) && p != Top ensures HasEntry(m, words', TableAt(m, words', h.root, p).value) {
        assert IsTable(m, words, h, p);
        EntryKept(m, words, words', h, Top, p);
      }
    }
  }

  lemma SameDescsSameReads(m: Machine, words: Words, words': Words, h: Hier)
    requires SameHierarchy(m, words, words', h) && PageMap(m, words', h) == PageMap(m, words, h)
    ensures Live(m, words', h) == Live(m, words, h)
  {
    forall e ensures Readable(m, words', h, e) <==> Readable(m, words, h, e) {
    }
  }

  // ---- the next block with a last-level table ------------------------------

  /** The block of addresses `virt` is in has a last-level table. */
  ghost predicate Block(m: Machine, words: Words, root: Phys, virt: nat) {
    TableAt(m, words, root, PathTo(PageOf(virt), 3)).Some?
  }

  lemma SamePath(virt: nat, level: nat, w: nat)
    requires virt < PAGES * PAGE_BYTES && w < PAGES * PAGE_BYTES && 1 <= level <= 3
    requires virt / LevelSize(level) == w / LevelSize(level)
    ensures PathTo(PageOf(virt), 4 - level) == PathTo(PageOf(w), 4 - level)
  {
    var a, b := virt / PAGE_BYTES, w / PAGE_BYTES;
    assert a < PAGES && b < PAGES && PageOf(virt) == a && PageOf(w) == b;
    AddressIndex(virt, level);
    AddressIndex(w, level);
    hide PageOf, LevelSize, Span, PathTo;
    PathToSame(a, b, 4 - level);
  }

  /** Everything one descriptor covers is missing together. */
  lemma MissingTogether(m: Machine, words: Words, root: Phys, virt: nat, level: nat, w: nat)
    requires virt < PAGES * PAGE_BYTES && w < PAGES * PAGE_BYTES && 1 <= level <= 3
    requires TableAt(m, words, root, PathTo(PageOf(virt), 4 - level)).None?
    requires virt / LevelSize(level) == w / LevelSize(level)
    ensures !Block(m, words, root, w)
  {
    hide PageOf, LevelSize, TableAt, PathTo;
    SamePath(virt, level, w);
    ReachedBelow(m, words, root, PageOf(w), 4 - level);
  }

  lemma MissingAt(m: Machine, words: Words, root: Phys, page: nat)
    ensures var n := Missing(m, words, root, page);
            n <= 3 && if n == 0 then TableAt(m, words, root, PathTo(page, 3)).Some?
              else TableAt(m, words, root, PathTo(page, 4 - n)).None?
  {
  }

  /** The first address past what the descriptor of `virt` at `level` covers. */
  function NextAt(virt: nat, level: nat): (next: nat)
    requires 1 <= level <= 3
    ensures virt < next && next % LevelSize(1) == 0
    ensures forall w: nat | virt <= w < next :: w / LevelSize(level) == virt / LevelSize(level)
  {
    NextIsClose(virt, level);
    virt / LevelSize(level) * LevelSize(level) + LevelSize(level)
  }

  lemma SameQuotient(virt: nat, level: nat, w: nat)
    requires 1 <= level <= 3 && virt <= w < virt / LevelSize(level) * LevelSize(level) + LevelSize(level)
    ensures w / LevelSize(level) == virt / LevelSize(level)
  {
    match level
    case 1 =>
    case 2 =>
    case _ =>
  }

  lemma NextIsClose(virt: nat, level: nat)
    requires 1 <= level <= 3
    ensures var next := virt / LevelSize(level) * LevelSize(level) + LevelSize(level);
            && virt < next && next % LevelSize(1) == 0
            && forall w: nat | virt <= w < next :: w / LevelSize(level) == virt / LevelSize(level)
  {
    NextIsAligned(virt, level);
    hide LevelSize;
    forall w: nat | virt <= w < virt / LevelSize(level) * LevelSize(level) + LevelSize(level)
      ensures w / LevelSize(level) == virt / LevelSize(level)
    {
      SameQuotient(virt, level, w);
    }
  }

  lemma NextIsAligned(virt: nat, level: nat)
    requires 1 <= level <= 3
    ensures LevelSize(level) > 0 && LevelSize(1) > 0
    ensures var next := virt / LevelSize(level) * LevelSize(level) + LevelSize(level);
            virt < next && next % LevelSize(1) == 0
  {
    NextIsWhole(virt);
    assert LevelSize(level) == match level case 1 => 0x20_0000 case 2 => 0x4000_0000 case _ => 0x80_0000_0000;
    hide LevelSize;
  }

  lemma NextIsWhole(virt: nat)
    ensures var next := virt / 0x20_0000 * 0x20_0000 + 0x20_0000; virt < next && next % 0x20_0000 == 0
    ensures var next := virt / 0x4000_0000 * 0x4000_0000 + 0x4000_0000; virt < next && next % 0x20_0000 == 0
    ensures var next := virt / 0x80_0000_0000 * 0x80_0000_0000 + 0x80_0000_0000; virt < next && next % 0x20_0000 == 0
  {
    var b, c := virt / 0x4000_0000 + 1, virt / 0x80_0000_0000 + 1;
    assert b * 0x4000_0000 == 0x20_0000 * (512 * b);
    assert c * 0x80_0000_0000 == 0x20_0000 * (0x4_0000 * c);
  }

  /** The first block that has a last-level table, looking from the block `from` is
    * in up to `limit`, or up to the end of what four levels translate. */
  method NextPopulated(tables: Tables, from: nat, limit: nat) returns (r: Option<nat>)
    ensures var top := if limit < PAGES * PAGE_BYTES then limit else PAGES * PAGE_BYTES;
            var bottom := from / LevelSize(1) * LevelSize(1);
            match r
            case Some(virt) =>
              && bottom <= virt < top && virt % LevelSize(1) == 0
                 && Block(tables.m, tables.mem.words, tables.h.root, virt)
              && forall w: nat | bottom <= w < virt :: !Block(tables.m, tables.mem.words, tables.h.root, w)
            case None => forall w: nat | bottom <= w < top :: !Block(tables.m, tables.mem.words, tables.h.root, w)
  {
    var top := if limit < PAGES * PAGE_BYTES then limit else PAGES * PAGE_BYTES;
    var virt := from / LevelSize(1) * LevelSize(1);
    ghost var bottom := virt;
    while virt < top
      invariant bottom <= virt && virt % LevelSize(1) == 0
      invariant forall w: nat | bottom <= w < virt && w < top :: !Block(tables.m, tables.mem.words, tables.h.root, w)
      decreases top - virt
    {
      var level := tables.MissingTables(virt);
      MissingAt(tables.m, tables.mem.words, tables.h.root, PageOf(virt));
      if level == 0 {
        return Some(virt);
      }
      var next := NextAt(virt, level);
      forall w: nat | virt <= w < next && w < top ensures !Block(tables.m, tables.mem.words, tables.h.root, w) {
        MissingTogether(tables.m, tables.mem.words, tables.h.root, virt, level, w);
      }
      virt := next;
    }
    return None;
  }

  // ---- sharing one page ----------------------------------------------------

  /** A descriptor the kernel made. */
  ghost predicate WellMade(m: Machine, bits: Word) {
    exists p, f :: m.frame(p) && m.asked(f) && bits == m.leaf(p, f)
  }

  ghost predicate WellMadeMap(m: Machine, pages: map<nat, Word>) {
    forall page | page in pages :: WellMade(m, pages[page])
  }

  /** What a descriptor becomes when a second address space shares its page. */
  function SharedBits(m: Machine, bits: Word): Word {
    match m.shared(m.flags(bits))
    case Some(marked) => m.leaf(m.addr(bits), marked)
    case None => bits
  }

  /** Sharing keeps the frame, gives both sides the same descriptor, and leaves
    * neither of them one the hardware writes through. */
  lemma SharedIsReadOnly(m: Machine, bits: Word)
    requires LawfulLeaf(m) && LawfulSharing(m) && WellMade(m, bits)
    ensures m.frame(m.addr(bits)) && m.asked(m.flags(bits))
    ensures m.shared(m.flags(bits)).Some? ==> m.asked(m.shared(m.flags(bits)).value)
    ensures SharedBits(m, bits)
            == m.leaf(m.addr(bits), match m.shared(m.flags(bits)) case Some(g) => g case None => m.flags(bits))
    ensures m.addr(SharedBits(m, bits)) == m.addr(bits) && m.present(SharedBits(m, bits))
    ensures WellMade(m, SharedBits(m, bits)) && !m.writes(SharedBits(m, bits))
  {
    var p, f :| m.frame(p) && m.asked(f) && bits == m.leaf(p, f);
    var read := m.flags(bits);
    assert m.leaf(p, read) == bits;
    match m.shared(read)
    case Some(g) => assert m.frame(p) && m.asked(g) && SharedBits(m, bits) == m.leaf(p, g);
    case None =>
  }

  /** Mapping `phys` with `flags` gives the shared descriptor. */
  ghost predicate SharesAs(m: Machine, bits: Word, phys: Phys, flags: Word) {
    && phys == m.addr(bits) && Mappable(m, phys, flags)
    && LeafWord(m, phys, flags) == SharedBits(m, bits)
  }

  ghost predicate Related(m: Machine, words: Words, hp: Hier, hc: Hier) {
    && Tree(m, words, hp) && Tree(m, words, hc)
    && forall f :: !(IsTableFrame(m, words, hp, f) && IsTableFrame(m, words, hc, f))
  }

  /** A change that writes only the one hierarchy's tables leaves the other as it
    * was, and the two apart. */
  lemma OtherKept(m: Machine, words: Words, words': Words, ours: Hier, other: Hier, used: set<Phys>)
    requires Tree(m, words, other) && Extended(m, words, words', ours, used)
    requires forall f :: !(IsTableFrame(m, words, ours, f) && IsTableFrame(m, words, other, f))
    requires forall f | f in used :: !IsTableFrame(m, words, other, f)
    ensures SameHierarchy(m, words, words', other) && Tree(m, words', other)
    ensures PageMap(m, words', other) == PageMap(m, words, other) && Live(m, words', other) == Live(m, words, other)
    ensures forall f :: IsTableFrame(m, words', other, f) <==> IsTableFrame(m, words, other, f)
    ensures forall f :: !(IsTableFrame(m, words', ours, f) && IsTableFrame(m, words', other, f))
    ensures Blockless(m, words, other) ==> Blockless(m, words', other)
    ensures Populated(m, words, other) ==> Populated(m, words', other)
  {
    forall f | IsTableFrame(m, words, other, f) ensures f in words && f in words' && words'[f] == words[f] {
      var q :| IsTable(m, words, other, q) && TableAt(m, words, other.root, q) == Some(f);
    }
    HierarchyKept(m, words, words', other);
    hide Tree, PageMap, Live, SameHierarchy, Blockless, Populated;
  }

  lemma SpareStays(m: Machine, words: Words, words': Words, ours: Hier, other: Hier, frames: seq<Phys>)
    requires StockReady(m, words, ours, frames) && Extended(m, words, words', other, {})
    requires forall f | f in frames :: !IsTableFrame(m, words, other, f)
    requires forall f :: IsTableFrame(m, words', ours, f) <==> IsTableFrame(m, words, ours, f)
    ensures StockReady(m, words', ours, frames)
  {
    forall i | 0 <= i < |frames| ensures Spare(m, words', ours, frames[i]) {
      var f := frames[i];
      assert f in frames && words'[f] == words[f];
      forall k ensures !m.present(Read(words', f, k)) {
        assert Read(words', f, k) == Read(words, f, k);
      }
    }
  }

  /** What sharing the page did: the parent's descriptor is marked, the child has
    * the same one unless it was refused, and nothing else about either map
    * changed. */
  ghost predicate SharedPage(m: Machine, words: Words, words': Words, hp: Hier, hc: Hier, page: nat, was: seq<Phys>,
                             now: seq<Phys>, r: Outcome<()>)
  {
    var pm, cm := PageMap(m, words, hp), PageMap(m, words, hc);
    && Related(m, words', hp, hc)
    && now <= was && StockReady(m, words', hc, now) && (forall f | f in now :: !IsTableFrame(m, words', hp, f))
    && (forall q | Ours(hp, q) :: TableAt(m, words', hp.root, q) == TableAt(m, words, hp.root, q))
    && (forall f :: IsTableFrame(m, words', hp, f) <==> IsTableFrame(m, words, hp, f))
    && (forall f :: IsTableFrame(m, words', hc, f) <==> IsTableFrame(m, words, hc, f) || f in Taken(was, now))
    && words'.Keys == words.Keys && (forall f | f in words :: |words'[f]| == |words[f]|)
    && (Blockless(m, words, hc) ==> Blockless(m, words', hc))
    && if page !in pm then r.Done? && words' == words && now == was else
       && PageMap(m, words', hp) == pm[page := SharedBits(m, pm[page])]
       && PageMap(m, words', hc) == (if r.Done? then cm[page := SharedBits(m, pm[page])] else cm)
       && (r == Err(Occupied) <==> page in cm)
       && (r == Err(ShortOfTables) ==> |was| < Missing(m, words, hc.root, page))
       && (r == Err(Blocked) ==> !Blockless(m, words, hc))
  }

  /** The parent's half: the mark, where it takes one. */
  ghost predicate MarkedPage(m: Machine, words: Words, words': Words, hp: Hier, hc: Hier, page: nat,
                             frames: seq<Phys>)
  {
    var pm := PageMap(m, words, hp);
    && Related(m, words', hp, hc) && page in pm
    && Rewritten(m, words, words', hp, page, SharedBits(m, pm[page]), Some(m.addr(pm[page])))
    && (forall q | Ours(hp, q) :: TableAt(m, words', hp.root, q) == TableAt(m, words, hp.root, q))
    && (forall f :: IsTableFrame(m, words', hp, f) <==> IsTableFrame(m, words, hp, f))
    && PageMap(m, words', hc) == PageMap(m, words, hc)
    && (forall f :: IsTableFrame(m, words', hc, f) <==> IsTableFrame(m, words, hc, f))
    && words'.Keys == words.Keys && (forall f | f in words :: |words'[f]| == |words[f]|)
    && (forall q | Ours(hc, q) :: TableAt(m, words', hc.root, q) == TableAt(m, words, hc.root, q))
    && StockReady(m, words', hc, frames)
    && (Blockless(m, words', hc) == Blockless(m, words, hc))
    && (Populated(m, words, hc) ==> Populated(m, words', hc))
    && Live(m, words', hc) == Live(m, words, hc)
  }

  lemma MarkedByStore(m: Machine, words: Words, hp: Hier, hc: Hier, page: nat, table: Phys, frames: seq<Phys>)
    requires !m.present(0) && Related(m, words, hp, hc) && Arrived(m, words, hp, page, 3, table)
    requires page in PageMap(m, words, hp) && m.present(SharedBits(m, PageMap(m, words, hp)[page]))
    requires StockReady(m, words, hc, frames) && forall f | f in frames :: !IsTableFrame(m, words, hp, f)
    ensures table in words && PageIndex(page, 0) < |words[table]|
    ensures var words' := Put(words, table, PageIndex(page, 0), SharedBits(m, PageMap(m, words, hp)[page]));
            MarkedPage(m, words, words', hp, hc, page, frames) && Tree(m, words', hp)
  {
    hide StockReady, Live, PageMap, Tree, IsTableFrame, Extended, Blockless, Populated, TableAt, Ours, PathTo,
         SharedBits, Arrived, Rewritten;
    var bits := SharedBits(m, PageMap(m, words, hp)[page]);
    LeafStored(m, words, hp, page, table, bits);
    LeafRewritten(m, words, hp, page, table, bits);
    var words' := Put(words, table, PageIndex(page, 0), bits);
    OtherKept(m, words, words', hp, hc, {});
    SpareStays(m, words, words', hc, hp, frames);
    SameBlocks(m, words, words', hc);
    ExtendedSameFrames(m, words, words', hp);
  }

  lemma ExtendedSameFrames(m: Machine, words: Words, words': Words, h: Hier)
    requires Extended(m, words, words', h, {})
    ensures Tree(m, words', h) && forall f :: IsTableFrame(m, words', h, f) <==> IsTableFrame(m, words, h, f)
  {
  }

  lemma ExtendedKeepsBlockless(m: Machine, words: Words, words': Words, h: Hier, used: set<Phys>)
    requires Extended(m, words, words', h, used)
    ensures Tree(m, words', h) && (Blockless(m, words, h) ==> Blockless(m, words', h))
    ensures forall f :: IsTableFrame(m, words', h, f) <==> IsTableFrame(m, words, h, f) || f in used
    ensures words'.Keys == words.Keys && (forall f | f in words :: |words'[f]| == |words[f]|)
  {
  }

  lemma SameBlocks(m: Machine, words: Words, words': Words, h: Hier)
    requires SameHierarchy(m, words, words', h)
    ensures Blockless(m, words', h) == Blockless(m, words, h)
  {
  }

  lemma MarkedByNothing(m: Machine, words: Words, hp: Hier, hc: Hier, page: nat, frames: seq<Phys>)
    requires Related(m, words, hp, hc) && StockReady(m, words, hc, frames)
    requires page in PageMap(m, words, hp) && SharedBits(m, PageMap(m, words, hp)[page]) == PageMap(m, words, hp)[page]
    ensures MarkedPage(m, words, words, hp, hc, page, frames)
  {
  }

  lemma NothingShared(m: Machine, words: Words, hp: Hier, hc: Hier, page: nat, frames: seq<Phys>)
    requires Related(m, words, hp, hc) && StockReady(m, words, hc, frames)
    requires forall f | f in frames :: !IsTableFrame(m, words, hp, f)
    ensures page !in PageMap(m, words, hp) ==> SharedPage(m, words, words, hp, hc, page, frames, frames, Done(()))
  {
  }

  lemma SharedByPublish(m: Machine, w0: Words, w1: Words, w2: Words, hp: Hier, hc: Hier, page: nat, was: seq<Phys>,
                        now: seq<Phys>, r: Outcome<()>)
    requires page < PAGES && Ours(hc, PathTo(page, 4)) && MarkedPage(m, w0, w1, hp, hc, page, was)
    requires now <= was && StockReady(m, w2, hc, now) && forall f | f in was :: !IsTableFrame(m, w0, hp, f)
    requires Published(m, w1, w2, hc, page, SharedBits(m, PageMap(m, w0, hp)[page]), was, now, r)
    ensures SharedPage(m, w0, w2, hp, hc, page, was, now, r)
    ensures Tree(m, w2, hp) && Live(m, w2, hp) == Live(m, w1, hp)
  {
    hide StockReady, Live, PageMap, Tree, IsTableFrame, Missing, Extended, Blockless, Populated, TableAt, Ours, PathTo;
    assert forall f | f in Taken(was, now) :: f in was;
    assert forall f | f in now :: f in was;
    OtherKept(m, w1, w2, hc, hp, Taken(was, now));
    MissingSame(m, w0, w1, hc, page);
    ExtendedKeepsBlockless(m, w1, w2, hc, Taken(was, now));
  }

  lemma MissingSame(m: Machine, words: Words, words': Words, h: Hier, page: nat)
    requires page < PAGES && Ours(h, PathTo(page, 4))
    requires forall q | Ours(h, q) :: TableAt(m, words', h.root, q) == TableAt(m, words, h.root, q)
    ensures Missing(m, words', h.root, page) == Missing(m, words, h.root, page)
  {
    OursAlong(h, page, 1);
    OursAlong(h, page, 2);
    OursAlong(h, page, 3);
  }

  /** The two hierarchies of a fork, in one memory. */
  ghost predicate Forking(parent: Tables, child: Tables)
    reads parent, parent.mem, child, child.mem
  {
    && child != parent && child.mem == parent.mem && child.m == parent.m
    && LawfulTable(parent.m) && LawfulLeaf(parent.m) && LawfulSharing(parent.m)
    && parent.Valid() && child.Valid() && child.Exact()
    && Related(parent.m, parent.mem.words, parent.h, child.h)
    && WellMadeMap(parent.m, PageMap(parent.m, parent.mem.words, parent.h))
    && Referenced(parent.m, PageMap(parent.m, parent.mem.words, parent.h), parent.mem.counts)
  }

  /** Every page mapped holds a reference. */
  ghost predicate Referenced(m: Machine, pages: map<nat, Word>, counts: map<Phys, nat>) {
    forall page | page in pages :: References(counts, m.addr(pages[page])) >= 1
  }

  /** The counts once the child has its reference on `page`. */
  ghost function CountsAfter(m: Machine, pages: map<nat, Word>, page: nat, counts: map<Phys, nat>,
                             shared: bool): map<Phys, nat>
  {
    if shared && page in pages then Held(counts, m.addr(pages[page])) else counts
  }

  lemma GivenBack(m: Machine, pages: map<nat, Word>, page: nat, counts: map<Phys, nat>)
    requires Referenced(m, pages, counts) && page in pages
    ensures var held := CountsAfter(m, pages, page, counts, true);
            Released(held, m.addr(pages[page])) == CountsAfter(m, pages, page, counts, false)
              && References(held, m.addr(pages[page])) > 1
  {
  }

  /** The last-level table and the present descriptor of `virt`. */
  method FindLeaf(tables: Tables, virt: nat) returns (r: Option<(Phys, Word)>)
    requires !tables.m.present(0) && tables.Valid() && Ours(tables.h, PathTo(PageOf(virt), 4))
    ensures r.None? <==> PageOf(virt) !in PageMap(tables.m, tables.mem.words, tables.h)
    ensures r.Some? ==>
              && Arrived(tables.m, tables.mem.words, tables.h, PageOf(virt), 3, r.value.0)
              && r.value.1 == PageMap(tables.m, tables.mem.words, tables.h)[PageOf(virt)]
  {
    hide Tree, Live, Ours, PathTo;
    var found := tables.TableFor(virt, 0);
    if found.None? {
      UnreachedUnmapped(tables.m, tables.mem.words, tables.h, PageOf(virt));
      return None;
    }
    IndexOfPage(virt, 0);
    LeafRead(tables.m, tables.mem.words, tables.h, PageOf(virt), found.value);
    var bits := Read(tables.mem.words, found.value, IndexOf(virt, 0));
    return if tables.m.present(bits) then Some((found.value, bits)) else None;
  }

  /** The two halves of sharing a page: the mark, which made `mid` of the memory, and
    * the child's publish. */
  ghost predicate SharedBy(m: Machine, words: Words, mid: Words, words': Words, hp: Hier, hc: Hier, page: nat,
                           was: seq<Phys>, now: seq<Phys>, r: Outcome<()>)
  {
    && now <= was && MarkedPage(m, words, mid, hp, hc, page, was)
    && Published(m, mid, words', hc, page, SharedBits(m, PageMap(m, words, hp)[page]), was, now, r)
    && StockReady(m, words', hc, now)
  }

  /** The stale translation a mark leaves is covered by what is pending. */
  lemma CoveredByMark(m: Machine, words: Words, words': Words, hp: Hier, hc: Hier, virt: nat, frames: seq<Phys>,
                      cached: iset<Entry>, cached': iset<Entry>, pending: Pending)
    requires MarkedPage(m, words, words', hp, hc, PageOf(virt), frames) && cached' <= cached + Live(m, words', hp)
    ensures Covered(m, words, hp, cached, pending) ==> Covered(m, words', hp, cached', Noted(pending, virt))
  {
    hide Live, Covered, Noted;
    if Covered(m, words, hp, cached, pending) {
      var bits := PageMap(m, words, hp)[PageOf(virt)];
      CoveredByRewrite(m, words, words', hp, virt, SharedBits(m, bits), m.addr(bits), cached, cached', pending);
    }
  }

  /** What taking the child's reference found and left. */
  ghost predicate Marked(m: Machine, words: Words, words': Words, hp: Hier, hc: Hier, page: nat, frames: seq<Phys>,
                         counts: map<Phys, nat>, counts': map<Phys, nat>, r: Option<(Phys, Word)>)
  {
    var pages := PageMap(m, words, hp);
    && counts' == CountsAfter(m, pages, page, counts, true)
    && match r
       case None => page !in pages && words' == words
       case Some((phys, flags)) =>
         MarkedPage(m, words, words', hp, hc, page, frames) && SharesAs(m, pages[page], phys, flags)
  }

  lemma MarkedReady(m: Machine, words: Words, words': Words, hp: Hier, hc: Hier, page: nat, frames: seq<Phys>,
                    counts: map<Phys, nat>, counts': map<Phys, nat>, r: Option<(Phys, Word)>)
    requires Marked(m, words, words', hp, hc, page, frames, counts, counts', r)
    ensures counts' == CountsAfter(m, PageMap(m, words, hp), page, counts, true)
    ensures r.None? ==> page !in PageMap(m, words, hp) && words' == words
    ensures r.Some? ==>
              && page in PageMap(m, words, hp) && SharesAs(m, PageMap(m, words, hp)[page], r.value.0, r.value.1)
              && Mappable(m, r.value.0, r.value.1) && r.value.0 == m.addr(PageMap(m, words, hp)[page])
              && LeafWord(m, r.value.0, r.value.1) == SharedBits(m, PageMap(m, words, hp)[page])
              && MarkedPage(m, words, words', hp, hc, page, frames) && StockReady(m, words', hc, frames)
              && Tree(m, words', hc) && Live(m, words', hc) == Live(m, words, hc)
  {
  }

  /** Store the marked descriptor, where the page takes a mark. */
  method StoreMark(parent: Tables, ghost hc: Hier, virt: nat, table: Phys, marked: bool, bits: Word,
                   ghost frames: seq<Phys>, tlb: Tlb)
    requires !parent.m.present(0) && parent.Valid() && Related(parent.m, parent.mem.words, parent.h, hc)
    requires Arrived(parent.m, parent.mem.words, parent.h, PageOf(virt), 3, table)
    requires StockReady(parent.m, parent.mem.words, hc, frames)
    requires forall f | f in frames :: !IsTableFrame(parent.m, parent.mem.words, parent.h, f)
    requires PageOf(virt) in PageMap(parent.m, parent.mem.words, parent.h) && parent.m.present(bits)
    requires bits == SharedBits(parent.m, PageMap(parent.m, parent.mem.words, parent.h)[PageOf(virt)])
    requires !marked ==> bits == PageMap(parent.m, parent.mem.words, parent.h)[PageOf(virt)]
    modifies parent.mem`words, parent`cached, tlb
    ensures parent.Valid()
            && MarkedPage(parent.m, old(parent.mem.words), parent.mem.words, parent.h, hc, PageOf(virt), frames)
    ensures parent.cached <= old(parent.cached) + Live(parent.m, parent.mem.words, parent.h)
    ensures old(Covered(parent.m, parent.mem.words, parent.h, parent.cached, tlb.pending)) ==>
              Covered(parent.m, parent.mem.words, parent.h, parent.cached, tlb.pending)
  {
    hide Covered, Noted, Tree, Live, StockReady, IsTableFrame, Ours, PathTo, TableAt, Blockless, PageMap, MarkedPage,
         Arrived, PageIndex, SharedBits, Put;
    if marked {
      IndexOfPage(virt, 0);
      MarkedByStore(parent.m, parent.mem.words, parent.h, hc, PageOf(virt), table, frames);
      ghost var words, cached := parent.mem.words, parent.cached;
      parent.Store(table, IndexOf(virt, 0), bits);
      CoveredByMark(parent.m, words, parent.mem.words, parent.h, hc, virt, frames, cached, parent.cached, tlb.pending);
      tlb.Note(virt);
    } else {
      MarkedByNothing(parent.m, parent.mem.words, parent.h, hc, PageOf(virt), frames);
    }
  }

  lemma AbsentZero(m: Machine)
    requires LawfulLeaf(m)
    ensures !m.present(0)
  {
  }

  /** Take the child's reference on the page mapped at `virt` and take the
    * parent's write permission away. The frame, and the flags both sides get. */
  method MarkParent(parent: Tables, ghost child: Tables, virt: nat, ghost frames: seq<Phys>, tlb: Tlb)
    returns (r: Option<(Phys, Word)>)
    requires Forking(parent, child) && Ours(parent.h, PathTo(PageOf(virt), 4))
    requires StockReady(parent.m, parent.mem.words, child.h, frames)
    requires forall f | f in frames :: !IsTableFrame(parent.m, parent.mem.words, parent.h, f)
    modifies parent.mem, parent`cached, tlb
    ensures parent.Valid() && parent.cached <= old(parent.cached) + Live(parent.m, parent.mem.words, parent.h)
    ensures old(Covered(parent.m, parent.mem.words, parent.h, parent.cached, tlb.pending)) ==>
              Covered(parent.m, parent.mem.words, parent.h, parent.cached, tlb.pending)
    ensures Marked(parent.m, old(parent.mem.words), parent.mem.words, parent.h, child.h, PageOf(virt), frames,
                   old(parent.mem.counts), parent.mem.counts, r)
  {
    hide Covered, Tree, Live, StockReady, IsTableFrame, Ours, PathTo, TableAt, LawfulTable, LawfulLeaf, LawfulSharing,
         Blockless, PageMap, Held, Referenced, MarkedPage, Related, Arrived, PageOf;
    var m, mem := parent.m, parent.mem;
    AbsentZero(m);
    r := None;
    var found := FindLeaf(parent, virt);
    if found.Some? {
      var (table, bits) := found.value;
      var phys, flags := m.addr(bits), m.flags(bits);
      var marked := m.shared(flags);
      var store := match marked case Some(g) => m.leaf(phys, g) case None => bits;
      SharedIsReadOnly(m, bits);
      r := Some((phys, match marked case Some(g) => g case None => flags));
      assert SharesAs(m, bits, phys, r.value.1) && store == SharedBits(m, bits);
      assert Held(mem.counts, phys) == CountsAfter(m, PageMap(m, mem.words, parent.h), PageOf(virt), mem.counts, true);
      hide WellMadeMap, SharedBits, SharesAs, CountsAfter;
      mem.counts := Held(mem.counts, phys);
      StoreMark(parent, child.h, virt, table, marked.Some?, store, frames, tlb);
    }
  }

  /** Put the shared page into the child, or give its reference back. Nothing the
    * child's walker has kept is stale, so nothing stale names the frame; and the child
    * may name it, where the page was shared before, since the parent's reference and
    * the child's own are left. */
  method PublishShared(child: Tables, ghost parent: Tables, virt: nat, phys: Phys, flags: Word, ghost start: Words,
                       stock: TableStock, tlb: Tlb)
    returns (r: Outcome<()>)
    requires child != parent && child.mem == parent.mem && child.m == parent.m && parent.Valid() && child.Valid()
             && child.Exact()
    requires LawfulTable(child.m) && LawfulLeaf(child.m) && Mappable(child.m, phys, flags)
             && Ours(child.h, PathTo(PageOf(virt), 4))
    requires StockReady(child.m, child.mem.words, child.h, stock.frames)
    requires forall f | f in stock.frames :: !IsTableFrame(child.m, start, parent.h, f)
    requires MarkedPage(child.m, start, child.mem.words, parent.h, child.h, PageOf(virt), stock.frames)
    requires LeafWord(child.m, phys, flags) == SharedBits(child.m, PageMap(child.m, start, parent.h)[PageOf(virt)])
    requires References(child.mem.counts, phys) > 1
    modifies child.mem, child`cached, stock, tlb
    ensures parent.Valid() && child.Valid() && child.Exact()
    ensures old(Covered(parent.m, parent.mem.words, parent.h, parent.cached, tlb.pending)) ==>
              Covered(parent.m, parent.mem.words, parent.h, parent.cached, tlb.pending)
    ensures Live(child.m, child.mem.words, parent.h) == old(Live(child.m, child.mem.words, parent.h))
    ensures SharedBy(child.m, start, old(child.mem.words), child.mem.words, parent.h, child.h, PageOf(virt),
                     old(stock.frames), stock.frames, r)
    ensures SharedPage(child.m, start, child.mem.words, parent.h, child.h, PageOf(virt), old(stock.frames),
                       stock.frames, r)
    ensures child.mem.counts == if r.Done? then old(child.mem.counts) else Released(old(child.mem.counts), phys)
  {
    hide Tree, PageMap, Live, StockReady, IsTableFrame, SharedPage, Published, Ours, PathTo, TableAt, LawfulTable,
         LawfulLeaf, Blockless, Released, References, SharedBits, LeafWord, Mappable, MarkedPage;
    hide Covered, Noted;
    ghost var words, frames, pending := child.mem.words, stock.frames, tlb.pending;
    r := child.Publish(virt, phys, flags, stock, tlb);
    SharedByPublish(child.m, start, words, child.mem.words, parent.h, child.h, PageOf(virt), frames, stock.frames, r);
    StillExact(child.m, words, child.mem.words, child.h, PageOf(virt), LeafWord(child.m, phys, flags), frames,
               stock.frames, r, child.cached);
    StillCovered(child.m, words, child.mem.words, parent.h, parent.cached, pending, virt);
    if r.Err? {
      child.Release(phys);
    }
  }

  lemma StillExact(m: Machine, words: Words, words': Words, h: Hier, page: nat, bits: Word, was: seq<Phys>,
                   now: seq<Phys>, r: Outcome<()>, cached: iset<Entry>)
    requires |now| <= |was| && Published(m, words, words', h, page, bits, was, now, r)
    requires Live(m, words', h) <= cached <= Live(m, words, h) + Live(m, words', h)
    ensures cached == Live(m, words', h)
  {
    hide Published;
    PublishGrows(m, words, words', h, page, bits, was, now, r);
  }

  lemma StillCovered(m: Machine, words: Words, words': Words, h: Hier, cached: iset<Entry>, pending: Pending, virt: nat)
    requires Live(m, words', h) == Live(m, words, h)
    ensures Covered(m, words, h, cached, pending) ==>
              Covered(m, words', h, cached, pending) && Covered(m, words', h, cached, Noted(pending, virt))
  {
    hide Live;
    if Covered(m, words, h, cached, pending) {
      CoveredByNote(m, words', h, cached, pending, virt);
    }
  }

  /** One page of a fork, both halves under one hold of the locks: the child has the
    * parent's descriptor with the mark on it, so has the parent, and the translation
    * the parent may still have cached is covered by what is pending. */
  method ShareFrom(child: Tables, parent: Tables, virt: nat, stock: TableStock, tlb: Tlb)
    returns (r: Outcome<()>, ghost mid: Words)
    requires Forking(parent, child) && Ours(parent.h, PathTo(PageOf(virt), 4)) && Ours(child.h, PathTo(PageOf(virt), 4))
    requires StockReady(parent.m, parent.mem.words, child.h, stock.frames)
    requires forall f | f in stock.frames :: !IsTableFrame(parent.m, parent.mem.words, parent.h, f)
    modifies parent.mem, parent`cached, child`cached, stock, tlb
    ensures parent.Valid() && child.Valid() && child.Exact()
    ensures parent.cached <= old(parent.cached) + Live(parent.m, parent.mem.words, parent.h)
    ensures old(Covered(parent.m, parent.mem.words, parent.h, parent.cached, tlb.pending)) ==>
              Covered(parent.m, parent.mem.words, parent.h, parent.cached, tlb.pending)
    ensures PageOf(virt) in old(PageMap(parent.m, parent.mem.words, parent.h)) ==>
              SharedBy(parent.m, old(parent.mem.words), mid, parent.mem.words, parent.h, child.h, PageOf(virt),
                       old(stock.frames), stock.frames, r)
    ensures SharedPage(parent.m, old(parent.mem.words), parent.mem.words, parent.h, child.h, PageOf(virt),
                       old(stock.frames), stock.frames, r)
    ensures parent.mem.counts
            == CountsAfter(parent.m, old(PageMap(parent.m, parent.mem.words, parent.h)), PageOf(virt),
                           old(parent.mem.counts), r.Done?)
  {
    hide Tree, PageMap, Live, StockReady, IsTableFrame, SharedPage, Published, Ours, PathTo, TableAt, LawfulTable,
         LawfulLeaf, LawfulSharing, Blockless, Held, Released, References, Referenced, SharedBits, PageOf, WellMadeMap,
         LeafWord, Mappable, Marked, MarkedPage, SharesAs, Related, Covered, SharedBy;
    var m, mem := parent.m, parent.mem;
    ghost var page, start, frames := PageOf(virt), mem.words, stock.frames;
    NothingShared(m, start, parent.h, child.h, page, frames);
    ghost var pages, counts := PageMap(m, start, parent.h), mem.counts;
    var found := MarkParent(parent, child, virt, stock.frames, tlb);
    MarkedReady(m, start, mem.words, parent.h, child.h, page, frames, counts, mem.counts, found);
    r := Done(());
    mid := mem.words;
    if found.Some? {
      GivenBack(m, pages, page, counts);
      r := PublishShared(child, parent, virt, found.value.0, found.value.1, start, stock, tlb);
    }
  }
}
