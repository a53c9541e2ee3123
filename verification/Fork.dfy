/** A whole fork, with no other task of the parent running in between: the blocks
  * that have a last-level table in turn, each shared in pieces, with the frames
  * the child's tables need taken from the allocator before and given back after.
  */
module Fork {
  import opened Machines
  import opened Walk
  import opened Pages
  import opened Hierarchy
  import opened Descent
  import opened Reclaim
  import opened Tables
  import opened Share

  /** User addresses are below this. */
  const USER_LIMIT: nat := 0x8000_0000_0000

  const USER_PAGES: nat := 0x8_0000_0000

  /** Pages one hold of the locks shares. */
  const CHUNK: nat := 128

  /** The two hierarchies, and what the parent had when the fork began. */
  datatype Origin = Origin(m: Machine, hp: Hier, hc: Hier, pages: map<nat, Word>, counts: map<Phys, nat>)

  /** The parent's map once every page below `k` has been shared. */
  ghost function MarkedBelow(m: Machine, pages: map<nat, Word>, k: nat): map<nat, Word> {
    map page | page in pages :: if page < k then SharedBits(m, pages[page]) else pages[page]
  }

  /** The child's. */
  ghost function CopiedBelow(m: Machine, pages: map<nat, Word>, k: nat): map<nat, Word> {
    map page | page in pages && page < k :: SharedBits(m, pages[page])
  }

  /** The pages below `k` that are on frame `f`. */
  ghost function Naming(m: Machine, pages: map<nat, Word>, f: Phys, k: nat): set<nat> {
    set page | page in pages && page < k && m.addr(pages[page]) == f
  }

  ghost predicate MapsShared(o: Origin, words: Words, k: nat) {
    && PageMap(o.m, words, o.hp) == MarkedBelow(o.m, o.pages, k)
    && PageMap(o.m, words, o.hc) == CopiedBelow(o.m, o.pages, k)
  }

  /** Every frame in use when the fork began has one reference more for each page
    * below `k` that is on it. */
  ghost predicate CountsShared(o: Origin, counts: map<Phys, nat>, k: nat) {
    forall f | References(o.counts, f) >= 1 ::
      References(counts, f) == References(o.counts, f) + |Naming(o.m, o.pages, f, k)|
  }

  ghost predicate Shareable(o: Origin, words: Words, counts: map<Phys, nat>, frames: seq<Phys>) {
    && Related(o.m, words, o.hp, o.hc) && Blockless(o.m, words, o.hc)
    && WellMadeMap(o.m, PageMap(o.m, words, o.hp)) && Referenced(o.m, PageMap(o.m, words, o.hp), counts)
    && StockReady(o.m, words, o.hc, frames)
    && forall f | f in frames :: !IsTableFrame(o.m, words, o.hp, f)
  }

  /** Tables and spare frames are out of the allocator's reach. */
  ghost predicate TablesHeld(o: Origin, words: Words, counts: map<Phys, nat>, frames: seq<Phys>) {
    && (forall f | IsTableFrame(o.m, words, o.hp, f) :: References(counts, f) >= 1)
    && (forall f | IsTableFrame(o.m, words, o.hc, f) :: References(counts, f) >= 1)
    && (forall f | f in frames :: References(counts, f) >= 1 && References(o.counts, f) == 0)
  }

  ghost predicate WholeFrames(m: Machine, words: Words) {
    forall f | f in words :: |words[f]| == ENTRIES && m.frame(f)
  }

  /** A parent whose pages and tables are all accounted for. */
  ghost predicate Sane(o: Origin) {
    && !o.m.present(0) && LawfulTable(o.m) && LawfulLeaf(o.m) && LawfulSharing(o.m)
    && WellMadeMap(o.m, o.pages) && Referenced(o.m, o.pages, o.counts)
  }

  /** The fork has come to page `k`, with `frames` in its stock. */
  ghost predicate Copied(o: Origin, words: Words, counts: map<Phys, nat>, frames: seq<Phys>, k: nat) {
    && Sane(o) && WholeFrames(o.m, words)
    && Shareable(o, words, counts, frames) && TablesHeld(o, words, counts, frames)
    && MapsShared(o, words, k) && CountsShared(o, counts, k)
  }

  // ---- one page ------------------------------------------------------------

  lemma MarkOne(m: Machine, pages: map<nat, Word>, k: nat)
    ensures MarkedBelow(m, pages, k).Keys == pages.Keys && (k in pages ==> MarkedBelow(m, pages, k)[k] == pages[k])
    ensures MarkedBelow(m, pages, k + 1)
            == if k in pages then MarkedBelow(m, pages, k)[k := SharedBits(m, pages[k])] else MarkedBelow(m, pages, k)
    ensures CopiedBelow(m, pages, k + 1)
            == if k in pages then CopiedBelow(m, pages, k)[k := SharedBits(m, pages[k])] else CopiedBelow(m, pages, k)
  {
    hide SharedBits;
  }

  lemma MapsStep(o: Origin, w0: Words, w1: Words, was: seq<Phys>, now: seq<Phys>, page: nat, r: Outcome<()>)
    requires MapsShared(o, w0, page)
    requires SharedPage(o.m, w0, w1, o.hp, o.hc, page, was, now, r) && r.Done?
    ensures MapsShared(o, w1, page + 1)
  {
    hide PageMap, Related, StockReady, IsTableFrame, TableAt, Blockless, Ours, MarkedBelow, CopiedBelow, SharedBits,
         Taken;
    MarkOne(o.m, o.pages, page);
  }

  lemma NamingStep(m: Machine, pages: map<nat, Word>, f: Phys, page: nat)
    ensures |Naming(m, pages, f, page + 1)|
            == |Naming(m, pages, f, page)| + if page in pages && m.addr(pages[page]) == f then 1 else 0
  {
    if page in pages && m.addr(pages[page]) == f {
      assert Naming(m, pages, f, page + 1) == Naming(m, pages, f, page) + {page};
    } else {
      assert Naming(m, pages, f, page + 1) == Naming(m, pages, f, page);
    }
  }

  lemma CountsStep(o: Origin, c0: map<Phys, nat>, pm: map<nat, Word>, page: nat)
    requires Sane(o) && CountsShared(o, c0, page) && pm == MarkedBelow(o.m, o.pages, page)
    ensures CountsShared(o, CountsAfter(o.m, pm, page, c0, true), page + 1)
  {
    var c1 := CountsAfter(o.m, pm, page, c0, true);
    forall f | References(o.counts, f) >= 1
      ensures References(c1, f) == References(o.counts, f) + |Naming(o.m, o.pages, f, page + 1)|
    {
      NamingStep(o.m, o.pages, f, page);
    }
  }

  lemma GrownCounts(m: Machine, pages: map<nat, Word>, page: nat, counts: map<Phys, nat>, f: Phys)
    ensures References(CountsAfter(m, pages, page, counts, true), f) >= References(counts, f)
  {
  }

  lemma HeldStep(o: Origin, w0: Words, w1: Words, c0: map<Phys, nat>, was: seq<Phys>, now: seq<Phys>, page: nat,
                 r: Outcome<()>)
    requires TablesHeld(o, w0, c0, was) && WholeFrames(o.m, w0)
    requires SharedPage(o.m, w0, w1, o.hp, o.hc, page, was, now, r) && r.Done?
    ensures TablesHeld(o, w1, CountsAfter(o.m, PageMap(o.m, w0, o.hp), page, c0, true), now) && WholeFrames(o.m, w1)
  {
    var pm := PageMap(o.m, w0, o.hp);
    forall f ensures References(CountsAfter(o.m, pm, page, c0, true), f) >= References(c0, f) {
      GrownCounts(o.m, pm, page, c0, f);
    }
    hide PageMap, Related, StockReady, IsTableFrame, TableAt, Blockless, Ours, CountsAfter, References;
    assert forall f | f in Taken(was, now) :: f in was;
    assert forall f | f in now :: f in was;
  }

  lemma MadeStep(m: Machine, pages: map<nat, Word>, page: nat, counts: map<Phys, nat>)
    requires LawfulLeaf(m) && LawfulSharing(m) && WellMadeMap(m, pages) && Referenced(m, pages, counts)
    ensures page in pages ==>
              var pages' := pages[page := SharedBits(m, pages[page])];
              WellMadeMap(m, pages') && Referenced(m, pages', CountsAfter(m, pages, page, counts, true))
  {
    if page in pages {
      SharedIsReadOnly(m, pages[page]);
      hide SharedBits, WellMade, LawfulLeaf, LawfulSharing, CountsAfter;
      var pages' := pages[page := SharedBits(m, pages[page])];
      forall p | p in pages' ensures References(CountsAfter(m, pages, page, counts, true), m.addr(pages'[p])) >= 1 {
        GrownCounts(m, pages, page, counts, m.addr(pages[p]));
      }
    }
  }

  lemma ShareableStep(o: Origin, w0: Words, w1: Words, c0: map<Phys, nat>, was: seq<Phys>, now: seq<Phys>, page: nat,
                      r: Outcome<()>)
    requires Sane(o) && Shareable(o, w0, c0, was)
    requires SharedPage(o.m, w0, w1, o.hp, o.hc, page, was, now, r) && r.Done?
    ensures Shareable(o, w1, CountsAfter(o.m, PageMap(o.m, w0, o.hp), page, c0, true), now)
  {
    MadeStep(o.m, PageMap(o.m, w0, o.hp), page, c0);
    hide PageMap, StockReady, IsTableFrame, TableAt, Blockless, Ours, References, WellMadeMap, SharedBits, Related,
         Referenced, Held;
  }

  lemma CopiedPage(o: Origin, w0: Words, w1: Words, c0: map<Phys, nat>, was: seq<Phys>, now: seq<Phys>, page: nat,
                   r: Outcome<()>)
    requires Copied(o, w0, c0, was, page)
    requires SharedPage(o.m, w0, w1, o.hp, o.hc, page, was, now, r) && r.Done?
    ensures Copied(o, w1, CountsAfter(o.m, PageMap(o.m, w0, o.hp), page, c0, true), now, page + 1)
  {
    hide Sane, Shareable, MapsShared, CountsShared, TablesHeld, WholeFrames, SharedPage, PageMap, CountsAfter;
    assert MapsShared(o, w0, page);
    CountsStepFor(o, w0, c0, page);
    MapsStep(o, w0, w1, was, now, page, r);
    HeldStep(o, w0, w1, c0, was, now, page, r);
    ShareableStep(o, w0, w1, c0, was, now, page, r);
  }

  lemma CountsStepFor(o: Origin, words: Words, c0: map<Phys, nat>, page: nat)
    requires Sane(o) && CountsShared(o, c0, page) && MapsShared(o, words, page)
    ensures CountsShared(o, CountsAfter(o.m, PageMap(o.m, words, o.hp), page, c0, true), page + 1)
  {
    CountsStep(o, c0, PageMap(o.m, words, o.hp), page);
  }

  /** Pages with nothing mapped at them are as good as shared. */
  lemma CopiedSkip(o: Origin, words: Words, counts: map<Phys, nat>, frames: seq<Phys>, k: nat, k': nat)
    requires Copied(o, words, counts, frames, k) && k <= k'
    requires forall page | k <= page < k' :: page !in PageMap(o.m, words, o.hp)
    ensures Copied(o, words, counts, frames, k')
  {
    assert MarkedBelow(o.m, o.pages, k).Keys == o.pages.Keys;
    hide Sane, Shareable, TablesHeld, WholeFrames, PageMap;
    SkipBelow(o.m, o.pages, k, k');
    hide MarkedBelow, CopiedBelow, Naming;
  }

  lemma SkipBelow(m: Machine, pages: map<nat, Word>, k: nat, k': nat)
    requires k <= k' && forall page | k <= page < k' :: page !in pages
    ensures MarkedBelow(m, pages, k') == MarkedBelow(m, pages, k)
            && CopiedBelow(m, pages, k') == CopiedBelow(m, pages, k)
    ensures forall f :: Naming(m, pages, f, k') == Naming(m, pages, f, k)
  {
    hide SharedBits;
  }

  // ---- frames for the child's tables ---------------------------------------

  lemma ZeroedElsewhere(o: Origin, words: Words, counts: map<Phys, nat>, frames: seq<Phys>, f: Phys, h: Hier)
    requires h == o.hp || h == o.hc
    requires WholeFrames(o.m, words) && TablesHeld(o, words, counts, frames) && Tree(o.m, words, h)
    requires f in words && References(counts, f) == 0
    ensures var words' := Zeroed(words, f);
            && Tree(o.m, words', h) && PageMap(o.m, words', h) == PageMap(o.m, words, h)
               && Live(o.m, words', h) == Live(o.m, words, h)
            && (forall g :: IsTableFrame(o.m, words', h, g) <==> IsTableFrame(o.m, words, h, g))
            && (Blockless(o.m, words, h) ==> Blockless(o.m, words', h))
            && WholeFrames(o.m, words') && words'.Keys == words.Keys
  {
    var words' := Zeroed(words, f);
    assert !IsTableFrame(o.m, words, h, f);
    forall g | IsTableFrame(o.m, words, h, g) ensures g in words && g in words' && words'[g] == words[g] {
      var q :| IsTable(o.m, words, h, q) && TableAt(o.m, words, h.root, q) == Some(g);
    }
    hide Tree, PageMap, Live, Blockless, IsTableFrame;
    HierarchyKept(o.m, words, words', h);
  }

  lemma SparePushed(m: Machine, words: Words, h: Hier, frames: seq<Phys>, f: Phys)
    requires !m.present(0) && WholeFrames(m, words) && StockReady(m, words, h, frames)
    requires f in words && f !in frames && !IsTableFrame(m, words, h, f)
    requires forall g :: IsTableFrame(m, Zeroed(words, f), h, g) <==> IsTableFrame(m, words, h, g)
    ensures StockReady(m, Zeroed(words, f), h, frames + [f])
  {
    var words' := Zeroed(words, f);
    hide IsTableFrame;
    forall i | 0 <= i < |frames| + 1 ensures Spare(m, words', h, (frames + [f])[i]) {
      var g := (frames + [f])[i];
      if i < |frames| {
        assert g in frames && words'[g] == words[g] && Spare(m, words, h, frames[i]);
        forall k ensures !m.present(Read(words', g, k)) {
          assert Read(words', g, k) == Read(words, g, k);
        }
      }
    }
  }

  lemma TakenFrame(o: Origin, words: Words, counts: map<Phys, nat>, frames: seq<Phys>, k: nat, f: Phys)
    requires TablesHeld(o, words, counts, frames) && CountsShared(o, counts, k) && References(counts, f) == 0
    ensures References(o.counts, f) == 0 && f !in frames
    ensures !IsTableFrame(o.m, words, o.hp, f) && !IsTableFrame(o.m, words, o.hc, f)
    ensures CountsShared(o, Held(counts, f), k)
    ensures forall g :: References(Held(counts, f), g) == if g == f then 1 else References(counts, g)
  {
    hide IsTableFrame, Naming;
  }

  lemma AllocShareable(o: Origin, words: Words, counts: map<Phys, nat>, frames: seq<Phys>, f: Phys)
    requires Sane(o) && WholeFrames(o.m, words) && Shareable(o, words, counts, frames)
             && TablesHeld(o, words, counts, frames)
    requires f in words && References(counts, f) == 0
    ensures Shareable(o, Zeroed(words, f), Held(counts, f), frames + [f])
    ensures Tree(o.m, Zeroed(words, f), o.hp) && Live(o.m, Zeroed(words, f), o.hp) == Live(o.m, words, o.hp)
    ensures Tree(o.m, Zeroed(words, f), o.hc) && Live(o.m, Zeroed(words, f), o.hc) == Live(o.m, words, o.hc)
  {
    ZeroedElsewhere(o, words, counts, frames, f, o.hp);
    ZeroedElsewhere(o, words, counts, frames, f, o.hc);
    hide Tree, PageMap, Live, Blockless, IsTableFrame, StockReady, WellMadeMap, Zeroed, LawfulTable, LawfulLeaf,
         LawfulSharing, WholeFrames;
    SparePushed(o.m, words, o.hc, frames, f);
  }

  lemma AllocHeld(o: Origin, words: Words, counts: map<Phys, nat>, frames: seq<Phys>, k: nat, f: Phys)
    requires WholeFrames(o.m, words) && Related(o.m, words, o.hp, o.hc) && CountsShared(o, counts, k)
             && MapsShared(o, words, k)
    requires TablesHeld(o, words, counts, frames)
    requires f in words && References(counts, f) == 0
    ensures TablesHeld(o, Zeroed(words, f), Held(counts, f), frames + [f])
    ensures WholeFrames(o.m, Zeroed(words, f)) && MapsShared(o, Zeroed(words, f), k)
            && CountsShared(o, Held(counts, f), k)
  {
    TakenFrame(o, words, counts, frames, k, f);
    ZeroedElsewhere(o, words, counts, frames, f, o.hp);
    ZeroedElsewhere(o, words, counts, frames, f, o.hc);
    hide Tree, PageMap, Live, Blockless, IsTableFrame, Zeroed, Held, References, MarkedBelow, CopiedBelow, Naming,
         WholeFrames, CountsShared;
  }

  lemma CopiedAlloc(o: Origin, words: Words, counts: map<Phys, nat>, frames: seq<Phys>, k: nat, f: Phys)
    requires Copied(o, words, counts, frames, k) && f in words && References(counts, f) == 0
    ensures Copied(o, Zeroed(words, f), Held(counts, f), frames + [f], k)
    ensures Tree(o.m, Zeroed(words, f), o.hp) && Live(o.m, Zeroed(words, f), o.hp) == Live(o.m, words, o.hp)
    ensures Tree(o.m, Zeroed(words, f), o.hc) && Live(o.m, Zeroed(words, f), o.hc) == Live(o.m, words, o.hc)
  {
    assert Related(o.m, words, o.hp, o.hc);
    hide Sane, WholeFrames, Shareable, TablesHeld, MapsShared, CountsShared, Related;
    AllocShareable(o, words, counts, frames, f);
    AllocHeld(o, words, counts, frames, k, f);
  }

  /** No page is on a frame nothing was using when the fork began. */
  lemma NotMapped(o: Origin, words: Words, k: nat, page: nat)
    requires Sane(o) && MapsShared(o, words, k) && page in PageMap(o.m, words, o.hp)
    ensures References(o.counts, o.m.addr(PageMap(o.m, words, o.hp)[page])) >= 1
  {
    hide PageMap, LawfulTable;
    SharedIsReadOnly(o.m, o.pages[page]);
  }

  lemma OthersHeld(counts: map<Phys, nat>, f: Phys)
    ensures forall g :: g != f ==> References(Released(counts, f), g) == References(counts, g)
  {
  }

  lemma NoneOn(o: Origin, words: Words, counts: map<Phys, nat>, k: nat, f: Phys)
    requires Sane(o) && MapsShared(o, words, k) && References(o.counts, f) == 0
    requires Referenced(o.m, PageMap(o.m, words, o.hp), counts) && CountsShared(o, counts, k)
    ensures Referenced(o.m, PageMap(o.m, words, o.hp), Released(counts, f)) && CountsShared(o, Released(counts, f), k)
  {
    hide Sane, MapsShared, PageMap, Naming, Released, References;
    OthersHeld(counts, f);
    forall page | page in PageMap(o.m, words, o.hp) ensures o.m.addr(PageMap(o.m, words, o.hp)[page]) != f {
      NotMapped(o, words, k, page);
    }
  }

  lemma CopiedGiveBack(o: Origin, words: Words, counts: map<Phys, nat>, frames: seq<Phys>, k: nat, f: Phys)
    requires Copied(o, words, counts, frames + [f], k)
    ensures Copied(o, words, Released(counts, f), frames, k)
  {
    hide Sane, WholeFrames, MapsShared, CountsShared, PageMap, Related, Blockless, WellMadeMap, IsTableFrame, Released,
         References, Referenced, StockReady;
    assert f in frames + [f];
    assert forall g | g in frames :: g in frames + [f];
    OthersHeld(counts, f);
    NoneOn(o, words, counts, k, f);
    FewerSpare(o.m, words, o.hc, frames, f);
  }

  lemma FewerSpare(m: Machine, words: Words, h: Hier, frames: seq<Phys>, f: Phys)
    requires StockReady(m, words, h, frames + [f])
    ensures StockReady(m, words, h, frames) && f !in frames && !IsTableFrame(m, words, h, f)
  {
    var all := frames + [f];
    forall i | 0 <= i < |frames| ensures Spare(m, words, h, frames[i]) && frames[i] != f {
      assert all[i] == frames[i] && all[|frames|] == f;
    }
    forall i, j | 0 <= i < j < |frames| ensures frames[i] != frames[j] {
      assert all[i] != all[j];
    }
    assert Spare(m, words, h, all[|frames|]);
  }

  /** The child's tables for `page` never take more than the stock has. */
  ghost predicate Enough(o: Origin, words: Words, frames: seq<Phys>, page: nat) {
    Missing(o.m, words, o.hc.root, page) <= |frames|
  }

  /** All the pages of a block need the same tables. */
  lemma MissingInBlock(m: Machine, words: Words, root: Phys, a: nat, b: nat)
    requires a < PAGES && b < PAGES && a / 512 == b / 512
    ensures Missing(m, words, root, a) == Missing(m, words, root, b)
  {
    assert a / 0x4_0000 == a / 512 / 512 && b / 0x4_0000 == b / 512 / 512;
    assert a / 0x800_0000 == a / 0x4_0000 / 512 && b / 0x800_0000 == b / 0x4_0000 / 512;
    PathToSame(a, b, 1);
    PathToSame(a, b, 2);
    PathToSame(a, b, 3);
  }

  /** A page that has been shared has its tables. */
  lemma MappedMissesNothing(m: Machine, words: Words, h: Hier, page: nat)
    requires !m.present(0) && page in PageMap(m, words, h)
    ensures Missing(m, words, h.root, page) == 0
  {
    if TableAt(m, words, h.root, PathTo(page, 3)).None? {
      UnreachedUnmapped(m, words, h, page);
    }
    ReachedAbove(m, words, h.root, page, 3);
  }

  lemma NotYetShared(o: Origin, words: Words, counts: map<Phys, nat>, frames: seq<Phys>, page: nat)
    requires Copied(o, words, counts, frames, page)
    ensures page !in PageMap(o.m, words, o.hc) && Blockless(o.m, words, o.hc) && !o.m.present(0)
  {
    hide PageMap, Blockless, Related, WellMadeMap, Referenced, StockReady, IsTableFrame;
  }

  lemma Outcomes(r: Outcome<()>)
    ensures r.Done? || r == Err(Occupied) || r == Err(ShortOfTables) || r == Err(Blocked)
  {
    if r.Err? {
      match r.refused
      case Occupied =>
      case ShortOfTables =>
      case Blocked =>
    }
  }

  /** With enough in the stock the page is shared, and the next one can be. */
  lemma EnoughStep(o: Origin, w0: Words, w1: Words, counts: map<Phys, nat>, was: seq<Phys>, now: seq<Phys>, page: nat,
                   r: Outcome<()>)
    requires Copied(o, w0, counts, was, page) && Enough(o, w0, was, page) && page < PAGES
    requires SharedPage(o.m, w0, w1, o.hp, o.hc, page, was, now, r)
    ensures r.Done? && Enough(o, w1, now, page)
  {
    hide Copied, Related, StockReady, IsTableFrame, TableAt, Blockless, Ours, PageMap, Missing, Taken, SharedBits;
    NotYetShared(o, w0, counts, was, page);
    Outcomes(r);
    if page in PageMap(o.m, w0, o.hp) && r.Done? {
      MappedMissesNothing(o.m, w1, o.hc, page);
    }
  }

  // ---- the fork ------------------------------------------------------------

  /** Both hierarchies are whole, whatever the parent's walker has kept is so or is
    * covered by what is pending, and the child's has kept nothing stale. */
  ghost predicate Walked(parent: Tables, child: Tables, pending: Pending)
    reads parent, parent.mem, child, child.mem
  {
    && parent.Valid() && child.Valid() && child.Exact()
    && Covered(parent.m, parent.mem.words, parent.h, parent.cached, pending)
  }

  lemma CoveredAlike(m: Machine, words: Words, words': Words, h: Hier, cached: iset<Entry>, pending: Pending)
    requires Live(m, words', h) == Live(m, words, h) && Covered(m, words, h, cached, pending)
    ensures Covered(m, words', h, cached, pending)
  {
    hide Live;
  }

  ghost predicate Together(parent: Tables, child: Tables, o: Origin) {
    && child != parent && child.mem == parent.mem
    && parent.m == o.m && child.m == o.m && parent.h == o.hp && child.h == o.hc
    && o.hp.lo == 0 && o.hp.hi == 256 && o.hc.lo == 0 && o.hc.hi == 256
  }

  /** The frames one block may need, or false when the allocator has run out. */
  method FillStock(parent: Tables, ghost child: Tables, stock: TableStock, ghost o: Origin, ghost k: nat,
                   ghost pending: Pending)
    returns (ok: bool)
    requires Together(parent, child, o) && Walked(parent, child, pending) && stock.frames == []
    requires Copied(o, parent.mem.words, parent.mem.counts, [], k)
    modifies parent.mem, stock
    ensures Walked(parent, child, pending)
    ensures Copied(o, parent.mem.words, parent.mem.counts, stock.frames, k)
    ensures if ok then |stock.frames| == DEPTH else Exhausted(parent.mem.words, parent.mem.counts)
  {
    hide Covered, Copied, Tree, Live, Zeroed, Held, References;
    for i := 0 to DEPTH
      invariant Walked(parent, child, pending) && |stock.frames| == i
      invariant Copied(o, parent.mem.words, parent.mem.counts, stock.frames, k)
    {
      ghost var words, counts := parent.mem.words, parent.mem.counts;
      var frame := AllocZeroed(parent.mem);
      if frame.None? {
        return false;
      }
      CopiedAlloc(o, words, counts, stock.frames, k, frame.value);
      CoveredAlike(parent.m, words, parent.mem.words, parent.h, parent.cached, pending);
      stock.Push(frame.value);
    }
    return true;
  }

  /** What a block did not use goes back. */
  method Drain(parent: Tables, ghost child: Tables, stock: TableStock, ghost o: Origin, ghost k: nat,
               ghost pending: Pending)
    requires Together(parent, child, o) && Walked(parent, child, pending)
    requires Copied(o, parent.mem.words, parent.mem.counts, stock.frames, k)
    modifies parent.mem`counts, stock
    ensures Walked(parent, child, pending) && stock.frames == []
    ensures Copied(o, parent.mem.words, parent.mem.counts, [], k)
  {
    hide Covered, Copied, Tree, Live, Released;
    while true
      invariant Walked(parent, child, pending)
      invariant Copied(o, parent.mem.words, parent.mem.counts, stock.frames, k)
      decreases |stock.frames|
    {
      var unused := stock.Take();
      if unused.None? {
        return;
      }
      CopiedGiveBack(o, parent.mem.words, parent.mem.counts, stock.frames, k, unused.value);
      parent.mem.counts := Released(parent.mem.counts, unused.value);
    }
  }

  lemma OwnedPage(h: Hier, page: nat)
    requires h.lo == 0 && h.hi == 256 && page < PAGES
    ensures Ours(h, PathTo(page, 4)) <==> page < USER_PAGES
  {
    TopIndex(page);
    var top := PathTo(page, 1);
    assert PathTo(page, 0) == Top && PageIndex(page, 3) == page / 0x800_0000;
    assert Ours(h, PathTo(page, 2)) <==> Ours(h, top);
    assert Ours(h, PathTo(page, 3)) <==> Ours(h, top);
  }

  lemma PageAddress(start: nat, index: nat, count: nat)
    requires start % PAGE_BYTES == 0 && index < count && start + count * PAGE_BYTES <= USER_LIMIT
    ensures PageOf(start + index * PAGE_BYTES) == start / PAGE_BYTES + index < USER_PAGES
    ensures var first := start / PAGE_BYTES; first % 512 + count <= 512 ==> first / 512 == (first + index) / 512
  {
    var first := start / PAGE_BYTES;
    assert (start + index * PAGE_BYTES) / PAGE_BYTES == first + index;
  }

  lemma ReadyToShare(parent: Tables, child: Tables, tlb: Tlb, o: Origin, frames: seq<Phys>, k: nat)
    requires Together(parent, child, o) && Walked(parent, child, tlb.pending)
    requires Copied(o, parent.mem.words, parent.mem.counts, frames, k)
    ensures Forking(parent, child) && StockReady(o.m, parent.mem.words, o.hc, frames)
    ensures forall f | f in frames :: !IsTableFrame(o.m, parent.mem.words, o.hp, f)
  {
    hide Covered, Tree, Live, PageMap, StockReady, IsTableFrame, Blockless, LawfulLeaf, LawfulTable, LawfulSharing,
         WellMadeMap, Referenced, MapsShared, TablesHeld, CountsShared, WholeFrames;
  }

  lemma SharedInBlock(o: Origin, w0: Words, w1: Words, counts: map<Phys, nat>, was: seq<Phys>, now: seq<Phys>,
                      first: nat, page: nat, r: Outcome<()>)
    requires Copied(o, w0, counts, was, page) && Enough(o, w0, was, first) && first <= page < PAGES
             && first / 512 == page / 512
    requires SharedPage(o.m, w0, w1, o.hp, o.hc, page, was, now, r)
    ensures r.Done? && Enough(o, w1, now, first)
  {
    hide Copied, SharedPage, Missing;
    MissingInBlock(o.m, w0, o.hc.root, first, page);
    MissingInBlock(o.m, w1, o.hc.root, first, page);
    EnoughStep(o, w0, w1, counts, was, now, page, r);
  }

  /** Share the next page. */
  method ShareNext(child: Tables, parent: Tables, virt: nat, stock: TableStock, tlb: Tlb, ghost o: Origin,
                   ghost first: nat)
    returns (r: Outcome<()>)
    requires Together(parent, child, o) && Walked(parent, child, tlb.pending)
    requires first <= PageOf(virt) < USER_PAGES
    requires Copied(o, parent.mem.words, parent.mem.counts, stock.frames, PageOf(virt))
    modifies parent.mem, parent`cached, child`cached, stock, tlb
    ensures Walked(parent, child, tlb.pending)
    ensures r.Done? ==> Copied(o, parent.mem.words, parent.mem.counts, stock.frames, PageOf(virt) + 1)
    ensures old(Enough(o, parent.mem.words, stock.frames, first)) && first / 512 == PageOf(virt) / 512 ==>
              r.Done? && Enough(o, parent.mem.words, stock.frames, first)
  {
    hide Covered, Copied, Tree, Live, Enough, Ours, PathTo, SharedPage, Forking, StockReady, IsTableFrame, PageMap,
         CountsAfter;
    ghost var words, counts, frames, page := parent.mem.words, parent.mem.counts, stock.frames, PageOf(virt);
    OwnedPage(o.hp, page);
    OwnedPage(o.hc, page);
    hide PageOf;
    ReadyToShare(parent, child, tlb, o, stock.frames, page);
    ghost var mid;
    r, mid := ShareFrom(child, parent, virt, stock, tlb);
    if Enough(o, words, frames, first) && first / 512 == page / 512 {
      SharedInBlock(o, words, parent.mem.words, counts, frames, stock.frames, first, page, r);
    }
    if r.Done? {
      CopiedPage(o, words, parent.mem.words, counts, frames, stock.frames, page, r);
    }
  }

  /** Share each of `count` pages, lowest first, up to the first refusal. */
  method ShareRange(child: Tables, parent: Tables, start: nat, count: nat, stock: TableStock, tlb: Tlb, ghost o: Origin)
    returns (r: Outcome<()>)
    requires Together(parent, child, o) && Walked(parent, child, tlb.pending)
    requires start % PAGE_BYTES == 0 && start + count * PAGE_BYTES <= USER_LIMIT
    requires Copied(o, parent.mem.words, parent.mem.counts, stock.frames, start / PAGE_BYTES)
    modifies parent.mem, parent`cached, child`cached, stock, tlb
    ensures Walked(parent, child, tlb.pending)
    ensures r.Done? ==> Copied(o, parent.mem.words, parent.mem.counts, stock.frames, start / PAGE_BYTES + count)
    ensures var first := start / PAGE_BYTES;
            old(Enough(o, parent.mem.words, stock.frames, first)) && first % 512 + count <= 512 ==>
              r.Done? && Enough(o, parent.mem.words, stock.frames, first)
  {
    hide Covered, Copied, Tree, Live, Enough, PageOf;
    ghost var first := start / PAGE_BYTES;
    ghost var enough := Enough(o, parent.mem.words, stock.frames, first) && first % 512 + count <= 512;
    for index := 0 to count
      invariant Walked(parent, child, tlb.pending)
      invariant Copied(o, parent.mem.words, parent.mem.counts, stock.frames, first + index)
      invariant enough ==> Enough(o, parent.mem.words, stock.frames, first)
    {
      PageAddress(start, index, count);
      r := ShareNext(child, parent, start + index * PAGE_BYTES, stock, tlb, o, first);
      if r.Err? {
        return;
      }
    }
    return Done(());
  }

  /** A page below the limit that is mapped is in a block that has a table. */
  lemma PageHasBlock(m: Machine, words: Words, h: Hier, page: nat)
    requires !m.present(0) && page in PageMap(m, words, h)
    ensures Block(m, words, h.root, page * PAGE_BYTES)
  {
    assert PageOf(page * PAGE_BYTES) == page;
    if TableAt(m, words, h.root, PathTo(page, 3)).None? {
      UnreachedUnmapped(m, words, h, page);
    }
  }

  /** The walk of the blocks passes over nothing. */
  lemma CopiedTo(o: Origin, words: Words, counts: map<Phys, nat>, at: nat, to: nat)
    requires Copied(o, words, counts, [], at / PAGE_BYTES) && at % PAGE_BYTES == 0 && to % PAGE_BYTES == 0 && at <= to
    requires forall w: nat | at <= w < to :: !Block(o.m, words, o.hp.root, w)
    ensures Copied(o, words, counts, [], to / PAGE_BYTES)
  {
    assert !o.m.present(0);
    forall page | at / PAGE_BYTES <= page < to / PAGE_BYTES ensures page !in PageMap(o.m, words, o.hp) {
      if page in PageMap(o.m, words, o.hp) {
        assert at <= page * PAGE_BYTES < to;
        PageHasBlock(o.m, words, o.hp, page);
      }
    }
    CopiedSkip(o, words, counts, [], at / PAGE_BYTES, to / PAGE_BYTES);
  }

  lemma PieceOf(block: nat, piece: nat)
    requires block % LevelSize(1) == 0 && block < USER_LIMIT && piece < 4
    ensures var start := block + piece * CHUNK * PAGE_BYTES;
            && start % PAGE_BYTES == 0 && start + CHUNK * PAGE_BYTES <= USER_LIMIT
            && start / PAGE_BYTES == block / PAGE_BYTES + piece * CHUNK
            && start / PAGE_BYTES % 512 + CHUNK <= 512
            && start / PAGE_BYTES / 512 == block / PAGE_BYTES / 512
  {
    var first := block / PAGE_BYTES;
    assert first * PAGE_BYTES == block && first % 512 == 0 by {
      var b := block / 0x20_0000;
      assert block == b * 0x20_0000 && block == b * 512 * PAGE_BYTES;
    }
    hide LevelSize;
    PieceOfBlock(first, piece);
  }

  lemma PieceOfBlock(first: nat, piece: nat)
    requires first % 512 == 0 && first < USER_PAGES && piece < 4
    ensures var page := first + piece * CHUNK;
            && (page + CHUNK) * PAGE_BYTES <= USER_LIMIT && page * PAGE_BYTES / PAGE_BYTES == page
               && page * PAGE_BYTES % PAGE_BYTES == 0
            && page % 512 + CHUNK <= 512 && page / 512 == first / 512
  {
    match piece
    case 0 =>
    case 1 =>
    case 2 =>
    case _ =>
  }

  /** Share the block of addresses at `block`, in pieces. */
  method ShareBlock(child: Tables, parent: Tables, block: nat, stock: TableStock, tlb: Tlb, ghost o: Origin)
    requires Together(parent, child, o) && Walked(parent, child, tlb.pending)
    requires block % LevelSize(1) == 0 && block < USER_LIMIT && |stock.frames| == DEPTH
    requires Copied(o, parent.mem.words, parent.mem.counts, stock.frames, block / PAGE_BYTES)
    modifies parent.mem, parent`cached, child`cached, stock, tlb
    ensures Walked(parent, child, tlb.pending)
    ensures Copied(o, parent.mem.words, parent.mem.counts, stock.frames, block / PAGE_BYTES + 512)
  {
    hide Covered, Copied, Tree, Live, LevelSize, Enough, Missing;
    EnoughAtFirst(o, parent.mem.words, stock.frames, block / PAGE_BYTES);
    for piece := 0 to 4
      invariant Walked(parent, child, tlb.pending)
      invariant Copied(o, parent.mem.words, parent.mem.counts, stock.frames, block / PAGE_BYTES + piece * CHUNK)
      invariant Enough(o, parent.mem.words, stock.frames, block / PAGE_BYTES)
    {
      PieceOf(block, piece);
      var start := block + piece * CHUNK * PAGE_BYTES;
      EnoughInBlock(o, parent.mem.words, stock.frames, block / PAGE_BYTES, start / PAGE_BYTES);
      var done := ShareRange(child, parent, start, CHUNK, stock, tlb, o);
      EnoughInBlock(o, parent.mem.words, stock.frames, start / PAGE_BYTES, block / PAGE_BYTES);
      assert done.Done?;
    }
  }

  lemma EnoughAtFirst(o: Origin, words: Words, frames: seq<Phys>, page: nat)
    requires |frames| == DEPTH
    ensures Enough(o, words, frames, page)
  {
    MissingAt(o.m, words, o.hc.root, page);
  }

  lemma EnoughInBlock(o: Origin, words: Words, frames: seq<Phys>, a: nat, b: nat)
    requires a < PAGES && b < PAGES && a / 512 == b / 512 && Enough(o, words, frames, a)
    ensures Enough(o, words, frames, b)
  {
    hide Missing;
    MissingInBlock(o.m, words, o.hc.root, a, b);
  }

  /** Share everything the parent has mapped with a child that has nothing. False
    * only when the allocator ran out. */
  method ShareAll(child: Tables, parent: Tables, tlb: Tlb, ghost o: Origin) returns (ok: bool)
    requires Together(parent, child, o) && Walked(parent, child, tlb.pending)
    requires Copied(o, parent.mem.words, parent.mem.counts, [], 0)
    modifies parent.mem, parent`cached, child`cached, tlb
    ensures Walked(parent, child, tlb.pending)
    ensures ok ==> Copied(o, parent.mem.words, parent.mem.counts, [], USER_PAGES)
    ensures !ok ==> Exhausted(parent.mem.words, parent.mem.counts)
  {
    hide Covered, Copied, Tree, Live, Block;
    var at := 0;
    BlockAddress(at);
    while at < USER_LIMIT
      invariant LevelSize(1) > 0
      invariant Walked(parent, child, tlb.pending) && at % LevelSize(1) == 0 && at % PAGE_BYTES == 0 && at <= USER_LIMIT
      invariant Copied(o, parent.mem.words, parent.mem.counts, [], at / PAGE_BYTES)
      decreases USER_LIMIT - at
    {
      BlockAddress(at);
      var block := NextPopulated(parent, at, USER_LIMIT);
      if block.None? {
        CopiedTo(o, parent.mem.words, parent.mem.counts, at, USER_LIMIT);
        return true;
      }
      BlockAddress(block.value);
      CopiedTo(o, parent.mem.words, parent.mem.counts, at, block.value);
      var stock := new TableStock();
      var filled := FillStock(parent, child, stock, o, block.value / PAGE_BYTES, tlb.pending);
      if !filled {
        return false;
      }
      ShareBlock(child, parent, block.value, stock, tlb, o);
      Drain(parent, child, stock, o, block.value / PAGE_BYTES + 512, tlb.pending);
      at := block.value + LevelSize(1);
    }
    return true;
  }

  lemma BlockAddress(virt: nat)
    requires virt % LevelSize(1) == 0
    ensures LevelSize(1) > 0 && virt % PAGE_BYTES == 0 && virt / LevelSize(1) * LevelSize(1) == virt
    ensures virt < USER_LIMIT ==> virt + LevelSize(1) <= USER_LIMIT
    ensures (virt + LevelSize(1)) % LevelSize(1) == 0 && (virt + LevelSize(1)) % PAGE_BYTES == 0
    ensures (virt + LevelSize(1)) / PAGE_BYTES == virt / PAGE_BYTES + 512
  {
    assert LevelSize(1) == 0x20_0000;
    var b := virt / 0x20_0000;
    assert virt == b * 0x20_0000 && virt == b * 512 * PAGE_BYTES;
  }

  /** A fork of a space no other task is running in. The child ends with the
    * parent's page map, the two share every frame, neither can be written through,
    * and every frame in use has one reference more for each page on it. */
  method ForkPages(child: Tables, parent: Tables, tlb: Tlb) returns (ok: bool)
    requires Forking(parent, child) && !parent.m.present(0)
    requires Covered(parent.m, parent.mem.words, parent.h, parent.cached, tlb.pending)
    requires parent.h.lo == 0 && parent.h.hi == 256 && child.h.lo == 0 && child.h.hi == 256
    requires PageMap(child.m, child.mem.words, child.h) == map[] && Blockless(child.m, child.mem.words, child.h)
    requires WholeFrames(parent.m, parent.mem.words)
    requires forall f | IsTableFrame(parent.m, parent.mem.words, parent.h, f) :: References(parent.mem.counts, f) >= 1
    requires forall f | IsTableFrame(child.m, child.mem.words, child.h, f) :: References(child.mem.counts, f) >= 1
    modifies parent.mem, parent`cached, child`cached, tlb
    ensures Walked(parent, child, tlb.pending)
    ensures !ok ==> Exhausted(parent.mem.words, parent.mem.counts)
    ensures ok ==> Forked(parent.m, old(PageMap(parent.m, parent.mem.words, parent.h)), old(parent.mem.counts),
                          PageMap(parent.m, parent.mem.words, parent.h), PageMap(parent.m, parent.mem.words, child.h),
                            parent.mem.counts)
  {
    ghost var o := Origin(parent.m, parent.h, child.h, PageMap(parent.m, parent.mem.words, parent.h),
                          parent.mem.counts);
    ForkStarts(o, parent.mem.words, parent.mem.counts);
    forall page | page in o.pages ensures page < USER_PAGES {
      OwnedPage(o.hp, page);
    }
    ok := ShareAll(child, parent, tlb, o);
    if ok {
      ForkEnds(o, parent.mem.words, parent.mem.counts);
    }
  }

  /** What a fork leaves of a parent that had `pages` mapped and `counts` references. */
  ghost predicate Forked(m: Machine, pages: map<nat, Word>, counts: map<Phys, nat>, mine: map<nat, Word>,
                         theirs: map<nat, Word>, counts': map<Phys, nat>)
  {
    && mine == theirs && mine.Keys == pages.Keys
    && (forall page | page in pages ::
        m.addr(mine[page]) == m.addr(pages[page]) && !m.writes(mine[page]) && mine[page] == SharedBits(m, pages[page]))
    && (forall f | References(counts, f) >= 1 ::
          References(counts', f) == References(counts, f) + |set page | page in pages && m.addr(pages[page]) == f|)
  }

  lemma ForkStarts(o: Origin, words: Words, counts: map<Phys, nat>)
    requires Sane(o) && WholeFrames(o.m, words) && Related(o.m, words, o.hp, o.hc) && Blockless(o.m, words, o.hc)
    requires o.pages == PageMap(o.m, words, o.hp) && PageMap(o.m, words, o.hc) == map[] && o.counts == counts
    requires forall f | IsTableFrame(o.m, words, o.hp, f) :: References(counts, f) >= 1
    requires forall f | IsTableFrame(o.m, words, o.hc, f) :: References(counts, f) >= 1
    ensures Copied(o, words, counts, [], 0)
  {
    hide LawfulTable, LawfulLeaf, LawfulSharing, WellMadeMap, Referenced, WholeFrames, Related, Blockless, PageMap,
         IsTableFrame, SharedBits;
    forall f ensures Naming(o.m, o.pages, f, 0) == {} {
    }
    assert MarkedBelow(o.m, o.pages, 0) == o.pages && CopiedBelow(o.m, o.pages, 0) == map[];
  }

  lemma ForkEnds(o: Origin, words: Words, counts: map<Phys, nat>)
    requires Copied(o, words, counts, [], USER_PAGES) && forall page | page in o.pages :: page < USER_PAGES
    ensures Forked(o.m, o.pages, o.counts, PageMap(o.m, words, o.hp), PageMap(o.m, words, o.hc), counts)
  {
    hide PageMap, Shareable, TablesHeld, WholeFrames, SharedBits, References, LawfulTable, LawfulLeaf, LawfulSharing,
         Referenced, WellMade;
    EveryPage(o.m, o.pages);
    hide MarkedBelow, CopiedBelow, Naming;
    forall page | page in o.pages ensures o.m.addr(SharedBits(o.m, o.pages[page])) == o.m.addr(o.pages[page])
      && !o.m.writes(SharedBits(o.m, o.pages[page])) {
      SharedIsReadOnly(o.m, o.pages[page]);
    }
  }

  lemma EveryPage(m: Machine, pages: map<nat, Word>)
    requires forall page | page in pages :: page < USER_PAGES
    ensures MarkedBelow(m, pages, USER_PAGES) == map page | page in pages :: SharedBits(m, pages[page])
    ensures CopiedBelow(m, pages, USER_PAGES) == map page | page in pages :: SharedBits(m, pages[page])
    ensures forall f :: Naming(m, pages, f, USER_PAGES) == set page | page in pages && m.addr(pages[page]) == f
  {
    hide SharedBits;
  }
}
