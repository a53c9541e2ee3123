/** Who names a frame. Every present descriptor a hierarchy owns is one reference to
  * the frame it names, whether that is a table or a page, and the lemmas here say
  * what each change to the tables does to that number, frame by frame.
  */
module Accounts {
  import opened Machines
  import opened Walk
  import opened Pages
  import opened Hierarchy
  import opened Descent
  import opened Reclaim
  import opened Tables

  /** A present descriptor: of a table, or at the last level of a page. */
  ghost predicate Position(m: Machine, words: Words, h: Hier, q: Path) {
    Ours(h, q) && m.present(Desc(m, words, h.root, q))
  }

  /** The same as a finite set: each position is on the way to some page. */
  ghost function Positions(m: Machine, words: Words, h: Hier): set<Path> {
    set page: nat, depth: nat | page < PAGES && 1 <= depth <= 4 && Position(m, words, h, PathTo(page, depth)) ::
      PathTo(page, depth)
  }

  /** The positions that name frame `f`. */
  ghost function NamedAt(m: Machine, words: Words, h: Hier, f: Phys): set<Path> {
    set q | q in Positions(m, words, h) && m.addr(Desc(m, words, h.root, q)) == f
  }

  /** The pages on frame `f`. */
  ghost function PagesOn(m: Machine, pages: map<nat, Word>, f: Phys): set<nat> {
    set page | page in pages && m.addr(pages[page]) == f
  }

  // ---- every position is counted -------------------------------------------

  /** Some page's walk goes through any path of four indices or fewer. */
  lemma {:induction false} SomePage(q: Path) returns (page: nat)
    requires Depth(q) <= 4 && InRange(q)
    ensures page < PAGES && PathTo(page, Depth(q)) == q
    decreases 4 - Depth(q)
  {
    if Depth(q) == 4 {
      assert Depth(q.up) == 3 && Depth(q.up.up) == 2 && Depth(q.up.up.up) == 1 && q.up.up.up.up == Top;
      assert InRange(q.up) && InRange(q.up.up) && InRange(q.up.up.up);
      page := PageAt(q.up.up.up.index, q.up.up.index, q.up.index, q.index);
    } else {
      page := SomePage(Down(q, 0));
    }
  }

  predicate InRange(q: Path) {
    q.Down? ==> q.index < ENTRIES && InRange(q.up)
  }

  lemma {:induction false} PositionInRange(m: Machine, words: Words, h: Hier, q: Path)
    requires Tree(m, words, h) && !m.present(0) && Position(m, words, h, q)
    ensures InRange(q) && 1 <= Depth(q) <= 4
  {
    IndexInTable(m, words, h, q);
    if q.up.Down? {
      PositionInRange(m, words, h, q.up);
    }
    TableDepth(m, words, h.root, q.up);
  }

  /** Nothing that is a position is left out. */
  lemma PositionsAreAll(m: Machine, words: Words, h: Hier, q: Path)
    requires Tree(m, words, h) && !m.present(0)
    ensures q in Positions(m, words, h) <==> Position(m, words, h, q)
  {
    if Position(m, words, h, q) {
      PositionInRange(m, words, h, q);
      var page := SomePage(q);
      assert PathTo(page, Depth(q)) == q;
    }
  }

  // ---- tables and pages ----------------------------------------------------

  /** A set and what an injection makes of it have the same size. */
  lemma {:induction false} SameSize<A, B>(a: set<A>, b: set<B>, f: A -> B)
    requires forall x | x in a :: f(x) in b
    requires forall y | y in b :: exists x :: x in a && f(x) == y
    requires forall x, x' | x in a && x' in a && f(x) == f(x') :: x == x'
    ensures |a| == |b|
    decreases a
  {
    if a == {} {
      assert b == {};
    } else {
      var x :| x in a;
      SameSize(a - {x}, b - {f(x)}, f);
    }
  }

  ghost predicate TableNamed(m: Machine, words: Words, h: Hier, f: Phys) {
    IsTableFrame(m, words, h, f) && f != h.root
  }

  ghost function TableNames(m: Machine, words: Words, h: Hier, f: Phys): set<Path> {
    set q | q in NamedAt(m, words, h, f) && Depth(q) <= 3
  }

  ghost function PageNames(m: Machine, words: Words, h: Hier, f: Phys): set<Path> {
    set q | q in NamedAt(m, words, h, f) && Depth(q) > 3
  }

  lemma PageNamed(m: Machine, words: Words, h: Hier, f: Phys, q: Path) returns (page: nat)
    requires Tree(m, words, h) && !m.present(0) && q in PageNames(m, words, h, f)
    ensures page in PagesOn(m, PageMap(m, words, h), f) && PathTo(page, 4) == q
  {
    PositionsAreAll(m, words, h, q);
    PositionInRange(m, words, h, q);
    page := PathsArePages(m, words, h, q);
  }

  lemma PageNamesArePages(m: Machine, words: Words, h: Hier, f: Phys)
    requires Tree(m, words, h) && !m.present(0)
    ensures |PageNames(m, words, h, f)| == |PagesOn(m, PageMap(m, words, h), f)|
  {
    hide Tree, Depth;
    var pages, names := PagesOn(m, PageMap(m, words, h), f), PageNames(m, words, h, f);
    forall page | page in pages ensures PathTo(page, 4) in names {
      PathToDepth(page, 4);
    }
    forall q | q in names ensures exists page :: page in pages && PathTo(page, 4) == q {
      var page := PageNamed(m, words, h, f, q);
    }
    forall a, b | a in pages && b in pages && PathTo(a, 4) == PathTo(b, 4) ensures a == b {
      PathToInjective(a, b);
    }
    SameSize(pages, names, page => PathTo(page, 4));
  }

  /** Above the last level, a position is one whose descriptor leads to a table. */
  lemma TableBelow(m: Machine, words: Words, h: Hier, q: Path)
    requires Blockless(m, words, h) && q.Down? && Ours(h, q) && Depth(q) <= 3 && !m.present(0)
    ensures Position(m, words, h, q) <==> TableAt(m, words, h.root, q).Some?
    ensures Position(m, words, h, q) ==> TableAt(m, words, h.root, q) == Some(m.addr(Desc(m, words, h.root, q)))
  {
  }

  lemma TableNamesAreOne(m: Machine, words: Words, h: Hier, f: Phys)
    requires Tree(m, words, h) && Blockless(m, words, h) && !m.present(0)
    ensures |TableNames(m, words, h, f)| == if TableNamed(m, words, h, f) then 1 else 0
  {
    var names := TableNames(m, words, h, f);
    forall q | q in names ensures IsTable(m, words, h, q) && TableAt(m, words, h.root, q) == Some(f) && q.Down? {
      PositionsAreAll(m, words, h, q);
      TableBelow(m, words, h, q);
    }
    assert IsTable(m, words, h, Top);
    if TableNamed(m, words, h, f) {
      var p :| IsTable(m, words, h, p) && TableAt(m, words, h.root, p) == Some(f);
      TableDepth(m, words, h.root, p);
      TableBelow(m, words, h, p);
      PositionsAreAll(m, words, h, p);
      assert names == {p};
    } else {
      assert names == {};
    }
  }

  /** A frame is named once as a table, if it is one, and once for each page on it. */
  lemma NamesSplit(m: Machine, words: Words, h: Hier, f: Phys)
    requires Tree(m, words, h) && Blockless(m, words, h) && !m.present(0)
    ensures |NamedAt(m, words, h, f)|
         == (if TableNamed(m, words, h, f) then 1 else 0) + |PagesOn(m, PageMap(m, words, h), f)|
  {
    hide Tree, Blockless, NamedAt, PagesOn, PageMap, TableNamed;
    var tables, pages := TableNames(m, words, h, f), PageNames(m, words, h, f);
    assert NamedAt(m, words, h, f) == tables + pages;
    assert tables !! pages;
    TableNamesAreOne(m, words, h, f);
    PageNamesArePages(m, words, h, f);
  }

  lemma PagesOnSets(m: Machine, pages: map<nat, Word>, page: nat, bits: Word, f: Phys)
    ensures PagesOn(m, pages[page := bits], f)
            == (PagesOn(m, pages, f) - {page}) + (if m.addr(bits) == f then {page} else {})
    ensures PagesOn(m, pages - {page}, f) == PagesOn(m, pages, f) - {page}
    ensures page in PagesOn(m, pages, f) <==> page in pages && m.addr(pages[page]) == f
  {
  }

  lemma PagesOnPut(m: Machine, pages: map<nat, Word>, page: nat, bits: Word, f: Phys)
    ensures |PagesOn(m, pages[page := bits], f)|
         == |PagesOn(m, pages, f)| - (if page in pages && m.addr(pages[page]) == f then 1 else 0)
            + (if m.addr(bits) == f then 1 else 0)
    ensures |PagesOn(m, pages - {page}, f)|
            == |PagesOn(m, pages, f)| - if page in pages && m.addr(pages[page]) == f then 1 else 0
  {
    hide PagesOn;
    PagesOnSets(m, pages, page, bits, f);
  }

  // ---- what each change does to the names ----------------------------------

  /** A publish names the tables it took and, when it is done, the page's frame. */
  lemma PublishNames(m: Machine, words: Words, words': Words, h: Hier, page: nat, bits: Word, was: seq<Phys>,
                     now: seq<Phys>, r: Outcome<()>, f: Phys)
    requires Tree(m, words, h) && Blockless(m, words, h) && !m.present(0) && now <= was
    requires Published(m, words, words', h, page, bits, was, now, r)
             && forall g | g in was :: !IsTableFrame(m, words, h, g)
    ensures |NamedAt(m, words', h, f)|
         == |NamedAt(m, words, h, f)| + (if f in Taken(was, now) then 1 else 0)
            + (if r.Done? && f == m.addr(bits) then 1 else 0)
  {
    hide Tree, Blockless, NamedAt, PagesOn, PageMap, IsTableFrame, Populated, Missing;
    NamesSplit(m, words, h, f);
    NamesSplit(m, words', h, f);
    PagesOnPut(m, PageMap(m, words, h), page, bits, f);
    assert f in Taken(was, now) ==> f in was;
    RootIsTable(m, words, h);
  }

  lemma RootIsTable(m: Machine, words: Words, h: Hier)
    ensures IsTableFrame(m, words, h, h.root)
  {
    assert IsTable(m, words, h, Top);
  }

  /** Putting one frame in another's place moves one name. */
  lemma RewriteNames(m: Machine, words: Words, words': Words, h: Hier, page: nat, bits: Word, held: Phys, f: Phys)
    requires Tree(m, words, h) && Blockless(m, words, h) && !m.present(0)
    requires Rewritten(m, words, words', h, page, bits, Some(held))
    ensures |NamedAt(m, words', h, f)|
         == |NamedAt(m, words, h, f)| - (if f == held then 1 else 0) + (if f == m.addr(bits) then 1 else 0)
  {
    hide Tree, Blockless, NamedAt, PagesOn, PageMap, IsTableFrame, Populated;
    NamesSplit(m, words, h, f);
    NamesSplit(m, words', h, f);
    PagesOnPut(m, PageMap(m, words, h), page, bits, f);
  }

  /** An unmap takes away the name of the page's frame and of each table taken out. */
  lemma UnmapNames(m: Machine, words: Words, words': Words, h: Hier, page: nat, frames: seq<Phys>,
                   counts: map<Phys, nat>, held: Phys, f: Phys)
    requires Tree(m, words, h) && Blockless(m, words, h) && !m.present(0)
    requires Unmapped(m, words, words', h, page, frames, counts, Some(held))
    ensures |NamedAt(m, words', h, f)|
         == |NamedAt(m, words, h, f)| - (if f in frames then 1 else 0) - (if f == held then 1 else 0)
  {
    hide Tree, Blockless, NamedAt, PagesOn, PageMap, IsTableFrame, Populated, SoleTables;
    NamesSplit(m, words, h, f);
    NamesSplit(m, words', h, f);
    PagesOnPut(m, PageMap(m, words, h), page, 0, f);
    RootIsTable(m, words', h);
  }

  // ---- conservation --------------------------------------------------------

  /** The references to `f` that are neither this hierarchy's nor in `held`. */
  ghost function Elsewhere(m: Machine, words: Words, h: Hier, counts: map<Phys, nat>, held: multiset<Phys>,
                           f: Phys): int
  {
    References(counts, f) - |NamedAt(m, words, h, f)| - held[f]
  }

  /** Every descriptor has its reference, and so does everything in `held`. */
  ghost predicate Solvent(m: Machine, words: Words, h: Hier, counts: map<Phys, nat>, held: multiset<Phys>) {
    && Blockless(m, words, h)
    && forall f :: Elsewhere(m, words, h, counts, held, f) >= 0
  }

  /** Whatever moved between descriptors, the frames held and the allocator, nobody
    * else's references were made or used up. */
  ghost predicate Balanced(m: Machine, words: Words, words': Words, h: Hier, counts: map<Phys, nat>,
                           counts': map<Phys, nat>, held: multiset<Phys>, held': multiset<Phys>)
  {
    && Blockless(m, words', h)
    && forall f :: Elsewhere(m, words', h, counts', held', f) == Elsewhere(m, words, h, counts, held, f)
  }

  lemma StillSolvent(m: Machine, words: Words, words': Words, h: Hier, counts: map<Phys, nat>, counts': map<Phys, nat>,
                     held: multiset<Phys>, held': multiset<Phys>)
    requires Solvent(m, words, h, counts, held) && Balanced(m, words, words', h, counts, counts', held, held')
    ensures Solvent(m, words', h, counts', held')
  {
    hide Elsewhere;
  }

  lemma BalancedOn(m: Machine, w0: Words, w1: Words, w2: Words, h: Hier, c0: map<Phys, nat>, c1: map<Phys, nat>,
                   c2: map<Phys, nat>, held0: multiset<Phys>, held1: multiset<Phys>, held2: multiset<Phys>)
    requires Balanced(m, w0, w1, h, c0, c1, held0, held1) && Balanced(m, w1, w2, h, c1, c2, held1, held2)
    ensures Balanced(m, w0, w2, h, c0, c2, held0, held2)
  {
    hide Elsewhere;
  }

  /** Taking each frame off the end of the stock once. */
  lemma TakenOnce(was: seq<Phys>, now: seq<Phys>, f: Phys)
    requires now <= was && NoRepeats(was)
    ensures multiset(was)[f] == multiset(now)[f] + if f in Taken(was, now) then 1 else 0
  {
    var rest := was[|now|..];
    assert was == now + rest;
    NoRepeatsJoin(now, rest);
    OnceOnly(rest, f);
  }

  lemma {:induction false} OnceOnly(s: seq<Phys>, f: Phys)
    requires NoRepeats(s)
    ensures multiset(s)[f] == if f in s then 1 else 0
  {
    if s != [] {
      var rest := s[..|s| - 1];
      assert s == rest + [s[|s| - 1]];
      OnceOnly(rest, f);
    }
  }

  /** What a publish leaves in hand: the retired frames, the page when it was
    * refused, and the rest of the stock. */
  function InHand(retired: seq<Phys>, page: seq<Phys>, stock: seq<Phys>): multiset<Phys> {
    multiset(retired) + multiset(page) + multiset(stock)
  }

  lemma PublishBalanced(m: Machine, words: Words, words': Words, h: Hier, page: nat, bits: Word, was: seq<Phys>,
                        now: seq<Phys>, r: Outcome<()>, counts: map<Phys, nat>, retired: seq<Phys>)
    requires Tree(m, words, h) && Blockless(m, words, h) && !m.present(0) && now <= was && NoRepeats(was)
    requires Published(m, words, words', h, page, bits, was, now, r)
             && forall g | g in was :: !IsTableFrame(m, words, h, g)
    ensures Balanced(m, words, words', h, counts, counts,
                     InHand(retired, [m.addr(bits)], was), InHand(retired, if r.Done? then [] else [m.addr(bits)], now))
  {
    assert Blockless(m, words', h);
    hide Tree, Blockless, NamedAt, IsTableFrame, Published, Taken, NoRepeats;
    var held, held' := InHand(retired, [m.addr(bits)], was),
      InHand(retired, if r.Done? then [] else [m.addr(bits)], now);
    forall f ensures Elsewhere(m, words', h, counts, held', f) == Elsewhere(m, words, h, counts, held, f) {
      PublishNames(m, words, words', h, page, bits, was, now, r, f);
      TakenOnce(was, now, f);
      assert multiset([m.addr(bits)])[f] == if f == m.addr(bits) then 1 else 0;
    }
  }

  lemma RewriteBalanced(m: Machine, words: Words, words': Words, h: Hier, page: nat, bits: Word, was: Phys,
                        counts: map<Phys, nat>, retired: seq<Phys>)
    requires Tree(m, words, h) && Blockless(m, words, h) && !m.present(0)
    requires Rewritten(m, words, words', h, page, bits, Some(was))
    ensures Balanced(m, words, words', h, counts, counts, multiset(retired + [m.addr(bits)]), multiset(retired + [was]))
  {
    assert Blockless(m, words', h);
    hide Tree, Blockless, NamedAt, Rewritten, References;
    forall f
      ensures Elsewhere(m, words', h, counts, multiset(retired + [was]), f)
              == Elsewhere(m, words, h, counts, multiset(retired + [m.addr(bits)]), f)
    {
      RewriteNames(m, words, words', h, page, bits, was, f);
      OneMore(retired, was, f);
      OneMore(retired, m.addr(bits), f);
    }
  }

  lemma OneMore(s: seq<Phys>, x: Phys, f: Phys)
    ensures multiset(s + [x])[f] == multiset(s)[f] + if f == x then 1 else 0
  {
  }

  /** Changing the flags of a page moves nothing. */
  lemma ProtectBalanced(m: Machine, words: Words, words': Words, h: Hier, page: nat, bits: Word, counts: map<Phys, nat>,
                        retired: seq<Phys>)
    requires Tree(m, words, h) && Blockless(m, words, h) && !m.present(0)
    requires Rewritten(m, words, words', h, page, bits, Some(m.addr(bits)))
    ensures Balanced(m, words, words', h, counts, counts, multiset(retired), multiset(retired))
  {
    assert Blockless(m, words', h);
    hide Tree, Blockless, NamedAt, Rewritten, References;
    forall f ensures Elsewhere(m, words', h, counts, multiset(retired), f)
      == Elsewhere(m, words, h, counts, multiset(retired), f) {
      RewriteNames(m, words, words', h, page, bits, m.addr(bits), f);
    }
  }

  lemma UnmapLeaves(m: Machine, words: Words, words': Words, h: Hier, page: nat, frames: seq<Phys>,
                    counts: map<Phys, nat>, held: Phys)
    requires Blockless(m, words, h) && Unmapped(m, words, words', h, page, frames, counts, Some(held))
    ensures Blockless(m, words', h) && NoRepeats(frames)
  {
    hide Tree, Blockless, NoRepeats, PageMap;
  }

  lemma UnmapBalanced(m: Machine, words: Words, words': Words, h: Hier, page: nat, frames: seq<Phys>,
                      counts: map<Phys, nat>, held: Phys, retired: seq<Phys>)
    requires Tree(m, words, h) && Blockless(m, words, h) && !m.present(0)
    requires Unmapped(m, words, words', h, page, frames, counts, Some(held))
    ensures Balanced(m, words, words', h, counts, counts, multiset(retired), multiset(retired + ([held] + frames)))
  {
    hide Tree, Blockless, NamedAt, Unmapped, NoRepeats;
    UnmapLeaves(m, words, words', h, page, frames, counts, held);
    forall f
      ensures Elsewhere(m, words', h, counts, multiset(retired + ([held] + frames)), f)
              == Elsewhere(m, words, h, counts, multiset(retired), f)
    {
      UnmapNames(m, words, words', h, page, frames, counts, held, f);
      OnceOnly(frames, f);
      assert multiset([held])[f] == if f == held then 1 else 0;
    }
  }

  /** Giving references back that were held. */
  lemma ReleaseBalanced(m: Machine, words: Words, h: Hier, counts: map<Phys, nat>, gone: seq<Phys>, kept: seq<Phys>)
    requires Solvent(m, words, h, counts, multiset(gone + kept))
    ensures Balanced(m, words, words, h, counts, ReleasedAll(counts, gone), multiset(gone + kept), multiset(kept))
  {
    hide Blockless, NamedAt, ReleasedAll;
    forall f
      ensures Elsewhere(m, words, h, ReleasedAll(counts, gone), multiset(kept), f)
              == Elsewhere(m, words, h, counts, multiset(gone + kept), f)
    {
      assert Elsewhere(m, words, h, counts, multiset(gone + kept), f) >= 0;
      ReleasedEach(counts, gone, f);
    }
  }
}
