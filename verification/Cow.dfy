/** Breaking a share. The descriptor, the frame's contents and its count are read
  * and changed under one hold of the lock, so each case has one outcome for the
  * page map, the counts and the bytes.
  */
module Cow {
  import opened Machines
  import opened Walk
  import opened Pages
  import opened Hierarchy
  import opened Descent
  import opened Reclaim
  import opened Tables
  import opened Accounts
  import opened Guard
  import opened Share
  import opened Spaces

  /** A frame the caller brought, which nothing else holds. */
  ghost predicate Brought(m: Machine, words: Words, h: Hier, retired: seq<Phys>, f: Phys) {
    && f in words && |words[f]| == ENTRIES && m.frame(f) && f !in retired && f != h.root
    && Guard.Unnamed(m, words, h, f)
  }

  /** Every page mapped is on a frame of memory. */
  ghost predicate Backed(m: Machine, words: Words, h: Hier) {
    && WellMadeMap(m, PageMap(m, words, h))
    && forall page | page in PageMap(m, words, h) ::
         var f := m.addr(PageMap(m, words, h)[page]); f in words && |words[f]| == ENTRIES
  }

  /** Filling a frame no table is in changes nothing about the hierarchy. */
  lemma CopyElsewhere(m: Machine, words: Words, h: Hier, to: Phys, row: seq<Word>)
    requires Tree(m, words, h) && to in words && |row| == |words[to]| && to != h.root && Guard.Unnamed(m, words, h, to)
    ensures var words' := words[to := row];
            && SameHierarchy(m, words, words', h) && Tree(m, words', h)
            && PageMap(m, words', h) == PageMap(m, words, h) && Live(m, words', h) == Live(m, words, h)
            && (Blockless(m, words, h) ==> Blockless(m, words', h))
  {
    var words' := words[to := row];
    forall f | IsTableFrame(m, words, h, f) ensures f in words && f in words' && words'[f] == words[f] {
      var q :| IsTable(m, words, h, q) && TableAt(m, words, h.root, q) == Some(f);
      if q != Top {
        assert Walks(q, f) in Live(m, words, h);
      }
    }
    hide Tree, PageMap, Live, IsTableFrame, Blockless, SameHierarchy;
    HierarchyKept(m, words, words', h);
  }

  /** The same descriptors are the same names. */
  lemma SameNames(m: Machine, words: Words, words': Words, h: Hier, counts: map<Phys, nat>, held: seq<Phys>)
    requires SameHierarchy(m, words, words', h) && (Blockless(m, words, h) ==> Blockless(m, words', h))
    ensures Conserved(m, words, words', h, counts, counts, held, held)
  {
    hide Blockless;
    assert Positions(m, words', h) == Positions(m, words, h);
    forall f ensures NamedAt(m, words', h, f) == NamedAt(m, words, h, f) {
      forall q | q in Positions(m, words, h) ensures Desc(m, words', h.root, q) == Desc(m, words, h.root, q) {
      }
    }
  }

  /** What a frame holds. */
  function Row(words: Words, f: Phys): seq<Word> {
    if f in words then words[f] else []
  }

  /** The memory with the page on `from` copied, where the case asks for a copy. */
  function Prefilled(words: Words, from: Phys, c: CowCase): Words {
    if c.CopyTo? then words[c.to := Row(words, from)] else words
  }

  /** What comes of breaking the share at `page`: with the copy made, if one is, one
    * descriptor changes and no other frame's contents do. */
  ghost predicate Broke(m: Machine, words: Words, words': Words, h: Hier, page: nat, counts: map<Phys, nat>,
                        spare: Option<Phys>, ok: bool)
  {
    var pages := PageMap(m, words, h);
    var c := CaseOf(m, Lookup(pages, page), counts, spare);
    && ok == MayWrite(c)
    && if c.TakeBack? || c.CopyTo? then
         var from := m.addr(pages[page]);
         Rewritten(m, Prefilled(words, from, c), words', h, page, Broken(m, pages[page], c), Some(from))
       else words' == words
  }

  /** What the guard has retired and released since: the frame copied from waits, and
    * only a full list sends what was waiting before it back. */
  ghost predicate Settles(m: Machine, pages: map<nat, Word>, page: nat, spare: Option<Phys>,
                          counts: map<Phys, nat>, counts': map<Phys, nat>, retired: seq<Phys>, retired': seq<Phys>)
  {
    var c := CaseOf(m, Lookup(pages, page), counts, spare);
    if !c.CopyTo? then counts' == counts && retired' == retired else
    var room := |retired| + 1 <= RETIRED_MAX;
    && retired' == (if room then retired else []) + [m.addr(pages[page])]
    && counts' == if room then counts else ReleasedAll(counts, retired)
  }

  /** The frames a break is given and leaves, besides the retired ones. */
  function LeftOver(spare: Option<Phys>, c: CowCase): seq<Phys> {
    if spare.Some? && !c.CopyTo? then [spare.value] else []
  }

  /** What a break means for the hierarchy and for memory: the page map changes at one
    * page, the copy is the page copied, and every frame that is neither the copy nor
    * a table of this hierarchy keeps its contents. */
  lemma BrokeSeen(m: Machine, words: Words, words': Words, h: Hier, page: nat, counts: map<Phys, nat>,
                  spare: Option<Phys>, ok: bool)
    requires Tree(m, words, h) && Backed(m, words, h) && Broke(m, words, words', h, page, counts, spare, ok)
    requires spare.Some? ==> Brought(m, words, h, [], spare.value)
    ensures var pages := PageMap(m, words, h);
            var c := CaseOf(m, Lookup(pages, page), counts, spare);
            && (c.TakeBack? || c.CopyTo? ==> PageMap(m, words', h) == pages[page := Broken(m, pages[page], c)])
            && (c.CopyTo? ==> Row(words', c.to) == Row(words, m.addr(pages[page])))
            && words'.Keys == words.Keys
            && forall f | f in words && !IsTableFrame(m, words, h, f) && !(c.CopyTo? && f == c.to) ::
               words'[f] == words[f]
  {
    hide Tree, Live, PageMap, IsTableFrame, Populated, Broken, WellMadeMap, Unnamed, Blockless;
    var pages := PageMap(m, words, h);
    var c := CaseOf(m, Lookup(pages, page), counts, spare);
    if c.CopyTo? {
      var from := m.addr(pages[page]);
      CopyElsewhere(m, words, h, c.to, Row(words, from));
      var mid := Prefilled(words, from, c);
      SameTablesSameFrames(m, words, mid, h);
      if IsTableFrame(m, words, h, c.to) {
        TableIsNamed(m, words, h, c.to);
      }
    }
  }

  lemma OwnedFlags(m: Machine, bits: Word, f: Phys)
    requires LawfulLeaf(m) && LawfulOwning(m) && WellMade(m, bits) && m.frame(f)
    ensures m.frame(m.addr(bits)) && Mappable(m, f, m.owned(m.flags(bits)))
            && Mappable(m, m.addr(bits), m.owned(m.flags(bits)))
    ensures LeafWord(m, f, m.owned(m.flags(bits))) == Broken(m, bits, CopyTo(f))
    ensures LeafWord(m, m.addr(bits), m.owned(m.flags(bits))) == Broken(m, bits, TakeBack)
  {
    var p, g :| m.frame(p) && m.asked(g) && bits == m.leaf(p, g);
    assert m.writes(m.leaf(f, m.owned(m.flags(bits))));
  }

  lemma BackedNames(m: Machine, words: Words, h: Hier)
    requires LawfulLeaf(m) && Backed(m, words, h)
    ensures NamesFrames(m, words, h)
  {
    hide PageMap, WellMade, LawfulLeaf;
    forall page | page in PageMap(m, words, h) ensures m.frame(m.addr(PageMap(m, words, h)[page])) {
      MadeNamesFrame(m, PageMap(m, words, h)[page]);
    }
  }

  /** The last owner takes the page back. */
  method TakePageBack(guard: MmGuard, virt: nat, ghost bits: Word, flags: Word) returns (ok: bool)
    requires guard.Valid([]) && Ours(guard.tables.h, PathTo(PageOf(virt), 4))
    requires LawfulLeaf(guard.tables.m) && LawfulOwning(guard.tables.m)
             && Backed(guard.tables.m, guard.tables.mem.words, guard.tables.h)
    requires Lookup(PageMap(guard.tables.m, guard.tables.mem.words, guard.tables.h), PageOf(virt)) == Some(bits)
    requires flags == guard.tables.m.flags(bits)
    modifies guard.tables`cached, guard.tables.mem`words, guard.tlb
    ensures guard.Valid([]) && ok
    ensures Rewritten(guard.tables.m, old(guard.tables.mem.words), guard.tables.mem.words, guard.tables.h, PageOf(virt),
                      Broken(guard.tables.m, bits, TakeBack), Some(guard.tables.m.addr(bits)))
    ensures Conserved(guard.tables.m, old(guard.tables.mem.words), guard.tables.mem.words, guard.tables.h,
                      guard.tables.mem.counts, guard.tables.mem.counts, guard.retired, guard.retired)
  {
    hide Tree, Live, Covered, Apart, Waiting, Fenced, Ours, PathTo, PageMap, LawfulLeaf, LawfulOwning, NamesFrames,
         Broken, WellMade, LeafWord, Extended, Populated, Solvent, Balanced;
    MadeNamesFrame(guard.tables.m, bits);
    OwnedFlags(guard.tables.m, bits, guard.tables.m.addr(bits));
    BackedNames(guard.tables.m, guard.tables.mem.words, guard.tables.h);
    var r := guard.Protect(virt, guard.tables.m.owned(flags));
    ok := r.Some?;
  }

  lemma TableIsNamed(m: Machine, words: Words, h: Hier, f: Phys)
    requires IsTableFrame(m, words, h, f) && f != h.root
    ensures !Guard.Unnamed(m, words, h, f)
  {
    var q :| IsTable(m, words, h, q) && TableAt(m, words, h.root, q) == Some(f);
    assert Walks(q, f) in Live(m, words, h);
  }

  lemma StillApart(m: Machine, words: Words, words': Words, h: Hier, cached: iset<Entry>, pending: Pending,
                   retired: seq<Phys>, f: Phys)
    requires Live(m, words', h) == Live(m, words, h) && Apart(m, words, h) && Waiting(m, words, h, retired)
    requires Covered(m, words, h, cached, pending) && Fenced(m, words, h, cached, retired)
             && Guard.Unnamed(m, words, h, f)
    ensures Apart(m, words', h) && Waiting(m, words', h, retired)
    ensures Covered(m, words', h, cached, pending) && Fenced(m, words', h, cached, retired)
            && Guard.Unnamed(m, words', h, f)
  {
    hide Live;
  }

  /** Fill the spare frame from the page, with nothing else changed. */
  method CopyFrame(guard: MmGuard, from: Phys, to: Phys)
    requires guard.Valid([]) && from in guard.tables.mem.words && |guard.tables.mem.words[from]| == ENTRIES
    requires Brought(guard.tables.m, guard.tables.mem.words, guard.tables.h, guard.retired, to)
    modifies guard.tables.mem`words
    ensures guard.Valid([]) && Brought(guard.tables.m, guard.tables.mem.words, guard.tables.h, guard.retired, to)
    ensures guard.tables.mem.words == Prefilled(old(guard.tables.mem.words), from, CopyTo(to))
    ensures PageMap(guard.tables.m, guard.tables.mem.words, guard.tables.h)
            == old(PageMap(guard.tables.m, guard.tables.mem.words, guard.tables.h))
    ensures Conserved(guard.tables.m, old(guard.tables.mem.words), guard.tables.mem.words, guard.tables.h,
                      guard.tables.mem.counts, guard.tables.mem.counts, guard.retired + [to], guard.retired + [to])
  {
    hide Tree, Live, Covered, Apart, Waiting, Fenced, PageMap, Unnamed, Conserved, SameHierarchy, Blockless;
    var tables := guard.tables;
    ghost var words := tables.mem.words;
    var copy := tables.mem.words[from];
    CopyElsewhere(tables.m, words, tables.h, to, copy);
    tables.mem.words := tables.mem.words[to := copy];
    StillApart(tables.m, words, tables.mem.words, tables.h, tables.cached, guard.tlb.pending, guard.retired + [], to);
    SameNames(tables.m, words, tables.mem.words, tables.h, tables.mem.counts, guard.retired + [to]);
  }

  /** Copy the page to `to` and put that in its place. */
  method CopyPage(guard: MmGuard, virt: nat, phys: Phys, to: Phys, ghost bits: Word, flags: Word) returns (ok: bool)
    requires guard.Valid([]) && Ours(guard.tables.h, PathTo(PageOf(virt), 4))
    requires LawfulLeaf(guard.tables.m) && LawfulOwning(guard.tables.m)
             && Backed(guard.tables.m, guard.tables.mem.words, guard.tables.h)
    requires Lookup(PageMap(guard.tables.m, guard.tables.mem.words, guard.tables.h), PageOf(virt)) == Some(bits)
    requires flags == guard.tables.m.flags(bits) && phys == guard.tables.m.addr(bits)
    requires Brought(guard.tables.m, guard.tables.mem.words, guard.tables.h, guard.retired, to)
    modifies guard, guard.tables`cached, guard.tables.mem, guard.tlb
    ensures guard.Valid([]) && ok
    ensures Rewritten(guard.tables.m, Prefilled(old(guard.tables.mem.words), phys, CopyTo(to)), guard.tables.mem.words,
                      guard.tables.h, PageOf(virt),
                      Broken(guard.tables.m, bits, CopyTo(to)), Some(phys))
    ensures var room := |old(guard.retired)| + 1 <= RETIRED_MAX;
            && guard.retired == (if room then old(guard.retired) else []) + [phys]
            && guard.tables.mem.counts == if room then old(guard.tables.mem.counts)
               else ReleasedAll(old(guard.tables.mem.counts), old(guard.retired))
    ensures Conserved(guard.tables.m, old(guard.tables.mem.words), guard.tables.mem.words, guard.tables.h,
                      old(guard.tables.mem.counts), guard.tables.mem.counts, old(guard.retired) + [to], guard.retired)
  {
    hide Tree, Live, Covered, Apart, Waiting, Fenced, Ours, PathTo, PageMap, LawfulLeaf, LawfulOwning, Broken, WellMade,
         LeafWord, Rewritten, Unnamed, Solvent, Balanced, Prefilled, ReleasedAll;
    var tables := guard.tables;
    ghost var m, h, words, counts, held := tables.m, tables.h, tables.mem.words, tables.mem.counts, guard.retired;
    OwnedFlags(m, bits, to);
    BackedAt(m, words, h, PageOf(virt));
    CopyFrame(guard, phys, to);
    ghost var mid := tables.mem.words;
    var stale := guard.Replace(virt, to, tables.m.owned(flags));
    HeldBefore(m, mid, tables.mem.words, h, PageOf(virt), LeafWord(m, to, m.owned(flags)), stale, bits);
    ConservedOn(m, words, mid, tables.mem.words, h, counts, counts, counts, held + [to], held + [to], held + [phys]);
    ghost var words2 := tables.mem.words;
    guard.Retire([phys]);
    ConservedOn(m, words, words2, words2, h, counts, counts, tables.mem.counts, held + [to], held + [phys],
                guard.retired);
    assert [] + [phys] == [phys];
    ok := true;
  }

  lemma BackedAt(m: Machine, words: Words, h: Hier, page: nat)
    requires Backed(m, words, h)
    ensures page in PageMap(m, words, h) ==> var f := m.addr(PageMap(m, words, h)[page]);
            f in words && |words[f]| == ENTRIES
  {
  }

  lemma HeldBefore(m: Machine, words: Words, words': Words, h: Hier, page: nat, leaf: Word, stale: Option<Phys>,
                   bits: Word)
    requires Rewritten(m, words, words', h, page, leaf, stale) && Lookup(PageMap(m, words, h), page) == Some(bits)
    ensures stale == Some(m.addr(bits))
  {
  }

  /** Break the share of the page at `virt`. The answer is true exactly when the
    * page may be written afterwards, and then it is alone on its frame. */
  method BreakCow(guard: MmGuard, virt: nat, spare: Option<Phys>) returns (ok: bool)
    requires guard.Valid([]) && Ours(guard.tables.h, PathTo(PageOf(virt), 4))
    requires LawfulLeaf(guard.tables.m) && LawfulOwning(guard.tables.m)
             && Backed(guard.tables.m, guard.tables.mem.words, guard.tables.h)
    requires spare.Some? ==> Brought(guard.tables.m, guard.tables.mem.words, guard.tables.h, guard.retired, spare.value)
    modifies guard, guard.tables`cached, guard.tables.mem, guard.tlb
    ensures guard.Valid([])
    ensures Broke(guard.tables.m, old(guard.tables.mem.words), guard.tables.mem.words, guard.tables.h, PageOf(virt),
                  old(guard.tables.mem.counts), spare, ok)
    ensures Settles(guard.tables.m, old(PageMap(guard.tables.m, guard.tables.mem.words, guard.tables.h)), PageOf(virt),
                    spare,
                    old(guard.tables.mem.counts), guard.tables.mem.counts, old(guard.retired), guard.retired)
    ensures var c := CaseOf(guard.tables.m,
                            Lookup(old(PageMap(guard.tables.m, guard.tables.mem.words, guard.tables.h)), PageOf(virt)),
                            old(guard.tables.mem.counts), spare);
            Conserved(guard.tables.m, old(guard.tables.mem.words), guard.tables.mem.words, guard.tables.h,
                      old(guard.tables.mem.counts), guard.tables.mem.counts,
                      old(guard.retired) + LeftOver(spare, NoSpare), guard.retired + LeftOver(spare, c))
  {
    hide Tree, Live, Covered, Apart, Waiting, Fenced, Ours, PathTo, PageMap, LawfulLeaf, LawfulOwning, Broken, Backed,
         Brought, BlockAt, Within, References, Rewritten, Conserved, ReleasedAll;
    var tables := guard.tables;
    var m := tables.m;
    ghost var words, counts, held, given := tables.mem.words, tables.mem.counts, guard.retired,
      LeftOver(spare, NoSpare);
    NothingMoves(m, words, tables.h, counts, held + given);
    var flags := tables.FlagsOf(virt);
    if flags.None? {
      return false;
    }
    if !m.marked(flags.value) {
      return m.permits(flags.value);
    }
    ghost var bits := PageMap(m, tables.mem.words, tables.h)[PageOf(virt)];
    var at := tables.Translate(virt);
    var phys := at.value.0;
    if References(tables.mem.counts, phys) <= 1 {
      ok := TakePageBack(guard, virt, bits, flags.value);
      ConservedWith(m, words, tables.mem.words, tables.h, counts, held, given);
    } else if spare.None? {
      return false;
    } else {
      ok := CopyPage(guard, virt, phys, spare.value, bits, flags.value);
      assert guard.retired + [] == guard.retired;
    }
  }

  lemma NothingMoves(m: Machine, words: Words, h: Hier, counts: map<Phys, nat>, held: seq<Phys>)
    ensures Conserved(m, words, words, h, counts, counts, held, held)
  {
  }

  /** A change that moves nothing moves nothing with more in hand. */
  lemma ConservedWith(m: Machine, words: Words, words': Words, h: Hier, counts: map<Phys, nat>, held: seq<Phys>,
                      more: seq<Phys>)
    requires Conserved(m, words, words', h, counts, counts, held, held)
    ensures Conserved(m, words, words', h, counts, counts, held + more, held + more)
  {
    hide NamedAt, Blockless;
    if Solvent(m, words, h, counts, multiset(held + more)) {
      forall f ensures Elsewhere(m, words, h, counts, multiset(held), f) >= 0 {
        assert Elsewhere(m, words, h, counts, multiset(held + more), f) >= 0;
        assert multiset(held + more)[f] >= multiset(held)[f];
      }
      forall f ensures Elsewhere(m, words', h, counts, multiset(held + more), f)
        == Elsewhere(m, words, h, counts, multiset(held + more), f) {
        assert Elsewhere(m, words', h, counts, multiset(held), f) == Elsewhere(m, words, h, counts, multiset(held), f);
      }
    }
  }
}
