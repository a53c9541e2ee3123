/** What a single store leaves of a hierarchy: its shape, and the page map it
  * stands for.
  */
module Hierarchy {
  import opened Machines
  import opened Walk
  import opened Pages

  /** No block or large page in the part the hierarchy owns. */
  ghost predicate Blockless(m: Machine, words: Words, h: Hier) {
    forall q | Ours(h, q) && 1 <= Depth(q) <= 3 ::
      var bits := Desc(m, words, h.root, q);
      m.present(bits) ==> !m.endsWalk(bits, 4 - Depth(q))
  }

  /** Something is present in the table. */
  ghost predicate HasEntry(m: Machine, words: Words, table: Phys) {
    exists i :: m.present(Read(words, table, i))
  }

  /** No table below the top is empty, but perhaps the one at `s`. */
  ghost predicate PopulatedBut(m: Machine, words: Words, h: Hier, s: Path) {
    forall p | IsTable(m, words, h, p) && p != Top && p != s ::
      HasEntry(m, words, TableAt(m, words, h.root, p).value)
  }

  ghost predicate Populated(m: Machine, words: Words, h: Hier) {
    PopulatedBut(m, words, h, Top)
  }

  /** Frames outside the hierarchy keep their contents. */
  ghost predicate OnlyTablesWritten(m: Machine, words: Words, words': Words, h: Hier) {
    && words'.Keys == words.Keys
    && (forall f | f in words && !IsTableFrame(m, words, h, f) :: words'[f] == words[f])
    && (forall f | f in words :: |words'[f]| == |words[f]|)
  }

  // ---- what follows from where the tables are ------------------------------

  lemma PutWritesOnly(m: Machine, words: Words, h: Hier, p: Path, i: nat, bits: Word)
    requires IsTable(m, words, h, p)
    requires var t := TableAt(m, words, h.root, p).value; t in words && i < |words[t]|
    ensures OnlyTablesWritten(m, words, Put(words, TableAt(m, words, h.root, p).value, i, bits), h)
  {
  }

  /** The same tables, or one more that is a frame of its own, or one fewer. */
  ghost predicate Reshaped(m: Machine, words: Words, words': Words, h: Hier, s: Path, now: Option<Phys>) {
    && TableAt(m, words', h.root, s) == now
    && SameTablesBut(m, words, words', h, s)
    && (now.Some? ==>
          && now.value in words && |words[now.value]| == ENTRIES && m.frame(now.value)
          && !IsTableFrame(m, words, h, now.value))
    && words'.Keys == words.Keys
    && (forall f | f in words :: |words'[f]| == |words[f]|)
  }

  lemma ReshapedIsTree(m: Machine, words: Words, words': Words, h: Hier, s: Path, now: Option<Phys>)
    requires Tree(m, words, h) && Reshaped(m, words, words', h, s, now)
    ensures Tree(m, words', h)
  {
    forall p | IsTable(m, words', h, p)
      ensures var t := TableAt(m, words', h.root, p).value; t in words' && |words'[t]| == ENTRIES && m.frame(t)
    {
      assert p == s || IsTable(m, words, h, p);
    }
    forall p, q | IsTable(m, words', h, p) && IsTable(m, words', h, q)
      && TableAt(m, words', h.root, p) == TableAt(m, words', h.root, q)
      ensures p == q
    {
      assert p == s || IsTable(m, words, h, p);
      assert q == s || IsTable(m, words, h, q);
    }
  }

  lemma SameTablesIsTree(m: Machine, words: Words, words': Words, h: Hier)
    requires Tree(m, words, h)
    requires forall q | Ours(h, q) :: TableAt(m, words', h.root, q) == TableAt(m, words, h.root, q)
    requires words'.Keys == words.Keys && forall f | f in words :: |words'[f]| == |words[f]|
    ensures Tree(m, words', h)
  {
    forall p, q | IsTable(m, words', h, p) && IsTable(m, words', h, q)
      && TableAt(m, words', h.root, p) == TableAt(m, words', h.root, q)
      ensures p == q
    {
      assert IsTable(m, words, h, p) && IsTable(m, words, h, q);
    }
  }

  // ---- storing in place ----------------------------------------------------

  /** Every position reads as before, but for `s`, which reads `bits`. */
  ghost predicate ReadsBut(m: Machine, words: Words, words': Words, h: Hier, s: Path, bits: Word) {
    && (forall q | Ours(h, q) :: TableAt(m, words', h.root, q) == TableAt(m, words, h.root, q))
    && (forall q | Ours(h, q) ::
          Desc(m, words', h.root, q) == if q == s then bits else Desc(m, words, h.root, q))
  }

  lemma InPlaceShape(m: Machine, words: Words, h: Hier, p: Path, i: nat, bits: Word)
    requires Tree(m, words, h) && IsTable(m, words, h, p) && i < ENTRIES && Ours(h, Down(p, i))
    requires Depth(p) >= 3 || Next(m, bits, 3 - Depth(p)) == Next(m, Desc(m, words, h.root, Down(p, i)), 3 - Depth(p))
    ensures var words' := Put(words, TableAt(m, words, h.root, p).value, i, bits);
            && Tree(m, words', h)
            && ReadsBut(m, words, words', h, Down(p, i), bits)
  {
    var words' := Put(words, TableAt(m, words, h.root, p).value, i, bits);
    assert ReadsBut(m, words, words', h, Down(p, i), bits) by {
      forall q | Ours(h, q)
        ensures TableAt(m, words', h.root, q) == TableAt(m, words, h.root, q)
        ensures Desc(m, words', h.root, q) == if q == Down(p, i) then bits else Desc(m, words, h.root, q)
      {
        StoreInPlace(m, words, h, p, i, bits, q);
      }
    }
    SameTablesIsTree(m, words, words', h);
  }

  // ---- linking and unlinking -----------------------------------------------

  /** Present descriptors read as before, but perhaps for the one at `s`. */
  ghost predicate PresentBut(m: Machine, words: Words, words': Words, h: Hier, s: Path) {
    forall q | Ours(h, q) && q != s ::
      && m.present(Desc(m, words', h.root, q)) == m.present(Desc(m, words, h.root, q))
      && (m.present(Desc(m, words, h.root, q)) ==> Desc(m, words', h.root, q) == Desc(m, words, h.root, q))
  }

  lemma LinkShape(m: Machine, words: Words, h: Hier, p: Path, i: nat, bits: Word, spare: Phys)
    requires Linkable(m, words, h, p, i, bits, spare)
    ensures var words' := Put(words, TableAt(m, words, h.root, p).value, i, bits);
            && Tree(m, words', h)
            && Reshaped(m, words, words', h, Down(p, i), Some(spare))
            && PresentBut(m, words, words', h, Down(p, i))
  {
    var words' := Put(words, TableAt(m, words, h.root, p).value, i, bits);
    forall q | Ours(h, q)
      ensures TableAt(m, words', h.root, q) == (if q == Down(p, i) then Some(spare) else TableAt(m, words, h.root, q))
      ensures q != Down(p, i) ==> m.present(Desc(m, words', h.root, q)) == m.present(Desc(m, words, h.root, q))
      ensures q != Down(p, i) && m.present(Desc(m, words, h.root, q))
              ==> Desc(m, words', h.root, q) == Desc(m, words, h.root, q)
    {
      LinkSeen(m, words, h, p, i, bits, spare, q);
    }
    ReshapedIsTree(m, words, words', h, Down(p, i), Some(spare));
  }

  lemma UnlinkShape(m: Machine, words: Words, h: Hier, p: Path, i: nat)
    requires Unlinkable(m, words, h, p, i)
    ensures var words' := Put(words, TableAt(m, words, h.root, p).value, i, 0);
            && Tree(m, words', h)
            && Reshaped(m, words, words', h, Down(p, i), None)
            && PresentBut(m, words, words', h, Down(p, i))
  {
    var words' := Put(words, TableAt(m, words, h.root, p).value, i, 0);
    forall q | Ours(h, q)
      ensures TableAt(m, words', h.root, q) == (if q == Down(p, i) then None else TableAt(m, words, h.root, q))
      ensures q != Down(p, i) ==> m.present(Desc(m, words', h.root, q)) == m.present(Desc(m, words, h.root, q))
      ensures q != Down(p, i) && m.present(Desc(m, words, h.root, q))
              ==> Desc(m, words', h.root, q) == Desc(m, words, h.root, q)
    {
      UnlinkSeen(m, words, h, p, i, q);
    }
    ReshapedIsTree(m, words, words', h, Down(p, i), None);
  }

  /** No block comes of a store that puts none in. */
  lemma BlocklessKept(m: Machine, words: Words, words': Words, h: Hier, s: Path)
    requires PresentBut(m, words, words', h, s) && Blockless(m, words, h)
    requires var bits := Desc(m, words', h.root, s); Depth(s) > 3 || !m.present(bits) || !m.endsWalk(bits, 4 - Depth(s))
    ensures Blockless(m, words', h)
  {
  }

  // ---- the page map --------------------------------------------------------

  /** A store above the last level, or of an absent table, maps the same pages. */
  lemma PagesKept(m: Machine, words: Words, words': Words, h: Hier, s: Path)
    requires PresentBut(m, words, words', h, s) && Depth(s) <= 3
    ensures PageMap(m, words', h) == PageMap(m, words, h)
  {
    forall page: nat | page < PAGES
      ensures Mapped(m, words', h, page) == Mapped(m, words, h, page)
      ensures Mapped(m, words, h, page)
              ==> Desc(m, words', h.root, PathTo(page, 4)) == Desc(m, words, h.root, PathTo(page, 4))
    {
      PathToDepth(page, 4);
    }
  }

  lemma ReadsButIsPresentBut(m: Machine, words: Words, words': Words, h: Hier, s: Path, bits: Word)
    requires ReadsBut(m, words, words', h, s, bits)
    ensures PresentBut(m, words, words', h, s)
  {
  }

  lemma PageStored(m: Machine, words: Words, words': Words, h: Hier, page: nat, bits: Word, other: nat)
    requires page < PAGES && Ours(h, PathTo(page, 4)) && ReadsBut(m, words, words', h, PathTo(page, 4), bits)
    ensures var was, now := PageMap(m, words, h), PageMap(m, words', h);
            && (other in now <==> if other == page then m.present(bits) else other in was)
            && (other in now ==> now[other] == if other == page then bits else was[other])
  {
    if other < PAGES && PathTo(other, 4) == PathTo(page, 4) {
      PathToInjective(other, page);
    }
  }

  lemma OneEntryChanged(was: map<nat, Word>, now: map<nat, Word>, page: nat, bits: Word, present: bool)
    requires forall other: nat :: other in now <==> if other == page then present else other in was
    requires forall other: nat :: other in now ==> now[other] == if other == page then bits else was[other]
    ensures now == if present then was[page := bits] else was - {page}
  {
  }

  /** A store at the last level changes the map at one page. */
  lemma PagesStored(m: Machine, words: Words, words': Words, h: Hier, page: nat, bits: Word)
    requires page < PAGES && Ours(h, PathTo(page, 4)) && ReadsBut(m, words, words', h, PathTo(page, 4), bits)
    ensures PageMap(m, words', h)
         == if m.present(bits) then PageMap(m, words, h)[page := bits] else PageMap(m, words, h) - {page}
  {
    var was, now := PageMap(m, words, h), PageMap(m, words', h);
    forall other: nat
      ensures other in now <==> if other == page then m.present(bits) else other in was
      ensures other in now ==> now[other] == if other == page then bits else was[other]
    {
      PageStored(m, words, words', h, page, bits, other);
    }
    OneEntryChanged(was, now, page, bits, m.present(bits));
  }

  // ---- growing -------------------------------------------------------------

  /** `words'` is `words` with the frames in `used` made tables: every table that
    * was there is where it was, and no frame outside the hierarchy is written. */
  ghost predicate Extended(m: Machine, words: Words, words': Words, h: Hier, used: set<Phys>) {
    && Tree(m, words', h)
    && (forall q | IsTable(m, words, h, q) :: TableAt(m, words', h.root, q) == TableAt(m, words, h.root, q))
    && (forall f :: IsTableFrame(m, words', h, f) <==> IsTableFrame(m, words, h, f) || f in used)
    && words'.Keys == words.Keys
    && (forall f | f in words :: |words'[f]| == |words[f]|)
    && (forall f | f in words && !IsTableFrame(m, words', h, f) :: words'[f] == words[f])
    && (Blockless(m, words, h) ==> Blockless(m, words', h))
  }

  /** The same, with the same pages mapped: a walk cannot tell the two apart. */
  ghost predicate Grown(m: Machine, words: Words, words': Words, h: Hier, used: set<Phys>) {
    && Extended(m, words, words', h, used)
    && PageMap(m, words', h) == PageMap(m, words, h)
  }

  lemma ExtendedStep(m: Machine, w0: Words, w1: Words, w2: Words, h: Hier, used: set<Phys>, more: set<Phys>)
    requires Extended(m, w0, w1, h, used) && Extended(m, w1, w2, h, more)
    ensures Extended(m, w0, w2, h, used + more)
  {
    forall q | IsTable(m, w0, h, q)
      ensures TableAt(m, w2, h.root, q) == TableAt(m, w0, h.root, q)
    {
      assert IsTable(m, w1, h, q);
    }
  }

  lemma GrownByLink(m: Machine, words: Words, h: Hier, p: Path, i: nat, bits: Word, spare: Phys)
    requires Linkable(m, words, h, p, i, bits, spare)
    ensures Grown(m, words, Put(words, TableAt(m, words, h.root, p).value, i, bits), h, {spare})
  {
    LinkShape(m, words, h, p, i, bits, spare);
    PutWritesOnly(m, words, h, p, i, bits);
    StoredHere(m, words, h, p, i, bits);
    hide Tree, OnlyTablesWritten, PresentBut, Blockless, Extended, PageMap, SameTablesBut;
    var words' := Put(words, TableAt(m, words, h.root, p).value, i, bits);
    PagesKept(m, words, words', h, Down(p, i));
    BlocklessInPlace(m, words, words', h, p, i, bits);
    ExtendedByOne(m, words, words', h, Down(p, i), spare);
  }

  lemma ExtendedByOne(m: Machine, words: Words, words': Words, h: Hier, s: Path, spare: Phys)
    requires Tree(m, words', h) && OnlyTablesWritten(m, words, words', h)
    requires Ours(h, s) && TableAt(m, words, h.root, s).None? && Reshaped(m, words, words', h, s, Some(spare))
    requires Blockless(m, words, h) ==> Blockless(m, words', h)
    ensures Extended(m, words, words', h, {spare})
  {
    hide Tree, Blockless;
    LinkFrames(m, words, words', h, s, spare);
  }

  lemma StoredHere(m: Machine, words: Words, h: Hier, p: Path, i: nat, bits: Word)
    requires Tree(m, words, h) && IsTable(m, words, h, p) && i < ENTRIES
    ensures Desc(m, Put(words, TableAt(m, words, h.root, p).value, i, bits), h.root, Down(p, i)) == bits
  {
    var table := TableAt(m, words, h.root, p).value;
    UnderDepthStrict(p, i);
    StoreElsewhere(m, words, h, p, i, bits, p);
    ReadPut(words, table, i, bits, table, i);
  }

  lemma LinkFrames(m: Machine, words: Words, words': Words, h: Hier, s: Path, spare: Phys)
    requires Ours(h, s) && TableAt(m, words, h.root, s).None?
    requires TableAt(m, words', h.root, s) == Some(spare) && SameTablesBut(m, words, words', h, s)
    ensures forall q | IsTable(m, words, h, q) :: TableAt(m, words', h.root, q) == TableAt(m, words, h.root, q)
    ensures forall f :: IsTableFrame(m, words', h, f) <==> IsTableFrame(m, words, h, f) || f == spare
  {
    forall f ensures IsTableFrame(m, words', h, f) <==> IsTableFrame(m, words, h, f) || f == spare
    {
      if IsTableFrame(m, words, h, f) {
        var q :| IsTable(m, words, h, q) && TableAt(m, words, h.root, q) == Some(f);
        assert IsTable(m, words', h, q);
      }
      if IsTableFrame(m, words', h, f) {
        var q :| IsTable(m, words', h, q) && TableAt(m, words', h.root, q) == Some(f);
        assert q == s || IsTable(m, words, h, q);
      }
      if f == spare {
        assert IsTable(m, words', h, s);
      }
    }
  }

  lemma SameTablesSameFrames(m: Machine, words: Words, words': Words, h: Hier)
    requires forall q | Ours(h, q) :: TableAt(m, words', h.root, q) == TableAt(m, words, h.root, q)
    ensures forall f :: IsTableFrame(m, words', h, f) <==> IsTableFrame(m, words, h, f)
  {
    forall f ensures IsTableFrame(m, words', h, f) <==> IsTableFrame(m, words, h, f)
    {
      if IsTableFrame(m, words, h, f) {
        var q :| IsTable(m, words, h, q) && TableAt(m, words, h.root, q) == Some(f);
        assert IsTable(m, words', h, q);
      }
      if IsTableFrame(m, words', h, f) {
        var q :| IsTable(m, words', h, q) && TableAt(m, words', h.root, q) == Some(f);
        assert IsTable(m, words, h, q);
      }
    }
  }

  /** A store that moves no table and puts in no block. */
  lemma ExtendedInPlace(m: Machine, words: Words, h: Hier, p: Path, i: nat, bits: Word)
    requires Tree(m, words, h) && IsTable(m, words, h, p) && i < ENTRIES && Ours(h, Down(p, i))
    requires Depth(p) >= 3
             || (Next(m, bits, 3 - Depth(p)).Some?
                 && Next(m, bits, 3 - Depth(p)) == Next(m, Desc(m, words, h.root, Down(p, i)), 3 - Depth(p)))
    ensures var words' := Put(words, TableAt(m, words, h.root, p).value, i, bits);
            && Extended(m, words, words', h, {})
            && ReadsBut(m, words, words', h, Down(p, i), bits)
            && PresentBut(m, words, words', h, Down(p, i))
  {
    InPlaceShape(m, words, h, p, i, bits);
    PutWritesOnly(m, words, h, p, i, bits);
    StoredHere(m, words, h, p, i, bits);
    hide Tree, OnlyTablesWritten, ReadsBut, PresentBut, Blockless, Extended;
    var words' := Put(words, TableAt(m, words, h.root, p).value, i, bits);
    ReadsButIsPresentBut(m, words, words', h, Down(p, i), bits);
    BlocklessInPlace(m, words, words', h, p, i, bits);
    ExtendedByNone(m, words, words', h, Down(p, i), bits);
  }

  lemma ExtendedByNone(m: Machine, words: Words, words': Words, h: Hier, s: Path, bits: Word)
    requires Tree(m, words', h) && ReadsBut(m, words, words', h, s, bits) && OnlyTablesWritten(m, words, words', h)
    requires Blockless(m, words, h) ==> Blockless(m, words', h)
    ensures Extended(m, words, words', h, {})
  {
    SameTablesSameFrames(m, words, words', h);
    hide Tree, Blockless;
  }

  lemma BlocklessInPlace(m: Machine, words: Words, words': Words, h: Hier, p: Path, i: nat, bits: Word)
    requires PresentBut(m, words, words', h, Down(p, i)) && Desc(m, words', h.root, Down(p, i)) == bits
    requires Depth(p) >= 3 || Next(m, bits, 3 - Depth(p)).Some?
    ensures Blockless(m, words, h) ==> Blockless(m, words', h)
  {
    if Blockless(m, words, h) {
      BlocklessKept(m, words, words', h, Down(p, i));
    }
  }

  lemma GrownByWidening(m: Machine, words: Words, h: Hier, p: Path, i: nat, bits: Word)
    requires Tree(m, words, h) && IsTable(m, words, h, p) && i < ENTRIES && Ours(h, Down(p, i)) && Depth(p) < 3
    requires Next(m, bits, 3 - Depth(p)).Some?
    requires Next(m, bits, 3 - Depth(p)) == Next(m, Desc(m, words, h.root, Down(p, i)), 3 - Depth(p))
    ensures Grown(m, words, Put(words, TableAt(m, words, h.root, p).value, i, bits), h, {})
  {
    ExtendedInPlace(m, words, h, p, i, bits);
    PagesKept(m, words, Put(words, TableAt(m, words, h.root, p).value, i, bits), h, Down(p, i));
    hide Extended, PageMap;
  }
}
