/** What the walk of one address finds and leaves: the descent that creates the
  * levels it misses, and the one store at the end of it.
  */
module Descent {
  import opened Machines
  import opened Walk
  import opened Pages
  import opened Hierarchy

  datatype Refused = Occupied | ShortOfTables | Blocked

  datatype Outcome<+T> = Done(value: T) | Err(refused: Refused)

  /** Something a walker can keep: an unfinished walk, as far as a table, or a
    * finished translation, with whether it lets stores through. */
  datatype Entry = Walks(path: Path, frame: Phys) | Translates(page: nat, frame: Phys, stores: bool)

  ghost predicate Readable(m: Machine, words: Words, h: Hier, e: Entry) {
    match e
    case Walks(q, f) => Ours(h, q) && q != Top && TableAt(m, words, h.root, q) == Some(f)
    case Translates(page, f, stores) =>
      var pages := PageMap(m, words, h);
      page in pages && m.addr(pages[page]) == f && m.writes(pages[page]) == stores
  }

  /** What the walker can read: the tables and the pages the hierarchy names. */
  ghost function Live(m: Machine, words: Words, h: Hier): iset<Entry> {
    iset e | Readable(m, words, h, e)
  }

  /** Tables a mapping at `page` would have to create. */
  function Missing(m: Machine, words: Words, root: Phys, page: nat): nat {
    if TableAt(m, words, root, PathTo(page, 1)).None? then 3
    else if TableAt(m, words, root, PathTo(page, 2)).None? then 2
    else if TableAt(m, words, root, PathTo(page, 3)).None? then 1
    else 0
  }

  lemma StepAlong(m: Machine, words: Words, root: Phys, page: nat, depth: nat)
    requires depth < 3
    ensures TableAt(m, words, root, PathTo(page, depth + 1))
         == match TableAt(m, words, root, PathTo(page, depth))
            case None => None
            case Some(table) => Next(m, Read(words, table, PageIndex(page, 3 - depth)), 3 - depth)
  {
    PathToDepth(page, depth);
  }

  // ---- descending and creating ---------------------------------------------

  /** Blank frames of nobody's, each of them once. */
  ghost predicate StockReady(m: Machine, words: Words, h: Hier, frames: seq<Phys>) {
    && (forall i | 0 <= i < |frames| :: Spare(m, words, h, frames[i]))
    && (forall i, j | 0 <= i < j < |frames| :: frames[i] != frames[j])
  }

  ghost predicate Spare(m: Machine, words: Words, h: Hier, f: Phys) {
    && f in words && |words[f]| == ENTRIES && m.frame(f)
    && Blank(m, words, f)
    && !IsTableFrame(m, words, h, f)
  }

  lemma StockReadyAfter(m: Machine, words: Words, words': Words, h: Hier, frames: seq<Phys>, used: set<Phys>)
    requires StockReady(m, words, h, frames) && Extended(m, words, words', h, used)
    requires forall f | f in frames :: f !in used
    ensures StockReady(m, words', h, frames)
  {
    forall i | 0 <= i < |frames| ensures Spare(m, words', h, frames[i]) {
      var f := frames[i];
      assert f in frames && !IsTableFrame(m, words', h, f);
      assert words'[f] == words[f];
      forall k ensures !m.present(Read(words', f, k)) {
        assert Read(words', f, k) == Read(words, f, k);
      }
    }
  }

  lemma GrownReads(m: Machine, words: Words, words': Words, h: Hier, used: set<Phys>)
    requires Extended(m, words, words', h, used)
    requires forall page | page in PageMap(m, words, h) ::
               page in PageMap(m, words', h) && PageMap(m, words', h)[page] == PageMap(m, words, h)[page]
    ensures Live(m, words, h) <= Live(m, words', h)
  {
    forall e | Readable(m, words, h, e) ensures Readable(m, words', h, e) {
      if e.Walks? {
        assert IsTable(m, words, h, e.path);
      }
    }
  }

  /** The walk to `page` has come to `table` at `depth`, in the part owned. */
  ghost predicate Arrived(m: Machine, words: Words, h: Hier, page: nat, depth: nat, table: Phys) {
    && page < PAGES && depth <= 3 && Ours(h, PathTo(page, 4))
    && Tree(m, words, h)
    && TableAt(m, words, h.root, PathTo(page, depth)) == Some(table)
  }

  lemma ArrivedIsTable(m: Machine, words: Words, h: Hier, page: nat, depth: nat, table: Phys)
    requires Arrived(m, words, h, page, depth, table)
    ensures IsTable(m, words, h, PathTo(page, depth)) && Ours(h, PathTo(page, depth + 1))
    ensures table in words && |words[table]| == ENTRIES
    ensures Depth(PathTo(page, depth)) == depth
  {
    OursAlong(h, page, depth);
    OursAlong(h, page, depth + 1);
    PathToDepth(page, depth);
  }

  lemma {:induction false} OursAlong(h: Hier, page: nat, depth: nat)
    requires depth <= 4 && Ours(h, PathTo(page, 4))
    ensures Ours(h, PathTo(page, depth))
    decreases 4 - depth
  {
    if depth < 4 {
      OursAlong(h, page, depth + 1);
      assert Under(PathTo(page, depth + 1), PathTo(page, depth));
      OursUnder(h, PathTo(page, depth + 1), PathTo(page, depth));
    }
  }

  lemma LinkAlong(m: Machine, words: Words, h: Hier, page: nat, depth: nat, table: Phys, under: Word, spare: Phys)
    requires LawfulTable(m) && !m.present(0)
    requires Arrived(m, words, h, page, depth, table) && depth < 3
    requires !m.present(Read(words, table, PageIndex(page, 3 - depth)))
    requires Spare(m, words, h, spare)
    ensures Linkable(m, words, h, PathTo(page, depth), PageIndex(page, 3 - depth), m.table(spare, under), spare)
  {
    ArrivedIsTable(m, words, h, page, depth, table);
    StepAlong(m, words, h.root, page, depth);
  }

  lemma MissingAfterLink(m: Machine, words: Words, words': Words, h: Hier, page: nat, depth: nat)
    requires page < PAGES && depth < 3 && Ours(h, PathTo(page, 4))
    requires TableAt(m, words, h.root, PathTo(page, depth)).Some?
             && TableAt(m, words, h.root, PathTo(page, depth + 1)).None?
    requires TableAt(m, words', h.root, PathTo(page, depth + 1)).Some?
    requires SameTablesBut(m, words, words', h, PathTo(page, depth + 1))
    ensures Missing(m, words, h.root, page) == 3 - depth && Missing(m, words', h.root, page) == 2 - depth
  {
    forall d: nat | d <= 3 && d != depth + 1
      ensures TableAt(m, words', h.root, PathTo(page, d)) == TableAt(m, words, h.root, PathTo(page, d))
    {
      OursAlong(h, page, d);
      PathToDepth(page, d);
      PathToDepth(page, depth + 1);
    }
    ReachedAbove(m, words, h.root, page, depth);
    ReachedBelow(m, words, h.root, page, depth + 1);
  }

  lemma {:induction false} ReachedAbove(m: Machine, words: Words, root: Phys, page: nat, depth: nat)
    requires depth <= 3 && TableAt(m, words, root, PathTo(page, depth)).Some?
    ensures forall d: nat | d <= depth :: TableAt(m, words, root, PathTo(page, d)).Some?
  {
    if depth > 0 {
      StepAlong(m, words, root, page, depth - 1);
      ReachedAbove(m, words, root, page, depth - 1);
    }
  }

  lemma {:induction false} ReachedBelow(m: Machine, words: Words, root: Phys, page: nat, depth: nat)
    requires depth <= 3 && TableAt(m, words, root, PathTo(page, depth)).None?
    ensures forall d: nat | depth <= d <= 3 :: TableAt(m, words, root, PathTo(page, d)).None?
    decreases 3 - depth
  {
    if depth < 3 {
      StepAlong(m, words, root, page, depth);
      ReachedBelow(m, words, root, page, depth + 1);
    }
  }

  /** Once the table at `was` has gained the entry `s` below it, the only table
    * that may hold nothing is the one at `s`. */
  lemma PopulatedOneLower(m: Machine, words: Words, words': Words, h: Hier, was: Path, s: Path)
    requires PopulatedBut(m, words, h, was) && s.Down? && s.up == was && Ours(h, s)
    requires SameTablesBut(m, words, words', h, s) && PresentBut(m, words, words', h, s)
    requires m.present(Desc(m, words', h.root, s)) && !m.present(0)
    ensures PopulatedBut(m, words', h, s)
  {
    forall p | IsTable(m, words', h, p) && p != Top && p != s
      ensures HasEntry(m, words', TableAt(m, words', h.root, p).value)
    {
      assert IsTable(m, words, h, p);
      if p == was {
        assert m.present(Read(words', TableAt(m, words', h.root, p).value, s.index));
      } else {
        EntryKept(m, words, words', h, s, p);
      }
    }
  }

  lemma EntryKept(m: Machine, words: Words, words': Words, h: Hier, s: Path, p: Path)
    requires IsTable(m, words, h, p) && p != Top && HasEntry(m, words, TableAt(m, words, h.root, p).value)
    requires TableAt(m, words', h.root, p) == TableAt(m, words, h.root, p)
    requires PresentBut(m, words, words', h, s) && (s.Top? || s.up != p)
    ensures HasEntry(m, words', TableAt(m, words', h.root, p).value)
  {
    var i :| m.present(Read(words, TableAt(m, words, h.root, p).value, i));
    var q := Down(p, i);
    assert Ours(h, q) && q != s;
    assert m.present(Desc(m, words', h.root, q));
    assert m.present(Read(words', TableAt(m, words', h.root, p).value, i));
  }

  /** The frames taken off the end of `was` to leave `now`. */
  ghost function Taken(was: seq<Phys>, now: seq<Phys>): set<Phys>
    requires |now| <= |was|
  {
    set f | f in was[|now|..]
  }

  lemma StockLast(m: Machine, words: Words, h: Hier, now: seq<Phys>, spare: Phys)
    requires StockReady(m, words, h, now + [spare])
    ensures Spare(m, words, h, spare)
  {
    assert (now + [spare])[|now|] == spare;
  }

  lemma WidenKeepsNext(m: Machine, bits: Word, wider: Word, level: nat)
    requires LawfulTable(m) && m.present(bits) && exists under :: m.widen(bits, under) == Some(wider)
    ensures Next(m, wider, level) == Next(m, bits, level)
  {
  }

  lemma StockShrinks(m: Machine, words: Words, words': Words, h: Hier, now: seq<Phys>, spare: Phys)
    requires StockReady(m, words, h, now + [spare]) && Grown(m, words, words', h, {spare})
    ensures StockReady(m, words', h, now) && Taken(now + [spare], now) == {spare}
    ensures Live(m, words, h) <= Live(m, words', h)
  {
    assert StockReady(m, words, h, now) by {
      forall i | 0 <= i < |now| ensures Spare(m, words, h, now[i]) {
        assert (now + [spare])[i] == now[i];
      }
      forall i, j | 0 <= i < j < |now| ensures now[i] != now[j] {
        assert (now + [spare])[i] != (now + [spare])[j];
      }
    }
    forall f | f in now ensures f != spare {
      var i :| 0 <= i < |now| && now[i] == f;
      assert (now + [spare])[i] == f && (now + [spare])[|now|] == spare;
    }
    StockReadyAfter(m, words, words', h, now, {spare});
    GrownReads(m, words, words', h, {spare});
  }

  /** A descent from one depth to another took the frames missing from `now` and
    * came to `r`. */
  ghost predicate Descended(m: Machine, words: Words, words': Words, h: Hier, page: nat, from: nat, to: nat,
                            was: seq<Phys>, now: seq<Phys>, r: Outcome<Phys>)
    requires from <= to <= 3
  {
    && now <= was && StockReady(m, words', h, now)
    && Grown(m, words, words', h, Taken(was, now))
    && |now| - Missing(m, words', h.root, page) == |was| - Missing(m, words, h.root, page)
    && match r
       case Done(table) =>
         && Arrived(m, words', h, page, to, table)
         && (PopulatedBut(m, words, h, PathTo(page, from)) ==> PopulatedBut(m, words', h, PathTo(page, to)))
       case Err(refused) =>
         && refused != Occupied && TableAt(m, words', h.root, PathTo(page, 3)).None?
         && (refused == ShortOfTables ==> now == [] && Missing(m, words', h.root, page) > 0)
         && (refused == Blocked ==> !Blockless(m, words', h))
  }

  lemma DescentStarts(m: Machine, words: Words, h: Hier, page: nat, frames: seq<Phys>)
    requires Tree(m, words, h) && page < PAGES && Ours(h, PathTo(page, 4)) && StockReady(m, words, h, frames)
    ensures Descended(m, words, words, h, page, 0, 0, frames, frames, Done(h.root))
  {
  }

  lemma DescendedOn(m: Machine, w0: Words, w1: Words, w2: Words, h: Hier, page: nat, depth: nat, s0: seq<Phys>,
                    s1: seq<Phys>, s2: seq<Phys>, table: Phys, r: Outcome<Phys>)
    requires depth < 3
    requires Descended(m, w0, w1, h, page, 0, depth, s0, s1, Done(table))
    requires Descended(m, w1, w2, h, page, depth, depth + 1, s1, s2, r)
    ensures Descended(m, w0, w2, h, page, 0, depth + 1, s0, s2, r)
    ensures Live(m, w1, h) <= Live(m, w2, h)
  {
    TakenOn(s0, s1, s2);
    ExtendedStep(m, w0, w1, w2, h, Taken(s0, s1), Taken(s1, s2));
    GrownReads(m, w1, w2, h, Taken(s1, s2));
    hide Extended, StockReady, Missing, Arrived, PopulatedBut, PathTo, Live, Taken, PageMap, TableAt;
  }

  lemma TakenOn(s0: seq<Phys>, s1: seq<Phys>, s2: seq<Phys>)
    requires s2 <= s1 <= s0
    ensures Taken(s0, s2) == Taken(s0, s1) + Taken(s1, s2)
  {
    assert s0[|s2|..] == s1[|s2|..] + s0[|s1|..];
  }

  lemma RefusedTurn(m: Machine, words: Words, h: Hier, page: nat, depth: nat, table: Phys, frames: seq<Phys>,
                    refused: Refused)
    requires Arrived(m, words, h, page, depth, table) && depth < 3 && StockReady(m, words, h, frames)
    requires Next(m, Read(words, table, PageIndex(page, 3 - depth)), 3 - depth).None?
    requires refused != Occupied && (refused == ShortOfTables ==> frames == [])
    requires refused == Blocked ==> m.present(Read(words, table, PageIndex(page, 3 - depth)))
    ensures Descended(m, words, words, h, page, depth, depth + 1, frames, frames, Err(refused))
  {
    ArrivedIsTable(m, words, h, page, depth, table);
    PathToDepth(page, depth + 1);
    assert Desc(m, words, h.root, PathTo(page, depth + 1)) == Read(words, table, PageIndex(page, 3 - depth));
    StepAlong(m, words, h.root, page, depth);
    ReachedBelow(m, words, h.root, page, depth + 1);
  }

  /** One turn of a descent that has to create a table. */
  lemma LinkTurn(m: Machine, words: Words, h: Hier, page: nat, depth: nat, table: Phys, under: Word, spare: Phys,
                 now: seq<Phys>)
    requires LawfulTable(m) && !m.present(0)
    requires Arrived(m, words, h, page, depth, table) && depth < 3
    requires !m.present(Read(words, table, PageIndex(page, 3 - depth)))
    requires StockReady(m, words, h, now + [spare])
    ensures table in words && PageIndex(page, 3 - depth) < |words[table]|
    ensures var words' := Put(words, table, PageIndex(page, 3 - depth), m.table(spare, under));
            && Descended(m, words, words', h, page, depth, depth + 1, now + [spare], now, Done(spare))
            && Live(m, words, h) <= Live(m, words', h)
  {
    StockLast(m, words, h, now, spare);
    ArrivedIsTable(m, words, h, page, depth, table);
    LinkAlong(m, words, h, page, depth, table, under, spare);
    var p, i, bits := PathTo(page, depth), PageIndex(page, 3 - depth), m.table(spare, under);
    var words' := Put(words, table, i, bits);
    GrownByLink(m, words, h, p, i, bits, spare);
    StockShrinks(m, words, words', h, now, spare);
    LinkedBelow(m, words, h, page, depth, table, bits, spare);
  }

  lemma LinkedBelow(m: Machine, words: Words, h: Hier, page: nat, depth: nat, table: Phys, bits: Word, spare: Phys)
    requires Arrived(m, words, h, page, depth, table) && depth < 3 && m.present(bits)
    requires Linkable(m, words, h, PathTo(page, depth), PageIndex(page, 3 - depth), bits, spare)
    ensures var words' := Put(words, table, PageIndex(page, 3 - depth), bits);
            && Arrived(m, words', h, page, depth + 1, spare)
            && Missing(m, words', h.root, page) == Missing(m, words, h.root, page) - 1
            && (PopulatedBut(m, words, h, PathTo(page, depth)) ==> PopulatedBut(m, words', h, PathTo(page, depth + 1)))
  {
    var p, i := PathTo(page, depth), PageIndex(page, 3 - depth);
    var words' := Put(words, table, i, bits);
    LinkShape(m, words, h, p, i, bits, spare);
    StepAlong(m, words, h.root, page, depth);
    MissingAfterLink(m, words, words', h, page, depth);
    if PopulatedBut(m, words, h, p) {
      StoredHere(m, words, h, p, i, bits);
      PopulatedOneLower(m, words, words', h, p, Down(p, i));
    }
  }

  /** One turn of a descent through a table that is there. */
  lemma PassTurn(m: Machine, words: Words, h: Hier, page: nat, depth: nat, table: Phys, frames: seq<Phys>)
    requires !m.present(0) && Arrived(m, words, h, page, depth, table) && depth < 3 && StockReady(m, words, h, frames)
    requires Next(m, Read(words, table, PageIndex(page, 3 - depth)), 3 - depth).Some?
    ensures Descended(m, words, words, h, page, depth, depth + 1, frames, frames,
                      Done(m.addr(Read(words, table, PageIndex(page, 3 - depth)))))
  {
    ArrivedIsTable(m, words, h, page, depth, table);
    StepAlong(m, words, h.root, page, depth);
    if PopulatedBut(m, words, h, PathTo(page, depth)) {
      PopulatedOneLower(m, words, words, h, PathTo(page, depth), PathTo(page, depth + 1));
    }
  }

  /** The same, where the way down is opened first. */
  lemma WidenTurn(m: Machine, words: Words, h: Hier, page: nat, depth: nat, table: Phys, wider: Word, frames: seq<Phys>)
    requires LawfulTable(m) && !m.present(0)
    requires Arrived(m, words, h, page, depth, table) && depth < 3 && StockReady(m, words, h, frames)
    requires var bits := Read(words, table, PageIndex(page, 3 - depth));
             && Next(m, bits, 3 - depth).Some?
             && exists under :: m.widen(bits, under) == Some(wider)
    ensures table in words && PageIndex(page, 3 - depth) < |words[table]|
    ensures var words' := Put(words, table, PageIndex(page, 3 - depth), wider);
            && Descended(m, words, words', h, page, depth, depth + 1, frames, frames,
                         Done(m.addr(Read(words, table, PageIndex(page, 3 - depth)))))
            && Live(m, words, h) <= Live(m, words', h)
  {
    ArrivedIsTable(m, words, h, page, depth, table);
    var p, i := PathTo(page, depth), PageIndex(page, 3 - depth);
    var words' := Put(words, table, i, wider);
    WidenKeepsNext(m, Read(words, table, i), wider, 3 - depth);
    GrownByWidening(m, words, h, p, i, wider);
    StockReadyAfter(m, words, words', h, frames, {});
    GrownReads(m, words, words', h, {});
    WidenedBelow(m, words, h, page, depth, table, wider);
  }

  lemma WidenedBelow(m: Machine, words: Words, h: Hier, page: nat, depth: nat, table: Phys, wider: Word)
    requires !m.present(0) && Arrived(m, words, h, page, depth, table) && depth < 3
    requires table in words && PageIndex(page, 3 - depth) < |words[table]|
    requires Next(m, Read(words, table, PageIndex(page, 3 - depth)), 3 - depth).Some?
    requires Next(m, wider, 3 - depth) == Next(m, Read(words, table, PageIndex(page, 3 - depth)), 3 - depth)
    ensures var words' := Put(words, table, PageIndex(page, 3 - depth), wider);
            && Arrived(m, words', h, page, depth + 1, m.addr(Read(words, table, PageIndex(page, 3 - depth))))
            && Missing(m, words', h.root, page) == Missing(m, words, h.root, page)
            && (PopulatedBut(m, words, h, PathTo(page, depth)) ==> PopulatedBut(m, words', h, PathTo(page, depth + 1)))
  {
    var p, i := PathTo(page, depth), PageIndex(page, 3 - depth);
    var words' := Put(words, table, i, wider);
    ArrivedIsTable(m, words, h, page, depth, table);
    InPlaceShape(m, words, h, p, i, wider);
    StepAlong(m, words, h.root, page, depth);
    OursAlong(h, page, 1);
    OursAlong(h, page, 2);
    OursAlong(h, page, 3);
    if PopulatedBut(m, words, h, p) {
      ReadsButIsPresentBut(m, words, words', h, Down(p, i), wider);
      PopulatedOneLower(m, words, words', h, p, Down(p, i));
    }
  }

  // ---- storing at the last level -------------------------------------------

  /** The one store every change to a page comes down to. */
  lemma LeafStored(m: Machine, words: Words, h: Hier, page: nat, table: Phys, bits: Word)
    requires Arrived(m, words, h, page, 3, table)
    ensures table in words && PageIndex(page, 0) < |words[table]|
    ensures var words' := Put(words, table, PageIndex(page, 0), bits);
            && Extended(m, words, words', h, {})
            && ReadsBut(m, words, words', h, PathTo(page, 4), bits)
            && PageMap(m, words', h)
            == if m.present(bits) then PageMap(m, words, h)[page := bits] else PageMap(m, words, h) - {page}
  {
    ArrivedIsTable(m, words, h, page, 3, table);
    var p, i := PathTo(page, 3), PageIndex(page, 0);
    ExtendedInPlace(m, words, h, p, i, bits);
    PagesStored(m, words, Put(words, table, i, bits), h, page, bits);
    hide Extended, PageMap;
  }

  /** With the page in, the last-level table holds something. */
  lemma PopulatedByLeaf(m: Machine, words: Words, words': Words, h: Hier, page: nat, bits: Word)
    requires ReadsBut(m, words, words', h, PathTo(page, 4), bits) && Ours(h, PathTo(page, 4))
    requires PopulatedBut(m, words, h, PathTo(page, 3)) && m.present(bits) && !m.present(0)
    ensures Populated(m, words', h)
  {
    PathToDepth(page, 3);
    ReadsButIsPresentBut(m, words, words', h, PathTo(page, 4), bits);
    PopulatedOneLower(m, words, words', h, PathTo(page, 3), PathTo(page, 4));
  }

  /** What came of putting a page in. */
  ghost predicate Published(m: Machine, words: Words, words': Words, h: Hier, page: nat, bits: Word, was: seq<Phys>,
                            now: seq<Phys>, r: Outcome<()>)
    requires |now| <= |was|
  {
    && Extended(m, words, words', h, Taken(was, now))
    && PageMap(m, words', h) == (if r.Done? then PageMap(m, words, h)[page := bits] else PageMap(m, words, h))
    && (r.Done? ==> |was| - |now| == Missing(m, words, h.root, page))
    && (r.Done? || r == Err(Occupied) ==> (Populated(m, words, h) ==> Populated(m, words', h)))
    && (page in PageMap(m, words, h) <==> r == Err(Occupied))
    && (r == Err(ShortOfTables) ==> |was| < Missing(m, words, h.root, page))
    && (r == Err(Blocked) ==> !Blockless(m, words, h))
  }

  lemma LeafRead(m: Machine, words: Words, h: Hier, page: nat, table: Phys)
    requires Arrived(m, words, h, page, 3, table)
    ensures Desc(m, words, h.root, PathTo(page, 4)) == Read(words, table, PageIndex(page, 0))
    ensures page in PageMap(m, words, h) <==> m.present(Read(words, table, PageIndex(page, 0)))
    ensures page in PageMap(m, words, h) ==> PageMap(m, words, h)[page] == Read(words, table, PageIndex(page, 0))
  {
  }

  /** A page without a last-level table is not mapped. */
  lemma UnreachedUnmapped(m: Machine, words: Words, h: Hier, page: nat)
    requires !m.present(0) && TableAt(m, words, h.root, PathTo(page, 3)).None?
    ensures page !in PageMap(m, words, h)
  {
  }

  lemma RefusedPublish(m: Machine, words: Words, words': Words, h: Hier, page: nat, bits: Word, was: seq<Phys>,
                       now: seq<Phys>, refused: Refused)
    requires !m.present(0) && Descended(m, words, words', h, page, 0, 3, was, now, Err(refused))
    ensures Published(m, words, words', h, page, bits, was, now, Err(refused))
  {
  }

  lemma OccupiedPublish(m: Machine, words: Words, words': Words, h: Hier, page: nat, bits: Word, was: seq<Phys>,
                        now: seq<Phys>, table: Phys)
    requires Descended(m, words, words', h, page, 0, 3, was, now, Done(table))
    requires page in PageMap(m, words', h)
    ensures Published(m, words, words', h, page, bits, was, now, Err(Occupied))
  {
  }

  lemma LeafPutIn(m: Machine, words: Words, h: Hier, page: nat, bits: Word, now: seq<Phys>, table: Phys)
    requires Arrived(m, words, h, page, 3, table) && StockReady(m, words, h, now)
    requires page !in PageMap(m, words, h) && m.present(bits) && !m.present(0)
    ensures table in words && PageIndex(page, 0) < |words[table]|
    ensures var words' := Put(words, table, PageIndex(page, 0), bits);
            && Extended(m, words, words', h, {})
            && PageMap(m, words', h) == PageMap(m, words, h)[page := bits]
            && StockReady(m, words', h, now)
            && Live(m, words, h) <= Live(m, words', h)
            && (PopulatedBut(m, words, h, PathTo(page, 3)) ==> Populated(m, words', h))
  {
    LeafStored(m, words, h, page, table, bits);
    var words' := Put(words, table, PageIndex(page, 0), bits);
    GrownReads(m, words, words', h, {});
    StockReadyAfter(m, words, words', h, now, {});
    if PopulatedBut(m, words, h, PathTo(page, 3)) {
      PopulatedByLeaf(m, words, words', h, page, bits);
    }
  }

  lemma NoneMissing(m: Machine, words: Words, h: Hier, page: nat, table: Phys)
    requires Arrived(m, words, h, page, 3, table)
    ensures Missing(m, words, h.root, page) == 0
  {
    ReachedAbove(m, words, h.root, page, 3);
  }

  lemma DonePublish(m: Machine, start: Words, words: Words, h: Hier, page: nat, bits: Word, was: seq<Phys>,
                    now: seq<Phys>, table: Phys)
    requires Descended(m, start, words, h, page, 0, 3, was, now, Done(table))
    requires page !in PageMap(m, words, h) && m.present(bits) && !m.present(0)
    ensures table in words && PageIndex(page, 0) < |words[table]|
    ensures var words' := Put(words, table, PageIndex(page, 0), bits);
            && Published(m, start, words', h, page, bits, was, now, Done(()))
            && StockReady(m, words', h, now)
            && Live(m, words, h) <= Live(m, words', h)
  {
    LeafPutIn(m, words, h, page, bits, now, table);
    var words' := Put(words, table, PageIndex(page, 0), bits);
    ExtendedStep(m, start, words, words', h, Taken(was, now), {});
    assert Taken(was, now) + {} == Taken(was, now);
    NoneMissing(m, words, h, page, table);
    assert PathTo(page, 0) == Top;
    hide Extended, StockReady, Missing, Arrived, PopulatedBut, PathTo, Live, Taken, PageMap, TableAt;
  }

  // ---- writing over a page that is there -----------------------------------

  /** The page's descriptor was `bits` put in place of one naming the frame in
    * `r`; or nothing was mapped there, and nothing was written. */
  ghost predicate Rewritten(m: Machine, words: Words, words': Words, h: Hier, page: nat, bits: Word, r: Option<Phys>) {
    match r
    case None => words' == words && page !in PageMap(m, words, h)
    case Some(held) =>
      && page in PageMap(m, words, h) && held == m.addr(PageMap(m, words, h)[page])
      && PageMap(m, words', h) == PageMap(m, words, h)[page := bits]
      && Extended(m, words, words', h, {})
      && (Populated(m, words, h) ==> Populated(m, words', h))
  }

  /** Every page mapped names a frame a descriptor can name. */
  ghost predicate NamesFrames(m: Machine, words: Words, h: Hier) {
    forall page | page in PageMap(m, words, h) :: m.frame(m.addr(PageMap(m, words, h)[page]))
  }

  lemma LeafRewritten(m: Machine, words: Words, h: Hier, page: nat, table: Phys, bits: Word)
    requires Arrived(m, words, h, page, 3, table) && m.present(bits) && !m.present(0)
    requires page in PageMap(m, words, h)
    ensures table in words && PageIndex(page, 0) < |words[table]|
    ensures var words' := Put(words, table, PageIndex(page, 0), bits);
            Rewritten(m, words, words', h, page, bits, Some(m.addr(PageMap(m, words, h)[page])))
  {
    LeafStored(m, words, h, page, table, bits);
    var words' := Put(words, table, PageIndex(page, 0), bits);
    if Populated(m, words, h) {
      assert PopulatedBut(m, words, h, PathTo(page, 3));
      PopulatedByLeaf(m, words, words', h, page, bits);
    }
  }

  // ---- walking without creating --------------------------------------------

  /** A block at `level` covers the page, pointing at `base`. */
  ghost predicate BlockAt(m: Machine, words: Words, root: Phys, page: nat, level: nat, base: Phys)
    requires 1 <= level <= 3
  {
    var bits := Desc(m, words, root, PathTo(page, 4 - level));
    m.present(bits) && m.endsWalk(bits, level) && m.addr(bits) == base
  }

  /** The descriptor read at one depth either leads to the next, or ends the walk
    * with no last-level descriptor: absent, or at a block. */
  lemma DescentGoesOn(m: Machine, words: Words, h: Hier, page: nat, depth: nat, table: Phys)
    requires !m.present(0) && Arrived(m, words, h, page, depth, table) && depth < 3
    ensures var bits := Read(words, table, PageIndex(page, 3 - depth));
            match Next(m, bits, 3 - depth)
            case Some(next) => Arrived(m, words, h, page, depth + 1, next)
            case None => page !in PageMap(m, words, h)
                         && (m.present(bits) ==> BlockAt(m, words, h.root, page, 3 - depth, m.addr(bits)))
  {
    StepAlong(m, words, h.root, page, depth);
    if TableAt(m, words, h.root, PathTo(page, depth + 1)).None? {
      ReachedBelow(m, words, h.root, page, depth + 1);
      UnreachedUnmapped(m, words, h, page);
    }
  }
}
