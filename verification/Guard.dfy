/** One hold of an address space's lock: the changes made under it, the
  * translations they leave behind, and the frames that wait for those to go.
  *
  * `Tables.Release` refuses a frame that anything stale names, so that these
  * methods verify is the proof that the invalidation always comes first. Each
  * method also says what became of the references: what descriptors lose, the
  * frames in hand gain, and nobody else's move.
  */
module Guard {
  import opened Machines
  import opened Walk
  import opened Pages
  import opened Hierarchy
  import opened Descent
  import opened Reclaim
  import opened Tables
  import opened Accounts
  import opened Ownership

  /** How long the retired list can get. */
  const RETIRED_MAX: nat := 32

  /** No frame is named in two places. */
  ghost predicate Apart(m: Machine, words: Words, h: Hier) {
    forall e, e' | e in Live(m, words, h) && e' in Live(m, words, h) :: e.frame == e'.frame ==> e == e'
  }

  ghost predicate Unnamed(m: Machine, words: Words, h: Hier, f: Phys) {
    forall e | e in Live(m, words, h) :: e.frame != f
  }

  /** Frames held back, each once, none of which the hierarchy names. */
  ghost predicate Waiting(m: Machine, words: Words, h: Hier, frames: seq<Phys>) {
    NoRepeats(frames) && forall f | f in frames :: Unnamed(m, words, h, f)
  }

  /** Every frame the walker can still reach is one the hierarchy names or one of
    * `frames`. */
  ghost predicate Fenced(m: Machine, words: Words, h: Hier, cached: iset<Entry>, frames: seq<Phys>) {
    forall e | e in cached :: e.frame in frames || !Unnamed(m, words, h, e.frame)
  }

  // ---- what stays covered --------------------------------------------------

  lemma ReachesMore(pending: Pending, virt: nat, e: Entry)
    requires Reaches(pending, e) || (e.Translates? && e.page == PageOf(virt))
    ensures Reaches(Noted(pending, virt), e)
  {
  }

  /** A change that adds to what is readable leaves nothing behind. */
  lemma CoveredByGrowth(m: Machine, words: Words, words': Words, h: Hier, cached: iset<Entry>, cached': iset<Entry>,
                        pending: Pending)
    requires Covered(m, words, h, cached, pending) && Live(m, words, h) <= Live(m, words', h)
    requires cached' <= cached + Live(m, words', h)
    ensures Covered(m, words', h, cached', pending)
  {
  }

  lemma FencedByGrowth(m: Machine, words: Words, words': Words, h: Hier, cached: iset<Entry>, cached': iset<Entry>,
                       frames: seq<Phys>)
    requires Fenced(m, words, h, cached, frames) && Live(m, words, h) <= Live(m, words', h)
    requires cached' <= cached + Live(m, words', h)
    ensures Fenced(m, words', h, cached', frames)
  {
    hide Live;
  }

  lemma CoveredByNote(m: Machine, words: Words, h: Hier, cached: iset<Entry>, pending: Pending, virt: nat)
    requires Covered(m, words, h, cached, pending)
    ensures Covered(m, words, h, cached, Noted(pending, virt))
  {
    forall e | e in cached ensures e in Live(m, words, h) || Reaches(Noted(pending, virt), e) {
      if Reaches(pending, e) {
        ReachesMore(pending, virt, e);
      }
    }
  }

  /** What a change to one page's descriptor leaves behind is that page's. */
  lemma CoveredByRewrite(m: Machine, words: Words, words': Words, h: Hier, virt: nat, bits: Word, held: Phys,
                         cached: iset<Entry>, cached': iset<Entry>, pending: Pending)
    requires Covered(m, words, h, cached, pending) && Rewritten(m, words, words', h, PageOf(virt), bits, Some(held))
    requires cached' <= cached + Live(m, words', h)
    ensures Covered(m, words', h, cached', Noted(pending, virt))
  {
    forall e | e in cached' ensures e in Live(m, words', h) || Reaches(Noted(pending, virt), e) {
      if e in Live(m, words, h) {
        RewriteKeeps(m, words, words', h, PageOf(virt), bits, held, e);
      }
      if Reaches(pending, e) || (e.Translates? && e.page == PageOf(virt)) {
        ReachesMore(pending, virt, e);
      }
    }
  }

  lemma RewriteKeeps(m: Machine, words: Words, words': Words, h: Hier, page: nat, bits: Word, held: Phys, e: Entry)
    requires Rewritten(m, words, words', h, page, bits, Some(held)) && Readable(m, words, h, e)
    ensures Readable(m, words', h, e) || (e.Translates? && e.page == page && e.frame == held)
  {
    if e.Walks? {
      assert IsTable(m, words, h, e.path);
    }
  }

  /** The page's own entry, before and after it is rewritten. */
  lemma RewriteEntries(m: Machine, words: Words, words': Words, h: Hier, page: nat, bits: Word, held: Phys)
    requires Rewritten(m, words, words', h, page, bits, Some(held))
    ensures Translates(page, held, m.writes(PageMap(m, words, h)[page])) in Live(m, words, h)
    ensures Translates(page, m.addr(bits), m.writes(bits)) in Live(m, words', h)
  {
  }

  /** The frame a page is taken off joins the ones to wait for. */
  lemma FencedByRewrite(m: Machine, words: Words, words': Words, h: Hier, page: nat, bits: Word, held: Phys,
                        cached: iset<Entry>, cached': iset<Entry>, frames: seq<Phys>)
    requires Fenced(m, words, h, cached, frames) && Rewritten(m, words, words', h, page, bits, Some(held))
    requires cached' <= cached + Live(m, words', h)
    ensures Fenced(m, words', h, cached', frames + [held])
    ensures m.addr(bits) == held ==> Fenced(m, words', h, cached', frames)
  {
    RewriteEntries(m, words, words', h, page, bits, held);
    forall e | e in cached' && e.frame !in frames && e.frame != held ensures !Unnamed(m, words', h, e.frame) {
      if e !in Live(m, words', h) {
        var e0 :| e0 in Live(m, words, h) && e0.frame == e.frame;
        RewriteKeeps(m, words, words', h, page, bits, held, e0);
      }
    }
  }

  /** Rewriting one page's descriptor changes what is readable at that page only. */
  lemma RewriteReads(m: Machine, words: Words, words': Words, h: Hier, page: nat, bits: Word, held: Phys, e: Entry)
    requires Rewritten(m, words, words', h, page, bits, Some(held)) && Tree(m, words, h)
    ensures e in Live(m, words', h) <==>
              if e.Translates? && e.page == page then e.frame == m.addr(bits) && e.stores == m.writes(bits)
                else e in Live(m, words, h)
  {
    if e.Walks? && Ours(h, e.path) {
      if TableAt(m, words', h.root, e.path).Some? && TableAt(m, words, h.root, e.path).None? {
        var f := TableAt(m, words', h.root, e.path).value;
        assert IsTable(m, words', h, e.path) && IsTableFrame(m, words', h, f);
      }
      assert TableAt(m, words, h.root, e.path).Some? ==> IsTable(m, words, h, e.path);
    }
  }

  /** A page given a frame nothing else here names, or left the one it had. */
  lemma RewriteApart(m: Machine, words: Words, words': Words, h: Hier, page: nat, bits: Word, held: Phys,
                     retired: seq<Phys>)
    requires Rewritten(m, words, words', h, page, bits, Some(held)) && Tree(m, words, h)
    requires Apart(m, words, h) && Waiting(m, words, h, retired)
    requires m.addr(bits) == held || (Unnamed(m, words, h, m.addr(bits)) && m.addr(bits) !in retired)
    ensures Apart(m, words', h) && Waiting(m, words', h, retired)
    ensures m.addr(bits) != held ==> Unnamed(m, words', h, held) && held !in retired
  {
    RewriteEntries(m, words, words', h, page, bits, held);
    forall e ensures e in Live(m, words', h) <==>
                       if e.Translates? && e.page == page then e.frame == m.addr(bits) && e.stores == m.writes(bits)
                         else e in Live(m, words, h)
    {
      RewriteReads(m, words, words', h, page, bits, held, e);
    }
    hide Live, Rewritten, Tree;
  }

  /** What a publish makes readable: the page, and the tables it took. */
  lemma PublishReads(m: Machine, words: Words, words': Words, h: Hier, page: nat, bits: Word, was: seq<Phys>,
                     now: seq<Phys>, r: Outcome<()>, e: Entry)
    requires |now| <= |was| && Published(m, words, words', h, page, bits, was, now, r)
    ensures Readable(m, words, h, e) ==> Readable(m, words', h, e)
    ensures Readable(m, words', h, e) ==> Readable(m, words, h, e) || New(m, e, page, bits, Taken(was, now), r.Done?)
  {
    if e.Walks? && Ours(h, e.path) {
      assert TableAt(m, words, h.root, e.path).Some? ==> IsTable(m, words, h, e.path);
      if TableAt(m, words', h.root, e.path) == Some(e.frame) && TableAt(m, words, h.root, e.path).None? {
        assert IsTable(m, words', h, e.path) && IsTableFrame(m, words', h, e.frame);
      }
    }
  }

  /** Readable only since a publish: one of the tables it took, or its page. */
  ghost predicate New(m: Machine, e: Entry, page: nat, bits: Word, taken: set<Phys>, done: bool) {
    (e.Walks? && e.frame in taken) || (done && e == Translates(page, m.addr(bits), m.writes(bits)))
  }

  lemma PublishGrows(m: Machine, words: Words, words': Words, h: Hier, page: nat, bits: Word, was: seq<Phys>,
                     now: seq<Phys>, r: Outcome<()>)
    requires |now| <= |was| && Published(m, words, words', h, page, bits, was, now, r)
    ensures Live(m, words, h) <= Live(m, words', h)
    ensures forall e | e in Live(m, words', h) ::
            e in Live(m, words, h) || New(m, e, page, bits, Taken(was, now), r.Done?)
    ensures forall e, e' | e in Live(m, words', h) && e' in Live(m, words', h) && e.Walks? && e'.Walks?
            && e.frame == e'.frame :: e == e'
  {
    forall e | e in Live(m, words', h)
      ensures e in Live(m, words, h) || New(m, e, page, bits, Taken(was, now), r.Done?) {
      PublishReads(m, words, words', h, page, bits, was, now, r, e);
    }
    forall e | e in Live(m, words, h) ensures e in Live(m, words', h) {
      PublishReads(m, words, words', h, page, bits, was, now, r, e);
    }
    forall e, e' | e in Live(m, words', h) && e' in Live(m, words', h) && e.Walks? && e'.Walks? && e.frame == e'.frame
      ensures e == e' {
      assert IsTable(m, words', h, e.path) && IsTable(m, words', h, e'.path);
    }
  }

  /** Frames set aside, all different: the retired ones, a page, and a stock. */
  lemma SetAside(retired: seq<Phys>, f: Phys, was: seq<Phys>, now: seq<Phys>)
    requires NoRepeats(retired + ([f] + was)) && now <= was
    ensures f !in was && (forall g | g in retired :: g !in was && g != f)
            && (forall g | g in now :: g !in Taken(was, now))
    ensures NoRepeats(retired) && NoRepeats(retired + ([f] + now)) && NoRepeats(was)
    ensures forall g | g in now || g in Taken(was, now) :: g in was
  {
    NoRepeatsJoin(retired, [f] + was);
    NoRepeatsJoin([f], was);
    assert was == now + was[|now|..];
    NoRepeatsJoin(now, was[|now|..]);
    NoRepeatsJoin([f], now);
    NoRepeatsJoin(retired, [f] + now);
    assert f in [f] + was;
    assert forall g | g in was :: g in [f] + was;
    assert forall g | g in now :: g in was;
  }

  lemma PublishApart(m: Machine, words: Words, words': Words, h: Hier, page: nat, bits: Word, was: seq<Phys>,
                     now: seq<Phys>, r: Outcome<()>, retired: seq<Phys>)
    requires now <= was && Published(m, words, words', h, page, bits, was, now, r)
    requires Apart(m, words, h) && Waiting(m, words, h, retired + ([m.addr(bits)] + was))
    ensures Live(m, words, h) <= Live(m, words', h) && Apart(m, words', h) && Waiting(m, words', h, retired)
    ensures r.Err? ==> Waiting(m, words', h, retired + ([m.addr(bits)] + now))
  {
    hide Live, Published, Taken, NoRepeats;
    var f := m.addr(bits);
    PublishGrows(m, words, words', h, page, bits, was, now, r);
    SetAside(retired, f, was, now);
    assert f in retired + ([f] + was) && forall g | g in retired || g in was :: g in retired + ([f] + was);
  }

  /** An unmap leaves behind the page's translation and, when it took tables out,
    * the walks through them. */
  lemma CoveredByUnmap(m: Machine, words: Words, words': Words, h: Hier, virt: nat, frames: seq<Phys>,
                       counts: map<Phys, nat>, held: Phys, cached: iset<Entry>, cached': iset<Entry>, pending: Pending)
    requires Covered(m, words, h, cached, pending) && Tree(m, words, h)
    requires Unmapped(m, words, words', h, PageOf(virt), frames, counts, Some(held))
    requires cached' <= cached + Live(m, words, h)
    ensures Covered(m, words', h, cached', if frames == [] then Noted(pending, virt) else All)
  {
    if frames == [] {
      forall e | e in cached' ensures e in Live(m, words', h) || Reaches(Noted(pending, virt), e) {
        if e in Live(m, words, h) {
          UnmapKeeps(m, words, words', h, PageOf(virt), [], counts, held, e);
        }
        if Reaches(pending, e) || (e.Translates? && e.page == PageOf(virt)) {
          ReachesMore(pending, virt, e);
        }
      }
    }
  }

  /** What was readable still is, but for the page and the tables taken out. */
  lemma UnmapKeeps(m: Machine, words: Words, words': Words, h: Hier, page: nat, frames: seq<Phys>,
                   counts: map<Phys, nat>, held: Phys, e: Entry)
    requires Tree(m, words, h) && Unmapped(m, words, words', h, page, frames, counts, Some(held))
             && Readable(m, words, h, e)
    ensures Readable(m, words', h, e) || (e.Translates? && e.page == page && e.frame == held)
            || (e.Walks? && e.frame in frames)
  {
    if e.Walks? && e.frame !in frames {
      assert IsTable(m, words, h, e.path) && IsTableFrame(m, words, h, e.frame);
      assert IsTableFrame(m, words', h, e.frame);
      var q :| IsTable(m, words', h, q) && TableAt(m, words', h.root, q) == Some(e.frame);
      assert IsTable(m, words, h, q) && q == e.path;
    }
  }

  lemma FencedByUnmap(m: Machine, words: Words, words': Words, h: Hier, page: nat, frames: seq<Phys>,
                      counts: map<Phys, nat>, held: Phys, cached: iset<Entry>, cached': iset<Entry>, retired: seq<Phys>)
    requires Fenced(m, words, h, cached, retired) && Tree(m, words, h)
    requires Unmapped(m, words, words', h, page, frames, counts, Some(held))
    requires cached' <= cached + Live(m, words, h)
    ensures Fenced(m, words', h, cached', retired + StaleFrames(held, frames))
  {
    forall e | e in cached' && e.frame !in retired && e.frame != held && e.frame !in frames
      ensures !Unnamed(m, words', h, e.frame) {
      var e0 :| e0 in Live(m, words, h) && e0.frame == e.frame;
      UnmapKeeps(m, words, words', h, page, frames, counts, held, e0);
    }
  }

  // ---- what an unmap makes wait --------------------------------------------

  /** What an unmap hands back: the page's frame, then the tables. */
  function StaleFrames(held: Phys, frames: seq<Phys>): seq<Phys> {
    [held] + frames
  }

  lemma UnmapShrinksReads(m: Machine, words: Words, words': Words, h: Hier, page: nat, frames: seq<Phys>,
                          counts: map<Phys, nat>, held: Phys)
    requires Unmapped(m, words, words', h, page, frames, counts, Some(held))
    ensures Live(m, words', h) <= Live(m, words, h)
    ensures forall e | e in Live(m, words', h) ::
            !(e.Translates? && e.page == page) && (e.Walks? ==> e.frame !in frames)
  {
    forall e | Readable(m, words', h, e)
      ensures Readable(m, words, h, e) && !(e.Translates? && e.page == page) && (e.Walks? ==> e.frame !in frames)
    {
      if e.Walks? {
        assert IsTable(m, words', h, e.path) && IsTableFrame(m, words', h, e.frame);
      }
    }
  }

  lemma UnmapEntry(m: Machine, words: Words, words': Words, h: Hier, page: nat, frames: seq<Phys>,
                   counts: map<Phys, nat>, held: Phys)
    requires Unmapped(m, words, words', h, page, frames, counts, Some(held))
    ensures Translates(page, held, m.writes(PageMap(m, words, h)[page])) in Live(m, words, h)
  {
  }

  lemma StaleIsUnnamed(m: Machine, words: Words, words': Words, h: Hier, page: nat, frames: seq<Phys>,
                       counts: map<Phys, nat>, held: Phys)
    requires Apart(m, words, h) && Unmapped(m, words, words', h, page, frames, counts, Some(held))
    ensures Apart(m, words', h) && Live(m, words', h) <= Live(m, words, h)
    ensures forall f | f in StaleFrames(held, frames) :: Unnamed(m, words', h, f) && !Unnamed(m, words, h, f)
  {
    UnmapShrinksReads(m, words, words', h, page, frames, counts, held);
    UnmapEntry(m, words, words', h, page, frames, counts, held);
    forall f | f in frames ensures Unnamed(m, words', h, f) && !Unnamed(m, words, h, f) {
      TableTakenWasNamed(m, words, words', h, page, frames, counts, held, f);
    }
  }

  lemma TableTakenWasNamed(m: Machine, words: Words, words': Words, h: Hier, page: nat, frames: seq<Phys>,
                           counts: map<Phys, nat>, held: Phys, f: Phys)
    requires Apart(m, words, h) && Unmapped(m, words, words', h, page, frames, counts, Some(held)) && f in frames
    requires Live(m, words', h) <= Live(m, words, h)
    requires forall e | e in Live(m, words', h) :: e.Walks? ==> e.frame !in frames
    ensures Unnamed(m, words', h, f) && !Unnamed(m, words, h, f)
  {
    assert IsTableFrame(m, words, h, f) && !IsTableFrame(m, words', h, f);
    var q :| IsTable(m, words, h, q) && TableAt(m, words, h.root, q) == Some(f);
    assert IsTable(m, words', h, Top) && q != Top;
    assert Walks(q, f) in Live(m, words, h);
  }

  lemma StaleDoesNotRepeat(m: Machine, words: Words, words': Words, h: Hier, page: nat, frames: seq<Phys>,
                           counts: map<Phys, nat>, held: Phys, retired: seq<Phys>)
    requires Apart(m, words, h) && Unmapped(m, words, words', h, page, frames, counts, Some(held))
    requires Waiting(m, words, h, retired)
    ensures Waiting(m, words', h, retired + StaleFrames(held, frames)) && Apart(m, words', h)
  {
    StaleIsUnnamed(m, words, words', h, page, frames, counts, held);
    forall f | f in frames ensures f != held {
      HeldIsNoTable(m, words, words', h, page, frames, counts, held, f);
    }
    var stale := StaleFrames(held, frames);
    hide Unmapped, Unnamed, Live, Apart;
    NoRepeatsJoin([held], frames);
    assert forall f | f in retired :: f !in stale;
    NoRepeatsJoin(retired, stale);
  }

  lemma HeldIsNoTable(m: Machine, words: Words, words': Words, h: Hier, page: nat, frames: seq<Phys>,
                      counts: map<Phys, nat>, held: Phys, f: Phys)
    requires Apart(m, words, h) && Unmapped(m, words, words', h, page, frames, counts, Some(held)) && f in frames
    ensures f != held
  {
    UnmapEntry(m, words, words', h, page, frames, counts, held);
    assert IsTableFrame(m, words, h, f) && !IsTableFrame(m, words', h, f);
    var q :| IsTable(m, words, h, q) && TableAt(m, words, h.root, q) == Some(f);
    assert IsTable(m, words', h, Top) && q != Top;
    assert Walks(q, f) in Live(m, words, h);
  }

  /** Only what was mapped comes back, and with it the tables it left empty. */
  ghost predicate TookAway(m: Machine, words: Words, words': Words, h: Hier, page: nat, counts: map<Phys, nat>,
                           stale: seq<Phys>)
  {
    if stale == [] then Unmapped(m, words, words', h, page, [], counts, None)
    else Unmapped(m, words, words', h, page, stale[1..], counts, Some(stale[0]))
  }

  /** With room nothing is flushed; without, the walker keeps only what is so. */
  ghost predicate Forgot(room: bool, cached: iset<Entry>, cached': iset<Entry>, pending: Pending, pending': Pending,
                         live: iset<Entry>)
  {
    if room then cached' == cached && pending' == pending else cached' == live && pending' == Clean
  }

  /** What the guard answers for what the walk found: a block is read as a page that
    * is there. */
  function Answer(found: Outcome<()>, page: Phys): Outcome<Phys> {
    match found
    case Done(_) => Done(page)
    case Err(ShortOfTables) => Err(ShortOfTables)
    case Err(_) => Err(Occupied)
  }

  class MmGuard {
    const tables: Tables
    const tlb: Tlb
    var retired: seq<Phys>

    constructor (tables: Tables)
      requires tables.Valid() && !tables.m.present(0) && Apart(tables.m, tables.mem.words, tables.h) && tables.Exact()
      ensures this.tables == tables && fresh(tlb) && Valid([])
      ensures tlb.pending == Clean && retired == []
    {
      this.tables := tables;
      tlb := new Tlb();
      retired := [];
    }

    /** With `out` handed to the caller and not retired yet: whatever the walker has
      * kept is so or is covered by what is pending, and a frame it can reach that the
      * hierarchy no longer names is retired or out. */
    ghost predicate Valid(out: seq<Phys>)
      reads this, tables, tables.mem, tlb
    {
      && !tables.m.present(0) && tables.Valid()
      && Apart(tables.m, tables.mem.words, tables.h)
      && Covered(tables.m, tables.mem.words, tables.h, tables.cached, tlb.pending)
      && |retired| <= RETIRED_MAX && Waiting(tables.m, tables.mem.words, tables.h, retired + out)
      && Fenced(tables.m, tables.mem.words, tables.h, tables.cached, retired + out)
    }

    /** The references in `was` became the ones in `now`, and every descriptor's and
      * everybody else's are accounted for. */
    twostate predicate Conserves(was: seq<Phys>, now: seq<Phys>)
      reads this, tables, tables.mem
    {
      old(Solvent(tables.m, tables.mem.words, tables.h, tables.mem.counts, multiset(was))) ==>
        Balanced(tables.m, old(tables.mem.words), tables.mem.words, tables.h, old(tables.mem.counts), tables.mem.counts,
                 multiset(was), multiset(now))
    }

    /** After this the walker has kept nothing but what is so, and each retired frame
      * has lost the one reference it was retired with. */
    method Flush(ghost out: seq<Phys> := [])
      requires Valid(out)
      modifies this, tables`cached, tables.mem`counts, tlb
      ensures Valid(out) && retired == [] && tlb.pending == Clean && tables.Exact()
      ensures tables.mem.counts == ReleasedAll(old(tables.mem.counts), old(retired))
      ensures Conserves(old(retired) + out, out)
    {
      hide Solvent, Balanced, Fenced, Unnamed;
      match tlb.pending {
        case Clean =>
        case Page(virt) => tables.FlushPage(virt);
        case All => tables.FlushAll();
      }
      tlb.pending := Clean;
      assert tables.cached == Live(tables.m, tables.mem.words, tables.h);
      ghost var start := tables.mem.counts;
      WaitingAreUnnamed(tables.m, tables.mem.words, tables.h, retired, out);
      for i := 0 to |retired|
        invariant retired == old(retired) && tables.Exact() && tlb.pending == Clean
        invariant tables.mem.counts == ReleasedAll(start, retired[..i])
      {
        assert retired[..i + 1][..i] == retired[..i];
        assert retired[i] in retired;
        tables.Release(retired[i]);
      }
      assert retired[..|retired|] == retired;
      if Solvent(tables.m, tables.mem.words, tables.h, start, multiset(retired + out)) {
        ReleaseBalanced(tables.m, tables.mem.words, tables.h, start, retired, out);
      }
      retired := [];
      assert [] + out == out;
      ExactIsFenced(tables.m, tables.mem.words, tables.h, out);
    }

    /** Afterwards the stale frames are the guard's to release. Nothing is released
      * now unless there is no room, and then only what was waiting before. */
    method Retire(stale: seq<Phys>)
      requires Valid(stale) && |stale| <= 1 + DEPTH
      modifies this, tables`cached, tables.mem`counts, tlb
      ensures Valid([])
      ensures var room := |old(retired)| + |stale| <= RETIRED_MAX;
              && retired == (if room then old(retired) + stale else stale)
              && tables.mem.counts == (if room then old(tables.mem.counts)
                                       else ReleasedAll(old(tables.mem.counts), old(retired)))
              && Forgot(room, old(tables.cached), tables.cached, old(tlb.pending), tlb.pending,
                        Live(tables.m, tables.mem.words, tables.h))
      ensures Conserves(old(retired) + stale, retired)
    {
      hide Solvent, Balanced, Fenced, Waiting, Apart, Covered, Live;
      ghost var was := retired;
      if |retired| + |stale| > RETIRED_MAX {
        Flush(stale);
        assert [] + stale == stale;
      } else {
        if Solvent(tables.m, tables.mem.words, tables.h, tables.mem.counts, multiset(was + stale)) {
          SolventIsBalanced(tables.m, tables.mem.words, tables.h, tables.mem.counts, multiset(was + stale));
        }
      }
      retired := retired + stale;
      assert retired + [] == retired;
    }

    /** The walk's half of a publish: nothing the walker has to forget comes of it. */
    method PublishFrame(virt: nat, page: Phys, flags: Word, stock: TableStock) returns (r: Outcome<()>)
      requires Valid([]) && LawfulTable(tables.m) && LawfulLeaf(tables.m) && Ours(tables.h, PathTo(PageOf(virt), 4))
      requires Mappable(tables.m, page, flags) && StockReady(tables.m, tables.mem.words, tables.h, stock.frames)
      requires Waiting(tables.m, tables.mem.words, tables.h, retired + ([page] + stock.frames))
      modifies tables`cached, tables.mem`words, tlb, stock
      ensures Valid([]) && stock.frames <= old(stock.frames)
              && StockReady(tables.m, tables.mem.words, tables.h, stock.frames)
      ensures Published(tables.m, old(tables.mem.words), tables.mem.words, tables.h, PageOf(virt),
                        LeafWord(tables.m, page, flags),
                        old(stock.frames), stock.frames, r)
      ensures r.Err? ==> Waiting(tables.m, tables.mem.words, tables.h, retired + ([page] + stock.frames))
      ensures Conserves(retired + ([page] + old(stock.frames)),
                        retired + ((if r.Done? then [] else [page]) + stock.frames))
    {
      hide Tree, Live, Covered, Apart, Waiting, Fenced, Published, Ours, PathTo, StockReady, LawfulTable, LawfulLeaf,
           Mappable, Solvent, Balanced, LeafWord;
      ghost var m, h, words, cached, pending, was := tables.m, tables.h, tables.mem.words, tables.cached, tlb.pending,
        stock.frames;
      LeafNames(m, page, flags);
      r := tables.Publish(virt, page, flags, stock, tlb);
      ghost var bits := LeafWord(m, page, flags);
      PublishApart(m, words, tables.mem.words, h, PageOf(virt), bits, was, stock.frames, r, retired);
      CoveredByGrowth(m, words, tables.mem.words, h, cached, tables.cached, pending);
      CoveredByNote(m, tables.mem.words, h, tables.cached, pending, virt);
      assert retired + [] == retired;
      FencedByGrowth(m, words, tables.mem.words, h, cached, tables.cached, retired);
      if Solvent(m, words, h, tables.mem.counts, multiset(retired + ([page] + was))) {
        PublishConserves(m, words, tables.mem.words, h, PageOf(virt), bits, was, stock.frames, r, tables.mem.counts,
                         retired);
      }
    }

    /** Publish what `prepared` holds at `virt`. The reference the value held is the
      * descriptor's, and a refusal leaves it with the value. */
    method Publish(virt: nat, prepared: Prepared, flags: Word) returns (r: Outcome<Phys>, ghost found: Outcome<()>)
      requires Valid([]) && LawfulTable(tables.m) && LawfulLeaf(tables.m) && Ours(tables.h, PathTo(PageOf(virt), 4))
      requires prepared.Valid() && prepared.mem == tables.mem && prepared.page.Some?
               && Mappable(tables.m, prepared.page.value, flags)
      requires StockReady(tables.m, tables.mem.words, tables.h, prepared.tables.frames)
      requires Waiting(tables.m, tables.mem.words, tables.h, retired + prepared.Holds())
      modifies tables`cached, tables.mem`words, tlb, prepared`page, prepared.tables
      ensures Valid([]) && prepared.Valid() && StockReady(tables.m, tables.mem.words, tables.h, prepared.tables.frames)
      ensures r == Answer(found, old(prepared.page).value)
              && prepared.page == (if r.Done? then None else old(prepared.page))
      ensures prepared.tables.frames <= old(prepared.tables.frames)
      ensures Published(tables.m, old(tables.mem.words), tables.mem.words, tables.h, PageOf(virt),
                        LeafWord(tables.m, old(prepared.page).value, flags),
                        old(prepared.tables.frames), prepared.tables.frames, found)
      ensures r.Err? ==> Waiting(tables.m, tables.mem.words, tables.h, retired + prepared.Holds())
      ensures Conserves(retired + old(prepared.Holds()), retired + prepared.Holds())
    {
      hide Tree, Live, Covered, Apart, Waiting, Fenced, Published, Ours, PathTo, StockReady, LawfulTable, LawfulLeaf,
           Mappable, Solvent, Balanced, NoRepeats, References, LeafWord;
      ghost var was, holds := prepared.tables.frames, prepared.Holds();
      var page := prepared.Commit();
      assert holds == [page] + was;
      var walked := PublishFrame(virt, page, flags, prepared.tables);
      found := walked;
      r := Answer(walked, page);
      StockLeft(page, was, prepared.tables.frames, tables.mem.counts);
      assert prepared.Holds() == prepared.tables.frames;
      if walked.Err? {
        prepared.Uncommit(page);
      }
    }

    /** The page at `virt` moves to `frame`. The frame it was on is named nowhere any
      * more and is the caller's to retire; of an unmapped page nothing changes and
      * `frame` stays the caller's. */
    method Replace(virt: nat, frame: Phys, flags: Word) returns (stale: Option<Phys>)
      requires Valid([]) && LawfulLeaf(tables.m) && Mappable(tables.m, frame, flags)
               && Ours(tables.h, PathTo(PageOf(virt), 4))
      requires Unnamed(tables.m, tables.mem.words, tables.h, frame) && frame !in retired
      modifies tables`cached, tables.mem`words, tlb
      ensures Valid(if stale.Some? then [stale.value] else [])
      ensures Rewritten(tables.m, old(tables.mem.words), tables.mem.words, tables.h, PageOf(virt),
                        LeafWord(tables.m, frame, flags), stale)
      ensures Conserves(retired + [frame], retired + [if stale.Some? then stale.value else frame])
    {
      hide Tree, Live, Covered, Apart, Waiting, Fenced, Unnamed, Rewritten, Ours, PathTo, Solvent, Balanced;
      ghost var m, h, words, cached, pending := tables.m, tables.h, tables.mem.words, tables.cached, tlb.pending;
      ghost var bits := LeafWord(m, frame, flags);
      LeafNames(m, frame, flags);
      assert retired + [] == retired;
      stale := tables.Replace(virt, frame, flags, tlb);
      if stale.Some? {
        CoveredByRewrite(m, words, tables.mem.words, h, virt, bits, stale.value, cached, tables.cached, pending);
        FencedByRewrite(m, words, tables.mem.words, h, PageOf(virt), bits, stale.value, cached, tables.cached, retired);
        StaleWaits(m, words, tables.mem.words, h, PageOf(virt), bits, stale.value, retired);
        if Solvent(m, words, h, tables.mem.counts, multiset(retired + [frame])) {
          SolventIsBlockless(m, words, h, tables.mem.counts, multiset(retired + [frame]));
          RewriteBalanced(m, words, tables.mem.words, h, PageOf(virt), bits, stale.value, tables.mem.counts, retired);
        }
      } else {
        NotRewritten(m, words, tables.mem.words, h, PageOf(virt), bits, cached, tables.cached, pending, retired);
        if Solvent(m, words, h, tables.mem.counts, multiset(retired + [frame])) {
          SolventIsBalanced(m, words, h, tables.mem.counts, multiset(retired + [frame]));
        }
      }
    }

    /** The page at `virt` takes `flags` on the frame it is on. */
    method Protect(virt: nat, flags: Word) returns (r: Option<Phys>)
      requires Valid([]) && LawfulLeaf(tables.m) && tables.m.asked(flags) && Ours(tables.h, PathTo(PageOf(virt), 4))
      requires NamesFrames(tables.m, tables.mem.words, tables.h)
      modifies tables`cached, tables.mem`words, tlb
      ensures Valid([])
      ensures r.Some? ==> Rewritten(tables.m, old(tables.mem.words), tables.mem.words, tables.h, PageOf(virt),
                                    LeafWord(tables.m, r.value, flags), r)
      ensures r.None? ==> tables.mem.words == old(tables.mem.words)
                          && PageOf(virt) !in PageMap(tables.m, tables.mem.words, tables.h)
      ensures Conserves(retired, retired)
    {
      hide Tree, Live, Covered, Apart, Waiting, Fenced, Rewritten, Ours, PathTo, NamesFrames, PageMap, Solvent,
           Balanced;
      ghost var m, h, words, cached, pending := tables.m, tables.h, tables.mem.words, tables.cached, tlb.pending;
      assert retired + [] == retired;
      r := tables.Protect(virt, flags, tlb);
      if r.Some? {
        ghost var bits := LeafWord(m, r.value, flags);
        ProtectedNames(m, words, tables.mem.words, h, PageOf(virt), flags, r.value);
        CoveredByRewrite(m, words, tables.mem.words, h, virt, bits, r.value, cached, tables.cached, pending);
        FencedByRewrite(m, words, tables.mem.words, h, PageOf(virt), bits, r.value, cached, tables.cached, retired);
        RewriteApart(m, words, tables.mem.words, h, PageOf(virt), bits, r.value, retired);
        if Solvent(m, words, h, tables.mem.counts, multiset(retired)) {
          SolventIsBlockless(m, words, h, tables.mem.counts, multiset(retired));
          ProtectBalanced(m, words, tables.mem.words, h, PageOf(virt), bits, tables.mem.counts, retired);
        }
      } else {
        CoveredByGrowth(m, words, tables.mem.words, h, cached, tables.cached, pending);
        FencedByGrowth(m, words, tables.mem.words, h, cached, tables.cached, retired);
        if Solvent(m, words, h, tables.mem.counts, multiset(retired)) {
          SolventIsBalanced(m, words, h, tables.mem.counts, multiset(retired));
        }
      }
    }

    /** The page map without this page. The answer is the frames that lost their
      * descriptor, named nowhere now and all different; no count has changed. */
    method Unmap(virt: nat) returns (stale: seq<Phys>)
      requires Valid([]) && Ours(tables.h, PathTo(PageOf(virt), 4))
      modifies tables`cached, tables.mem`words, tlb
      ensures Valid(stale) && |stale| <= 1 + DEPTH
      ensures TookAway(tables.m, old(tables.mem.words), tables.mem.words, tables.h, PageOf(virt), tables.mem.counts,
                       stale)
      ensures Conserves(retired, retired + stale)
    {
      hide Tree, Live, Covered, Apart, Waiting, Fenced, Unmapped, Ours, PathTo, Solvent, Balanced;
      ghost var m, h, words, cached, pending := tables.m, tables.h, tables.mem.words, tables.cached, tlb.pending;
      assert retired + [] == retired;
      var reclaimed := new TableStock();
      var page := tables.Unmap(virt, tlb, reclaimed);
      if page.None? {
        NotUnmapped(m, words, tables.mem.words, h, PageOf(virt), reclaimed.frames, tables.mem.counts, cached,
                    tables.cached, pending, retired);
        return [];
      }
      stale := StaleFrames(page.value, reclaimed.frames);
      assert stale[1..] == reclaimed.frames && stale[0] == page.value;
      AtMostThree(m, words, tables.mem.words, h, PageOf(virt), reclaimed.frames, tables.mem.counts, page.value);
      CoveredByUnmap(m, words, tables.mem.words, h, virt, reclaimed.frames, tables.mem.counts, page.value, cached,
                     tables.cached, pending);
      FencedByUnmap(m, words, tables.mem.words, h, PageOf(virt), reclaimed.frames, tables.mem.counts, page.value,
                    cached, tables.cached, retired);
      StaleDoesNotRepeat(m, words, tables.mem.words, h, PageOf(virt), reclaimed.frames, tables.mem.counts, page.value,
                         retired);
      if Solvent(m, words, h, tables.mem.counts, multiset(retired)) {
        SolventIsBlockless(m, words, h, tables.mem.counts, multiset(retired));
        UnmapBalanced(m, words, tables.mem.words, h, PageOf(virt), reclaimed.frames, tables.mem.counts, page.value,
                      retired);
      }
    }

    /** One page of a range: taken away, and what came of it retired. */
    method UnmapPage(virt: nat)
      requires Valid([]) && Ours(tables.h, PathTo(PageOf(virt), 4))
      modifies this, tables`cached, tables.mem, tlb
      ensures Valid([])
      ensures PageMap(tables.m, tables.mem.words, tables.h)
              == old(PageMap(tables.m, tables.mem.words, tables.h)) - {PageOf(virt)}
      ensures Conserves(old(retired), retired)
    {
      hide Covered, Waiting, Apart, Fenced, Live, Tree, PageMap, Ours, PathTo, Solvent, Balanced, TookAway, ReleasedAll,
           Forgot;
      ghost var words, counts, held := tables.mem.words, tables.mem.counts, retired;
      var stale := Unmap(virt);
      TookAwayPage(tables.m, words, tables.mem.words, tables.h, PageOf(virt), counts, stale);
      ghost var words1, out := tables.mem.words, retired + stale;
      if stale != [] {
        Retire(stale);
        ConservedOn(tables.m, words, words1, words1, tables.h, counts, counts, tables.mem.counts, held, out, retired);
      } else {
        assert retired + stale == retired;
      }
    }

    /** No page of `[start, end)` stays mapped, and no other page changes. */
    method UnmapRange(start: nat, end: nat)
      requires Valid([]) && start % PAGE_BYTES == 0 && end <= PAGES * PAGE_BYTES
      requires forall page: nat | start <= page * PAGE_BYTES < end :: Ours(tables.h, PathTo(page, 4))
      modifies this, tables`cached, tables.mem, tlb
      ensures Valid([])
      ensures PageMap(tables.m, tables.mem.words, tables.h)
           == Without(old(PageMap(tables.m, tables.mem.words, tables.h)), start, end)
      ensures Conserves(old(retired), retired)
    {
      hide Covered, Waiting, Apart, Fenced, Live, Tree, PageMap, Ours, PathTo, PageOf, Without, Solvent, Balanced;
      ghost var m, h, words, counts, held := tables.m, tables.h, tables.mem.words, tables.mem.counts, retired;
      ghost var pages := PageMap(m, words, h);
      var at := start;
      WithoutNone(pages, start);
      SolventStarts(m, words, h, counts, multiset(held));
      while at < end
        invariant Valid([]) && at % PAGE_BYTES == 0 && start <= at && (at == start || at < end + PAGE_BYTES)
        invariant PageMap(tables.m, tables.mem.words, tables.h) == Without(pages, start, at)
        invariant Conserved(m, words, tables.mem.words, h, counts, tables.mem.counts, held, retired)
      {
        PageStart(at);
        ghost var words1, counts1, held1 := tables.mem.words, tables.mem.counts, retired;
        UnmapPage(at);
        ConservedOn(m, words, words1, tables.mem.words, h, counts, counts1, tables.mem.counts, held, held1, retired);
        WithoutNext(pages, start, at);
        at := at + PAGE_BYTES;
      }
      WithoutRounded(pages, start, end, at);
    }
  }

  // ---- references ----------------------------------------------------------

  /** `MmGuard.Conserves` between two given states. */
  ghost predicate Conserved(m: Machine, words: Words, words': Words, h: Hier, counts: map<Phys, nat>,
                            counts': map<Phys, nat>, was: seq<Phys>, now: seq<Phys>)
  {
    Solvent(m, words, h, counts, multiset(was)) ==>
      Balanced(m, words, words', h, counts, counts', multiset(was), multiset(now))
  }

  lemma ConservedOn(m: Machine, w0: Words, w1: Words, w2: Words, h: Hier, c0: map<Phys, nat>, c1: map<Phys, nat>,
                    c2: map<Phys, nat>, s0: seq<Phys>, s1: seq<Phys>, s2: seq<Phys>)
    requires Conserved(m, w0, w1, h, c0, c1, s0, s1) && Conserved(m, w1, w2, h, c1, c2, s1, s2)
    ensures Conserved(m, w0, w2, h, c0, c2, s0, s2)
  {
    hide Solvent, Balanced;
    if Solvent(m, w0, h, c0, multiset(s0)) {
      StillSolvent(m, w0, w1, h, c0, c1, multiset(s0), multiset(s1));
      BalancedOn(m, w0, w1, w2, h, c0, c1, c2, multiset(s0), multiset(s1), multiset(s2));
    }
  }

  lemma SolventIsBlockless(m: Machine, words: Words, h: Hier, counts: map<Phys, nat>, held: multiset<Phys>)
    requires Solvent(m, words, h, counts, held)
    ensures Blockless(m, words, h)
  {
  }

  lemma SolventIsBalanced(m: Machine, words: Words, h: Hier, counts: map<Phys, nat>, held: multiset<Phys>)
    requires Solvent(m, words, h, counts, held)
    ensures Balanced(m, words, words, h, counts, counts, held, held)
  {
  }

  lemma SolventStarts(m: Machine, words: Words, h: Hier, counts: map<Phys, nat>, held: multiset<Phys>)
    ensures Solvent(m, words, h, counts, held) ==> Balanced(m, words, words, h, counts, counts, held, held)
  {
  }

  lemma WaitingAreUnnamed(m: Machine, words: Words, h: Hier, retired: seq<Phys>, out: seq<Phys>)
    requires Waiting(m, words, h, retired + out)
    ensures Waiting(m, words, h, out) && forall f, e | f in retired && e in Live(m, words, h) :: e.frame != f
  {
    hide Live;
    NoRepeatsJoin(retired, out);
    assert forall f | f in retired || f in out :: f in retired + out;
  }

  lemma ExactIsFenced(m: Machine, words: Words, h: Hier, out: seq<Phys>)
    ensures Fenced(m, words, h, Live(m, words, h), out)
  {
    hide Live;
  }

  lemma StockLeft(page: Phys, was: seq<Phys>, now: seq<Phys>, counts: map<Phys, nat>)
    requires now <= was && NoRepeats([page] + was) && |was| <= DEPTH
    requires forall f | f in [page] + was :: References(counts, f) >= 1
    ensures NoRepeats(now) && |now| <= DEPTH && (forall f | f in now :: References(counts, f) >= 1)
    ensures page !in now && References(counts, page) >= 1
  {
    assert [] + ([page] + was) == [page] + was;
    SetAside([], page, was, now);
    NoRepeatsJoin([page], now);
    assert [] + ([page] + now) == [page] + now;
    assert page in [page] + was && forall f | f in now :: f in [page] + was;
  }

  lemma PublishConserves(m: Machine, words: Words, words': Words, h: Hier, page: nat, bits: Word, was: seq<Phys>,
                         now: seq<Phys>, r: Outcome<()>, counts: map<Phys, nat>, retired: seq<Phys>)
    requires Tree(m, words, h) && !m.present(0) && now <= was && Published(m, words, words', h, page, bits, was, now, r)
    requires Solvent(m, words, h, counts, multiset(retired + ([m.addr(bits)] + was)))
    requires StockReady(m, words, h, was)
    ensures Balanced(m, words, words', h, counts, counts,
                     multiset(retired + ([m.addr(bits)] + was)),
                       multiset(retired + ((if r.Done? then [] else [m.addr(bits)]) + now)))
  {
    StockIsSpare(m, words, h, was);
    hide Tree, Published, Balanced, StockReady, IsTableFrame, NoRepeats;
    SolventIsBlockless(m, words, h, counts, multiset(retired + ([m.addr(bits)] + was)));
    PublishBalanced(m, words, words', h, page, bits, was, now, r, counts, retired);
    assert InHand(retired, [m.addr(bits)], was) == multiset(retired + ([m.addr(bits)] + was));
    var left := if r.Done? then [] else [m.addr(bits)];
    assert InHand(retired, left, now) == multiset(retired + (left + now));
  }

  lemma StockIsSpare(m: Machine, words: Words, h: Hier, frames: seq<Phys>)
    requires StockReady(m, words, h, frames)
    ensures NoRepeats(frames) && forall f | f in frames :: !IsTableFrame(m, words, h, f)
  {
    forall f | f in frames ensures !IsTableFrame(m, words, h, f) {
      var i :| 0 <= i < |frames| && frames[i] == f;
      assert Spare(m, words, h, frames[i]);
    }
  }

  // ---- a change that found nothing -----------------------------------------

  lemma NotUnmapped(m: Machine, words: Words, words': Words, h: Hier, page: nat, frames: seq<Phys>,
                    counts: map<Phys, nat>, cached: iset<Entry>, cached': iset<Entry>, pending: Pending,
                    retired: seq<Phys>)
    requires Unmapped(m, words, words', h, page, frames, counts, None)
    requires Covered(m, words, h, cached, pending) && Fenced(m, words, h, cached, retired)
             && cached' <= cached + Live(m, words, h)
    ensures words' == words && frames == [] && Covered(m, words', h, cached', pending)
            && Fenced(m, words', h, cached', retired)
    ensures Solvent(m, words, h, counts, multiset(retired)) ==>
              Balanced(m, words, words', h, counts, counts, multiset(retired), multiset(retired))
  {
    hide Live;
    CoveredByGrowth(m, words, words', h, cached, cached', pending);
    FencedByGrowth(m, words, words', h, cached, cached', retired);
  }

  lemma AtMostThree(m: Machine, words: Words, words': Words, h: Hier, page: nat, frames: seq<Phys>,
                    counts: map<Phys, nat>, held: Phys)
    requires Unmapped(m, words, words', h, page, frames, counts, Some(held))
    ensures |frames| <= DEPTH
  {
  }

  lemma TookAwayPage(m: Machine, words: Words, words': Words, h: Hier, page: nat, counts: map<Phys, nat>,
                     stale: seq<Phys>)
    requires TookAway(m, words, words', h, page, counts, stale)
    ensures PageMap(m, words', h) == PageMap(m, words, h) - {page}
    ensures stale == [] <==> page !in PageMap(m, words, h)
  {
  }

  lemma LeafNames(m: Machine, frame: Phys, flags: Word)
    requires LawfulLeaf(m) && Mappable(m, frame, flags)
    ensures m.addr(LeafWord(m, frame, flags)) == frame
  {
  }

  lemma ProtectedNames(m: Machine, words: Words, words': Words, h: Hier, page: nat, flags: Word, held: Phys)
    requires LawfulLeaf(m) && m.asked(flags) && NamesFrames(m, words, h)
    requires Rewritten(m, words, words', h, page, LeafWord(m, held, flags), Some(held))
    ensures m.addr(LeafWord(m, held, flags)) == held
  {
    hide LawfulLeaf;
    LeafNames(m, held, flags);
  }

  lemma StaleWaits(m: Machine, words: Words, words': Words, h: Hier, page: nat, bits: Word, held: Phys,
                   retired: seq<Phys>)
    requires Rewritten(m, words, words', h, page, bits, Some(held)) && Tree(m, words, h)
    requires Apart(m, words, h) && Waiting(m, words, h, retired) && Unnamed(m, words, h, m.addr(bits))
             && m.addr(bits) !in retired
    ensures Apart(m, words', h) && Waiting(m, words', h, retired + [held])
  {
    RewriteEntries(m, words, words', h, page, bits, held);
    RewriteApart(m, words, words', h, page, bits, held, retired);
    NoRepeatsJoin(retired, [held]);
    hide Live, Rewritten, Tree;
  }

  lemma NotRewritten(m: Machine, words: Words, words': Words, h: Hier, page: nat, bits: Word,
                     cached: iset<Entry>, cached': iset<Entry>, pending: Pending, retired: seq<Phys>)
    requires Rewritten(m, words, words', h, page, bits, None)
    requires Covered(m, words, h, cached, pending) && Fenced(m, words, h, cached, retired)
             && cached' <= cached + Live(m, words', h)
    ensures words' == words && Covered(m, words', h, cached', pending) && Fenced(m, words', h, cached', retired)
  {
    hide Live;
    CoveredByGrowth(m, words, words', h, cached, cached', pending);
    FencedByGrowth(m, words, words', h, cached, cached', retired);
  }

  /** The pages outside `[start, end)`. */
  ghost function Without<T>(pages: map<nat, T>, start: nat, end: nat): map<nat, T> {
    map page | page in pages && !(start <= page * PAGE_BYTES < end) :: pages[page]
  }

  lemma PageStart(at: nat)
    requires at % PAGE_BYTES == 0 && at < PAGES * PAGE_BYTES
    ensures PageOf(at) * PAGE_BYTES == at && (at + PAGE_BYTES) % PAGE_BYTES == 0
  {
    assert at / PAGE_BYTES * PAGE_BYTES == at;
  }

  lemma WithoutNone<T>(pages: map<nat, T>, start: nat)
    ensures Without(pages, start, start) == pages
  {
  }

  lemma WithoutNext<T>(pages: map<nat, T>, start: nat, at: nat)
    requires at % PAGE_BYTES == 0 && start <= at && at < PAGES * PAGE_BYTES
    ensures Without(pages, start, at + PAGE_BYTES) == Without(pages, start, at) - {PageOf(at)}
  {
  }

  lemma WithoutRounded<T>(pages: map<nat, T>, start: nat, end: nat, at: nat)
    requires start % PAGE_BYTES == 0 && at % PAGE_BYTES == 0 && start <= at
    requires if start < end then end <= at < end + PAGE_BYTES else at == start
    ensures Without(pages, start, at) == Without(pages, start, end)
  {
  }
}
