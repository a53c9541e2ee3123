/** Faults against unmaps in one address space, at the grain of its lock.
  *
  * A fault looks at the record under the lock, fills a page with the lock let go,
  * and commits under the lock again. An unmap takes the regions away under one
  * hold and the pages a chunk at a time. A run is any interleaving of those holds
  * with any other change to the record.
  */
module Faults {
  import opened Machines
  import opened Walk
  import opened Pages
  import opened Hierarchy
  import opened Descent
  import opened Tables
  import opened Guard
  import opened Share
  import opened Spaces
  import opened Regions
  import opened Permissions
  import opened Protection

  /** The most one `Chunk` covers, in bytes. */
  const CHUNK_BYTES: nat := 128 * PAGE_BYTES

  /** A fault between its two holds: the page, and what it is being filled for. */
  datatype Fault = Fault(page: nat, plan: Plan)

  /** An unmap under way: what it was asked for and how far it has come. */
  datatype Sweep = Sweep(start: nat, end: nat, at: nat)

  datatype Space = Space(record: Record, pages: map<nat, Plan>, faults: map<nat, Fault>, sweeps: map<nat, Sweep>)

  datatype Step =
    // The first hold of a fault on `page`.
    | Look(task: nat, page: nat)
    // The second. `short`: the stock ran out on the way down.
    | Commit(task: nat, short: bool)
    // The page could not be filled.
    | GiveUp(task: nat)
    // The first hold of an unmap: the regions go.
    | BeginUnmap(task: nat, start: nat, end: nat)
    // An unmap whose caller moved the break instead.
    | BeginSweep(task: nat, start: nat, end: nat)
    // One more hold of an unmap.
    | Chunk(task: nat)
    // The unmap returns.
    | Return(task: nat)
    // Any other change to the record.
    | Change(record: Record)

  predicate Enabled(s: Space, step: Step) {
    match step
    case Look(t, _) => t !in s.faults
    case Commit(t, _) => t in s.faults
    case GiveUp(t) => t in s.faults
    case BeginUnmap(t, _, _) => t !in s.sweeps
    case BeginSweep(t, _, _) => t !in s.sweeps
    case Chunk(t) => t in s.sweeps && s.sweeps[t].at < s.sweeps[t].end
    case Return(t) => t in s.sweeps && s.sweeps[t].at >= s.sweeps[t].end
    case Change(_) => true
  }

  function ChunkEnd(w: Sweep): nat {
    if w.at + CHUNK_BYTES < w.end then w.at + CHUNK_BYTES else w.end
  }

  function Apply(s: Space, step: Step): Space
    requires Enabled(s, step)
  {
    match step
    case Look(t, page) =>
      if page in s.pages || PlanAt(s.record, page).None? then s else
      s.(faults := s.faults[t := Fault(page, PlanAt(s.record, page).value)])
    case Commit(t, short) =>
      var fault := s.faults[t];
      var done := s.(faults := s.faults - {t});
      if fault.page in s.pages || PlanAt(s.record, fault.page) != Some(fault.plan) || short then done else
      done.(pages := s.pages[fault.page := fault.plan])
    case GiveUp(t) => s.(faults := s.faults - {t})
    case BeginUnmap(t, start, end) =>
      s.(record := s.record.(vmas := Removed(s.record.vmas, start, end)),
         sweeps := s.sweeps[t := Sweep(start, end, start)])
    case BeginSweep(t, start, end) => s.(sweeps := s.sweeps[t := Sweep(start, end, start)])
    case Chunk(t) =>
      var w := s.sweeps[t];
      var stop := ChunkEnd(w);
      s.(pages := map page | page in s.pages && !(w.at <= page < stop) :: s.pages[page],
         sweeps := s.sweeps[t := w.(at := stop)])
    case Return(t) => s.(sweeps := s.sweeps - {t})
    case Change(record) => s.(record := record)
  }

  ghost predicate Run(s: Space, steps: seq<Step>, s': Space)
    decreases |steps|
  {
    if steps == [] then s' == s else
    Enabled(s, steps[0]) && Run(Apply(s, steps[0]), steps[1..], s')
  }

  // ---- nothing is published behind an unmap --------------------------------

  /** Taking a range out names nothing at an address nothing was named at. */
  lemma PiecesNameNoMore(v: Vma, start: nat, end: nat, addr: nat)
    requires !Contains(v, addr)
    ensures FindVma(Pieces(v, start, end), addr).None?
  {
    forall p | p in Pieces(v, start, end) ensures !Contains(p, addr) {
    }
  }

  lemma {:induction false} RemovedNamesNoMore(vmas: seq<Vma>, start: nat, end: nat, addr: nat)
    requires FindVma(vmas, addr).None?
    ensures FindVma(Removed(vmas, start, end), addr).None?
  {
    if vmas != [] {
      RemovedNamesNoMore(vmas[1..], start, end, addr);
      PiecesNameNoMore(vmas[0], start, end, addr);
      FindJoin(Pieces(vmas[0], start, end), Removed(vmas[1..], start, end), addr);
    }
  }

  /** Nothing is recorded at the page, the unmap is `w`, and it has left nothing
    * at the page if it has been past it. */
  ghost predicate Behind(s: Space, t: nat, start: nat, end: nat, page: nat) {
    && PlanAt(s.record, page).None?
    && t in s.sweeps && s.sweeps[t].start == start && s.sweeps[t].end == end
    && (start <= page < s.sweeps[t].at ==> page !in s.pages)
  }

  lemma BehindStep(s: Space, step: Step, t: nat, start: nat, end: nat, page: nat)
    requires Behind(s, t, start, end, page) && Enabled(s, step)
    requires step.Change? ==> PlanAt(step.record, page).None?
    requires step != Return(t)
    ensures Behind(Apply(s, step), t, start, end, page)
  {
    match step
    case BeginUnmap(u, from, to) => RemovedNamesNoMore(s.record.vmas, from, to, page);
    case _ =>
  }

  lemma {:induction false} BehindRun(s: Space, steps: seq<Step>, s': Space, t: nat, start: nat, end: nat, page: nat)
    requires Behind(s, t, start, end, page) && Run(s, steps, s')
    requires forall step | step in steps :: (step.Change? ==> PlanAt(step.record, page).None?) && step != Return(t)
    ensures Behind(s', t, start, end, page)
    decreases |steps|
  {
    if steps != [] {
      BehindStep(s, steps[0], t, start, end, page);
      BehindRun(Apply(s, steps[0]), steps[1..], s', t, start, end, page);
    }
  }

  lemma BehindUnlessRecorded(s: Space, t: nat, start: nat, end: nat, steps: seq<Step>, s': Space, page: nat)
    requires Behind(s, t, start, end, page) && start <= page < end
    requires Run(s, steps, s') && Return(t) !in steps && Enabled(s', Return(t))
    ensures page in s'.pages ==> exists record :: Change(record) in steps && PlanAt(record, page).Some?
  {
    if forall record :: Change(record) in steps ==> PlanAt(record, page).None? {
      forall step | step in steps ensures (step.Change? ==> PlanAt(step.record, page).None?) && step != Return(t) {
        if step.Change? {
          assert step == Change(step.record);
        }
      }
      BehindRun(s, steps, s', t, start, end, page);
    }
  }

  /** An unmap of a range outside the break: whatever faults and other unmaps ran
    * meanwhile, when it is ready to return no page of the range is mapped unless
    * some change since has recorded something at that page. */
  lemma NothingBehindUnmap(s: Space, t: nat, start: nat, end: nat, steps: seq<Step>, s': Space, page: nat)
    requires Enabled(s, BeginUnmap(t, start, end)) && start <= page < end && !InHeap(s.record, page)
    requires Run(Apply(s, BeginUnmap(t, start, end)), steps, s') && Return(t) !in steps
    requires Enabled(s', Return(t))
    ensures page in s'.pages ==> exists record :: Change(record) in steps && PlanAt(record, page).Some?
  {
    RemovedCoversNothing(s.record.vmas, start, end, page);
    BehindUnlessRecorded(Apply(s, BeginUnmap(t, start, end)), t, start, end, steps, s', page);
  }

  /** The same for a sweep whose caller has lowered the break below the range. */
  lemma NothingBehindSweep(s: Space, t: nat, start: nat, end: nat, steps: seq<Step>, s': Space, page: nat)
    requires Enabled(s, BeginSweep(t, start, end)) && start <= page < end && PlanAt(s.record, page).None?
    requires Run(Apply(s, BeginSweep(t, start, end)), steps, s') && Return(t) !in steps
    requires Enabled(s', Return(t))
    ensures page in s'.pages ==> exists record :: Change(record) in steps && PlanAt(record, page).Some?
  {
    BehindUnlessRecorded(Apply(s, BeginSweep(t, start, end)), t, start, end, steps, s', page);
  }

  // ---- what a commit puts in -----------------------------------------------

  /** Only a commit puts a page in, at a page with nothing at it, and what it puts
    * in is what the record names at that moment, however the record changed while
    * the page was being filled. */
  lemma OnlyCommitsPut(s: Space, step: Step, page: nat)
    requires Enabled(s, step)
    ensures var s' := Apply(s, step);
            page in s'.pages && (page !in s.pages || s'.pages[page] != s.pages[page]) ==>
              page !in s.pages && step.Commit? && PlanAt(s.record, page) == Some(s'.pages[page])
  {
  }

  /** Nothing but its own commit or its giving up ends a fault or changes what it is
    * filling a page for. */
  lemma {:induction false} FaultStands(s: Space, t: nat, steps: seq<Step>, s': Space)
    requires t in s.faults && Run(s, steps, s')
    requires forall step | step in steps :: !Ends(step, t)
    ensures t in s'.faults && s'.faults[t] == s.faults[t]
    decreases |steps|
  {
    if steps != [] {
      assert !Ends(steps[0], t);
      FaultStands(Apply(s, steps[0]), t, steps[1..], s');
    }
  }

  predicate Ends(step: Step, t: nat) {
    (step.Commit? || step.GiveUp?) && step.task == t
  }

  /** A fault that found its page missing and recorded: whatever ran while it filled a
    * page, its commit ends with the page mapped if and only if somebody else has mapped
    * it meanwhile, or the record still names what it was filled for and the walk had
    * tables enough; and in that second case it is that which is mapped. */
  lemma CommitServes(s: Space, t: nat, page: nat, plan: Plan, steps: seq<Step>, s': Space, short: bool)
    requires t !in s.faults && page !in s.pages && PlanAt(s.record, page) == Some(plan)
    requires Run(Apply(s, Look(t, page)), steps, s') && forall step | step in steps :: !Ends(step, t)
    ensures Enabled(s', Commit(t, short))
    ensures var s2 := Apply(s', Commit(t, short));
            && (page in s2.pages <==> page in s'.pages || (PlanAt(s'.record, page) == Some(plan) && !short))
            && (page in s2.pages && page !in s'.pages ==> s2.pages[page] == plan)
  {
    hide PlanAt;
    FaultStands(Apply(s, Look(t, page)), t, steps, s');
  }

  /** Every page in at the end of a run was in at the start, or a commit of the run
    * put it in when the record named exactly that. */
  lemma {:induction false} PagesMatchARecord(s: Space, steps: seq<Step>, s': Space, page: nat)
    requires Run(s, steps, s') && page in s'.pages
    ensures (page in s.pages && s.pages[page] == s'.pages[page])
         || exists i: nat, at: Space | i < |steps| ::
            Run(s, steps[..i], at) && steps[i].Commit? && PlanAt(at.record, page) == Some(s'.pages[page])
    decreases |steps|
  {
    if steps != [] {
      var next := Apply(s, steps[0]);
      PagesMatchARecord(next, steps[1..], s', page);
      if page in next.pages && next.pages[page] == s'.pages[page] {
        OnlyCommitsPut(s, steps[0], page);
        if !(page in s.pages && s.pages[page] == s'.pages[page]) {
          assert Run(s, steps[..0], s) && steps[0].Commit? && PlanAt(s.record, page) == Some(s'.pages[page]);
        }
      } else {
        var i: nat, at: Space :| i < |steps[1..]| && Run(next, steps[1..][..i], at) && steps[1..][i].Commit?
          && PlanAt(at.record, page) == Some(s'.pages[page]);
        assert steps[..i + 1][1..] == steps[1..][..i] && steps[..i + 1][0] == steps[0];
        assert Run(s, steps[..i + 1], at) && steps[i + 1].Commit?;
      }
    }
  }

  // ---- the tables under it -------------------------------------------------

  function AddressOf(page: nat): nat {
    page * PAGE_BYTES
  }

  /** The pages of the machine are the ones the tables map, and each descriptor grants
    * what the page was put in with. */
  ghost predicate Shows(m: Machine, d: Dialect, s: Space, pages: map<nat, Word>) {
    && (forall page: nat :: page in pages <==> AddressOf(page) in s.pages)
    && forall page | page in pages :: Grants(m, d, pages[page], s.pages[AddressOf(page)].flags)
  }

  lemma AddressesDiffer(a: nat, b: nat)
    ensures AddressOf(a) == AddressOf(b) <==> a == b
  {
  }

  lemma ShowsPut(m: Machine, d: Dialect, s: Space, s': Space, pages: map<nat, Word>, page: nat, bits: Word, plan: Plan)
    requires Shows(m, d, s, pages) && s'.pages == s.pages[AddressOf(page) := plan] && Grants(m, d, bits, plan.flags)
    ensures Shows(m, d, s', pages[page := bits])
  {
    hide AddressOf, Grants;
    forall other: nat ensures other in pages[page := bits] <==> AddressOf(other) in s'.pages {
      AddressesDiffer(other, page);
    }
    forall other | other in pages[page := bits]
      ensures Grants(m, d, pages[page := bits][other], s'.pages[AddressOf(other)].flags)
    {
      AddressesDiffer(other, page);
    }
  }

  lemma ShowsSame(m: Machine, d: Dialect, s: Space, s': Space, pages: map<nat, Word>)
    requires Shows(m, d, s, pages) && s'.pages == s.pages
    ensures Shows(m, d, s', pages)
  {
  }

  /** The publish at the end of a fault, of a frame with the flags the plan asks for,
    * done or refused, is the commit. */
  lemma CommitIsPublish(m: Machine, d: Dialect, words: Words, words': Words, h: Hier, page: nat, f: Phys,
                        was: seq<Phys>, now: seq<Phys>, r: Outcome<()>, s: Space, task: nat)
    requires Speaks(m, d) && Blockless(m, words, h) && |now| <= |was| && m.frame(f)
    requires task in s.faults && s.faults[task].page == AddressOf(page)
    requires Published(m, words, words', h, page, LeafWord(m, f, d.wanted(s.faults[task].plan.flags)), was, now, r)
    requires Shows(m, d, s, PageMap(m, words, h))
    requires PlanAt(s.record, AddressOf(page)) == Some(s.faults[task].plan)
    ensures Shows(m, d, Apply(s, Commit(task, r == Err(ShortOfTables))), PageMap(m, words', h))
  {
    hide PageMap, Blockless, PlanAt, Shows, Published, Speaks, Grants;
    var plan := s.faults[task].plan;
    var bits := LeafWord(m, f, d.wanted(plan.flags));
    WantedGrants(m, d, f, plan.flags);
    WhatCame(m, words, words', h, page, bits, was, now, r);
    var s' := Apply(s, Commit(task, r == Err(ShortOfTables)));
    ShownAt(m, d, s, PageMap(m, words, h), page);
    if r.Done? {
      ShowsPut(m, d, s, s', PageMap(m, words, h), page, bits, plan);
    } else {
      ShowsSame(m, d, s, s', PageMap(m, words, h));
    }
  }

  /** A leaf made from what was wanted grants it. */
  lemma WantedGrants(m: Machine, d: Dialect, f: Phys, flags: PageFlags)
    requires Speaks(m, d) && m.frame(f)
    ensures Grants(m, d, LeafWord(m, f, d.wanted(flags)), flags)
  {
    hide Carries;
  }

  /** A fork's mark on the page, and the break that takes it off again, show the same
    * pages with the same permissions. */
  lemma MarkingShows(m: Machine, d: Dialect, s: Space, pages: map<nat, Word>, page: nat)
    requires LawfulLeaf(m) && LawfulSharing(m) && Speaks(m, d)
    requires Shows(m, d, s, pages) && page in pages && WellMade(m, pages[page])
    ensures Shows(m, d, s, pages[page := SharedBits(m, pages[page])])
  {
    hide LawfulLeaf, LawfulSharing, Speaks, WellMade, Grants, SharedBits, AddressOf;
    SharedGrants(m, d, pages[page], s.pages[AddressOf(page)].flags);
    assert s.pages == s.pages[AddressOf(page) := s.pages[AddressOf(page)]];
    ShowsPut(m, d, s, s, pages, page, SharedBits(m, pages[page]), s.pages[AddressOf(page)]);
  }

  lemma BreakingShows(m: Machine, d: Dialect, s: Space, pages: map<nat, Word>, page: nat, counts: map<Phys, nat>,
                      spare: Option<Phys>)
    requires LawfulLeaf(m) && LawfulOwning(m) && Speaks(m, d) && (spare.Some? ==> m.frame(spare.value))
    requires Shows(m, d, s, pages) && page in pages && WellMade(m, pages[page])
    ensures Shows(m, d, s, pages[page := Broken(m, pages[page], CaseOf(m, Some(pages[page]), counts, spare))])
  {
    hide LawfulLeaf, LawfulOwning, Speaks, WellMade, Grants, AddressOf;
    var bits, c := pages[page], CaseOf(m, Some(pages[page]), counts, spare);
    if c.TakeBack? || c.CopyTo? {
      BrokenGrants(m, d, bits, c, s.pages[AddressOf(page)].flags);
    }
    assert s.pages == s.pages[AddressOf(page) := s.pages[AddressOf(page)]];
    ShowsPut(m, d, s, s, pages, page, Broken(m, bits, c), s.pages[AddressOf(page)]);
  }

  /** Every descriptor at the end of a run grants what a page had that was in at the
    * start, or what the record named when a commit of the run put the page in. */
  lemma DescriptorsMatchARecord(m: Machine, d: Dialect, s: Space, steps: seq<Step>, s': Space, pages: map<nat, Word>,
                                page: nat) returns (plan: Plan)
    requires Run(s, steps, s') && Shows(m, d, s', pages) && page in pages
    ensures Grants(m, d, pages[page], plan.flags)
    ensures (AddressOf(page) in s.pages && s.pages[AddressOf(page)] == plan)
         || exists i: nat, at: Space | i < |steps| ::
            Run(s, steps[..i], at) && steps[i].Commit? && PlanAt(at.record, AddressOf(page)) == Some(plan)
  {
    hide Grants, AddressOf, PlanAt, Run;
    plan := s'.pages[AddressOf(page)];
    PagesMatchARecord(s, steps, s', AddressOf(page));
  }

  lemma ShownAt(m: Machine, d: Dialect, s: Space, pages: map<nat, Word>, page: nat)
    requires Shows(m, d, s, pages)
    ensures page in pages <==> AddressOf(page) in s.pages
  {
  }

  lemma WhatCame(m: Machine, words: Words, words': Words, h: Hier, page: nat, bits: Word, was: seq<Phys>,
                 now: seq<Phys>, r: Outcome<()>)
    requires Blockless(m, words, h) && |now| <= |was| && Published(m, words, words', h, page, bits, was, now, r)
    ensures PageMap(m, words', h) == (if r.Done? then PageMap(m, words, h)[page := bits] else PageMap(m, words, h))
    ensures r.Done? ==> page !in PageMap(m, words, h)
    ensures r.Done? || r == Err(ShortOfTables) || (r == Err(Occupied) && page in PageMap(m, words, h))
  {
    hide PageMap, Populated, Missing, Extended;
    if r.Err? {
      match r.refused
      case Occupied =>
      case ShortOfTables =>
      case Blocked =>
    }
  }

  /** One hold of an unmap, taking its chunk of the range away, is the step. */
  lemma ChunkIsUnmapRange(m: Machine, d: Dialect, words: Words, words': Words, h: Hier, s: Space, task: nat)
    requires Shows(m, d, s, PageMap(m, words, h)) && task in s.sweeps && s.sweeps[task].at < s.sweeps[task].end
    requires PageMap(m, words', h) == Without(PageMap(m, words, h), s.sweeps[task].at, ChunkEnd(s.sweeps[task]))
    ensures Shows(m, d, Apply(s, Chunk(task)), PageMap(m, words', h))
  {
    hide PageMap, Grants;
  }
}
