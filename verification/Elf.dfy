/** The image a program sees: which pages the loader assembles, which it leaves to
  * a fault, and what each byte of either comes to.
  */
module Elf {
  import opened Machines
  import opened Pages
  import opened Regions

  const WORD_LIMIT: nat := 0x1_0000_0000_0000_0000
  const MMAP_BASE: nat := 0x7F00_0000_0000
  const MAX_IMAGE_PAGES: nat := 0x1_0000
  const PT_LOAD: nat := 1
  const PROT_READ: bv64 := 1

  datatype Errno = Enoexec | Enomem

  datatype Result<+T> = Ok(value: T) | Err(errno: Errno)

  type Byte = bv8

  /** The permission bits of a program header. */
  datatype Perms = Perms(read: bool, write: bool, exec: bool)

  const NOTHING: Perms := Perms(false, false, false)

  function Or(a: Perms, b: Perms): Perms {
    Perms(a.read || b.read, a.write || b.write, a.exec || b.exec)
  }

  datatype ProgramHeader = ProgramHeader(kind: nat, flags: Perms, offset: nat, vaddr: nat, filesz: nat, memsz: nat)

  /** Where one segment lands. */
  datatype Extent = Extent(vaddr: nat, start: nat, end: nat, fileOffset: nat, fileLen: nat)

  /** A segment the loader maps: where it lands and what it permits. */
  datatype Load = Load(extent: Extent, flags: Perms)

  function Total(values: seq<nat>): nat {
    if values == [] then 0 else values[0] + Total(values[1..])
  }

  /** A sum of numbers out of the file, checked at every addition. */
  function SumFrom(total: nat, values: seq<nat>): (r: Result<nat>)
    requires total < WORD_LIMIT
    ensures r == if total + Total(values) < WORD_LIMIT then Ok(total + Total(values)) else Err(Enoexec)
    decreases |values|
  {
    if values == [] then Ok(total)
    else if total + values[0] >= WORD_LIMIT then Err(Enoexec)
    else SumFrom(total + values[0], values[1..])
  }

  function PageDown(addr: nat): nat {
    addr / PAGE_BYTES * PAGE_BYTES
  }

  function RoundUp(value: nat): Result<nat> {
    match SumFrom(0, [value, PAGE_BYTES - 1])
    case Ok(total) => Ok(PageDown(total))
    case Err(e) => Err(e)
  }

  function ExtentOf(ph: ProgramHeader, base: nat, size: nat): Result<Extent> {
    if ph.filesz > ph.memsz then Err(Enoexec)
    else if ph.offset % PAGE_BYTES != ph.vaddr % PAGE_BYTES then Err(Enoexec)
    else match SumFrom(0, [ph.offset, ph.filesz])
    case Err(e) => Err(e)
    case Ok(fileEnd) =>
      if fileEnd > size then Err(Enoexec)
      else match SumFrom(0, [base, ph.vaddr])
      case Err(e) => Err(e)
      case Ok(vaddr) =>
        match SumFrom(0, [vaddr, ph.memsz])
        case Err(e) => Err(e)
        case Ok(memEnd) =>
          match RoundUp(memEnd)
          case Err(e) => Err(e)
          case Ok(end) => if end > MMAP_BASE then Err(Enomem)
            else Ok(Extent(vaddr, PageDown(vaddr), end, ph.offset, ph.filesz))
  }

  function FileEnd(e: Extent): nat {
    e.vaddr + e.fileLen
  }

  function IntoPage(e: Extent): int {
    e.vaddr - e.start
  }

  /** Everything the rest of the loader adds up or takes away is in range: the
    * bytes are inside the segment and inside the file, and the page the segment
    * begins in begins inside the file too. */
  ghost predicate Sane(e: Extent, size: nat) {
    && Aligned(e.start) && Aligned(e.end) && e.start <= e.vaddr < e.start + PAGE_BYTES
    && FileEnd(e) <= e.end <= MMAP_BASE
    && IntoPage(e) <= e.fileOffset && e.fileOffset + e.fileLen <= size
  }

  lemma TwoSum(a: nat, b: nat)
    ensures SumFrom(0, [a, b]) == if a + b < WORD_LIMIT then Ok(a + b) else Err(Enoexec)
  {
    assert Total([a, b]) == a + b by {
      assert [a, b][1..] == [b] && [b][1..] == [];
      assert Total([b]) == b + Total([]);
    }
  }

  lemma PageDownIsClose(addr: nat)
    ensures Aligned(PageDown(addr)) && PageDown(addr) <= addr < PageDown(addr) + PAGE_BYTES
    ensures addr - PageDown(addr) == addr % PAGE_BYTES
  {
  }

  lemma SameOffset(base: nat, vaddr: nat)
    requires Aligned(base)
    ensures (base + vaddr) % PAGE_BYTES == vaddr % PAGE_BYTES
  {
  }

  /** No sum or subtraction of an accepted segment wraps, given a page-aligned
    * base. */
  lemma ExtentIsSane(ph: ProgramHeader, base: nat, size: nat)
    requires Aligned(base) && ExtentOf(ph, base, size).Ok?
    ensures Sane(ExtentOf(ph, base, size).value, size)
    ensures ph.memsz > 0 ==> ExtentOf(ph, base, size).value.start < ExtentOf(ph, base, size).value.end
  {
    hide SumFrom, PageDown;
    TwoSum(ph.offset, ph.filesz);
    TwoSum(base, ph.vaddr);
    var vaddr := base + ph.vaddr;
    TwoSum(vaddr, ph.memsz);
    TwoSum(vaddr + ph.memsz, PAGE_BYTES - 1);
    PageDownIsClose(vaddr);
    PageDownIsClose(vaddr + ph.memsz + PAGE_BYTES - 1);
    SameOffset(base, ph.vaddr);
  }

  // ---- the segments to map -------------------------------------------------

  predicate IsLoad(ph: ProgramHeader) {
    ph.kind == PT_LOAD
  }

  function PageCount(e: Extent): int {
    (e.end - e.start) / PAGE_BYTES
  }

  function PagesIn(loads: seq<Load>): int {
    if loads == [] then 0 else PagesIn(loads[..|loads| - 1]) + PageCount(loads[|loads| - 1].extent)
  }

  /** Every segment's numbers add up. */
  ghost predicate Accepted(phdrs: seq<ProgramHeader>, base: nat, size: nat) {
    forall ph | ph in phdrs :: IsLoad(ph) ==> ExtentOf(ph, base, size).Ok?
  }

  /** What one header adds to the image. */
  function LoadOf(ph: ProgramHeader, base: nat, size: nat): seq<Load>
    requires IsLoad(ph) ==> ExtentOf(ph, base, size).Ok?
  {
    if IsLoad(ph) && ph.memsz > 0 then [Load(ExtentOf(ph, base, size).value, ph.flags)] else []
  }

  /** The segments of the headers, in their order, leaving out the empty ones. */
  ghost function LoadsOf(phdrs: seq<ProgramHeader>, base: nat, size: nat): seq<Load>
    requires Accepted(phdrs, base, size)
  {
    if phdrs == [] then [] else
    LoadsOf(phdrs[..|phdrs| - 1], base, size) + LoadOf(phdrs[|phdrs| - 1], base, size)
  }

  ghost predicate AllSane(loads: seq<Load>, size: nat) {
    forall l | l in loads :: Sane(l.extent, size) && l.extent.start < l.extent.end
  }

  lemma LoadsNext(phdrs: seq<ProgramHeader>, base: nat, size: nat, i: nat)
    requires Aligned(base) && i < |phdrs| && Accepted(phdrs[..i + 1], base, size)
    ensures Accepted(phdrs[..i], base, size)
    ensures LoadsOf(phdrs[..i + 1], base, size) == LoadsOf(phdrs[..i], base, size) + LoadOf(phdrs[i], base, size)
    ensures AllSane(LoadsOf(phdrs[..i], base, size), size) ==> AllSane(LoadsOf(phdrs[..i + 1], base, size), size)
    ensures PagesIn(LoadsOf(phdrs[..i + 1], base, size))
         == PagesIn(LoadsOf(phdrs[..i], base, size)) + if LoadOf(phdrs[i], base, size) == [] then 0
            else PageCount(ExtentOf(phdrs[i], base, size).value)
    ensures PagesIn(LoadsOf(phdrs[..i], base, size)) <= PagesIn(LoadsOf(phdrs[..i + 1], base, size))
  {
    hide ExtentOf, Sane, IsLoad;
    var all := phdrs[..i + 1];
    assert all[..i] == phdrs[..i] && all[i] == phdrs[i] && forall ph | ph in phdrs[..i] :: ph in all;
    var a, b := LoadsOf(phdrs[..i], base, size), LoadOf(phdrs[i], base, size);
    if b != [] {
      ExtentIsSane(phdrs[i], base, size);
      PagesRise(ExtentOf(phdrs[i], base, size).value, size);
      assert (a + b)[..|a + b| - 1] == a;
    } else {
      assert a + b == a;
    }
  }

  lemma PagesRise(e: Extent, size: nat)
    requires Sane(e, size) && e.start < e.end
    ensures PageCount(e) >= 0
  {
  }

  lemma {:induction false} PagesGrow(phdrs: seq<ProgramHeader>, base: nat, size: nat, i: nat)
    requires Aligned(base) && i <= |phdrs| && Accepted(phdrs, base, size)
    ensures Accepted(phdrs[..i], base, size)
            && PagesIn(LoadsOf(phdrs[..i], base, size)) <= PagesIn(LoadsOf(phdrs, base, size))
    decreases |phdrs| - i
  {
    hide ExtentOf;
    if i == |phdrs| {
      assert phdrs[..i] == phdrs;
    } else {
      assert forall ph | ph in phdrs[..i + 1] :: ph in phdrs;
      PagesGrow(phdrs, base, size, i + 1);
      LoadsNext(phdrs, base, size, i);
    }
  }

  /** The load of each segment, in the headers' order. Refused when some segment's
    * numbers do not add up, when there are too many pages, and when there is
    * nothing to map. */
  method CollectLoads(phdrs: seq<ProgramHeader>, base: nat, size: nat) returns (r: Result<seq<Load>>)
    requires Aligned(base)
    ensures r.Ok? <==> Accepted(phdrs, base, size) && LoadsOf(phdrs, base, size) != []
                       && PagesIn(LoadsOf(phdrs, base, size)) <= MAX_IMAGE_PAGES
    ensures r.Ok? ==> r.value == LoadsOf(phdrs, base, size) && AllSane(r.value, size)
  {
    hide ExtentOf, Sane, LoadsOf, PageCount, PagesIn;
    var loads: seq<Load> := [];
    var pages := 0;
    NoLoads(base, size);
    assert phdrs[..0] == [];
    for i := 0 to |phdrs|
      invariant Accepted(phdrs[..i], base, size) && loads == LoadsOf(phdrs[..i], base, size) && AllSane(loads, size)
      invariant pages == PagesIn(loads) && pages <= MAX_IMAGE_PAGES
    {
      var ph := phdrs[i];
      assert ph in phdrs && phdrs[..i + 1] == phdrs[..i] + [ph];
      if IsLoad(ph) {
        var extent := ExtentOf(ph, base, size);
        if extent.Err? {
          return Err(extent.errno);
        }
        LoadsNext(phdrs, base, size, i);
        if ph.memsz > 0 {
          pages := pages + PageCount(extent.value);
          if pages > MAX_IMAGE_PAGES {
            if Accepted(phdrs, base, size) {
              PagesGrow(phdrs, base, size, i + 1);
            }
            return Err(Enomem);
          }
          loads := loads + [Load(extent.value, ph.flags)];
        }
      } else {
        LoadsNext(phdrs, base, size, i);
      }
    }
    assert phdrs[..|phdrs|] == phdrs;
    return if loads == [] then Err(Enoexec) else Ok(loads);
  }

  lemma NoLoads(base: nat, size: nat)
    ensures LoadsOf([], base, size) == [] && PagesIn([]) == 0
  {
  }

  // ---- what every page permits ---------------------------------------------

  predicate In(l: Load, page: nat) {
    l.extent.start <= page < l.extent.end
  }

  /** The permissions of every segment the page is in. */
  function FlagsAt(loads: seq<Load>, page: nat): Perms {
    if loads == [] then NOTHING else
    var l := loads[|loads| - 1];
    Or(FlagsAt(loads[..|loads| - 1], page), if In(l, page) then l.flags else NOTHING)
  }

  ghost predicate Covered(loads: seq<Load>, page: nat) {
    Aligned(page) && exists l | l in loads :: In(l, page)
  }

  lemma CoveredNext(before: seq<Load>, l: Load, page: nat)
    ensures Covered(before + [l], page) <==> Covered(before, page) || (Aligned(page) && In(l, page))
    ensures FlagsAt(before + [l], page) == Or(FlagsAt(before, page), if In(l, page) then l.flags else NOTHING)
  {
    assert (before + [l])[..|before|] == before;
    if Covered(before, page) {
      var k :| k in before && In(k, page);
      assert k in before + [l];
    }
  }

  /** The flags of a page once the segments in `before`, and `l` below `at`, have
    * been gone over. */
  ghost predicate FlagsSoFar(flags: map<nat, Perms>, before: seq<Load>, l: Load, at: nat) {
    && (forall page: nat :: page in flags <==> Covered(before, page) || (Aligned(page) && In(l, page) && page < at))
    && forall page | page in flags ::
         flags[page] == Or(FlagsAt(before, page), if In(l, page) && page < at then l.flags else NOTHING)
  }

  lemma {:induction false} NoFlags(loads: seq<Load>, page: nat)
    requires forall l | l in loads :: !In(l, page)
    ensures FlagsAt(loads, page) == NOTHING
  {
    if loads != [] {
      NoFlags(loads[..|loads| - 1], page);
    }
  }

  lemma FlagsStep(flags: map<nat, Perms>, before: seq<Load>, l: Load, page: nat)
    requires FlagsSoFar(flags, before, l, page) && Aligned(page) && In(l, page)
    ensures FlagsSoFar(flags[page := Or(if page in flags then flags[page] else NOTHING, l.flags)], before, l,
                       page + PAGE_BYTES)
  {
    var flags' := flags[page := Or(if page in flags then flags[page] else NOTHING, l.flags)];
    NextPage(page);
    if page !in flags {
      NoFlags(before, page);
    }
    hide Covered, FlagsAt;
  }

  lemma NextPage(page: nat)
    requires Aligned(page)
    ensures Aligned(page + PAGE_BYTES) && forall p: nat | Aligned(p) && page < p :: page + PAGE_BYTES <= p
  {
  }

  lemma FlagsDone(flags: map<nat, Perms>, before: seq<Load>, l: Load, at: nat)
    requires FlagsSoFar(flags, before, l, at) && at >= l.extent.end
    ensures forall page: nat :: page in flags <==> Covered(before + [l], page)
    ensures forall page | page in flags :: flags[page] == FlagsAt(before + [l], page)
  {
    forall page: nat ensures page in flags <==> Covered(before + [l], page) {
      CoveredNext(before, l, page);
    }
    forall page | page in flags ensures flags[page] == FlagsAt(before + [l], page) {
      CoveredNext(before, l, page);
    }
  }

  /** The final protection of every page. */
  method CollectFlags(loads: seq<Load>, size: nat) returns (flags: map<nat, Perms>)
    requires AllSane(loads, size)
    ensures forall page: nat :: page in flags <==> Covered(loads, page)
    ensures forall page | page in flags :: flags[page] == FlagsAt(loads, page)
  {
    hide Sane, Covered, FlagsAt, FlagsSoFar;
    flags := map[];
    NoneCovered();
    assert loads[..0] == [];
    for i := 0 to |loads|
      invariant forall page: nat :: page in flags <==> Covered(loads[..i], page)
      invariant forall page | page in flags :: flags[page] == FlagsAt(loads[..i], page)
    {
      var l := loads[i];
      assert loads[..i + 1] == loads[..i] + [l];
      flags := AddFlags(flags, loads[..i], l, size);
    }
    assert loads[..|loads|] == loads;
  }

  lemma NoneCovered()
    ensures forall page: nat :: !Covered([], page)
  {
  }

  lemma FlagsStart(flags: map<nat, Perms>, before: seq<Load>, l: Load)
    requires forall page: nat :: page in flags <==> Covered(before, page)
    requires forall page | page in flags :: flags[page] == FlagsAt(before, page)
    ensures FlagsSoFar(flags, before, l, l.extent.start)
  {
    hide Covered, FlagsAt;
  }

  method AddFlags(was: map<nat, Perms>, ghost before: seq<Load>, l: Load, ghost size: nat)
    returns (flags: map<nat, Perms>)
    requires Sane(l.extent, size)
    requires forall page: nat :: page in was <==> Covered(before, page)
    requires forall page | page in was :: was[page] == FlagsAt(before, page)
    ensures forall page: nat :: page in flags <==> Covered(before + [l], page)
    ensures forall page | page in flags :: flags[page] == FlagsAt(before + [l], page)
  {
    hide Covered, FlagsAt, FlagsSoFar;
    flags := was;
    var page := l.extent.start;
    FlagsStart(was, before, l);
    while page < l.extent.end
      invariant l.extent.start <= page && Aligned(page) && FlagsSoFar(flags, before, l, page)
      decreases l.extent.end - page
    {
      FlagsStep(flags, before, l, page);
      NextPage(page);
      flags := flags[page := Or(if page in flags then flags[page] else NOTHING, l.flags)];
      page := page + PAGE_BYTES;
    }
    FlagsDone(flags, before, l, page);
  }

  // ---- pages filled by the load itself --------------------------------

  /** A partial head, or anything from where the segment's bytes end. */
  predicate AtEdge(l: Load, page: nat) {
    page == l.extent.start || PageDown(FileEnd(l.extent)) <= page < l.extent.end
  }

  ghost predicate SomeEdge(loads: seq<Load>, page: nat) {
    Aligned(page) && exists l | l in loads :: AtEdge(l, page)
  }

  /** A page two segments are in. */
  ghost predicate Shared(loads: seq<Load>, page: nat) {
    Aligned(page) && exists i, j | 0 <= i < j < |loads| :: In(loads[i], page) && In(loads[j], page)
  }

  /** A page with more than one source, which the loader assembles. */
  ghost predicate Eager(loads: seq<Load>, page: nat) {
    SomeEdge(loads, page) || Shared(loads, page)
  }

  ghost predicate EdgesSoFar(eager: set<nat>, before: seq<Load>, l: Load, at: nat) {
    forall page: nat :: page in eager <==>
      SomeEdge(before, page) || (Aligned(page) && (page == l.extent.start || (AtEdge(l, page) && page < at)))
  }

  lemma EdgeNext(before: seq<Load>, l: Load, page: nat)
    ensures SomeEdge(before + [l], page) <==> SomeEdge(before, page) || (Aligned(page) && AtEdge(l, page))
  {
    if SomeEdge(before, page) {
      var k :| k in before && AtEdge(k, page);
      assert k in before + [l];
    }
  }

  lemma EdgesStep(eager: set<nat>, before: seq<Load>, l: Load, page: nat)
    requires EdgesSoFar(eager, before, l, page) && Aligned(page) && PageDown(FileEnd(l.extent)) <= page < l.extent.end
    ensures EdgesSoFar(eager + {page}, before, l, page + PAGE_BYTES)
  {
    hide SomeEdge, PageDown;
    NextPage(page);
  }

  lemma EdgesDone(eager: set<nat>, before: seq<Load>, l: Load, at: nat)
    requires EdgesSoFar(eager, before, l, at) && at >= l.extent.end && Aligned(l.extent.start)
    ensures forall page: nat :: page in eager <==> SomeEdge(before + [l], page)
  {
    hide PageDown;
    forall page: nat ensures page in eager <==> SomeEdge(before + [l], page) {
      EdgeNext(before, l, page);
    }
  }

  lemma EdgesStart(was: set<nat>, before: seq<Load>, l: Load)
    requires Aligned(l.extent.start) && forall page: nat :: page in was <==> SomeEdge(before, page)
    ensures EdgesSoFar(was + {l.extent.start}, before, l, PageDown(FileEnd(l.extent)))
  {
    hide SomeEdge, PageDown;
  }

  method AddEdges(was: set<nat>, ghost before: seq<Load>, l: Load, ghost size: nat) returns (eager: set<nat>)
    requires Sane(l.extent, size) && forall page: nat :: page in was <==> SomeEdge(before, page)
    ensures forall page: nat :: page in eager <==> SomeEdge(before + [l], page)
  {
    hide SomeEdge, EdgesSoFar, PageDown;
    eager := was + {l.extent.start};
    var page := PageDown(FileEnd(l.extent));
    EdgesStart(was, before, l);
    PageDownIsClose(FileEnd(l.extent));
    while page < l.extent.end
      invariant Aligned(page) && PageDown(FileEnd(l.extent)) <= page && EdgesSoFar(eager, before, l, page)
      decreases l.extent.end - page
    {
      EdgesStep(eager, before, l, page);
      NextPage(page);
      eager := eager + {page};
      page := page + PAGE_BYTES;
    }
    EdgesDone(eager, before, l, page);
  }

  /** The pages seen, each with the last segment it was seen in. */
  ghost predicate SeenSoFar(seen: map<nat, nat>, before: seq<Load>, l: Load, at: nat) {
    && (forall page: nat :: page in seen <==> Covered(before, page) || (Aligned(page) && In(l, page) && page < at))
    && forall page | page in seen :: seen[page] <= |before| && (page >= at ==> seen[page] < |before|)
  }

  ghost predicate SharedSoFar(eager: set<nat>, edges: set<nat>, before: seq<Load>, l: Load, at: nat) {
    forall page: nat :: page in eager <==>
      page in edges || Shared(before, page) || (Covered(before, page) && In(l, page) && page < at)
  }

  lemma SharedNext(before: seq<Load>, l: Load, page: nat)
    ensures Shared(before + [l], page) <==> Shared(before, page) || (Covered(before, page) && In(l, page))
  {
    var all := before + [l];
    if Shared(all, page) {
      var i, j :| 0 <= i < j < |all| && In(all[i], page) && In(all[j], page);
      if j < |before| {
        assert In(before[i], page) && In(before[j], page);
      } else {
        assert before[i] in before;
      }
    }
    if Shared(before, page) {
      var i, j :| 0 <= i < j < |before| && In(before[i], page) && In(before[j], page);
      assert In(all[i], page) && In(all[j], page);
    }
    if Covered(before, page) && In(l, page) {
      var k :| k in before && In(k, page);
      var i :| 0 <= i < |before| && before[i] == k;
      assert In(all[i], page) && In(all[|before|], page);
    }
  }

  lemma SeenStep(seen: map<nat, nat>, eager: set<nat>, edges: set<nat>, before: seq<Load>, l: Load, page: nat)
    requires SeenSoFar(seen, before, l, page) && SharedSoFar(eager, edges, before, l, page) && Aligned(page)
             && In(l, page)
    ensures SeenSoFar(seen[page := |before|], before, l, page + PAGE_BYTES)
    ensures page in seen <==> Covered(before, page)
    ensures SharedSoFar(if page in seen && seen[page] != |before| then eager + {page} else eager, edges, before, l,
                        page + PAGE_BYTES)
  {
    hide Covered, Shared;
    NextPage(page);
    CoveredAligned(before);
  }

  lemma CoveredAligned(loads: seq<Load>)
    ensures forall page: nat | Covered(loads, page) :: Aligned(page)
  {
  }

  lemma SeenDone(seen: map<nat, nat>, eager: set<nat>, edges: set<nat>, before: seq<Load>, l: Load, at: nat)
    requires SeenSoFar(seen, before, l, at) && SharedSoFar(eager, edges, before, l, at) && at >= l.extent.end
    ensures forall page: nat :: page in seen <==> Covered(before + [l], page)
    ensures forall page | page in seen :: seen[page] < |before| + 1
    ensures forall page: nat :: page in eager <==> page in edges || Shared(before + [l], page)
  {
    forall page: nat ensures page in seen <==> Covered(before + [l], page) {
      CoveredNext(before, l, page);
    }
    forall page: nat ensures page in eager <==> page in edges || Shared(before + [l], page) {
      SharedNext(before, l, page);
    }
  }

  lemma SeenStart(seen: map<nat, nat>, eager: set<nat>, edges: set<nat>, before: seq<Load>, l: Load)
    requires forall page: nat :: page in seen <==> Covered(before, page)
    requires forall page | page in seen :: seen[page] < |before|
    requires forall page: nat :: page in eager <==> page in edges || Shared(before, page)
    ensures SeenSoFar(seen, before, l, l.extent.start) && SharedSoFar(eager, edges, before, l, l.extent.start)
  {
    hide Covered, Shared;
  }

  method AddShared(was: set<nat>, seenBefore: map<nat, nat>, ghost edges: set<nat>, index: nat, ghost before: seq<Load>,
                   l: Load, ghost size: nat)
    returns (eager: set<nat>, seen: map<nat, nat>)
    requires Sane(l.extent, size) && index == |before|
    requires forall page: nat :: page in seenBefore <==> Covered(before, page)
    requires forall page | page in seenBefore :: seenBefore[page] < |before|
    requires forall page: nat :: page in was <==> page in edges || Shared(before, page)
    ensures forall page: nat :: page in seen <==> Covered(before + [l], page)
    ensures forall page | page in seen :: seen[page] < |before| + 1
    ensures forall page: nat :: page in eager <==> page in edges || Shared(before + [l], page)
  {
    hide Covered, Shared, SeenSoFar, SharedSoFar;
    eager, seen := was, seenBefore;
    var page := l.extent.start;
    SeenStart(seen, eager, edges, before, l);
    while page < l.extent.end
      invariant l.extent.start <= page && Aligned(page)
      invariant SeenSoFar(seen, before, l, page) && SharedSoFar(eager, edges, before, l, page)
      decreases l.extent.end - page
    {
      SeenStep(seen, eager, edges, before, l, page);
      NextPage(page);
      if page in seen && seen[page] != index {
        eager := eager + {page};
      }
      seen := seen[page := index];
      page := page + PAGE_BYTES;
    }
    SeenDone(seen, eager, edges, before, l, page);
  }

  /** The pages the loader has to assemble. */
  method EagerPages(loads: seq<Load>, size: nat) returns (eager: set<nat>)
    requires AllSane(loads, size)
    ensures forall page: nat :: page in eager <==> Eager(loads, page)
  {
    hide Sane, SomeEdge, Shared, Covered;
    eager := {};
    NoneEager();
    assert loads[..0] == [] && loads[..|loads|] == loads;
    for i := 0 to |loads|
      invariant forall page: nat :: page in eager <==> SomeEdge(loads[..i], page)
    {
      assert loads[..i + 1] == loads[..i] + [loads[i]];
      eager := AddEdges(eager, loads[..i], loads[i], size);
    }
    ghost var edges := eager;
    var seen: map<nat, nat> := map[];
    for i := 0 to |loads|
      invariant forall page: nat :: page in seen <==> Covered(loads[..i], page)
      invariant forall page | page in seen :: seen[page] < i
      invariant forall page: nat :: page in eager <==> page in edges || Shared(loads[..i], page)
    {
      assert loads[..i + 1] == loads[..i] + [loads[i]];
      eager, seen := AddShared(eager, seen, edges, i, loads[..i], loads[i], size);
    }
  }

  lemma NoneEager()
    ensures forall page: nat :: !SomeEdge([], page) && !Shared([], page) && !Covered([], page)
  {
  }

  // ---- the bytes -----------------------------------------------------------

  type FileBytes = seq<Byte>

  function FileByte(file: FileBytes, at: int): Byte {
    if 0 <= at < |file| then file[at] else 0
  }

  predicate HasByte(e: Extent, a: nat) {
    e.vaddr <= a < FileEnd(e)
  }

  /** What the program headers say is at `a`: the file's byte by the last segment
    * whose bytes cover it, and zero where none does. */
  function ImageByte(loads: seq<Load>, file: FileBytes, a: nat): Byte {
    if loads == [] then 0 else
    var e := loads[|loads| - 1].extent;
    if HasByte(e, a) then FileByte(file, e.fileOffset + a - e.vaddr) else ImageByte(loads[..|loads| - 1], file, a)
  }

  /** The page holds what the headers say is there. */
  ghost predicate IsImage(row: seq<Byte>, loads: seq<Load>, file: FileBytes, page: nat) {
    |row| == PAGE_BYTES && forall i: nat | i < PAGE_BYTES :: row[i] == ImageByte(loads, file, page + i)
  }

  /** Pages being assembled: each whole, and each byte what the segments copied so
    * far and `l` up to `offset` make it. */
  ghost predicate Assembled(made: map<nat, seq<Byte>>, before: seq<Load>, l: Load, file: FileBytes, offset: nat) {
    forall page | page in made :: Aligned(page) && |made[page]| == PAGE_BYTES
      && RowMade(made[page], page, before, l, file, offset)
  }

  ghost predicate RowMade(row: seq<Byte>, page: nat, before: seq<Load>, l: Load, file: FileBytes, offset: nat) {
    forall i: nat | i < |row| :: row[i] == ByteMade(before, l, file, offset, page + i)
  }

  function ByteMade(before: seq<Load>, l: Load, file: FileBytes, offset: nat, a: nat): Byte {
    var e := l.extent;
    if e.vaddr <= a < e.vaddr + offset then FileByte(file, e.fileOffset + a - e.vaddr) else ImageByte(before, file, a)
  }

  /** The row once `chunk` bytes of the file have been copied in at `at`. */
  function Patched(row: seq<Byte>, at: nat, file: FileBytes, src: nat, chunk: nat): seq<Byte>
    requires at + chunk <= |row| && src + chunk <= |file|
  {
    row[..at] + file[src..src + chunk] + row[at + chunk..]
  }

  lemma RowPatched(row: seq<Byte>, page: nat, before: seq<Load>, l: Load, file: FileBytes, offset: nat, at: nat,
                   chunk: nat)
    requires RowMade(row, page, before, l, file, offset) && |row| == PAGE_BYTES && at + chunk <= PAGE_BYTES
    requires page + at == l.extent.vaddr + offset && l.extent.fileOffset + offset + chunk <= |file|
    ensures |Patched(row, at, file, l.extent.fileOffset + offset, chunk)| == PAGE_BYTES
    ensures RowMade(Patched(row, at, file, l.extent.fileOffset + offset, chunk), page, before, l, file, offset + chunk)
  {
    hide ImageByte;
  }

  lemma RowElsewhere(row: seq<Byte>, page: nat, before: seq<Load>, l: Load, file: FileBytes, offset: nat, chunk: nat)
    requires RowMade(row, page, before, l, file, offset) && |row| == PAGE_BYTES && Aligned(page)
    requires var address := l.extent.vaddr + offset;
             PageDown(address) != page && address + chunk <= PageDown(address) + PAGE_BYTES
    ensures RowMade(row, page, before, l, file, offset + chunk)
  {
    hide ImageByte, PageDown;
    var address := l.extent.vaddr + offset;
    PageDownIsClose(address);
    if page < PageDown(address) {
      NextPage(page);
    } else {
      NextPage(PageDown(address));
    }
  }

  lemma AssembledStep(made: map<nat, seq<Byte>>, before: seq<Load>, l: Load, file: FileBytes, offset: nat, chunk: nat)
    requires Assembled(made, before, l, file, offset) && l.extent.fileOffset + offset + chunk <= |file|
    requires var address := l.extent.vaddr + offset; address + chunk <= PageDown(address) + PAGE_BYTES
    ensures var page := PageDown(l.extent.vaddr + offset);
            var at := l.extent.vaddr + offset - page;
            && at >= 0
            && (page in made ==>
                  && at + chunk <= |made[page]|
                  && Assembled(made[page := Patched(made[page], at, file, l.extent.fileOffset + offset, chunk)], before,
                               l, file, offset + chunk))
            && (page !in made ==> Assembled(made, before, l, file, offset + chunk))
  {
    hide RowMade, PageDown, Patched;
    PageDownIsClose(l.extent.vaddr + offset);
    var page := PageDown(l.extent.vaddr + offset);
    forall p | p in made && p != page ensures RowMade(made[p], p, before, l, file, offset + chunk) {
      RowElsewhere(made[p], p, before, l, file, offset, chunk);
    }
    if page in made {
      RowPatched(made[page], page, before, l, file, offset, l.extent.vaddr + offset - page, chunk);
    }
  }

  /** Copy what of a segment lands in the pages being assembled. */
  method CopySegment(was: map<nat, seq<Byte>>, ghost before: seq<Load>, l: Load, file: FileBytes)
    returns (made: map<nat, seq<Byte>>)
    requires Sane(l.extent, |file|) && Assembled(was, before, l, file, 0)
    ensures made.Keys == was.Keys && Assembled(made, before, l, file, l.extent.fileLen)
  {
    hide Assembled, PageDown, Patched;
    made := was;
    var e := l.extent;
    var offset := 0;
    while offset < e.fileLen
      invariant offset <= e.fileLen && made.Keys == was.Keys && Assembled(made, before, l, file, offset)
    {
      var address := e.vaddr + offset;
      var page := PageDown(address);
      PageDownIsClose(address);
      var chunk := if page + PAGE_BYTES - address < e.fileLen - offset then page + PAGE_BYTES - address
        else e.fileLen - offset;
      AssembledStep(made, before, l, file, offset, chunk);
      if page in made {
        made := made[page := Patched(made[page], address - page, file, e.fileOffset + offset, chunk)];
      }
      offset := offset + chunk;
    }
  }

  lemma AssembledNext(made: map<nat, seq<Byte>>, before: seq<Load>, l: Load, l': Load, file: FileBytes)
    requires Assembled(made, before, l, file, l.extent.fileLen)
    ensures Assembled(made, before + [l], l', file, 0)
  {
    forall page, i: nat | page in made && i < |made[page]|
      ensures made[page][i] == ByteMade(before + [l], l', file, 0, page + i) {
      ImageNext(before, l, file, page + i);
    }
  }

  lemma ImageNext(before: seq<Load>, l: Load, file: FileBytes, a: nat)
    ensures ImageByte(before + [l], file, a) == ByteMade(before, l, file, l.extent.fileLen, a)
  {
    assert (before + [l])[..|before|] == before;
  }

  /** Fill the pages the loader assembles. A frame starts zero, and each segment
    * is copied over what the ones before it left. */
  method Assemble(loads: seq<Load>, file: FileBytes, eager: set<nat>) returns (made: map<nat, seq<Byte>>)
    requires AllSane(loads, |file|) && loads != [] && forall page | page in eager :: Aligned(page)
    ensures made.Keys == eager && forall page | page in made :: IsImage(made[page], loads, file, page)
  {
    hide Sane, Assembled;
    made := map page | page in eager :: seq(PAGE_BYTES, _ => 0);
    assert loads[..0] == [];
    AssembledStart(made, loads[0], file);
    for k := 0 to |loads|
      invariant made.Keys == eager && Assembled(made, loads[..k], loads[if k < |loads| then k else 0], file, 0)
    {
      assert loads[..k + 1] == loads[..k] + [loads[k]];
      made := CopySegment(made, loads[..k], loads[k], file);
      AssembledNext(made, loads[..k], loads[k], loads[if k + 1 < |loads| then k + 1 else 0], file);
    }
    assert loads[..|loads|] == loads;
    AssembledEnd(made, loads, loads[0], file);
  }

  lemma AssembledStart(made: map<nat, seq<Byte>>, l: Load, file: FileBytes)
    requires forall page | page in made :: Aligned(page) && made[page] == seq(PAGE_BYTES, _ => 0)
    ensures Assembled(made, [], l, file, 0)
  {
  }

  lemma AssembledEnd(made: map<nat, seq<Byte>>, loads: seq<Load>, l: Load, file: FileBytes)
    requires Assembled(made, loads, l, file, 0)
    ensures forall page | page in made :: IsImage(made[page], loads, file, page)
  {
  }

  // ---- pages left to a fault -----------------------------------------------

  function ProtOf(flags: Perms): bv64 {
    (if flags.read then PROT_READ else 0) | (if flags.write then PROT_WRITE else 0) | (if flags.exec then PROT_EXEC
        else 0)
  }

  /** The region a segment is recorded as, described from its page-aligned start. */
  function RegionOf(l: Load, node: nat): Vma
    requires IntoPage(l.extent) <= l.extent.fileOffset && l.extent.start <= l.extent.vaddr
  {
    var e := l.extent;
    Vma(e.start, e.end, ProtOf(l.flags), 0, Some(FileMap(node, e.fileOffset - IntoPage(e), e.fileLen + IntoPage(e))))
  }

  ghost function RegionsOf(loads: seq<Load>, node: nat, size: nat): seq<Vma>
    requires AllSane(loads, size)
  {
    seq(|loads|, i requires 0 <= i < |loads| => assert loads[i] in loads; RegionOf(loads[i], node))
  }

  /** What a fault leaves in the page it fills. */
  function Filled(source: Source, file: FileBytes): (row: seq<Byte>)
    ensures |row| == PAGE_BYTES
  {
    match source
    case Zero => seq(PAGE_BYTES, _ => 0)
    case File(_, offset, want) => seq(PAGE_BYTES, i => if i < want then FileByte(file, offset + i) else 0)
  }

  /** The bits a page's flags come to, by the loader and by a fault. */
  function BitsOf(flags: Perms): PageFlags {
    PageFlags(flags.write, flags.exec)
  }

  lemma ProtKeeps(flags: Perms)
    ensures ProtOf(flags) & PROT_WRITE != 0 <==> flags.write
    ensures ProtOf(flags) & PROT_EXEC != 0 <==> flags.exec
  {
  }

  lemma {:induction false} FindOnly(vmas: seq<Vma>, k: nat, page: nat)
    requires k < |vmas| && Contains(vmas[k], page) && forall i | 0 <= i < |vmas| && i != k :: !Contains(vmas[i], page)
    ensures FindVma(vmas, page) == Some(vmas[k])
  {
    if k > 0 {
      assert forall i | 0 <= i < |vmas[1..]| && i != k - 1 :: !Contains(vmas[1..][i], page);
      FindOnly(vmas[1..], k - 1, page);
    }
  }

  /** A page left to a fault lies whole inside one segment's bytes. */
  lemma LazyIsInside(loads: seq<Load>, size: nat, k: nat, page: nat)
    requires AllSane(loads, size) && k < |loads| && Aligned(page) && In(loads[k], page) && !Eager(loads, page)
    ensures loads[k].extent.vaddr <= page && page + PAGE_BYTES <= FileEnd(loads[k].extent)
    ensures forall i | 0 <= i < |loads| && i != k :: !In(loads[i], page)
  {
    var e := loads[k].extent;
    assert loads[k] in loads && !AtEdge(loads[k], page);
    NextPage(e.start);
    PageDownIsClose(FileEnd(e));
    NextPage(page);
    assert !Shared(loads, page);
  }

  lemma {:induction false} OnlySegment(loads: seq<Load>, size: nat, file: FileBytes, k: nat, page: nat, a: nat)
    requires AllSane(loads, size) && k < |loads| && page <= a < page + PAGE_BYTES && Aligned(page)
    requires HasByte(loads[k].extent, a) && forall i | 0 <= i < |loads| && i != k :: !In(loads[i], page)
    ensures ImageByte(loads, file, a) == FileByte(file, loads[k].extent.fileOffset + a - loads[k].extent.vaddr)
  {
    var last := |loads| - 1;
    if k != last {
      assert !HasByte(loads[last].extent, a) by {
        assert loads[last] in loads && !In(loads[last], page);
        OutsideHasNone(loads[last].extent, size, page, a);
      }
      var rest := loads[..last];
      assert forall l | l in rest :: l in loads;
      OnlySegment(rest, size, file, k, page, a);
    }
  }

  lemma OutsideHasNone(e: Extent, size: nat, page: nat, a: nat)
    requires Sane(e, size) && Aligned(page) && page <= a < page + PAGE_BYTES && !(e.start <= page < e.end)
    ensures !HasByte(e, a)
  {
    if page < e.start {
      NextPage(page);
    }
  }

  lemma {:induction false} OnlyFlags(loads: seq<Load>, k: nat, page: nat)
    requires k < |loads| && In(loads[k], page) && forall i | 0 <= i < |loads| && i != k :: !In(loads[i], page)
    ensures FlagsAt(loads, page) == loads[k].flags
  {
    var last := |loads| - 1;
    if k == last {
      NoFlags(loads[..last], page);
    } else {
      OnlyFlags(loads[..last], k, page);
    }
  }

  lemma LazyPlan(loads: seq<Load>, size: nat, node: nat, k: nat, page: nat)
    requires AllSane(loads, size) && k < |loads| && Aligned(page) && In(loads[k], page)
    requires loads[k].extent.vaddr <= page && page + PAGE_BYTES <= FileEnd(loads[k].extent)
    requires forall i | 0 <= i < |loads| && i != k :: !In(loads[i], page)
    ensures PlanIn(RegionsOf(loads, node, size), page)
         == Some(Plan(BitsOf(FlagsAt(loads, page)),
                      File(node, loads[k].extent.fileOffset + page - loads[k].extent.vaddr, PAGE_BYTES)))
  {
    hide FlagsAt, ProtOf, VmaPlan, Sane;
    var regions := RegionsOf(loads, node, size);
    assert loads[k] in loads;
    InOneRegion(loads, size, node, k, page);
    OnlyFlags(loads, k, page);
    RegionPlan(loads[k], node, size, page);
  }

  lemma InOneRegion(loads: seq<Load>, size: nat, node: nat, k: nat, page: nat)
    requires AllSane(loads, size) && k < |loads| && In(loads[k], page)
             && forall i | 0 <= i < |loads| && i != k :: !In(loads[i], page)
    ensures loads[k] in loads && FindVma(RegionsOf(loads, node, size), page) == Some(RegionOf(loads[k], node))
  {
    var regions := RegionsOf(loads, node, size);
    hide ProtOf;
    forall i | 0 <= i < |loads| ensures Contains(regions[i], page) <==> In(loads[i], page) {
      assert loads[i] in loads && regions[i] == RegionOf(loads[i], node);
    }
    FindOnly(regions, k, page);
  }

  /** A page left to a fault: the record names it, with the permissions the loader
    * would have given it, and what the fault fills it with is what the headers
    * say. */
  lemma LazyPageIsImage(loads: seq<Load>, file: FileBytes, node: nat, page: nat)
    requires AllSane(loads, |file|) && Covered(loads, page) && !Eager(loads, page)
    ensures var plan := PlanIn(RegionsOf(loads, node, |file|), page);
            plan.Some? && plan.value.flags == BitsOf(FlagsAt(loads, page))
              && IsImage(Filled(plan.value.source, file), loads, file, page)
  {
    hide Eager, ImageByte, FlagsAt, Sane, PlanIn, RegionsOf;
    var l :| l in loads && In(l, page);
    var k :| 0 <= k < |loads| && loads[k] == l;
    LazyIsInside(loads, |file|, k, page);
    LazyPlan(loads, |file|, node, k, page);
    var source := PlanIn(RegionsOf(loads, node, |file|), page).value.source;
    forall i: nat | i < PAGE_BYTES ensures Filled(source, file)[i] == ImageByte(loads, file, page + i) {
      OnlySegment(loads, |file|, file, k, page, page + i);
    }
  }

  lemma RegionPlan(l: Load, node: nat, size: nat, page: nat)
    requires Sane(l.extent, size) && In(l, page) && l.extent.vaddr <= page && page + PAGE_BYTES <= FileEnd(l.extent)
    ensures VmaPlan(RegionOf(l, node), page)
            == Plan(BitsOf(l.flags), File(node, l.extent.fileOffset + page - l.extent.vaddr, PAGE_BYTES))
  {
    hide ProtOf;
    ProtKeeps(l.flags);
  }

  // ---- the whole load ------------------------------------------------------

  datatype Page = Page(bytes: seq<Byte>, flags: PageFlags)

  /** Whichever way it comes, the page has the bytes and the permissions the
    * headers describe. */
  ghost predicate Seen(pages: map<nat, Page>, loads: seq<Load>, file: FileBytes, node: nat, page: nat)
    requires AllSane(loads, |file|)
  {
    if page in pages then
      pages[page].flags == BitsOf(FlagsAt(loads, page)) && IsImage(pages[page].bytes, loads, file, page)
    else
      var plan := PlanIn(RegionsOf(loads, node, |file|), page);
      plan.Some? && plan.value.flags == BitsOf(FlagsAt(loads, page))
        && IsImage(Filled(plan.value.source, file), loads, file, page)
  }

  /** Map the segments of a program whose file does not change meanwhile. */
  method LoadAt(phdrs: seq<ProgramHeader>, base: nat, file: FileBytes, ghost node: nat)
    returns (r: Result<(map<nat, Page>, seq<Load>)>)
    requires Aligned(base)
    ensures r.Ok? <==> Accepted(phdrs, base, |file|) && LoadsOf(phdrs, base, |file|) != []
                       && PagesIn(LoadsOf(phdrs, base, |file|)) <= MAX_IMAGE_PAGES
    ensures r.Ok? ==> r.value.1 == LoadsOf(phdrs, base, |file|) && AllSane(r.value.1, |file|)
    ensures r.Ok? ==> forall page: nat | Covered(r.value.1, page) :: Seen(r.value.0, r.value.1, file, node, page)
  {
    hide Sane, Covered, Eager, FlagsAt, IsImage, PlanIn, RegionsOf, LoadsOf, PagesIn, Accepted;
    var collected := CollectLoads(phdrs, base, |file|);
    if collected.Err? {
      return Err(collected.errno);
    }
    var loads := collected.value;
    var flags := CollectFlags(loads, |file|);
    var eager := EagerPages(loads, |file|);
    EagerAligned(loads);
    var made := Assemble(loads, file, eager);
    var pages := map page | page in flags && page in made :: Page(made[page], BitsOf(flags[page]));
    forall page: nat | Covered(loads, page) ensures Seen(pages, loads, file, node, page) {
      if page !in pages {
        LazyPageIsImage(loads, file, node, page);
      }
    }
    return Ok((pages, loads));
  }

  lemma EagerAligned(loads: seq<Load>)
    ensures forall page: nat | Eager(loads, page) :: Aligned(page)
  {
  }
}
