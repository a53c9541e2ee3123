/** `MemState`: an ordered list of regions and a break, and the plan they give for
  * the page at an address.
  */
module Regions {
  import opened Machines
  import opened Pages

  const PROT_WRITE: bv64 := 2
  const PROT_EXEC: bv64 := 4

  /** The page's flags, in the terms the record is kept in. */
  datatype PageFlags = PageFlags(write: bool, exec: bool)

  /** Where in a file a region's contents are. */
  datatype FileMap = FileMap(node: nat, offset: nat, length: nat)

  datatype Vma = Vma(start: nat, end: nat, prot: bv64, flags: bv64, file: Option<FileMap>)

  predicate Contains(v: Vma, addr: nat) {
    v.start <= addr < v.end
  }

  function FlagsOf(v: Vma): PageFlags {
    PageFlags(v.prot & PROT_WRITE != 0, v.prot & PROT_EXEC != 0)
  }

  /** The first region that covers `addr`. */
  function FindVma(vmas: seq<Vma>, addr: nat): (r: Option<Vma>)
    ensures r.Some? ==> exists i | 0 <= i < |vmas| ::
            vmas[i] == r.value && Contains(vmas[i], addr) && forall j | 0 <= j < i :: !Contains(vmas[j], addr)
    ensures r.None? ==> forall v | v in vmas :: !Contains(v, addr)
  {
    if vmas == [] then None
    else if Contains(vmas[0], addr) then assert vmas[0] == Some(vmas[0]).value; Some(vmas[0])
    else
      var r := FindVma(vmas[1..], addr);
      assert forall i | 0 <= i < |vmas[1..]| :: vmas[1..][i] == vmas[i + 1];
      r
  }

  // ---- what a fault puts at a page -----------------------------------------

  datatype Source = Zero | File(node: nat, offset: nat, want: nat)

  datatype Plan = Plan(flags: PageFlags, source: Source)

  function VmaPlan(v: Vma, page: nat): Plan
    requires Contains(v, page)
  {
    Plan(FlagsOf(v),
         match v.file
         case None => Zero
         case Some(file) =>
           var into := page - v.start;
           if into >= file.length then Zero
           else File(file.node, file.offset + into, if file.length - into < PAGE_BYTES then file.length - into
                     else PAGE_BYTES))
  }

  /** The plan the first of these regions to cover `page` gives it. */
  function PlanIn(vmas: seq<Vma>, page: nat): Option<Plan> {
    match FindVma(vmas, page)
    case None => None
    case Some(v) => Some(VmaPlan(v, page))
  }

  datatype Record = Record(vmas: seq<Vma>, brkStart: nat, brk: nat)

  predicate InHeap(r: Record, page: nat) {
    r.brkStart <= page < r.brk
  }

  function PlanAt(r: Record, page: nat): Option<Plan> {
    if InHeap(r, page) then Some(Plan(PageFlags(true, false), Zero)) else PlanIn(r.vmas, page)
  }

  // ---- taking a range out --------------------------------------------------

  /** What is left of a region once `[start, end)` is gone from it. */
  function Pieces(v: Vma, start: nat, end: nat): seq<Vma> {
    if v.end <= start || v.start >= end then [v] else
    (if v.start < start then [Head(v, start)] else []) + (if v.end > end then [Tail(v, end)] else [])
  }

  function Head(v: Vma, start: nat): Vma
    requires v.start < start
  {
    v.(end := start,
       file := match v.file
               case None => None
               case Some(f) => Some(f.(length := if f.length < start - v.start then f.length else start - v.start)))
  }

  /** The file's offset moves on by what was skipped, and its length shrinks by it. */
  function Tail(v: Vma, end: nat): Vma
    requires v.start < end
  {
    v.(start := end,
       file := match v.file
               case None => None
               case Some(f) =>
                 var skipped := end - v.start;
                 Some(f.(offset := f.offset + skipped, length := if f.length < skipped then 0 else f.length - skipped)))
  }

  function Removed(vmas: seq<Vma>, start: nat, end: nat): seq<Vma> {
    if vmas == [] then [] else Pieces(vmas[0], start, end) + Removed(vmas[1..], start, end)
  }

  predicate Aligned(addr: nat) {
    addr % PAGE_BYTES == 0
  }

  lemma {:induction false} FindJoin(a: seq<Vma>, b: seq<Vma>, page: nat)
    ensures FindVma(a + b, page) == if FindVma(a, page).Some? then FindVma(a, page) else FindVma(b, page)
  {
    if a == [] {
      assert a + b == b;
    } else {
      assert (a + b)[1..] == a[1..] + b;
      FindJoin(a[1..], b, page);
    }
  }

  lemma HeadPlan(v: Vma, start: nat, page: nat)
    requires Aligned(start) && Aligned(page) && Contains(v, page) && page < start
    ensures Contains(Head(v, start), page) && VmaPlan(Head(v, start), page) == VmaPlan(v, page)
  {
    assert start - page >= PAGE_BYTES by {
      assert PAGE_BYTES * (page / PAGE_BYTES) == page && PAGE_BYTES * (start / PAGE_BYTES) == start;
    }
  }

  lemma TailPlan(v: Vma, end: nat, page: nat)
    requires v.start < end <= page && Contains(v, page)
    ensures Contains(Tail(v, end), page) && VmaPlan(Tail(v, end), page) == VmaPlan(v, page)
  {
  }

  /** A cut at a page boundary leaves the plan of the pages it leaves. */
  lemma PiecesKeepPlan(v: Vma, start: nat, end: nat, page: nat)
    requires Aligned(start) && Aligned(end) && Aligned(page) && !(start <= page < end)
    ensures PlanIn(Pieces(v, start, end), page) == PlanIn([v], page)
  {
    hide VmaPlan, Aligned;
    FindOne(v, page);
    if v.end > start && v.start < end {
      var heads := if v.start < start then [Head(v, start)] else [];
      var tails := if v.end > end then [Tail(v, end)] else [];
      FindJoin(heads, tails, page);
      if Contains(v, page) {
        if page < start {
          HeadPlan(v, start, page);
        } else {
          TailPlan(v, end, page);
        }
      }
    }
  }

  /** Every page outside the range keeps its flags, its file, its offset and its
    * byte count, even where regions overlap. */
  lemma {:induction false} RemovedKeepsPlan(vmas: seq<Vma>, start: nat, end: nat, page: nat)
    requires Aligned(start) && Aligned(end) && Aligned(page) && !(start <= page < end)
    ensures PlanIn(Removed(vmas, start, end), page) == PlanIn(vmas, page)
  {
    if vmas != [] {
      PiecesKeepPlan(vmas[0], start, end, page);
      FindJoin(Pieces(vmas[0], start, end), Removed(vmas[1..], start, end), page);
      RemovedKeepsPlan(vmas[1..], start, end, page);
      FindOne(vmas[0], page);
    }
  }

  lemma FindOne(v: Vma, page: nat)
    ensures FindVma([v], page) == if Contains(v, page) then Some(v) else None
  {
    assert [v][1..] == [];
  }

  /** No region covers any address inside it. */
  lemma {:induction false} RemovedCoversNothing(vmas: seq<Vma>, start: nat, end: nat, addr: nat)
    requires start <= addr < end
    ensures forall v | v in Removed(vmas, start, end) :: !Contains(v, addr)
  {
    if vmas != [] {
      RemovedCoversNothing(vmas[1..], start, end, addr);
    }
  }

  lemma {:induction false} RemovedJoin(a: seq<Vma>, b: seq<Vma>, start: nat, end: nat)
    ensures Removed(a + b, start, end) == Removed(a, start, end) + Removed(b, start, end)
  {
    if a == [] {
      assert a + b == b;
    } else {
      assert (a + b)[1..] == a[1..] + b;
      RemovedJoin(a[1..], b, start, end);
    }
  }

  lemma RemovedOne(v: Vma, start: nat, end: nat)
    ensures Removed([v], start, end) == Pieces(v, start, end)
  {
    assert [v][1..] == [];
  }

  // ---- finding room --------------------------------------------------------

  predicate Meets(v: Vma, start: nat, end: nat) {
    v.start < end && start < v.end
  }

  function PageUp(len: nat): nat {
    (len + PAGE_BYTES - 1) / PAGE_BYTES * PAGE_BYTES
  }

  /** Regions that end past `at`. */
  ghost function Past(vmas: seq<Vma>, at: nat): set<nat> {
    set i | 0 <= i < |vmas| && vmas[i].end > at
  }

  datatype Span = Span(at: nat, size: nat)

  function SpanEnd(s: Span): nat {
    s.at + s.size
  }

  predicate Covers(s: Span, a: nat) {
    s.at <= a < SpanEnd(s)
  }

  class MemState {
    var vmas: seq<Vma>
    var brkStart: nat
    var brk: nat
    var mmapTop: nat
    /** Every span a search has answered with. */
    ghost var answers: seq<Span>

    /** Every answer ends at or below where the next search starts, and no two
      * overlap. */
    ghost predicate Valid()
      reads this
    {
      && (forall i | 0 <= i < |answers| :: SpanEnd(answers[i]) <= mmapTop)
      && (forall i, j | 0 <= i < j < |answers| :: SpanEnd(answers[i]) <= answers[j].at)
    }

    /** Each region is replaced by its pieces outside `[start, end)`, in order. */
    method RemoveVmaRange(start: nat, end: nat)
      modifies this`vmas
      ensures vmas == Removed(old(vmas), start, end)
    {
      var out: seq<Vma> := [];
      for i := 0 to |vmas|
        invariant vmas == old(vmas) && out == Removed(vmas[..i], start, end)
      {
        var vma := vmas[i];
        assert vmas[..i + 1] == vmas[..i] + [vma];
        RemovedJoin(vmas[..i], [vma], start, end);
        RemovedOne(vma, start, end);
        if vma.end <= start || vma.start >= end {
          out := out + [vma];
          continue;
        }
        if vma.start < start {
          out := out + [Head(vma, start)];
        }
        if vma.end > end {
          out := out + [Tail(vma, end)];
        }
      }
      assert vmas[..|vmas|] == vmas;
      vmas := out;
    }

    /** The end of the first region that `[start, end)` meets. */
    method Clash(start: nat, end: nat) returns (r: Option<nat>)
      ensures r.None? ==> forall v | v in vmas :: !Meets(v, start, end)
      ensures r.Some? ==> exists v | v in vmas :: Meets(v, start, end) && v.end == r.value
    {
      for i := 0 to |vmas|
        invariant forall j | 0 <= j < i :: !Meets(vmas[j], start, end)
      {
        if Meets(vmas[i], start, end) {
          return Some(vmas[i].end);
        }
      }
      return None;
    }

    /** A span that meets no region and starts past every earlier answer. */
    method FindFreeRegion(len: nat) returns (at: nat)
      requires Valid()
      modifies this`mmapTop, this`answers
      ensures Valid() && answers == old(answers) + [Span(at, PageUp(len))]
      ensures old(mmapTop) <= at && mmapTop == at + PageUp(len) && PageUp(len) >= len
      ensures forall v | v in vmas :: !Meets(v, at, at + PageUp(len))
    {
      var size := PageUp(len);
      at := mmapTop;
      while true
        invariant old(mmapTop) <= at && mmapTop == old(mmapTop) && answers == old(answers)
        decreases Past(vmas, at)
      {
        var end := at + size;
        var clash := Clash(at, end);
        if clash.None? {
          mmapTop, answers := end, answers + [Span(at, size)];
          return;
        }
        PastShrinks(vmas, at, end, clash.value);
        at := clash.value;
      }
    }
  }

  lemma PastShrinks(vmas: seq<Vma>, at: nat, end: nat, next: nat)
    requires exists v | v in vmas :: Meets(v, at, end) && v.end == next
    ensures at < next && Past(vmas, next) < Past(vmas, at)
  {
    var v :| v in vmas && Meets(v, at, end) && v.end == next;
    var i :| 0 <= i < |vmas| && vmas[i] == v;
    assert i in Past(vmas, at) && i !in Past(vmas, next);
  }

  /** No two answers share a byte, whatever happened to the regions in between. */
  lemma AnswersAreApart(mem: MemState, i: nat, j: nat, a: nat)
    requires mem.Valid() && i < |mem.answers| && j < |mem.answers| && i != j
    ensures !(Covers(mem.answers[i], a) && Covers(mem.answers[j], a))
  {
    if i < j {
      assert SpanEnd(mem.answers[i]) <= mem.answers[j].at;
    } else {
      assert SpanEnd(mem.answers[j]) <= mem.answers[i].at;
    }
  }
}
