/** Every frame the allocator ever hands out, over any sequence of calls by anybody who
  * frees and shares only what they hold, from the allocator the boot built.
  */
module Pool {
  import opened Machines
  import opened Frames
  import opened Boot

  /** The allocator's bitmap and counts, and the references its callers hold. */
  datatype State = State(bitmap: seq<BitWord>, counts: seq<nat>, out: multiset<nat>)

  /** A call, with what it was given and what it answered. */
  datatype Call =
    | Allocated(r: Option<nat>)
    | AllocatedRun(count: nat, first: Option<nat>)
    | Shared(phys: nat)
    | Freed(phys: nat)

  function Frame(phys: nat): nat {
    phys / PAGE
  }

  predicate InRun(first: nat, count: nat, f: nat) {
    first <= f < first + count
  }

  /** The frames of a run. */
  ghost function RunOf(first: nat, count: nat): set<nat> {
    set f: nat | f < first + count && InRun(first, count, f)
  }

  /** The frames the call gave its caller. */
  ghost function Handed(call: Call): set<nat> {
    match call
    case Allocated(r) => if r.Some? then {Frame(r.value)} else {}
    case AllocatedRun(count, first) => if first.Some? then RunOf(Frame(first.value), count) else {}
    case _ => {}
  }

  /** What the call did, as the methods of the allocator are proved to. */
  ghost predicate Does(frames: nat, s: State, call: Call, s': State) {
    match call
    case Allocated(r) => AllocSays(s.bitmap, s.counts, s'.bitmap, s'.counts, frames, r)
      && s'.out == s.out + multiset(Handed(call))
    case AllocatedRun(count, first) =>
      RunSays(s.bitmap, s.counts, s'.bitmap, s'.counts, frames, count, first)
        && s'.out == s.out + multiset(Handed(call))
    case Shared(phys) =>
      && Frame(phys) in s.out && s'.bitmap == s.bitmap && ShareSays(s.bitmap, s.counts, s'.counts, frames, Frame(phys))
      && s'.out == s.out + multiset{Frame(phys)}
    case Freed(phys) =>
      && Frame(phys) in s.out && FreeSays(s.bitmap, s.counts, s'.bitmap, s'.counts, frames, Frame(phys))
      && s'.out == s.out - multiset{Frame(phys)}
  }

  ghost predicate Run(frames: nat, states: seq<State>, calls: seq<Call>) {
    |states| == |calls| + 1 && forall i | 0 <= i < |calls| :: Does(frames, states[i], calls[i], states[i + 1])
  }

  // ---- what was held back stays so -----------------------------------------

  /** The frame is in use and nobody holds a reference to it. */
  ghost predicate Withheld(frames: nat, s: State, f: nat) {
    f < frames <= |s.bitmap| * WORD_BITS && Test(s.bitmap, f) && f !in s.out
  }

  lemma CallWithholds(frames: nat, s: State, call: Call, s': State, f: nat)
    requires Does(frames, s, call, s') && Withheld(frames, s, f)
    ensures Withheld(frames, s', f) && f !in Handed(call)
  {
    hide NoRun, Less, More;
    if call.AllocatedRun? && call.first.Some? {
      RunMisses(frames, s, s', Frame(call.first.value), call.count, f);
    }
  }

  lemma RunMisses(frames: nat, s: State, s': State, first: nat, count: nat, f: nat)
    requires TookRun(s.bitmap, s.counts, s'.bitmap, s'.counts, frames, first, count) && f < frames && Test(s.bitmap, f)
    ensures f !in RunOf(first, count) && frames <= |s'.bitmap| * WORD_BITS && Test(s'.bitmap, f)
  {
  }

  /** A frame in use that nobody holds is handed to nobody, ever. */
  lemma {:induction false} WithheldForEver(frames: nat, states: seq<State>, calls: seq<Call>, f: nat, i: nat)
    requires Run(frames, states, calls) && Withheld(frames, states[0], f) && i <= |calls|
    ensures Withheld(frames, states[i], f)
    ensures forall j | 0 <= j < i :: f !in Handed(calls[j])
  {
    hide Does, Withheld, Handed;
    if i > 0 {
      WithheldForEver(frames, states, calls, f, i - 1);
      CallWithholds(frames, states[i - 1], calls[i - 1], states[i], f);
    }
  }

  // ---- from the boot on ----------------------------------------------------

  /** What `Boot.Build` leaves, with no reference out. */
  ghost predicate Built(frames: nat, regions: seq<Region>, held: seq<Range>, limit: nat, s: State) {
    s.out == multiset{} && FreeExactly(s.bitmap, frames, regions, limit, held)
  }

  lemma HandedIsAFrame(frames: nat, s: State, call: Call, s': State, f: nat)
    requires Does(frames, s, call, s') && f in Handed(call)
    ensures f < frames <= |s.bitmap| * WORD_BITS && !Test(s.bitmap, f)
  {
  }

  /** A frame any call returns was free when the run began. */
  lemma HandedWasFree(frames: nat, regions: seq<Region>, held: seq<Range>, limit: nat, states: seq<State>,
                      calls: seq<Call>, i: nat, f: nat)
    requires Run(frames, states, calls) && Built(frames, regions, held, limit, states[0])
    requires i < |calls| && f in Handed(calls[i])
    ensures f < frames && SomeUsable(regions, limit, frames, f) && !SomeTouch(held, frames, f)
  {
    hide Does, Handed, SomeTouch, SomeUsable;
    HandedIsAFrame(frames, states[i], calls[i], states[i + 1], f);
    if Test(states[0].bitmap, f) {
      WithheldForEver(frames, states, calls, f, i);
      assert false;
    }
  }

  /** No byte of a frame any call ever returns is in a range the build held back. */
  lemma NothingHeldBackIsHandedOut(frames: nat, regions: seq<Region>, held: seq<Range>, limit: nat, states: seq<State>,
                                   calls: seq<Call>, i: nat, f: nat, a: nat, k: nat)
    requires Run(frames, states, calls) && Built(frames, regions, held, limit, states[0])
    requires i < |calls| && f in Handed(calls[i]) && f * PAGE <= a < (f + 1) * PAGE && k < |held|
    ensures !Has(held[k], a)
  {
    hide Run, Built, Handed, SomeTouch;
    HandedWasFree(frames, regions, held, limit, states, calls, i, f);
    FreeFrameIsClear(held, frames, f, k, a);
  }

  /** The byte is in a usable region of the map and below the limit. */
  ghost predicate IsMemory(regions: seq<Region>, limit: nat, a: nat) {
    a < limit && exists i | 0 <= i < |regions| :: regions[i].usable && regions[i].addr <= a < End(regions[i])
  }

  /** Every byte of a frame any call ever returns is memory the map calls usable. */
  lemma OnlyMemoryIsHandedOut(frames: nat, regions: seq<Region>, held: seq<Range>, limit: nat, states: seq<State>,
                              calls: seq<Call>, i: nat, f: nat, a: nat)
    requires Run(frames, states, calls) && Built(frames, regions, held, limit, states[0])
    requires i < |calls| && f in Handed(calls[i]) && f * PAGE <= a < (f + 1) * PAGE
    ensures IsMemory(regions, limit, a)
  {
    hide Run, Built, Handed, SomeTouch, Inside, Min;
    HandedWasFree(frames, regions, held, limit, states, calls, i, f);
    var r :| 0 <= r < |regions| && regions[r].usable
      && Inside(regions[r].addr, Min(End(regions[r]), limit), frames, f);
    RoundingIsExact(regions[r].addr, Min(End(regions[r]), limit), frames, f);
    LeastIsBelow(End(regions[r]), limit);
  }

  lemma LeastIsBelow(a: nat, b: nat)
    ensures Min(a, b) <= a && Min(a, b) <= b
  {
  }

  /** The table's entries hold every range that was ever passed to `Reserve`. */
  ghost predicate Holds(reserved: seq<Range>, asked: seq<Range>) {
    forall k, a | 0 <= k < |asked| && Has(asked[k], a) :: exists i | 0 <= i < |reserved| :: Has(reserved[i], a)
  }

  lemma TableHolds(info: BootInfo)
    requires info.Valid()
    ensures Holds(info.reserved[..info.reservedCount], info.asked)
  {
    forall k, a | 0 <= k < |info.asked| && Has(info.asked[k], a)
      ensures exists i | 0 <= i < info.reservedCount :: Has(info.reserved[..info.reservedCount][i], a)
    {
      assert info.Reserved(a);
      var i :| 0 <= i < info.reservedCount && Has(info.reserved[i], a);
      assert Has(info.reserved[..info.reservedCount][i], a);
    }
  }

  /** Over every run of calls from the allocator the boot built, no byte of any frame
    * ever handed out is in a range that was ever reserved, whether it has an entry of
    * its own or was folded into another, nor in a module, the kernel, the allocator's
    * own metadata, what the machine claims, or memory the map does not call usable; and
    * every such byte is in a region that is usable, below the limit. */
  lemma BootMemoryIsNeverHandedOut(info: BootInfo, claimed: seq<Range>, kernel: Range, metadata: Range, limit: nat,
                                   frames: nat, states: seq<State>, calls: seq<Call>, i: nat, f: nat, a: nat)
    requires info.Valid() && Run(frames, states, calls)
    requires Built(frames, info.regions,
                   HeldBack(info.regions, claimed, kernel, metadata, info.reserved[..info.reservedCount], info.modules),
                     limit, states[0])
    requires i < |calls| && f in Handed(calls[i]) && f * PAGE <= a < (f + 1) * PAGE
    ensures forall k | 0 <= k < |info.asked| :: !Has(info.asked[k], a)
    ensures forall k | 0 <= k < |info.modules| :: !Has(info.modules[k], a)
    ensures forall k | 0 <= k < |claimed| :: !Has(claimed[k], a)
    ensures forall k | 0 <= k < |Unusable(info.regions)| :: !Has(Unusable(info.regions)[k], a)
    ensures !Has(kernel, a) && !Has(metadata, a)
    ensures IsMemory(info.regions, limit, a)
  {
    hide Built, Run, Handed, Has, IsMemory;
    var reserved := info.reserved[..info.reservedCount];
    var held := HeldBack(info.regions, claimed, kernel, metadata, reserved, info.modules);
    forall r | r in held ensures !Has(r, a) {
      var k :| 0 <= k < |held| && held[k] == r;
      NothingHeldBackIsHandedOut(frames, info.regions, held, limit, states, calls, i, f, a, k);
    }
    HeldParts(info.regions, claimed, kernel, metadata, reserved, info.modules);
    TableHolds(info);
    OnlyMemoryIsHandedOut(frames, info.regions, held, limit, states, calls, i, f, a);
  }

  lemma HeldParts(regions: seq<Region>, claimed: seq<Range>, kernel: Range, metadata: Range, reserved: seq<Range>,
                  modules: seq<Range>)
    ensures var held := HeldBack(regions, claimed, kernel, metadata, reserved, modules);
            && kernel in held && metadata in held
            && (forall r | r in Unusable(regions) :: r in held) && (forall r | r in claimed :: r in held)
            && (forall r | r in reserved :: r in held) && (forall r | r in modules :: r in held)
  {
  }

  // ---- nobody is handed what somebody holds --------------------------------

  /** Every frame with references out is in use, and its count is how many. */
  ghost predicate Counted(frames: nat, s: State) {
    && frames <= |s.bitmap| * WORD_BITS && frames <= |s.counts|
    && forall f | f in s.out :: f < frames && Test(s.bitmap, f) && s.counts[f] == s.out[f]
  }

  /** No frame has more references out than a count can hold. */
  ghost predicate Fits(s: State) {
    forall f :: s.out[f] <= COUNT_MAX
  }

  lemma RunHandedOnce(first: nat, count: nat, f: nat)
    ensures multiset(RunOf(first, count))[f] == if first <= f < first + count then 1 else 0
  {
  }

  lemma CallCounts(frames: nat, s: State, call: Call, s': State)
    requires Does(frames, s, call, s') && Counted(frames, s) && Fits(s')
    ensures Counted(frames, s')
  {
    match call
    case Allocated(r) =>
    case AllocatedRun(count, first) =>
      if first.Some? {
        RunCounts(frames, s, s', Frame(first.value), count);
      }
    case Shared(phys) =>
      hide Test;
      assert s'.out[Frame(phys)] == s.out[Frame(phys)] + 1;
    case Freed(phys) =>
      FreeCounts(frames, s, s', Frame(phys));
  }

  lemma RunCounts(frames: nat, s: State, s': State, first: nat, count: nat)
    requires Counted(frames, s) && TookRun(s.bitmap, s.counts, s'.bitmap, s'.counts, frames, first, count)
    requires s'.out == s.out + multiset(RunOf(first, count))
    ensures Counted(frames, s')
  {
    hide Test, RunOf;
    forall f | f in s'.out ensures f < frames && Test(s'.bitmap, f) && s'.counts[f] == s'.out[f] {
      RunHandedOnce(first, count, f);
    }
  }

  lemma FreeCounts(frames: nat, s: State, s': State, f: nat)
    requires Counted(frames, s) && f in s.out && FreeSays(s.bitmap, s.counts, s'.bitmap, s'.counts, frames, f)
    requires s'.out == s.out - multiset{f}
    ensures Counted(frames, s')
  {
    hide Test;
    forall g | g in s'.out ensures g < frames && Test(s'.bitmap, g) && s'.counts[g] == s'.out[g] {
      assert g in s.out;
    }
  }

  lemma {:induction false} RunCounted(frames: nat, states: seq<State>, calls: seq<Call>, i: nat)
    requires Run(frames, states, calls) && Counted(frames, states[0]) && i <= |calls|
    requires forall j | 0 <= j <= i :: Fits(states[j])
    ensures Counted(frames, states[i])
  {
    hide Does, Counted, Fits;
    if i > 0 {
      RunCounted(frames, states, calls, i - 1);
      CallCounts(frames, states[i - 1], calls[i - 1], states[i]);
    }
  }

  /** While no frame has more references than a count holds, nobody is ever handed a
    * frame somebody still holds. */
  lemma NobodyIsHandedWhatIsHeld(frames: nat, states: seq<State>, calls: seq<Call>, i: nat, f: nat)
    requires Run(frames, states, calls) && Counted(frames, states[0]) && i < |calls|
    requires forall j | 0 <= j <= i :: Fits(states[j])
    ensures f in Handed(calls[i]) ==> f !in states[i].out
  {
    hide Does, Handed, Fits;
    RunCounted(frames, states, calls, i);
    if f in Handed(calls[i]) {
      HandedIsAFrame(frames, states[i], calls[i], states[i + 1], f);
    }
  }

  /** At the largest count a share leaves the count one short of the references, so
    * the bound on them is needed. */
  lemma FullCountFallsShort(frames: nat, s: State, s': State, phys: nat)
    requires Counted(frames, s) && Does(frames, s, Shared(phys), s') && s.out[Frame(phys)] == COUNT_MAX
    ensures s'.counts[Frame(phys)] < s'.out[Frame(phys)] && !Counted(frames, s')
  {
  }
}
