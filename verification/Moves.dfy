/** What the methods on the tables are proved to do, as moves between worlds.
  *
  * A move is one method's contract, read as a relation between two worlds: memory, its
  * counts, one space's hold or two, and the references held outside descriptors. The
  * steps of the run machine in `Spaces` that a move is said to be are at the end.
  */
module Moves {
  import opened Machines
  import opened Walk
  import opened Pages
  import opened Descent
  import opened Reclaim
  import opened Tables
  import opened Accounts
  import opened Guard
  import opened Share
  import opened Spaces
  import opened Cow
  import opened Teardown
  import opened Worlds

  /** What one call, or one thing a task does with a frame of its own, is about. */
  datatype Move =
    | Allocates(frame: Phys)
    | Fills(frame: Phys, row: Bytes)
    | Gives(frames: seq<Phys>)
    | Opens(space: nat, h: Hier)
    | Publishes(space: nat, page: nat, frame: Phys, flags: Word, was: seq<Phys>, now: seq<Phys>, r: Outcome<()>)
    | Replaces(space: nat, page: nat, frame: Phys, flags: Word, out: Option<Phys>)
    | Protects(space: nat, page: nat, flags: Word, at: Option<Phys>)
    | Unmaps(space: nat, page: nat, stale: seq<Phys>)
    | Breaks(space: nat, page: nat, spare: Option<Phys>, ok: bool, flushed: nat)
    | Shares(parent: nat, child: nat, page: nat, was: seq<Phys>, now: seq<Phys>, r: Outcome<()>, mid: Words)
    | Flushes(space: nat, flushed: nat)
    | Stores(space: nat, page: nat, frame: Phys, row: Bytes)
    | Closes(space: nat, log: seq<Path>)

  /** The space can be told to change the page. */
  ghost predicate Aims(w: World, a: nat, page: nat) {
    a in w.spaces && page < PAGES && Ours(w.spaces[a], PathTo(page, 4))
  }

  /** Only memory and one hold change, and the hold is kept. */
  ghost predicate Held1(m: Machine, w: World, w': World, a: nat, more: seq<Phys>, counts: map<Phys, nat>,
                        held: multiset<Phys>)
  {
    && a in w.spaces && a in w.holds && a in w'.holds
       && w' == World(w'.words, counts, w.spaces, w.holds[a := w'.holds[a]], held)
    && Guarded(m, w'.words, w.spaces[a], w'.holds[a]) && w'.holds[a].waiting == w.holds[a].waiting + more
  }

  // ---- the moves, as the methods' contracts ---------------------------------

  /** `AllocZeroed`. */
  ghost predicate DoesAllocate(w: World, w': World, f: Phys) {
    && f in w.words && References(w.counts, f) == 0
    && w' == w.(words := Zeroed(w.words, f), counts := Held(w.counts, f), held := w.held + multiset{f})
  }

  ghost predicate DoesFill(w: World, w': World, f: Phys, row: Bytes) {
    Loose(w, f) && |row| == ENTRIES && w' == w.(words := w.words[f := row])
  }

  /** `Prepared.GiveBack`, and a stock or a spare that was not used. */
  ghost predicate DoesGive(w: World, w': World, frames: seq<Phys>) {
    && (forall f :: multiset(frames)[f] + |Waiters(w.holds, f)| <= w.held[f])
    && w' == w.(counts := w'.counts, held := w.held - multiset(frames))
    && forall f :: References(w'.counts, f) == Spaces.Less(References(w.counts, f), multiset(frames)[f])
  }

  /** A fresh top table with nothing in the part a program owns. */
  ghost predicate DoesOpen(m: Machine, w: World, w': World, a: nat, h: Hier) {
    && a !in w.spaces && Loose(w, h.root) && Detached(m, w.words, h)
    && w' == World(w.words, w.counts, w.spaces[a := h], w.holds[a := Hold(iset{}, Clean, [])],
                   w.held - multiset{h.root})
  }

  /** `MmGuard.Publish`. */
  ghost predicate DoesPublish(m: Machine, w: World, w': World, a: nat, page: nat, f: Phys, flags: Word, was: seq<Phys>,
                              now: seq<Phys>, r: Outcome<()>)
  {
    && Aims(w, a, page) && m.asked(flags) && now <= was
    && Loose(w, f) && (forall t | t in was :: Loose(w, t) && t != f) && StockReady(m, w.words, w.spaces[a], was)
    && Published(m, w.words, w'.words, w.spaces[a], page, LeafWord(m, f, flags), was, now, r)
    && Held1(m, w, w', a, [], w.counts,
             w.held - multiset(Taken(was, now)) - if r.Done? then multiset{f} else multiset{})
  }

  /** `MmGuard.Replace`, with what it hands back on its way to `Retire`. */
  ghost predicate DoesReplace(m: Machine, w: World, w': World, a: nat, page: nat, f: Phys, flags: Word,
                              stale: Option<Phys>)
  {
    && Aims(w, a, page) && m.asked(flags) && Loose(w, f)
    && Rewritten(m, w.words, w'.words, w.spaces[a], page, LeafWord(m, f, flags), stale)
    && Held1(m, w, w', a, if stale.Some? then [stale.value] else [], w.counts,
             if stale.Some? then w.held - multiset{f} + multiset{stale.value} else w.held)
  }

  /** `MmGuard.Protect`, where it is harmless. */
  ghost predicate DoesProtect(m: Machine, w: World, w': World, a: nat, page: nat, flags: Word, at: Option<Phys>) {
    && Aims(w, a, page) && m.asked(flags)
    && (Slot(a, page) in Abstract(m, w).slots ==> Harmless(m, Abstract(m, w), Slot(a, page), flags))
    && (if at.Some? then Rewritten(m, w.words, w'.words, w.spaces[a], page, LeafWord(m, at.value, flags), at)
        else w'.words == w.words && page !in PageMap(m, w.words, w.spaces[a]))
    && Held1(m, w, w', a, [], w.counts, w.held)
  }

  /** `MmGuard.Unmap`. */
  ghost predicate DoesUnmap(m: Machine, w: World, w': World, a: nat, page: nat, stale: seq<Phys>) {
    && Aims(w, a, page) && TookAway(m, w.words, w'.words, w.spaces[a], page, w.counts, stale)
    && Held1(m, w, w', a, stale, w.counts, w.held + multiset(stale))
  }

  ghost function BreakCase(m: Machine, w: World, a: nat, page: nat, spare: Option<Phys>): CowCase
    requires a in w.spaces
  {
    CaseOf(m, Lookup(PageMap(m, w.words, w.spaces[a]), page), w.counts, spare)
  }

  /** The frame a copy leaves to be released. */
  ghost function Copied(m: Machine, w: World, a: nat, page: nat, spare: Option<Phys>): seq<Phys>
    requires a in w.spaces
  {
    if BreakCase(m, w, a, page, spare).CopyTo? && page in PageMap(m, w.words, w.spaces[a])
    then [m.addr(PageMap(m, w.words, w.spaces[a])[page])] else []
  }

  ghost function HeldAfterBreak(w: World, c: CowCase, copied: seq<Phys>): multiset<Phys> {
    if c.CopyTo? then w.held - multiset{c.to} + multiset(copied) else w.held
  }

  /** `BreakCow`, with whatever `Retire` flushed to make room. */
  ghost predicate DoesBreak(m: Machine, w: World, w': World, a: nat, page: nat, spare: Option<Phys>, ok: bool,
                            flushed: nat)
  {
    && Aims(w, a, page) && a in w.holds && a in w'.holds && (spare.Some? ==> Loose(w, spare.value))
    && Broke(m, w.words, w'.words, w.spaces[a], page, w.counts, spare, ok)
    && flushed <= |w.holds[a].waiting|
    && var gone, c, copied := w.holds[a].waiting[..flushed], BreakCase(m, w, a, page, spare),
       Copied(m, w, a, page, spare);
       && w' == World(w'.words, ReleasedAll(w.counts, gone), w.spaces, w.holds[a := w'.holds[a]],
                      HeldAfterBreak(w, c, copied) - multiset(gone))
       && Guarded(m, w'.words, w.spaces[a], w'.holds[a])
       && w'.holds[a].waiting == w.holds[a].waiting[flushed..] + copied
  }

  /** `ShareFrom`: the child is being made, so nothing of its waits. */
  ghost predicate DoesShare(m: Machine, w: World, w': World, p: nat, c: nat, page: nat, was: seq<Phys>, now: seq<Phys>,
                            r: Outcome<()>, mid: Words)
  {
    && p != c && Aims(w, p, page) && Aims(w, c, page) && p in w.holds && c in w.holds && p in w'.holds && c in w'.holds
    && w.holds[c].waiting == [] && (forall t | t in was :: Loose(w, t)) && StockReady(m, w.words, w.spaces[c], was)
    && var pages := PageMap(m, w.words, w.spaces[p]);
       if page !in pages then w' == w else
       && SharedBy(m, w.words, mid, w'.words, w.spaces[p], w.spaces[c], page, was, now, r)
       && w' == World(w'.words, CountsAfter(m, pages, page, w.counts, r.Done?), w.spaces,
                      w.holds[p := w'.holds[p]][c := w'.holds[c]],
                      w.held - multiset(Taken(was, now)))
       && Live(m, w'.words, w.spaces[p]) <= w'.holds[p].cached <= w.holds[p].cached + Live(m, w'.words, w.spaces[p])
       && Covered(m, w'.words, w.spaces[p], w'.holds[p].cached, w'.holds[p].pending)
          && w'.holds[p].waiting == w.holds[p].waiting
       && w'.holds[c].cached == Live(m, w'.words, w.spaces[c]) && w'.holds[c].waiting == []
  }

  /** `MmGuard.Flush`, of the first of what waits. */
  ghost predicate DoesFlush(m: Machine, w: World, w': World, a: nat, flushed: nat) {
    && a in w.spaces && a in w.holds && flushed <= |w.holds[a].waiting|
    && var gone := w.holds[a].waiting[..flushed];
       w' == World(w.words, ReleasedAll(w.counts, gone), w.spaces,
                   w.holds[a := Hold(Live(m, w.words, w.spaces[a]), Clean, w.holds[a].waiting[flushed..])],
                     w.held - multiset(gone))
  }

  /** A program stores through a translation its walker has kept, outside any hold. */
  ghost predicate DoesStore(w: World, w': World, a: nat, page: nat, f: Phys, row: Bytes) {
    && a in w.spaces && a in w.holds && w.holds[a].pending == Clean && Translates(page, f, true) in w.holds[a].cached
    && |row| == ENTRIES && w' == w.(words := w.words[f := row])
  }

  /** `DropTables`. */
  ghost predicate DoesClose(m: Machine, w: World, w': World, a: nat, log: seq<Path>) {
    && a in w.spaces && a in w.holds && w.holds[a].waiting == []
    && NoRepeats(log) && (forall q :: q in log <==> Position(m, w.words, w.spaces[a], q))
    && w' == World(w'.words, Released(ReleasedAlong(m, w.words, w.spaces[a], w.counts, log), w.spaces[a].root),
                   w.spaces - {a}, w.holds - {a}, w.held)
    && w'.words.Keys == w.words.Keys && (forall f | f in w.words :: |w'.words[f]| == |w.words[f]|)
    && forall f | f in w.words && !IsTableFrame(m, w.words, w.spaces[a], f) :: w'.words[f] == w.words[f]
  }

  ghost predicate Does(m: Machine, w: World, move: Move, w': World) {
    match move
    case Allocates(f) => DoesAllocate(w, w', f)
    case Fills(f, row) => DoesFill(w, w', f, row)
    case Gives(frames) => DoesGive(w, w', frames)
    case Opens(a, h) => DoesOpen(m, w, w', a, h)
    case Publishes(a, page, f, flags, was, now, r) => DoesPublish(m, w, w', a, page, f, flags, was, now, r)
    case Replaces(a, page, f, flags, stale) => DoesReplace(m, w, w', a, page, f, flags, stale)
    case Protects(a, page, flags, at) => DoesProtect(m, w, w', a, page, flags, at)
    case Unmaps(a, page, stale) => DoesUnmap(m, w, w', a, page, stale)
    case Breaks(a, page, spare, ok, flushed) => DoesBreak(m, w, w', a, page, spare, ok, flushed)
    case Shares(p, c, page, was, now, r, mid) => DoesShare(m, w, w', p, c, page, was, now, r, mid)
    case Flushes(a, flushed) => DoesFlush(m, w, w', a, flushed)
    case Stores(a, page, f, row) => DoesStore(w, w', a, page, f, row)
    case Closes(a, log) => DoesClose(m, w, w', a, log)
  }

  // ---- refining ------------------------------------------------------------

  /** The same system, however its counts are written down. */
  ghost predicate Alike(s: System, s': System) {
    && s.slots == s'.slots && s.tables == s'.tables && s.held == s'.held && s.data == s'.data
    && forall f :: References(s.counts, f) == References(s'.counts, f)
  }

  /** The steps, each enabled in turn, lead from one system to the other. */
  ghost predicate Leads(m: Machine, s: System, steps: seq<Step>, s': System)
    decreases |steps|
  {
    if steps == [] then Alike(s, s') else
    Enabled(m, s, steps[0]) && Leads(m, Apply(m, s, steps[0]), steps[1..], s')
  }

  lemma LeadsOne(m: Machine, s: System, step: Step, s': System)
    requires Enabled(m, s, step) && Alike(Apply(m, s, step), s')
    ensures Leads(m, s, [step], s')
  {
    hide Enabled, Apply, Alike;
    assert [step][1..] == [];
    assert Leads(m, Apply(m, s, step), [], s');
  }

  lemma LeadsTwo(m: Machine, s: System, one: Step, two: Step, s': System)
    requires Enabled(m, s, one) && Enabled(m, Apply(m, s, one), two) && Alike(Apply(m, Apply(m, s, one), two), s')
    ensures Leads(m, s, [one, two], s')
  {
    hide Enabled, Apply, Alike;
    assert [one, two][1..] == [two];
    LeadsOne(m, Apply(m, s, one), two, s');
  }

  lemma InvAlike(m: Machine, s: System, s': System)
    requires Inv(m, s) && Alike(s, s')
    ensures Inv(m, s')
  {
    hide Namers, Isolated, Aligned, WellMade, References;
  }

  lemma {:induction false} LeadsKeeps(m: Machine, s: System, steps: seq<Step>, s': System)
    requires Lawful(m) && Inv(m, s) && Leads(m, s, steps, s')
    ensures Inv(m, s')
    decreases |steps|
  {
    hide Lawful, Inv, Enabled, Apply, Alike;
    if steps == [] {
      InvAlike(m, s, s');
    } else {
      StepKeeps(m, s, steps[0]);
      LeadsKeeps(m, Apply(m, s, steps[0]), steps[1..], s');
    }
  }

  lemma {:induction false} LeadsSeen(m: Machine, s: System, steps: seq<Step>, s': System, k: Slot)
    requires Lawful(m) && Inv(m, s) && Leads(m, s, steps, s') && forall step | step in steps :: !Touches(step, k)
    ensures View(m, s', k) == View(m, s, k)
    decreases |steps|
  {
    hide Lawful, Inv, Enabled, Apply, Touches;
    if steps != [] {
      StepKeeps(m, s, steps[0]);
      StepSeen(m, s, steps[0], k);
      LeadsSeen(m, Apply(m, s, steps[0]), steps[1..], s', k);
    }
  }

  /** The steps of the run machine a move is. */
  ghost function StepsOf(m: Machine, w: World, move: Move, w': World): seq<Step> {
    match move
    case Allocates(f) => [Alloc(f, seq(ENTRIES, _ => 0))]
    case Fills(f, row) => [Fill(f, row)]
    case Gives(frames) => [Drop(frames)]
    case Opens(a, h) => [Open(h.root)]
    case Publishes(a, page, f, flags, was, now, r) =>
      if |now| <= |was| then [Publish(Slot(a, page), f, flags, Taken(was, now), r.Done?)] else []
    case Replaces(a, page, f, flags, _) => [Replace(Slot(a, page), f, flags)]
    case Protects(a, page, flags, _) => [Protect(Slot(a, page), flags)]
    case Unmaps(a, page, stale) => [Unmap(Slot(a, page), TablesOut(w'.words, stale))]
    case Breaks(a, page, spare, _, flushed) =>
      if a in w.holds && flushed <= |w.holds[a].waiting|
      then [Step.BreakCow(Slot(a, page), spare), Drop(w.holds[a].waiting[..flushed])] else []
    case Shares(p, c, page, was, now, r, _) =>
      if p in w.spaces && page in PageMap(m, w.words, w.spaces[p]) && |now| <= |was|
      then [ShareOne(p, c, page, Taken(was, now), r.Done?)] else []
    case Flushes(a, flushed) =>
      if a in w.holds && flushed <= |w.holds[a].waiting| then [Drop(w.holds[a].waiting[..flushed])] else []
    case Stores(a, page, f, row) => [Write(Slot(a, page), row)]
    case Closes(a, _) => if a in w.spaces then [Close(a, RowsOf(w'.words, Reached(m, w.words, w.spaces[a])))] else []
  }

  /** The tables an unmap handed back, which come after the page. */
  ghost function TablesOut(words: Words, stale: seq<Phys>): map<Phys, Bytes> {
    if stale == [] then map[] else RowsOf(words, set f | f in stale[1..])
  }

  ghost function Reached(m: Machine, words: Words, h: Hier): set<Phys> {
    set f | f in words && IsTableFrame(m, words, h, f)
  }
}
