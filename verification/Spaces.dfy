/** Any number of address spaces over one set of frames.
  *
  * One step is one hold of an address space's lock, or of a parent's and a
  * child's for one page of a fork, or something a task does with a frame nobody
  * else can reach. A run is any interleaving of steps. What a space maps is the
  * page map its tables are proved to stand for, here as slots; which frames are
  * tables is a set, and what is in those is not a program's to see.
  */
module Spaces {
  import opened Machines
  import opened Reclaim
  import opened Tables
  import opened Share

  datatype Slot = Slot(space: nat, page: nat)

  type Bytes = seq<Word>

  /** What every space maps, the frames that are some space's tables, how many
    * references each frame has, the references held outside descriptors (in a
    * prepared page, a stock, a spare or the retired list), and what the frames that
    * are no tables hold. */
  datatype System = System(slots: map<Slot, Word>, tables: set<Phys>, counts: map<Phys, nat>, held: multiset<Phys>,
                           data: map<Phys, Bytes>)

  // ---- copy on write -------------------------------------------------------

  datatype CowCase =
    | NotThere
    | Unmarked(may: bool)
    | TakeBack
    | NoSpare
    | CopyTo(to: Phys)

  /** What a write to a page finds: nothing there, a page that is not shared, the
    * last owner of one that was, or a page to copy. */
  function CaseOf(m: Machine, found: Option<Word>, counts: map<Phys, nat>, spare: Option<Phys>): CowCase {
    match found
    case None => NotThere
    case Some(bits) =>
      var flags := m.flags(bits);
      if !m.marked(flags) then Unmarked(m.permits(flags))
      else if References(counts, m.addr(bits)) <= 1 then TakeBack
      else match spare case None => NoSpare case Some(to) => CopyTo(to)
  }

  /** The descriptor the case leaves. */
  function Broken(m: Machine, bits: Word, c: CowCase): Word {
    match c
    case TakeBack => m.leaf(m.addr(bits), m.owned(m.flags(bits)))
    case CopyTo(to) => m.leaf(to, m.owned(m.flags(bits)))
    case _ => bits
  }

  /** A write may be made now. */
  predicate MayWrite(c: CowCase) {
    c == Unmarked(true) || c.TakeBack? || c.CopyTo?
  }

  // ---- steps ---------------------------------------------------------------

  /** `taken` are frames that become tables on the way, `gone` tables that stop being
    * any, with what they hold. `done` says that a publish was not refused. */
  datatype Step =
    | Alloc(frame: Phys, bytes: Bytes)
    | Fill(frame: Phys, bytes: Bytes)
    | Drop(frames: seq<Phys>)
    | Open(frame: Phys)
    | Publish(slot: Slot, frame: Phys, flags: Word, taken: set<Phys>, done: bool)
    | Replace(slot: Slot, frame: Phys, flags: Word)
    | Protect(slot: Slot, flags: Word)
    | ShareOne(parent: nat, child: nat, page: nat, taken: set<Phys>, done: bool)
    | BreakCow(slot: Slot, spare: Option<Phys>)
    | Unmap(slot: Slot, gone: map<Phys, Bytes>)
    | Write(slot: Slot, bytes: Bytes)
    | Close(space: nat, gone: map<Phys, Bytes>)

  /** A reference nothing else has a share in. */
  predicate Exclusive(s: System, f: Phys) {
    f in s.held && References(s.counts, f) == 1
  }

  /** The flags let no store through, or nobody else has the page's frame. */
  ghost predicate Harmless(m: Machine, s: System, slot: Slot, flags: Word)
    requires slot in s.slots
  {
    var f := m.addr(s.slots[slot]);
    m.writes(m.leaf(f, flags)) ==> Namers(m, s.slots, f) == {slot}
  }

  ghost predicate Enabled(m: Machine, s: System, step: Step) {
    match step
    case Alloc(f, _) => m.frame(f) && References(s.counts, f) == 0
    case Fill(f, _) => Exclusive(s, f)
    case Drop(frames) => multiset(frames) <= s.held
    case Open(f) => Exclusive(s, f)
    case Publish(slot, f, flags, taken, done) =>
      Exclusive(s, f) && m.asked(flags) && (forall t | t in taken :: Exclusive(s, t) && t != f)
        && (done ==> slot !in s.slots)
    case Replace(_, f, flags) => Exclusive(s, f) && m.asked(flags)
    case Protect(slot, flags) => m.asked(flags) && (slot in s.slots ==> Harmless(m, s, slot, flags))
    case ShareOne(parent, child, page, taken, done) =>
      parent != child && (forall t | t in taken :: Exclusive(s, t)) && (done ==> Slot(child, page) !in s.slots)
    case BreakCow(_, spare) => spare.Some? ==> Exclusive(s, spare.value)
    case Unmap(_, gone) => gone.Keys <= s.tables
    case Write(slot, _) => slot in s.slots && m.writes(s.slots[slot])
    case Close(_, gone) => gone.Keys <= s.tables
  }

  /** Frames held become tables. */
  function Link(s: System, taken: set<Phys>): System {
    s.(tables := s.tables + taken, held := s.held - multiset(taken), data := s.data - taken)
  }

  /** Tables become frames held. */
  function Unlink(s: System, gone: map<Phys, Bytes>): System {
    s.(tables := s.tables - gone.Keys, held := s.held + multiset(gone.Keys), data := s.data + gone)
  }

  ghost function Apply(m: Machine, s: System, step: Step): System {
    match step
    case Alloc(f, bytes) => s.(counts := Held(s.counts, f), held := s.held + multiset{f}, data := s.data[f := bytes])
    case Fill(f, bytes) => s.(data := s.data[f := bytes])
    case Drop(frames) => s.(counts := ReleasedAll(s.counts, frames), held := s.held - multiset(frames))
    case Open(f) => Link(s, {f})
    case Publish(slot, f, flags, taken, done) =>
      var t := Link(s, taken);
      if !done then t else Moved(m, t, slot, m.leaf(f, flags))
    case Replace(slot, f, flags) => if slot !in s.slots then s else Moved(m, s, slot, m.leaf(f, flags))
    case Protect(slot, flags) =>
      if slot !in s.slots then s else s.(slots := s.slots[slot := m.leaf(m.addr(s.slots[slot]), flags)])
    case ShareOne(parent, child, page, taken, done) =>
      if Slot(parent, page) !in s.slots then s
        else Shared(m, Link(s, taken), Slot(parent, page), Slot(child, page), done)
    case BreakCow(slot, spare) =>
      var c := CaseOf(m, Lookup(s.slots, slot), s.counts, spare);
      if slot !in s.slots then s else
      var bits := s.slots[slot];
      if !c.CopyTo? then s.(slots := s.slots[slot := Broken(m, bits, c)]) else
      Moved(m, s.(data := s.data[c.to := Contents(s, m.addr(bits))]), slot, Broken(m, bits, c))
    case Unmap(slot, gone) =>
      if slot !in s.slots then s else
      Unlink(s.(slots := s.slots - {slot}, held := s.held + multiset{m.addr(s.slots[slot])}), gone)
    case Write(slot, bytes) =>
      if slot !in s.slots then s else
      s.(data := s.data[m.addr(s.slots[slot]) := bytes])
    case Close(space, gone) =>
      s.(slots := Others(s.slots, space), tables := s.tables - gone.Keys, counts := Left(m, s, space, gone.Keys),
         data := s.data + gone)
  }

  /** The slot names the frame of `bits`, whose reference was held; what it named
    * before, if anything, is held instead. */
  function Moved(m: Machine, s: System, slot: Slot, bits: Word): System {
    s.(slots := s.slots[slot := bits],
       held := s.held - multiset{m.addr(bits)} + if slot in s.slots then multiset{m.addr(s.slots[slot])}
         else multiset{})
  }

  /** Both slots with the mark, or the parent's alone when the child refused. */
  function Shared(m: Machine, s: System, from: Slot, to: Slot, done: bool): System
    requires from in s.slots
  {
    var bits := SharedBits(m, s.slots[from]);
    if !done then s.(slots := s.slots[from := bits]) else
    s.(slots := s.slots[from := bits][to := bits], counts := Held(s.counts, m.addr(bits)))
  }

  function Others(slots: map<Slot, Word>, space: nat): map<Slot, Word> {
    map k | k in slots && k.space != space :: slots[k]
  }

  /** The counts without a space's references: its pages' and those of its tables. */
  ghost function Left(m: Machine, s: System, space: nat, gone: set<Phys>): map<Phys, nat> {
    map f | f in s.counts ::
      Less(s.counts[f], |Namers(m, s.slots, f)| - |Namers(m, Others(s.slots, space), f)| + Tabled(gone, f))
  }

  function Less(n: nat, d: int): nat {
    if d <= n then n - d else 0
  }

  function Contents(s: System, f: Phys): Bytes {
    if f in s.data then s.data[f] else []
  }

  // ---- what every step keeps -----------------------------------------------

  /** The slots that name frame `f`. */
  ghost function Namers(m: Machine, slots: map<Slot, Word>, f: Phys): set<Slot> {
    set k | k in slots && m.addr(slots[k]) == f
  }

  /** The descriptor, or the address space, a table frame is held by. */
  function Tabled(tables: set<Phys>, f: Phys): nat {
    if f in tables then 1 else 0
  }

  /** Each count is the descriptors that name the frame, tables' and pages', and the
    * references held elsewhere. */
  ghost predicate Counted(m: Machine, s: System) {
    forall f :: References(s.counts, f) == |Namers(m, s.slots, f)| + Tabled(s.tables, f) + s.held[f]
  }

  /** A slot the hardware writes through is its frame's only one. */
  ghost predicate Isolated(m: Machine, slots: map<Slot, Word>) {
    forall k | k in slots && m.writes(slots[k]) :: Namers(m, slots, m.addr(slots[k])) == {k}
  }

  /** A frame is at one page, in however many spaces. */
  ghost predicate Aligned(m: Machine, slots: map<Slot, Word>) {
    forall k, j | k in slots && j in slots && m.addr(slots[k]) == m.addr(slots[j]) :: k.page == j.page
  }

  ghost predicate Made(m: Machine, s: System) {
    && (forall k | k in s.slots :: WellMade(m, s.slots[k]))
    && (forall f | f in s.held || f in s.tables :: m.frame(f))
  }

  /** A table has one reference, its own descriptor's. */
  ghost predicate Sole(s: System) {
    forall f | f in s.tables :: References(s.counts, f) == 1
  }

  ghost predicate Inv(m: Machine, s: System) {
    Counted(m, s) && Sole(s) && Isolated(m, s.slots) && Aligned(m, s.slots) && Made(m, s)
  }

  /** With nothing allocated there is nothing to account for. */
  lemma StartKeeps(m: Machine, data: map<Phys, Bytes>)
    ensures Inv(m, System(map[], {}, map[], multiset{}, data))
  {
    forall f ensures Namers(m, map[], f) == {} {
    }
  }

  lemma NamersPut(m: Machine, slots: map<Slot, Word>, k: Slot, bits: Word, f: Phys)
    ensures Namers(m, slots[k := bits], f) == (Namers(m, slots, f) - {k}) + (if m.addr(bits) == f then {k} else {})
    ensures k in Namers(m, slots, f) <==> k in slots && m.addr(slots[k]) == f
  {
  }

  lemma NamersCut(m: Machine, slots: map<Slot, Word>, k: Slot, f: Phys)
    ensures Namers(m, slots - {k}, f) == Namers(m, slots, f) - {k}
  {
  }

  /** A frame with no more references than are held is named by no slot. */
  lemma ExclusiveIsUnnamed(m: Machine, s: System, f: Phys)
    requires Counted(m, s) && References(s.counts, f) <= s.held[f]
    ensures Namers(m, s.slots, f) == {} && f !in s.tables
  {
    assert |Namers(m, s.slots, f)| == 0;
  }

  lemma OnlyHeld(m: Machine, s: System, f: Phys)
    requires Counted(m, s) && Exclusive(s, f)
    ensures Namers(m, s.slots, f) == {} && s.held[f] == 1 && f !in s.tables
  {
    assert s.held[f] >= 1;
    ExclusiveIsUnnamed(m, s, f);
  }

  /** A table is no page and nobody holds it. */
  lemma TableIsNoPage(m: Machine, s: System, f: Phys)
    requires Counted(m, s) && Sole(s) && f in s.tables
    ensures Namers(m, s.slots, f) == {} && s.held[f] == 0
  {
    assert |Namers(m, s.slots, f)| == 0;
  }

  lemma NotNaming(m: Machine, slots: map<Slot, Word>, f: Phys)
    requires Namers(m, slots, f) == {}
    ensures forall k | k in slots :: m.addr(slots[k]) != f
  {
    forall k | k in slots ensures m.addr(slots[k]) != f {
      assert k !in Namers(m, slots, f);
    }
  }

  /** Rewriting a slot with a descriptor of the same frame. */
  lemma SameFrame(m: Machine, slots: map<Slot, Word>, k: Slot, bits: Word)
    requires k in slots && m.addr(bits) == m.addr(slots[k])
    ensures forall f :: Namers(m, slots[k := bits], f) == Namers(m, slots, f)
    ensures Isolated(m, slots) && (m.writes(bits) ==> Namers(m, slots, m.addr(bits)) == {k})
            ==> Isolated(m, slots[k := bits])
    ensures Aligned(m, slots) ==> Aligned(m, slots[k := bits])
  {
    forall f ensures Namers(m, slots[k := bits], f) == Namers(m, slots, f) {
      NamersPut(m, slots, k, bits, f);
    }
  }

  /** A new slot on a frame: nothing is written through it, or it is the only one. */
  lemma NewSlot(m: Machine, slots: map<Slot, Word>, k: Slot, bits: Word)
    requires k !in slots && Isolated(m, slots)
    requires forall j | j in Namers(m, slots, m.addr(bits)) :: !m.writes(slots[j])
    requires m.writes(bits) ==> Namers(m, slots, m.addr(bits)) == {}
    ensures Isolated(m, slots[k := bits])
    ensures forall f :: |Namers(m, slots[k := bits], f)| == |Namers(m, slots, f)| + if m.addr(bits) == f then 1 else 0
  {
    forall f ensures Namers(m, slots[k := bits], f) == Namers(m, slots, f) + (if m.addr(bits) == f then {k} else {})
      && k !in Namers(m, slots, f) {
      NamersPut(m, slots, k, bits, f);
    }
  }

  lemma LostSlot(m: Machine, slots: map<Slot, Word>, k: Slot)
    requires k in slots && Isolated(m, slots)
    ensures Isolated(m, slots - {k})
    ensures forall f :: |Namers(m, slots - {k}, f)| == |Namers(m, slots, f)| - if m.addr(slots[k]) == f then 1 else 0
  {
    forall f ensures Namers(m, slots - {k}, f) == Namers(m, slots, f) - {k} {
      NamersCut(m, slots, k, f);
    }
  }

  /** A slot that joins one that cannot be written through. */
  lemma JoinSlot(m: Machine, slots: map<Slot, Word>, from: Slot, to: Slot)
    requires Isolated(m, slots) && from in slots && to !in slots && !m.writes(slots[from])
    ensures Isolated(m, slots[to := slots[from]])
    ensures forall f :: |Namers(m, slots[to := slots[from]], f)|
                        == |Namers(m, slots, f)| + if m.addr(slots[from]) == f then 1 else 0
  {
    forall j | j in Namers(m, slots, m.addr(slots[from])) ensures !m.writes(slots[j]) {
      SoleWriter(m, slots, from, j);
    }
    NewSlot(m, slots, to, slots[from]);
  }

  /** A frame one slot of which cannot be written has no slot that can. */
  lemma SoleWriter(m: Machine, slots: map<Slot, Word>, k: Slot, j: Slot)
    requires Isolated(m, slots) && k in slots && j in slots && m.addr(slots[j]) == m.addr(slots[k])
    ensures m.writes(slots[j]) ==> j == k
  {
    if m.writes(slots[j]) {
      assert k in Namers(m, slots, m.addr(slots[j]));
    }
  }

  /** A slot moved to a frame nothing names, or put on one. */
  lemma MovedSlot(m: Machine, slots: map<Slot, Word>, k: Slot, bits: Word)
    requires Isolated(m, slots) && Aligned(m, slots) && Namers(m, slots, m.addr(bits)) == {}
    ensures Isolated(m, slots[k := bits]) && Aligned(m, slots[k := bits])
    ensures forall f :: |Namers(m, slots[k := bits], f)|
                     == |Namers(m, slots, f)| - (if k in slots && m.addr(slots[k]) == f then 1 else 0)
                        + (if m.addr(bits) == f then 1 else 0)
  {
    hide Namers, Isolated;
    NotNaming(m, slots, m.addr(bits));
    if k in slots {
      LostSlot(m, slots, k);
      var cut := slots - {k};
      NamersCut(m, slots, k, m.addr(bits));
      NewSlot(m, cut, k, bits);
      assert cut[k := bits] == slots[k := bits];
    } else {
      NewSlot(m, slots, k, bits);
    }
  }

  lemma MadeNamesFrame(m: Machine, bits: Word)
    requires LawfulLeaf(m) && WellMade(m, bits)
    ensures m.frame(m.addr(bits))
  {
  }

  lemma LeafIsMade(m: Machine, f: Phys, flags: Word)
    requires LawfulLeaf(m) && m.frame(f) && m.asked(flags)
    ensures WellMade(m, m.leaf(f, flags)) && m.addr(m.leaf(f, flags)) == f
  {
  }

  // ---- tables --------------------------------------------------------------

  /** Linking moves a frame from what is held to the tables. */
  ghost predicate LinkedOne(s: System, taken: set<Phys>, f: Phys) {
    var s' := Link(s, taken);
    && s'.held[f] + Tabled(s'.tables, f) == s.held[f] + Tabled(s.tables, f)
    && s'.held[f] == if f in taken then 0 else s.held[f]
  }

  lemma LinkedFrame(s: System, taken: set<Phys>, f: Phys)
    requires f in taken ==> f !in s.tables && s.held[f] == 1
    ensures LinkedOne(s, taken, f)
  {
    assert multiset(taken)[f] == if f in taken then 1 else 0;
  }

  lemma LinkKeeps(m: Machine, s: System, taken: set<Phys>)
    requires Inv(m, s) && forall t | t in taken :: Exclusive(s, t)
    ensures Inv(m, Link(s, taken))
    ensures forall f | f !in taken && Exclusive(s, f) :: Exclusive(Link(s, taken), f)
  {
    hide Namers, References, WellMade, Isolated, Aligned;
    forall f ensures LinkedOne(s, taken, f) && (f in taken ==> f !in s.tables) {
      if f in taken {
        OnlyHeld(m, s, f);
      }
      LinkedFrame(s, taken, f);
    }
    hide Tabled;
  }

  lemma UnlinkedOne(s: System, gone: map<Phys, Bytes>, f: Phys)
    requires gone.Keys <= s.tables
    ensures Unlink(s, gone).held[f] + Tabled(Unlink(s, gone).tables, f) == s.held[f] + Tabled(s.tables, f)
  {
    assert multiset(gone.Keys)[f] == if f in gone.Keys then 1 else 0;
  }

  lemma UnlinkKeeps(m: Machine, s: System, gone: map<Phys, Bytes>)
    requires Inv(m, s) && gone.Keys <= s.tables
    ensures Inv(m, Unlink(s, gone))
  {
    hide Namers, References, WellMade, Isolated, Aligned;
    forall f ensures Unlink(s, gone).held[f] + Tabled(Unlink(s, gone).tables, f) == s.held[f] + Tabled(s.tables, f) {
      UnlinkedOne(s, gone, f);
    }
    hide Tabled;
  }

  // ---- sharing -------------------------------------------------------------

  lemma CountedJoin(m: Machine, s: System, slots: map<Slot, Word>, f: Phys)
    requires Counted(m, s) && Sole(s) && f !in s.tables
    requires forall g :: |Namers(m, slots, g)| == |Namers(m, s.slots, g)| + if f == g then 1 else 0
    ensures Counted(m, s.(slots := slots, counts := Held(s.counts, f)))
            && Sole(s.(slots := slots, counts := Held(s.counts, f)))
  {
    hide Namers;
  }

  lemma PageIsNoTable(m: Machine, s: System, k: Slot)
    requires Counted(m, s) && Sole(s) && k in s.slots
    ensures m.addr(s.slots[k]) !in s.tables
  {
    var f := m.addr(s.slots[k]);
    assert k in Namers(m, s.slots, f);
    if f in s.tables {
      TableIsNoPage(m, s, f);
    }
  }

  /** A slot rewritten with a descriptor of the same frame, which lets no store
    * through unless the slot is alone on it. */
  lemma SameFrameKeeps(m: Machine, s: System, k: Slot, bits: Word)
    requires Inv(m, s) && k in s.slots && m.addr(bits) == m.addr(s.slots[k]) && WellMade(m, bits)
    requires m.writes(bits) ==> Namers(m, s.slots, m.addr(bits)) == {k}
    ensures Inv(m, s.(slots := s.slots[k := bits]))
  {
    hide WellMade, Namers, References, Isolated, Aligned;
    SameFrame(m, s.slots, k, bits);
  }

  /** Another slot on the frame of one that lets no store through. */
  lemma JoinKeeps(m: Machine, s: System, from: Slot, to: Slot)
    requires Inv(m, s) && from in s.slots && to !in s.slots && from.page == to.page && !m.writes(s.slots[from])
    ensures Inv(m, s.(slots := s.slots[to := s.slots[from]], counts := Held(s.counts, m.addr(s.slots[from]))))
  {
    hide WellMade, Namers, References, Isolated, Held, Counted, Sole;
    JoinSlot(m, s.slots, from, to);
    PageIsNoTable(m, s, from);
    CountedJoin(m, s, s.slots[to := s.slots[from]], m.addr(s.slots[from]));
  }

  lemma SharedKeeps(m: Machine, s: System, from: Slot, to: Slot, done: bool)
    requires LawfulLeaf(m) && LawfulSharing(m) && Inv(m, s) && from in s.slots && from.page == to.page && from != to
             && (done ==> to !in s.slots)
    ensures Inv(m, Shared(m, s, from, to, done))
  {
    hide SharedBits, WellMade, LawfulLeaf, LawfulSharing, Held, Inv;
    var bits := SharedBits(m, s.slots[from]);
    InvIsMade(m, s);
    SharedIsReadOnly(m, s.slots[from]);
    SameFrameKeeps(m, s, from, bits);
    if done {
      JoinKeeps(m, s.(slots := s.slots[from := bits]), from, to);
    }
  }

  lemma ShareKeeps(m: Machine, s: System, parent: nat, child: nat, page: nat, taken: set<Phys>, done: bool)
    requires LawfulLeaf(m) && LawfulSharing(m) && Inv(m, s) && Enabled(m, s, ShareOne(parent, child, page, taken, done))
    ensures Inv(m, Apply(m, s, ShareOne(parent, child, page, taken, done)))
  {
    hide LawfulLeaf, LawfulSharing, Inv, Shared;
    if Slot(parent, page) in s.slots {
      LinkKeeps(m, s, taken);
      SharedKeeps(m, Link(s, taken), Slot(parent, page), Slot(child, page), done);
    }
  }

  // ---- breaking a share ----------------------------------------------------

  /** A descriptor the kernel made, of frame `f`, that the hardware writes through. */
  ghost predicate WritableOn(m: Machine, bits: Word, f: Phys) {
    WellMade(m, bits) && m.addr(bits) == f && m.writes(bits)
  }

  lemma OwnedIsMade(m: Machine, bits: Word, f: Phys)
    requires LawfulLeaf(m) && LawfulOwning(m) && WellMade(m, bits) && m.frame(f)
    ensures WritableOn(m, Broken(m, bits, CopyTo(f)), f)
  {
    var p, g :| m.frame(p) && m.asked(g) && bits == m.leaf(p, g);
    assert m.asked(m.flags(bits));
    var g' := m.owned(m.flags(bits));
    assert m.writes(m.leaf(f, g'));
    assert m.frame(f) && m.asked(g') && Broken(m, bits, CopyTo(f)) == m.leaf(f, g');
    LeafIsMade(m, f, g');
  }

  lemma TakeBackKeeps(m: Machine, s: System, slot: Slot)
    requires LawfulLeaf(m) && LawfulOwning(m) && Inv(m, s) && slot in s.slots
    requires References(s.counts, m.addr(s.slots[slot])) <= 1
    ensures var b := Broken(m, s.slots[slot], TakeBack);
            Inv(m, s.(slots := s.slots[slot := b])) && WritableOn(m, b, m.addr(s.slots[slot]))
  {
    hide WellMade, LawfulLeaf, LawfulOwning, References, Isolated, Aligned, Sole;
    var bits := s.slots[slot];
    var f := m.addr(bits);
    MadeNamesFrame(m, bits);
    OwnedIsMade(m, bits, f);
    assert Namers(m, s.slots, f) == {slot} by {
      assert slot in Namers(m, s.slots, f);
      SingleNamer(Namers(m, s.slots, f), slot);
    }
    SameFrameKeeps(m, s, slot, Broken(m, bits, TakeBack));
  }

  lemma SingleNamer(names: set<Slot>, k: Slot)
    requires k in names && |names| <= 1
    ensures names == {k}
  {
    assert |names - {k}| == 0;
  }

  lemma CountedMove(m: Machine, s: System, slot: Slot, bits: Word)
    requires Counted(m, s) && Exclusive(s, m.addr(bits)) && Sole(s)
    requires forall f :: |Namers(m, s.slots[slot := bits], f)|
                      == |Namers(m, s.slots, f)| - (if slot in s.slots && m.addr(s.slots[slot]) == f then 1 else 0)
                         + (if m.addr(bits) == f then 1 else 0)
    ensures Counted(m, Moved(m, s, slot, bits)) && Sole(Moved(m, s, slot, bits))
  {
    hide Namers, References;
    var s' := Moved(m, s, slot, bits);
    forall f ensures s'.held[f] == s.held[f] - (if m.addr(bits) == f then 1 else 0)
      + (if slot in s.slots && m.addr(s.slots[slot]) == f then 1 else 0) {
    }
  }

  /** A slot put on an exclusive frame, or moved to it. */
  lemma MovedKeeps(m: Machine, s: System, slot: Slot, bits: Word)
    requires LawfulLeaf(m) && Inv(m, s) && Exclusive(s, m.addr(bits)) && WellMade(m, bits)
    ensures Inv(m, Moved(m, s, slot, bits))
    ensures Namers(m, s.slots, m.addr(bits)) == {}
  {
    hide LawfulLeaf, WellMade, Namers, References, Isolated, Aligned, Counted, Sole, Exclusive, Made;
    OnlyHeld(m, s, m.addr(bits));
    MovedSlot(m, s.slots, slot, bits);
    CountedMove(m, s, slot, bits);
    MovedMade(m, s, slot, bits);
    MovedSlots(m, s, slot, bits);
  }

  lemma MovedMade(m: Machine, s: System, slot: Slot, bits: Word)
    requires LawfulLeaf(m) && Made(m, s) && WellMade(m, bits)
    ensures Made(m, Moved(m, s, slot, bits))
  {
    hide LawfulLeaf, WellMade;
    if slot in s.slots {
      MadeNamesFrame(m, s.slots[slot]);
    }
  }

  lemma DataIsApart(m: Machine, s: System, data: map<Phys, Bytes>)
    ensures Inv(m, s.(data := data)) <==> Inv(m, s)
  {
    hide Namers, References, WellMade;
  }

  lemma NothingBroken(m: Machine, s: System, slot: Slot, c: CowCase)
    requires slot in s.slots && !c.TakeBack? && !c.CopyTo?
    ensures s.(slots := s.slots[slot := Broken(m, s.slots[slot], c)]) == s
  {
    assert s.slots[slot := s.slots[slot]] == s.slots;
  }

  lemma CopyKeeps(m: Machine, s: System, slot: Slot, to: Phys)
    requires LawfulLeaf(m) && LawfulOwning(m) && Inv(m, s) && slot in s.slots && Exclusive(s, to)
    ensures var b := Broken(m, s.slots[slot], CopyTo(to));
            && Inv(m, Moved(m, s.(data := s.data[to := Contents(s, m.addr(s.slots[slot]))]), slot, b))
            && WritableOn(m, b, to) && Namers(m, s.slots, to) == {}
  {
    hide LawfulLeaf, LawfulOwning, WellMade, Namers, References, Broken, Isolated, Aligned, Counted, Sole, Contents,
         Moved;
    var b := Broken(m, s.slots[slot], CopyTo(to));
    OwnedIsMade(m, s.slots[slot], to);
    DataIsApart(m, s, s.data[to := Contents(s, m.addr(s.slots[slot]))]);
    MovedKeeps(m, s.(data := s.data[to := Contents(s, m.addr(s.slots[slot]))]), slot, b);
  }

  lemma BreakKeeps(m: Machine, s: System, slot: Slot, spare: Option<Phys>)
    requires LawfulLeaf(m) && LawfulOwning(m) && Inv(m, s) && Enabled(m, s, BreakCow(slot, spare))
    ensures Inv(m, Apply(m, s, BreakCow(slot, spare)))
  {
    hide LawfulLeaf, LawfulOwning, References, Inv, Broken, Contents, Moved;
    if slot in s.slots {
      var c := CaseOf(m, Lookup(s.slots, slot), s.counts, spare);
      if c.TakeBack? {
        TakeBackKeeps(m, s, slot);
      } else if c.CopyTo? {
        CopyKeeps(m, s, slot, c.to);
      } else {
        NothingBroken(m, s, slot, c);
      }
    }
  }

  // ---- putting in, taking away, changing -----------------------------------

  lemma PublishKeeps(m: Machine, s: System, slot: Slot, f: Phys, flags: Word, taken: set<Phys>, done: bool)
    requires LawfulLeaf(m) && Inv(m, s) && Enabled(m, s, Publish(slot, f, flags, taken, done))
    ensures Inv(m, Apply(m, s, Publish(slot, f, flags, taken, done)))
  {
    hide LawfulLeaf, WellMade, Namers, References, Isolated, Aligned, Counted, Sole, Link, Moved;
    LinkKeeps(m, s, taken);
    if done {
      LeafIsMade(m, f, flags);
      MovedKeeps(m, Link(s, taken), slot, m.leaf(f, flags));
    }
  }

  lemma ReplaceKeeps(m: Machine, s: System, slot: Slot, f: Phys, flags: Word)
    requires LawfulLeaf(m) && Inv(m, s) && Exclusive(s, f) && m.asked(flags)
    ensures Inv(m, Apply(m, s, Replace(slot, f, flags)))
  {
    hide LawfulLeaf, WellMade, Namers, References, Isolated, Aligned, Counted, Sole, Moved;
    if slot in s.slots {
      LeafIsMade(m, f, flags);
      MovedKeeps(m, s, slot, m.leaf(f, flags));
    }
  }

  /** Changing a page's flags keeps every writable page alone on its frame exactly
    * when the flags let no store through or no other slot has the frame. */
  lemma ProtectIsolates(m: Machine, s: System, slot: Slot, flags: Word)
    requires LawfulLeaf(m) && Inv(m, s) && slot in s.slots && m.asked(flags)
    ensures Isolated(m, Apply(m, s, Protect(slot, flags)).slots) <==> Harmless(m, s, slot, flags)
    ensures s.held[m.addr(s.slots[slot])] == 0 ==>
              (Harmless(m, s, slot, flags) <==>
                 (m.writes(m.leaf(m.addr(s.slots[slot]), flags)) ==> References(s.counts, m.addr(s.slots[slot])) == 1))
  {
    hide LawfulLeaf, WellMade, References, Aligned;
    var f := m.addr(s.slots[slot]);
    MadeNamesFrame(m, s.slots[slot]);
    LeafIsMade(m, f, flags);
    SameFrame(m, s.slots, slot, m.leaf(f, flags));
    if s.held[f] == 0 {
      AloneIsCounted(m, s, slot);
    }
  }

  /** With nothing held, a slot is alone on its frame when the count is one. */
  lemma AloneIsCounted(m: Machine, s: System, slot: Slot)
    requires Counted(m, s) && Sole(s) && slot in s.slots && s.held[m.addr(s.slots[slot])] == 0
    ensures Namers(m, s.slots, m.addr(s.slots[slot])) == {slot} <==> References(s.counts, m.addr(s.slots[slot])) == 1
  {
    var f := m.addr(s.slots[slot]);
    PageIsNoTable(m, s, slot);
    assert slot in Namers(m, s.slots, f);
    if |Namers(m, s.slots, f)| == 1 {
      SingleNamer(Namers(m, s.slots, f), slot);
    }
  }

  lemma ProtectKeeps(m: Machine, s: System, slot: Slot, flags: Word)
    requires LawfulLeaf(m) && Inv(m, s) && Enabled(m, s, Protect(slot, flags))
    ensures Inv(m, Apply(m, s, Protect(slot, flags)))
  {
    hide LawfulLeaf, WellMade, References, Namers, Inv;
    if slot in s.slots {
      InvIsMade(m, s);
      MadeNamesFrame(m, s.slots[slot]);
      LeafIsMade(m, m.addr(s.slots[slot]), flags);
      SameFrameKeeps(m, s, slot, m.leaf(m.addr(s.slots[slot]), flags));
    }
  }

  lemma UnmapKeeps(m: Machine, s: System, slot: Slot, gone: map<Phys, Bytes>)
    requires LawfulLeaf(m) && Inv(m, s) && gone.Keys <= s.tables
    ensures Inv(m, Apply(m, s, Unmap(slot, gone)))
  {
    hide LawfulLeaf, WellMade, Namers, References, Isolated, Unlink;
    if slot in s.slots {
      MadeNamesFrame(m, s.slots[slot]);
      LostSlot(m, s.slots, slot);
      UnlinkKeeps(m, s.(slots := s.slots - {slot}, held := s.held + multiset{m.addr(s.slots[slot])}), gone);
    }
  }

  lemma OthersNamed(m: Machine, slots: map<Slot, Word>, space: nat, f: Phys)
    ensures Namers(m, Others(slots, space), f) <= Namers(m, slots, f)
    ensures |Namers(m, Others(slots, space), f)| <= |Namers(m, slots, f)|
  {
    var fewer, all := Namers(m, Others(slots, space), f), Namers(m, slots, f);
    assert all == fewer + (all - fewer);
  }

  lemma CloseCounts(m: Machine, s: System, space: nat, gone: set<Phys>, f: Phys)
    requires Counted(m, s) && gone <= s.tables
    ensures |Namers(m, Others(s.slots, space), f)| <= |Namers(m, s.slots, f)|
    ensures References(Left(m, s, space, gone), f)
         == References(s.counts, f) - (|Namers(m, s.slots, f)| - |Namers(m, Others(s.slots, space), f)|)
            - Tabled(gone, f)
  {
    hide Namers, Others;
    OthersNamed(m, s.slots, space, f);
    assert References(s.counts, f) == |Namers(m, s.slots, f)| + Tabled(s.tables, f) + s.held[f];
  }

  lemma OthersIsolated(m: Machine, slots: map<Slot, Word>, space: nat)
    requires Isolated(m, slots) && Aligned(m, slots)
    ensures Isolated(m, Others(slots, space)) && Aligned(m, Others(slots, space))
  {
    var rest := Others(slots, space);
    forall k | k in rest && m.writes(rest[k]) ensures Namers(m, rest, m.addr(rest[k])) == {k} {
      OthersNamed(m, slots, space, m.addr(rest[k]));
      assert k in Namers(m, rest, m.addr(rest[k]));
    }
  }

  lemma CloseKeeps(m: Machine, s: System, space: nat, gone: map<Phys, Bytes>)
    requires Inv(m, s) && gone.Keys <= s.tables
    ensures Inv(m, Apply(m, s, Close(space, gone)))
  {
    hide Namers, Left, References, Isolated, Aligned, WellMade;
    var s' := Apply(m, s, Close(space, gone));
    OthersIsolated(m, s.slots, space);
    forall f ensures References(s'.counts, f) == |Namers(m, s'.slots, f)| + Tabled(s'.tables, f) + s'.held[f] {
      CloseCounts(m, s, space, gone.Keys, f);
    }
    forall f | f in s'.tables ensures References(s'.counts, f) == 1 {
      CloseCounts(m, s, space, gone.Keys, f);
      TableIsNoPage(m, s, f);
      OthersNamed(m, s.slots, space, f);
    }
  }

  lemma HoldKeeps(m: Machine, s: System, f: Phys)
    requires Inv(m, s) && m.frame(f) && References(s.counts, f) == 0
    ensures Inv(m, s.(counts := Held(s.counts, f), held := s.held + multiset{f}))
  {
    hide Namers;
  }

  lemma DropKeeps(m: Machine, s: System, frames: seq<Phys>)
    requires Inv(m, s) && multiset(frames) <= s.held
    ensures Inv(m, s.(counts := ReleasedAll(s.counts, frames), held := s.held - multiset(frames)))
  {
    hide Namers, References, ReleasedAll, WellMade, Isolated, Aligned;
    forall f ensures References(ReleasedAll(s.counts, frames), f) == References(s.counts, f) - multiset(frames)[f] {
      assert multiset(frames)[f] <= s.held[f];
      ReleasedEach(s.counts, frames, f);
    }
    forall f | f in s.tables ensures s.held[f] == 0 {
      TableIsNoPage(m, s, f);
    }
  }

  /** Every step keeps the accounting and the isolation. */
  lemma StepKeeps(m: Machine, s: System, step: Step)
    requires Lawful(m) && Inv(m, s) && Enabled(m, s, step)
    ensures Inv(m, Apply(m, s, step))
  {
    match step
    case ShareOne(parent, child, page, taken, done) => ShareKeeps(m, s, parent, child, page, taken, done);
    case BreakCow(slot, spare) => BreakKeeps(m, s, slot, spare);
    case Publish(slot, f, flags, taken, done) => PublishKeeps(m, s, slot, f, flags, taken, done);
    case Replace(slot, f, flags) => ReplaceKeeps(m, s, slot, f, flags);
    case Protect(slot, flags) => ProtectKeeps(m, s, slot, flags);
    case Unmap(slot, gone) => UnmapKeeps(m, s, slot, gone);
    case Close(space, gone) => CloseKeeps(m, s, space, gone);
    case Alloc(f, _) => HoldKeeps(m, s, f);
    case Drop(frames) => DropKeeps(m, s, frames);
    case Open(f) => LinkKeeps(m, s, {f});
    case _ =>
  }

  // ---- what each space sees ------------------------------------------------

  /** The bytes a program reads at the slot. */
  function View(m: Machine, s: System, k: Slot): Option<Bytes> {
    if k in s.slots then Some(Contents(s, m.addr(s.slots[k]))) else None
  }

  /** The step is about what is at this slot: it puts something there, takes it
    * away or writes it. Marking a page and breaking a share are not. */
  predicate Touches(step: Step, k: Slot) {
    match step
    case ShareOne(_, child, page, _, done) => done && k == Slot(child, page)
    case Publish(slot, _, _, _, done) => done && k == slot
    case Replace(slot, _, _) => k == slot
    case Unmap(slot, _) => k == slot
    case Write(slot, _) => k == slot
    case Close(space, _) => k.space == space
    case _ => false
  }

  lemma ViewElsewhere(m: Machine, s: System, f: Phys, bytes: Bytes, k: Slot)
    requires k !in Namers(m, s.slots, f)
    ensures View(m, s.(data := s.data[f := bytes]), k) == View(m, s, k)
  {
  }

  lemma LinkSeen(m: Machine, s: System, taken: set<Phys>, k: Slot)
    requires Inv(m, s) && forall t | t in taken :: Exclusive(s, t)
    ensures View(m, Link(s, taken), k) == View(m, s, k)
  {
    if k in s.slots {
      forall t | t in taken ensures m.addr(s.slots[k]) != t {
        OnlyHeld(m, s, t);
        NotNaming(m, s.slots, t);
      }
    }
  }

  lemma TablesUnseen(m: Machine, s: System, gone: map<Phys, Bytes>, k: Slot)
    requires Inv(m, s) && gone.Keys <= s.tables && k in s.slots
    ensures m.addr(s.slots[k]) !in gone
  {
    PageIsNoTable(m, s, k);
  }

  lemma SharedSeen(m: Machine, s: System, from: Slot, to: Slot, done: bool, k: Slot)
    requires LawfulLeaf(m) && LawfulSharing(m) && Made(m, s) && from in s.slots
    ensures var s' := Shared(m, s, from, to, done);
            && (!(done && k == to) ==> View(m, s', k) == View(m, s, k))
            && (done ==> View(m, s', to) == View(m, s, from))
  {
    hide LawfulLeaf, LawfulSharing, SharedBits, WellMade, Held;
    SharedIsReadOnly(m, s.slots[from]);
  }

  lemma ShareSeen(m: Machine, s: System, parent: nat, child: nat, page: nat, taken: set<Phys>, done: bool, k: Slot)
    requires LawfulLeaf(m) && LawfulSharing(m) && Inv(m, s) && Enabled(m, s, ShareOne(parent, child, page, taken, done))
    ensures var s' := Apply(m, s, ShareOne(parent, child, page, taken, done));
            && (!(done && k == Slot(child, page)) ==> View(m, s', k) == View(m, s, k))
            && (Slot(parent, page) in s.slots && done
                ==> View(m, s', Slot(child, page)) == View(m, s, Slot(parent, page)))
  {
    hide LawfulLeaf, LawfulSharing, Inv, Shared, View, Made;
    if Slot(parent, page) in s.slots {
      LinkKeeps(m, s, taken);
      LinkSeen(m, s, taken, k);
      LinkSeen(m, s, taken, Slot(parent, page));
      InvIsMade(m, Link(s, taken));
      SharedSeen(m, Link(s, taken), Slot(parent, page), Slot(child, page), done, k);
    }
  }

  lemma InvIsMade(m: Machine, s: System)
    requires Inv(m, s)
    ensures Made(m, s)
  {
  }

  lemma CopySeen(m: Machine, s: System, slot: Slot, b: Word, k: Slot)
    requires slot in s.slots && forall j | j in s.slots :: m.addr(s.slots[j]) != m.addr(b)
    ensures View(m, Moved(m, s.(data := s.data[m.addr(b) := Contents(s, m.addr(s.slots[slot]))]), slot, b), k)
            == View(m, s, k)
  {
  }

  lemma SameSeen(m: Machine, s: System, slot: Slot, b: Word, k: Slot)
    requires slot in s.slots && m.addr(s.slots[slot]) == m.addr(b)
    ensures View(m, s.(slots := s.slots[slot := b]), k) == View(m, s, k)
  {
  }

  lemma BreakSeen(m: Machine, s: System, slot: Slot, spare: Option<Phys>, k: Slot)
    requires LawfulLeaf(m) && LawfulOwning(m) && Inv(m, s) && Enabled(m, s, BreakCow(slot, spare))
    ensures View(m, Apply(m, s, BreakCow(slot, spare)), k) == View(m, s, k)
  {
    hide LawfulLeaf, LawfulOwning, WellMade, Inv, References, Broken, Namers, View, Contents, Moved;
    if slot in s.slots {
      var bits := s.slots[slot];
      var c := CaseOf(m, Lookup(s.slots, slot), s.counts, spare);
      if c.TakeBack? {
        TakeBackKeeps(m, s, slot);
        SameSeen(m, s, slot, Broken(m, bits, c), k);
      } else if c.CopyTo? {
        CopyKeeps(m, s, slot, c.to);
        NotNaming(m, s.slots, c.to);
        CopySeen(m, s, slot, Broken(m, bits, c), k);
      } else {
        NothingBroken(m, s, slot, c);
      }
    }
  }

  lemma DataSeen(m: Machine, s: System, step: Step, k: Slot)
    requires Inv(m, s) && Enabled(m, s, step) && !Touches(step, k) && (step.Alloc? || step.Fill? || step.Write?)
    ensures View(m, Apply(m, s, step), k) == View(m, s, k)
  {
    hide View, Namers, Aligned, Made, Sole, References, Held, Counted;
    match step
    case Alloc(f, bytes) =>
      FreeIsUnnamed(m, s, f);
      ViewElsewhere(m, s, f, bytes, k);
      ViewSame(m, s.(data := s.data[f := bytes]), Apply(m, s, step), k);
    case Fill(f, bytes) =>
      OnlyHeld(m, s, f);
      ViewElsewhere(m, s, f, bytes, k);
    case Write(slot, bytes) =>
      assert Namers(m, s.slots, m.addr(s.slots[slot])) == {slot};
      ViewElsewhere(m, s, m.addr(s.slots[slot]), bytes, k);
  }

  lemma ViewSame(m: Machine, s: System, s': System, k: Slot)
    requires s'.slots == s.slots && s'.data == s.data
    ensures View(m, s', k) == View(m, s, k)
  {
  }

  lemma ProtectSeen(m: Machine, s: System, slot: Slot, flags: Word, k: Slot)
    requires LawfulLeaf(m) && Made(m, s) && m.asked(flags)
    ensures View(m, Apply(m, s, Protect(slot, flags)), k) == View(m, s, k)
  {
    hide LawfulLeaf, WellMade, View;
    if slot in s.slots {
      MadeNamesFrame(m, s.slots[slot]);
      LeafIsMade(m, m.addr(s.slots[slot]), flags);
      SameSeen(m, s, slot, m.leaf(m.addr(s.slots[slot]), flags), k);
    }
  }

  lemma SlotSeen(m: Machine, s: System, step: Step, k: Slot)
    requires Inv(m, s) && Enabled(m, s, step) && !Touches(step, k)
    requires step.Publish? || step.Replace? || step.Unmap? || step.Close? || step.Drop? || step.Open?
    ensures View(m, Apply(m, s, step), k) == View(m, s, k)
  {
    hide Inv, Namers, References, ReleasedAll, Left, View, Moved, Link, Unlink, Others;
    match step
    case Publish(slot, f, flags, taken, done) =>
      LinkSeen(m, s, taken, k);
      MovedSeen(m, Link(s, taken), slot, m.leaf(f, flags), k);
    case Replace(slot, f, flags) => MovedSeen(m, s, slot, m.leaf(f, flags), k);
    case Open(f) => LinkSeen(m, s, {f}, k);
    case Unmap(slot, gone) => UnmapSeen(m, s, slot, gone, k);
    case Close(space, gone) => CloseSeen(m, s, space, gone, k);
    case Drop(frames) => ViewSame(m, s, Apply(m, s, step), k);
  }

  lemma MovedSeen(m: Machine, s: System, slot: Slot, bits: Word, k: Slot)
    ensures k != slot ==> View(m, Moved(m, s, slot, bits), k) == View(m, s, k)
  {
  }

  lemma UnmapSeen(m: Machine, s: System, slot: Slot, gone: map<Phys, Bytes>, k: Slot)
    requires Inv(m, s) && gone.Keys <= s.tables && k != slot
    ensures View(m, Apply(m, s, Unmap(slot, gone)), k) == View(m, s, k)
  {
    hide Inv;
    if k in s.slots {
      TablesUnseen(m, s, gone, k);
    }
  }

  lemma CloseSeen(m: Machine, s: System, space: nat, gone: map<Phys, Bytes>, k: Slot)
    requires Inv(m, s) && gone.Keys <= s.tables && k.space != space
    ensures View(m, Apply(m, s, Close(space, gone)), k) == View(m, s, k)
  {
    hide Inv, Left;
    if k in s.slots {
      TablesUnseen(m, s, gone, k);
    }
  }

  /** No step changes a byte seen at a slot it is not about. */
  lemma StepSeen(m: Machine, s: System, step: Step, k: Slot)
    requires Lawful(m) && Inv(m, s) && Enabled(m, s, step) && !Touches(step, k)
    ensures View(m, Apply(m, s, step), k) == View(m, s, k)
  {
    hide LawfulLeaf, LawfulOwning, LawfulSharing, LawfulTable, Inv, View, Enabled, Apply;
    match step
    case ShareOne(parent, child, page, taken, done) => ShareSeen(m, s, parent, child, page, taken, done, k);
    case BreakCow(slot, spare) => BreakSeen(m, s, slot, spare, k);
    case Protect(slot, flags) => ProtectUnseen(m, s, slot, flags, k);
    case Alloc(_, _) => DataSeen(m, s, step, k);
    case Fill(_, _) => DataSeen(m, s, step, k);
    case Write(_, _) => DataSeen(m, s, step, k);
    case _ => SlotSeen(m, s, step, k);
  }

  lemma ProtectUnseen(m: Machine, s: System, slot: Slot, flags: Word, k: Slot)
    requires LawfulLeaf(m) && Inv(m, s) && Enabled(m, s, Protect(slot, flags))
    ensures View(m, Apply(m, s, Protect(slot, flags)), k) == View(m, s, k)
  {
    hide LawfulLeaf, Apply, View;
    ProtectSeen(m, s, slot, flags, k);
  }

  /** A frame the allocator can hand out is one no descriptor names, of a page or of
    * a table, and nobody holds. */
  lemma FreeIsUnnamed(m: Machine, s: System, f: Phys)
    requires Counted(m, s) && References(s.counts, f) == 0
    ensures Namers(m, s.slots, f) == {} && f !in s.tables && f !in s.held
  {
    assert |Namers(m, s.slots, f)| == 0;
  }

  // ---- runs ----------------------------------------------------------------

  ghost predicate Run(m: Machine, s: System, steps: seq<Step>, s': System)
    decreases |steps|
  {
    if steps == [] then s' == s else
    Enabled(m, s, steps[0]) && Run(m, Apply(m, s, steps[0]), steps[1..], s')
  }

  /** After any run the counts are the references, and a frame two slots name is
    * hardware-writable through neither. */
  lemma {:induction false} RunKeeps(m: Machine, s: System, steps: seq<Step>, s': System)
    requires Lawful(m) && Inv(m, s) && Run(m, s, steps, s')
    ensures Inv(m, s')
    ensures forall k, j | k in s'.slots && j in s'.slots && k != j && m.addr(s'.slots[k]) == m.addr(s'.slots[j]) ::
              !m.writes(s'.slots[k]) && !m.writes(s'.slots[j])
    decreases |steps|
  {
    hide Lawful, Enabled, Apply, Counted, Made, Sole, Aligned;
    if steps == [] {
      forall k, j | k in s'.slots && j in s'.slots && k != j && m.addr(s'.slots[k]) == m.addr(s'.slots[j])
        ensures !m.writes(s'.slots[k]) && !m.writes(s'.slots[j])
      {
        SoleWriter(m, s'.slots, k, j);
        SoleWriter(m, s'.slots, j, k);
      }
    } else {
      StepKeeps(m, s, steps[0]);
      RunKeeps(m, Apply(m, s, steps[0]), steps[1..], s');
    }
  }

  /** Over any run, what a program sees at a page changes only by steps about that
    * page of that space, whatever every other space does. */
  lemma {:induction false} RunSeen(m: Machine, s: System, steps: seq<Step>, s': System, k: Slot)
    requires Lawful(m) && Inv(m, s) && Run(m, s, steps, s')
    requires forall step | step in steps :: !Touches(step, k)
    ensures View(m, s', k) == View(m, s, k)
    decreases |steps|
  {
    hide Lawful, Enabled, Apply, Inv, View, Touches;
    if steps != [] {
      StepKeeps(m, s, steps[0]);
      StepSeen(m, s, steps[0], k);
      RunSeen(m, Apply(m, s, steps[0]), steps[1..], s', k);
    }
  }

  /** When a break says no: nothing is mapped, the page was never one to write, or
    * a copy is needed and there is no frame for one. */
  ghost predicate CannotWrite(m: Machine, s: System, slot: Slot, spare: Option<Phys>) {
    slot in s.slots ==>
      var flags := m.flags(s.slots[slot]);
      if m.marked(flags) then References(s.counts, m.addr(s.slots[slot])) > 1 && spare.None? else !m.permits(flags)
  }

  /** The page is writable, alone on its frame. */
  ghost predicate Alone(m: Machine, s: System, slot: Slot) {
    slot in s.slots && m.writes(s.slots[slot]) && Namers(m, s.slots, m.addr(s.slots[slot])) == {slot}
  }

  lemma BreakLeavesWritable(m: Machine, s: System, slot: Slot, spare: Option<Phys>)
    requires LawfulLeaf(m) && LawfulOwning(m) && Inv(m, s) && Enabled(m, s, BreakCow(slot, spare))
    ensures var c, s' := CaseOf(m, Lookup(s.slots, slot), s.counts, spare), Apply(m, s, BreakCow(slot, spare));
            && (MayWrite(c) ==> slot in s'.slots && m.writes(s'.slots[slot]))
            && (!MayWrite(c) ==> s' == s)
            && s'.slots - {slot} == s.slots - {slot}
  {
    hide LawfulLeaf, LawfulOwning, WellMade, Counted, Sole, References, Broken, Namers, Isolated, Aligned, Contents,
         Apply, Exclusive, Moved;
    BreakSlots(m, s, slot, spare);
    if slot in s.slots {
      var c := CaseOf(m, Lookup(s.slots, slot), s.counts, spare);
      if c.TakeBack? {
        TakeBackKeeps(m, s, slot);
      } else if c.CopyTo? {
        CopyKeeps(m, s, slot, c.to);
      } else {
        PermittedIsWritable(m, s.slots[slot]);
      }
    }
  }

  lemma BreakSlots(m: Machine, s: System, slot: Slot, spare: Option<Phys>)
    ensures var c, s' := CaseOf(m, Lookup(s.slots, slot), s.counts, spare), Apply(m, s, BreakCow(slot, spare));
            && (slot in s.slots && (c.TakeBack? || c.CopyTo?)
                ==> s'.slots == s.slots[slot := Broken(m, s.slots[slot], c)])
            && (slot !in s.slots || (!c.TakeBack? && !c.CopyTo?) ==> s' == s)
            && s'.slots - {slot} == s.slots - {slot}
  {
    hide Broken, CaseOf, Contents, Moved;
    if slot in s.slots {
      var c := CaseOf(m, Lookup(s.slots, slot), s.counts, spare);
      if c.CopyTo? {
        MovedSlots(m, s.(data := s.data[c.to := Contents(s, m.addr(s.slots[slot]))]), slot,
                   Broken(m, s.slots[slot], c));
      } else if !c.TakeBack? {
        NothingBroken(m, s, slot, c);
      }
      CutSame(s.slots, slot, Broken(m, s.slots[slot], c));
    }
  }

  lemma MovedSlots(m: Machine, s: System, slot: Slot, bits: Word)
    ensures Moved(m, s, slot, bits).slots == s.slots[slot := bits]
  {
  }

  lemma CutSame(slots: map<Slot, Word>, slot: Slot, bits: Word)
    ensures slots[slot := bits] - {slot} == slots - {slot}
  {
  }

  /** A break that says a write may be made leaves the page writable, alone on its
    * frame and with the bytes it had; whatever it says, every other slot is as it
    * was. */
  lemma BreakCowRepairs(m: Machine, s: System, slot: Slot, spare: Option<Phys>)
    requires Lawful(m) && Inv(m, s) && Enabled(m, s, BreakCow(slot, spare))
    ensures var c, s' := CaseOf(m, Lookup(s.slots, slot), s.counts, spare), Apply(m, s, BreakCow(slot, spare));
            && (MayWrite(c) ==> Alone(m, s', slot))
            && (!MayWrite(c) ==> s' == s)
            && (forall k :: View(m, s', k) == View(m, s, k))
            && s'.slots - {slot} == s.slots - {slot}
            && (MayWrite(c) <==> !CannotWrite(m, s, slot, spare))
  {
    hide LawfulLeaf, LawfulOwning, LawfulSharing, LawfulTable, Made, Counted, Sole, Aligned, References, Broken, Namers,
         Apply, Enabled, View;
    BreakKeeps(m, s, slot, spare);
    forall k ensures View(m, Apply(m, s, BreakCow(slot, spare)), k) == View(m, s, k) {
      BreakSeen(m, s, slot, spare, k);
    }
    BreakLeavesWritable(m, s, slot, spare);
  }

  lemma PermittedIsWritable(m: Machine, bits: Word)
    requires LawfulLeaf(m) && LawfulOwning(m) && WellMade(m, bits)
    ensures m.permits(m.flags(bits)) && !m.marked(m.flags(bits)) ==> m.writes(bits)
  {
  }
}
