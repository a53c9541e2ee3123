/** Descriptors: how a machine writes them and reads them back.
  *
  * `Machine` is the descriptor half of the kernel's `Machine` trait, as a record
  * of functions. Everything about the walk is proved from `Lawful`, and the two
  * machines the kernel runs on are shown to be lawful at the end.
  */
module Machines {

  /** A descriptor, and the flags a caller asks for in one. */
  type Word = bv64

  /** A physical address. */
  datatype Phys = Phys(bits: bv64)

  datatype Option<+T> = None | Some(value: T)

  datatype Machine = Machine(
    // Descriptor of a last-level entry naming a frame with flags.
    leaf: (Phys, Word) -> Word,
    // The descriptor of a table that a leaf with these flags is to be below.
    table: (Phys, Word) -> Word,
    present: Word -> bool,
    // The walk stops at this descriptor at this level.
    endsWalk: (Word, nat) -> bool,
    addr: Word -> Phys,
    flags: Word -> Word,
    // The flags both sides of a shared page get, or none when it needs no mark.
    shared: Word -> Option<Word>,
    // What a table descriptor must become for a leaf under it to be reached.
    widen: (Word, Word) -> Option<Word>,
    // The address is one a descriptor can name.
    frame: Phys -> bool,
    // The flags are ones the kernel asks for: the present bit is among them.
    asked: Word -> bool,
    // The hardware lets a store through this last-level descriptor.
    writes: Word -> bool,
    // The flags carry the copy-on-write mark.
    marked: Word -> bool,
    // The flags give a program write permission.
    permits: Word -> bool,
    // The flags a private copy gets: the mark gone, write permission given.
    owned: Word -> Word
  )

  /** A leaf names its frame, is followed, and reads back as what was written. */
  ghost predicate LawfulLeaf(m: Machine) {
    && !m.present(0)
    && (forall p, f {:trigger m.leaf(p, f)} :: m.frame(p) && m.asked(f) ==>
          && m.present(m.leaf(p, f))
          && m.addr(m.leaf(p, f)) == p
          && m.asked(m.flags(m.leaf(p, f)))
          && m.leaf(p, m.flags(m.leaf(p, f))) == m.leaf(p, f))
  }

  /** A table descriptor names its table, and widening one changes neither what
    * it names nor whether it is followed. */
  ghost predicate LawfulTable(m: Machine) {
    && (forall p, u {:trigger m.table(p, u)} :: m.frame(p) ==>
          && m.present(m.table(p, u))
          && m.addr(m.table(p, u)) == p
          && forall level :: !m.endsWalk(m.table(p, u), level))
    && (forall b, u {:trigger m.widen(b, u)} :: m.present(b) && m.widen(b, u).Some? ==>
          && m.present(m.widen(b, u).value)
          && m.addr(m.widen(b, u).value) == m.addr(b)
          && forall level :: m.endsWalk(m.widen(b, u).value, level) == m.endsWalk(b, level))
    && (forall b {:trigger m.endsWalk(b, 0)} :: !m.endsWalk(b, 0))
  }

  /** Sharing takes the hardware's write permission from a page, and leaves a
    * mark wherever it took something. */
  ghost predicate LawfulSharing(m: Machine) {
    && (forall f {:trigger m.shared(f)} :: m.asked(f) && m.shared(f).Some? ==>
          m.asked(m.shared(f).value) && m.marked(m.shared(f).value))
    && (forall p, f {:trigger m.leaf(p, f)} :: m.frame(p) && m.asked(f) ==>
          match m.shared(f)
          case None => !m.writes(m.leaf(p, f))
          case Some(g) => !m.writes(m.leaf(p, g)))
  }

  /** Giving a page to one owner puts the permission back and takes the mark
    * away, and flags with permission and no mark are flags the hardware writes
    * through. */
  ghost predicate LawfulOwning(m: Machine) {
    && (forall p, f {:trigger m.leaf(p, m.owned(f))} :: m.frame(p) && m.asked(f) ==>
          m.asked(m.owned(f)) && !m.marked(m.owned(f)) && m.writes(m.leaf(p, m.owned(f))))
    && (forall p, f {:trigger m.leaf(p, f)} :: m.frame(p) && m.asked(f) ==>
          var read := m.flags(m.leaf(p, f));
          m.permits(read) && !m.marked(read) ==> m.writes(m.leaf(p, f)))
  }

  ghost predicate Lawful(m: Machine) {
    LawfulLeaf(m) && LawfulTable(m) && LawfulSharing(m) && LawfulOwning(m)
  }

  // ---- x86-64 --------------------------------------------------------------

  const X86_PRESENT: Word := 0x1
  const X86_WRITABLE: Word := 0x2
  const X86_USER: Word := 0x4
  const X86_HUGE: Word := 0x80
  const X86_COW: Word := 0x200
  const X86_NO_EXECUTE: Word := 0x8000_0000_0000_0000
  const X86_ADDR: Word := 0x000F_FFFF_FFFF_F000

  function X86Leaf(p: Phys, f: Word): Word { (p.bits & X86_ADDR) | (f & !X86_ADDR) | X86_PRESENT }
  function X86Table(p: Phys, u: Word): Word { (p.bits & X86_ADDR) | X86_PRESENT | X86_WRITABLE | (u & X86_USER) }
  predicate X86Present(b: Word) { b & X86_PRESENT != 0 }
  predicate X86EndsWalk(b: Word, level: nat) { level > 0 && b & X86_HUGE != 0 }
  function X86Addr(b: Word): Phys { Phys(b & X86_ADDR) }
  function X86Flags(b: Word): Word { b & !X86_ADDR }
  function X86Shared(f: Word): Option<Word> {
    if f & X86_WRITABLE != 0 then Some((f & !X86_WRITABLE) | X86_COW) else None
  }
  function X86Widen(b: Word, f: Word): Option<Word> {
    if f & X86_USER != 0 && b & X86_USER == 0 then Some(b | X86_USER) else None
  }
  predicate X86Frame(p: Phys) { p.bits & !X86_ADDR == 0 }
  predicate X86Asked(f: Word) { f & X86_PRESENT != 0 }
  predicate X86Writes(b: Word) { b & X86_WRITABLE != 0 }
  predicate X86Marked(f: Word) { f & X86_COW != 0 }
  predicate X86Permits(f: Word) { f & X86_WRITABLE != 0 && f & X86_USER != 0 }
  function X86Owned(f: Word): Word { (f & !X86_COW) | X86_WRITABLE }

  const X86: Machine := Machine(
    X86Leaf, X86Table, X86Present, X86EndsWalk, X86Addr, X86Flags, X86Shared,
    X86Widen, X86Frame, X86Asked, X86Writes, X86Marked, X86Permits, X86Owned)

  lemma X86LeafLaws(p: Phys, f: Word)
    requires X86Frame(p) && X86Asked(f)
    ensures X86Present(X86Leaf(p, f))
    ensures X86Addr(X86Leaf(p, f)) == p
    ensures X86Asked(X86Flags(X86Leaf(p, f)))
    ensures X86Leaf(p, X86Flags(X86Leaf(p, f))) == X86Leaf(p, f)
  {
  }

  lemma X86SharingLaws(p: Phys, f: Word)
    requires X86Frame(p) && X86Asked(f)
    ensures match X86Shared(f)
            case None => !X86Writes(X86Leaf(p, f))
            case Some(g) => X86Asked(g) && X86Marked(g) && !X86Writes(X86Leaf(p, g))
    ensures X86Asked(X86Owned(f)) && !X86Marked(X86Owned(f)) && X86Writes(X86Leaf(p, X86Owned(f)))
    ensures var read := X86Flags(X86Leaf(p, f)); X86Permits(read) && !X86Marked(read) ==> X86Writes(X86Leaf(p, f))
  {
  }

  lemma X86TableLaws(p: Phys, u: Word)
    requires X86Frame(p)
    ensures X86Present(X86Table(p, u)) && X86Addr(X86Table(p, u)) == p
    ensures forall level :: !X86EndsWalk(X86Table(p, u), level)
  {
  }

  lemma X86WidenLaws(b: Word, w: Word)
    requires w == b | X86_USER
    ensures X86Present(w) == X86Present(b) && X86Addr(w) == X86Addr(b) && w & X86_HUGE == b & X86_HUGE
  {
    OrKeeps(b, X86_USER, X86_PRESENT);
    OrKeeps(b, X86_USER, X86_ADDR);
    OrKeeps(b, X86_USER, X86_HUGE);
  }

  /** Setting a bit outside a mask does not show through the mask. */
  lemma OrKeeps(b: Word, bit: Word, mask: Word)
    requires bit & mask == 0
    ensures (b | bit) & mask == b & mask
  {
  }

  // ---- AArch64 -------------------------------------------------------------

  const ARM_PRESENT: Word := 0x1
  const ARM_PAGE: Word := 0x2
  const ARM_USER: Word := 0x40
  const ARM_READ_ONLY: Word := 0x80
  const ARM_SHAREABLE: Word := 0x300
  const ARM_ACCESSED: Word := 0x400
  const ARM_NO_EXECUTE_EL1: Word := 0x0020_0000_0000_0000
  const ARM_NO_EXECUTE: Word := 0x0040_0000_0000_0000
  const ARM_WRITABLE: Word := 0x0080_0000_0000_0000
  const ARM_COW: Word := 0x0100_0000_0000_0000
  const ARM_ADDR: Word := 0x0000_FFFF_FFFF_F000

  /** Bit 55 says whether the page may be written. The hardware's read-only bit
    * follows from it and from the share mark each time a leaf is made. */
  function ArmLeaf(p: Phys, f: Word): Word {
    ArmBits(p.bits, f, f & ARM_WRITABLE == 0 || f & ARM_COW != 0, f & (ARM_NO_EXECUTE | ARM_USER) != 0)
  }

  function ArmBits(p: Word, f: Word, readOnly: bool, never: bool): Word {
    var bits := (p & ARM_ADDR) | (f & !ARM_ADDR) | ARM_PAGE | ARM_ACCESSED | ARM_SHAREABLE;
    (bits & !ArmClear(readOnly)) | ArmLast(readOnly, never)
  }

  function ArmClear(readOnly: bool): Word {
    if readOnly then 0 else ARM_READ_ONLY
  }

  function ArmLast(readOnly: bool, never: bool): Word {
    (if readOnly then ARM_READ_ONLY else 0) | (if never then ARM_NO_EXECUTE_EL1 else 0)
  }

  function ArmTable(p: Phys, u: Word): Word { (p.bits & ARM_ADDR) | ARM_PRESENT | ARM_PAGE }
  predicate ArmPresent(b: Word) { b & ARM_PRESENT != 0 }
  predicate ArmEndsWalk(b: Word, level: nat) { level > 0 && b & ARM_PAGE == 0 }
  function ArmAddr(b: Word): Phys { Phys(b & ARM_ADDR) }
  function ArmFlags(b: Word): Word { b & !ARM_ADDR }
  function ArmShared(f: Word): Option<Word> {
    if f & ARM_WRITABLE != 0 then Some(f | ARM_COW) else None
  }
  function ArmWiden(b: Word, f: Word): Option<Word> { None }
  predicate ArmFrame(p: Phys) { p.bits & !ARM_ADDR == 0 }
  predicate ArmAsked(f: Word) { f & ARM_PRESENT != 0 }
  predicate ArmWrites(b: Word) { b & ARM_READ_ONLY == 0 }
  predicate ArmMarked(f: Word) { f & ARM_COW != 0 }
  predicate ArmPermits(f: Word) { f & ARM_WRITABLE != 0 && f & ARM_USER != 0 }
  function ArmOwned(f: Word): Word { (f & !ARM_COW) | ARM_WRITABLE }

  const AArch64: Machine := Machine(
    ArmLeaf, ArmTable, ArmPresent, ArmEndsWalk, ArmAddr, ArmFlags, ArmShared,
    ArmWiden, ArmFrame, ArmAsked, ArmWrites, ArmMarked, ArmPermits, ArmOwned)

  lemma ArmLeafNames(p: Phys, f: Word)
    requires ArmFrame(p) && ArmAsked(f)
    ensures ArmPresent(ArmLeaf(p, f)) && ArmAddr(ArmLeaf(p, f)) == p
    ensures ArmAsked(ArmFlags(ArmLeaf(p, f)))
  {
  }

  /** The bits a leaf's permissions are derived from are kept in it. */
  lemma ArmLeafKeepsAsked(p: Phys, f: Word)
    ensures ArmFlags(ArmLeaf(p, f)) & ARM_WRITABLE == f & ARM_WRITABLE
    ensures ArmFlags(ArmLeaf(p, f)) & ARM_COW == f & ARM_COW
    ensures ArmFlags(ArmLeaf(p, f)) & (ARM_NO_EXECUTE | ARM_USER) == f & (ARM_NO_EXECUTE | ARM_USER)
  {
  }

  lemma MaskSettles(a: Word, p: Word, f: Word, s0: Word, s1: Word, s2: Word, clear: Word, last: Word, w: Word)
    requires w == (((p & a) | (f & !a) | s0 | s1 | s2) & !clear) | last
    ensures (((p & a) | ((w & !a) & !a) | s0 | s1 | s2) & !clear) | last == w
  {
  }

  lemma ArmBitsSettle(p: Word, f: Word, readOnly: bool, never: bool)
    ensures ArmBits(p, ArmFlags(ArmBits(p, f, readOnly, never)), readOnly, never) == ArmBits(p, f, readOnly, never)
  {
    var clear, last := ArmClear(readOnly), ArmLast(readOnly, never);
    MaskSettles(ARM_ADDR, p, f, ARM_PAGE, ARM_ACCESSED, ARM_SHAREABLE, clear, last, ArmBits(p, f, readOnly, never));
  }

  lemma ArmLeafReadsBack(p: Phys, f: Word)
    ensures ArmLeaf(p, ArmFlags(ArmLeaf(p, f))) == ArmLeaf(p, f)
  {
    ArmLeafKeepsAsked(p, f);
    ArmBitsSettle(p.bits, f, f & ARM_WRITABLE == 0 || f & ARM_COW != 0, f & (ARM_NO_EXECUTE | ARM_USER) != 0);
  }

  lemma ArmSharedIsReadOnly(p: Phys, f: Word)
    requires ArmFrame(p) && ArmAsked(f)
    ensures match ArmShared(f)
            case None => !ArmWrites(ArmLeaf(p, f))
            case Some(g) => ArmAsked(g) && ArmMarked(g) && !ArmWrites(ArmLeaf(p, g))
  {
  }

  lemma ArmOwnedIsWritable(p: Phys, f: Word)
    requires ArmFrame(p) && ArmAsked(f)
    ensures ArmAsked(ArmOwned(f)) && !ArmMarked(ArmOwned(f)) && ArmWrites(ArmLeaf(p, ArmOwned(f)))
    ensures var read := ArmFlags(ArmLeaf(p, f)); ArmPermits(read) && !ArmMarked(read) ==> ArmWrites(ArmLeaf(p, f))
  {
  }

  lemma ArmTableLaws(p: Phys, u: Word)
    requires ArmFrame(p)
    ensures ArmPresent(ArmTable(p, u)) && ArmAddr(ArmTable(p, u)) == p
    ensures forall level :: !ArmEndsWalk(ArmTable(p, u), level)
  {
  }

  lemma X86LeafLawful()
    ensures LawfulLeaf(X86)
  {
    forall p, f | X86Frame(p) && X86Asked(f)
      ensures X86Present(X86Leaf(p, f)) && X86Addr(X86Leaf(p, f)) == p && X86Asked(X86Flags(X86Leaf(p, f)))
      ensures X86Leaf(p, X86Flags(X86Leaf(p, f))) == X86Leaf(p, f)
    {
      X86LeafLaws(p, f);
    }
  }

  lemma X86TableLawful()
    ensures LawfulTable(X86)
  {
    forall p, u | X86Frame(p)
      ensures X86Present(X86Table(p, u)) && X86Addr(X86Table(p, u)) == p
      ensures forall level :: !X86EndsWalk(X86Table(p, u), level)
    {
      X86TableLaws(p, u);
    }
    forall b, u | X86Present(b) && X86Widen(b, u).Some?
      ensures X86Present(X86Widen(b, u).value) && X86Addr(X86Widen(b, u).value) == X86Addr(b)
      ensures forall level :: X86EndsWalk(X86Widen(b, u).value, level) == X86EndsWalk(b, level)
    {
      X86WidenLaws(b, X86Widen(b, u).value);
    }
  }

  lemma X86SharingLawful()
    ensures LawfulSharing(X86)
  {
    forall f | X86Asked(f)
      ensures X86Shared(f).Some? ==> X86Asked(X86Shared(f).value) && X86Marked(X86Shared(f).value)
    {
      X86SharingLaws(Phys(0), f);
    }
    forall p, f | X86Frame(p) && X86Asked(f)
      ensures match X86Shared(f)
              case None => !X86Writes(X86Leaf(p, f))
              case Some(g) => !X86Writes(X86Leaf(p, g))
    {
      X86SharingLaws(p, f);
    }
  }

  lemma X86OwningLawful()
    ensures LawfulOwning(X86)
  {
    forall p, f | X86Frame(p) && X86Asked(f)
      ensures X86Asked(X86Owned(f)) && !X86Marked(X86Owned(f)) && X86Writes(X86Leaf(p, X86Owned(f)))
      ensures var read := X86Flags(X86Leaf(p, f)); X86Permits(read) && !X86Marked(read) ==> X86Writes(X86Leaf(p, f))
    {
      X86SharingLaws(p, f);
    }
  }

  lemma X86IsLawful()
    ensures Lawful(X86)
  {
    X86LeafLawful();
    X86TableLawful();
    X86SharingLawful();
    X86OwningLawful();
  }

  lemma AArch64LeafLawful()
    ensures LawfulLeaf(AArch64)
  {
    forall p, f | ArmFrame(p) && ArmAsked(f)
      ensures ArmPresent(ArmLeaf(p, f)) && ArmAddr(ArmLeaf(p, f)) == p && ArmAsked(ArmFlags(ArmLeaf(p, f)))
      ensures ArmLeaf(p, ArmFlags(ArmLeaf(p, f))) == ArmLeaf(p, f)
    {
      ArmLeafNames(p, f);
      ArmLeafReadsBack(p, f);
    }
  }

  lemma AArch64TableLawful()
    ensures LawfulTable(AArch64)
  {
    forall p, u | ArmFrame(p)
      ensures ArmPresent(ArmTable(p, u)) && ArmAddr(ArmTable(p, u)) == p
      ensures forall level :: !ArmEndsWalk(ArmTable(p, u), level)
    {
      ArmTableLaws(p, u);
    }
  }

  lemma AArch64SharingLawful()
    ensures LawfulSharing(AArch64)
  {
    forall f | ArmAsked(f)
      ensures ArmShared(f).Some? ==> ArmAsked(ArmShared(f).value) && ArmMarked(ArmShared(f).value)
    {
      ArmSharedIsReadOnly(Phys(0), f);
    }
    forall p, f | ArmFrame(p) && ArmAsked(f)
      ensures match ArmShared(f)
              case None => !ArmWrites(ArmLeaf(p, f))
              case Some(g) => !ArmWrites(ArmLeaf(p, g))
    {
      ArmSharedIsReadOnly(p, f);
    }
  }

  lemma AArch64OwningLawful()
    ensures LawfulOwning(AArch64)
  {
    forall p, f | ArmFrame(p) && ArmAsked(f)
      ensures ArmAsked(ArmOwned(f)) && !ArmMarked(ArmOwned(f)) && ArmWrites(ArmLeaf(p, ArmOwned(f)))
      ensures var read := ArmFlags(ArmLeaf(p, f)); ArmPermits(read) && !ArmMarked(read) ==> ArmWrites(ArmLeaf(p, f))
    {
      ArmOwnedIsWritable(p, f);
    }
  }

  lemma AArch64IsLawful()
    ensures Lawful(AArch64)
  {
    AArch64LeafLawful();
    AArch64TableLawful();
    AArch64SharingLawful();
    AArch64OwningLawful();
  }
}
