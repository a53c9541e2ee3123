/** The flags the kernel asks a machine for, and what a descriptor grants a program.
  *
  * The portable half of the kernel speaks in five bits that each machine places where
  * it likes. `Speaks` says what it relies on when it does, and both machines are shown
  * to keep to it.
  */
module Permissions {
  import opened Machines
  import opened Regions

  /** What the kernel says and reads in a machine's bits. */
  datatype Dialect = Dialect(
    // The flags of a page with these permissions.
    wanted: PageFlags -> Word,
    // What a change of protection stores over flags: a mark stays, and with it there
    // is no write permission.
    retagged: (Word, Word) -> Word,
    // The flags have the write bit.
    stores: Word -> bool,
    // A program may run what is there.
    runs: Word -> bool,
    // A program may come at all.
    opens: Word -> bool
  )

  /** A store is let through, or will be once the share is broken. */
  predicate MayStore(m: Machine, d: Dialect, f: Word) {
    d.stores(f) || m.marked(f)
  }

  /** The flags give a program these permissions. */
  predicate Gives(m: Machine, d: Dialect, f: Word, flags: PageFlags) {
    (MayStore(m, d, f) <==> flags.write) && (d.runs(f) <==> flags.exec) && d.opens(f)
  }

  /** The descriptor does. */
  predicate Grants(m: Machine, d: Dialect, bits: Word, flags: PageFlags) {
    Gives(m, d, m.flags(bits), flags)
  }

  // ---- what the kernel relies on -------------------------------------------

  /** Both say the same of who may come and what may run. */
  predicate Alike(d: Dialect, f: Word, g: Word) {
    (d.runs(f) <==> d.runs(g)) && (d.opens(f) <==> d.opens(g))
  }

  /** A leaf keeps the bits it was asked for, and the hardware lets a store through
    * just by the write bit, of flags that do not also carry the mark. */
  ghost predicate Keeps(m: Machine, d: Dialect) {
    && (forall p, f {:trigger m.leaf(p, f)} :: m.frame(p) && m.asked(f) ==>
          var read := m.flags(m.leaf(p, f));
          Alike(d, read, f) && (d.stores(read) <==> d.stores(f)) && (m.marked(read) <==> m.marked(f)))
    && (forall p, f {:trigger m.leaf(p, f)} :: m.frame(p) && m.asked(f) && !(d.stores(f) && m.marked(f)) ==>
          (m.writes(m.leaf(p, f)) <==> d.stores(f)))
    && (forall f {:trigger m.permits(f)} :: m.permits(f) <==> d.stores(f) && d.opens(f))
  }

  /** Sharing a page and owning one that is marked change nothing a program was
    * given. */
  ghost predicate Carries(m: Machine, d: Dialect) {
    && (forall f {:trigger m.shared(f)} :: m.shared(f).Some? <==> d.stores(f))
    && (forall f {:trigger m.shared(f)} :: m.shared(f).Some? ==>
          m.marked(m.shared(f).value) && Alike(d, m.shared(f).value, f))
    && (forall f {:trigger m.owned(f)} :: d.stores(m.owned(f)) && Alike(d, m.owned(f), f))
  }

  /** The flags asked for say what was wanted, and so do those a change of protection
    * stores, but that a marked page still gives what its mark stands for. */
  ghost predicate Spells(m: Machine, d: Dialect) {
    && (forall flags {:trigger d.wanted(flags)} ::
          var f := d.wanted(flags);
          m.asked(f) && Gives(m, d, f, flags) && !m.marked(f))
    && (forall had, flags {:trigger d.retagged(had, d.wanted(flags))} ::
          var f := d.retagged(had, d.wanted(flags));
          && m.asked(f) && Gives(m, d, f, PageFlags(m.marked(had) || flags.write, flags.exec))
          && (m.marked(f) <==> m.marked(had)) && (d.stores(f) <==> !m.marked(had) && flags.write))
  }

  ghost predicate Speaks(m: Machine, d: Dialect) {
    Keeps(m, d) && Carries(m, d) && Spells(m, d)
  }

  // ---- x86-64 --------------------------------------------------------------

  function X86Wanted(flags: PageFlags): Word {
    X86_PRESENT | X86_USER | (if flags.write then X86_WRITABLE else 0) | (if flags.exec then 0 else X86_NO_EXECUTE)
  }
  function X86Retagged(had: Word, asked: Word): Word {
    if had & X86_COW != 0 then (asked & !X86_WRITABLE) | X86_COW else asked
  }
  predicate X86Stores(f: Word) { f & X86_WRITABLE != 0 }
  predicate X86Runs(f: Word) { f & X86_NO_EXECUTE == 0 }
  predicate X86Opens(f: Word) { f & X86_USER != 0 }

  const X86_DIALECT: Dialect := Dialect(X86Wanted, X86Retagged, X86Stores, X86Runs, X86Opens)

  lemma X86LeafBits(p: Phys, f: Word)
    ensures var read := X86Flags(X86Leaf(p, f));
            && read & X86_WRITABLE == f & X86_WRITABLE && read & X86_COW == f & X86_COW
            && read & X86_NO_EXECUTE == f & X86_NO_EXECUTE && read & X86_USER == f & X86_USER
    ensures f & X86_WRITABLE == 0 || f & X86_COW == 0 ==>
              (X86Writes(X86Leaf(p, f)) <==> f & X86_WRITABLE != 0)
  {
  }

  lemma X86LeafSays(p: Phys, f: Word)
    ensures var read := X86Flags(X86Leaf(p, f));
            && (X86Stores(read) <==> X86Stores(f)) && (X86Marked(read) <==> X86Marked(f))
            && (X86Runs(read) <==> X86Runs(f)) && (X86Opens(read) <==> X86Opens(f))
    ensures !(X86Stores(f) && X86Marked(f)) ==> (X86Writes(X86Leaf(p, f)) <==> X86Stores(f))
  {
    hide X86Leaf, X86Flags, X86Writes;
    X86LeafBits(p, f);
  }

  lemma X86ShareBits(f: Word)
    requires X86Shared(f).Some?
    ensures var g := X86Shared(f).value;
            && g & X86_COW == X86_COW
            && g & X86_NO_EXECUTE == f & X86_NO_EXECUTE && g & X86_USER == f & X86_USER
  {
  }

  lemma X86ShareSays(f: Word)
    requires X86Shared(f).Some?
    ensures var g := X86Shared(f).value;
            X86Marked(g) && (X86Runs(g) <==> X86Runs(f)) && (X86Opens(g) <==> X86Opens(f))
  {
    hide X86Shared;
    X86ShareBits(f);
  }

  lemma X86OwnBits(f: Word)
    ensures var g := X86Owned(f);
            && g & X86_WRITABLE == X86_WRITABLE
            && g & X86_NO_EXECUTE == f & X86_NO_EXECUTE && g & X86_USER == f & X86_USER
  {
  }

  lemma X86OwnSays(f: Word)
    ensures var g := X86Owned(f);
            X86Stores(g) && (X86Runs(g) <==> X86Runs(f)) && (X86Opens(g) <==> X86Opens(f))
  {
    hide X86Owned;
    X86OwnBits(f);
  }

  lemma X86Keeps()
    ensures Keeps(X86, X86_DIALECT)
  {
    forall p, f
      ensures var read := X86Flags(X86Leaf(p, f));
              && (X86Stores(read) <==> X86Stores(f)) && (X86Marked(read) <==> X86Marked(f))
              && (X86Runs(read) <==> X86Runs(f)) && (X86Opens(read) <==> X86Opens(f))
              && (!(X86Stores(f) && X86Marked(f)) ==> (X86Writes(X86Leaf(p, f)) <==> X86Stores(f)))
    {
      X86LeafSays(p, f);
    }
  }

  lemma X86Carries()
    ensures Carries(X86, X86_DIALECT)
  {
    forall f | X86Shared(f).Some?
      ensures X86Marked(X86Shared(f).value) && Alike(X86_DIALECT, X86Shared(f).value, f)
    {
      X86ShareSays(f);
    }
    forall f ensures X86Stores(X86Owned(f)) && Alike(X86_DIALECT, X86Owned(f), f) {
      X86OwnSays(f);
    }
  }

  lemma X86Spells()
    ensures Spells(X86, X86_DIALECT)
  {
  }

  // ---- AArch64 --------------------------------------------------------------

  function ArmWanted(flags: PageFlags): Word {
    ARM_PRESENT | ARM_USER | (if flags.write then ARM_WRITABLE else 0) | (if flags.exec then 0 else ARM_NO_EXECUTE)
  }
  function ArmRetagged(had: Word, asked: Word): Word {
    if had & ARM_COW != 0 then (asked & !ARM_WRITABLE) | ARM_COW else asked
  }
  predicate ArmStores(f: Word) { f & ARM_WRITABLE != 0 }
  predicate ArmRuns(f: Word) { f & ARM_NO_EXECUTE == 0 }
  predicate ArmOpens(f: Word) { f & ARM_USER != 0 }

  const ARM_DIALECT: Dialect := Dialect(ArmWanted, ArmRetagged, ArmStores, ArmRuns, ArmOpens)

  lemma ArmLeafBits(p: Phys, f: Word)
    ensures var read := ArmFlags(ArmLeaf(p, f));
            && read & ARM_WRITABLE == f & ARM_WRITABLE && read & ARM_COW == f & ARM_COW
            && read & ARM_NO_EXECUTE == f & ARM_NO_EXECUTE && read & ARM_USER == f & ARM_USER
    ensures f & ARM_WRITABLE == 0 || f & ARM_COW == 0 ==>
              (ArmWrites(ArmLeaf(p, f)) <==> f & ARM_WRITABLE != 0)
  {
  }

  lemma ArmLeafSays(p: Phys, f: Word)
    ensures var read := ArmFlags(ArmLeaf(p, f));
            && (ArmStores(read) <==> ArmStores(f)) && (ArmMarked(read) <==> ArmMarked(f))
            && (ArmRuns(read) <==> ArmRuns(f)) && (ArmOpens(read) <==> ArmOpens(f))
    ensures !(ArmStores(f) && ArmMarked(f)) ==> (ArmWrites(ArmLeaf(p, f)) <==> ArmStores(f))
  {
    hide ArmLeaf, ArmFlags, ArmWrites;
    ArmLeafBits(p, f);
  }

  lemma ArmShareBits(f: Word)
    requires ArmShared(f).Some?
    ensures var g := ArmShared(f).value;
            && g & ARM_COW == ARM_COW
            && g & ARM_NO_EXECUTE == f & ARM_NO_EXECUTE && g & ARM_USER == f & ARM_USER
  {
  }

  lemma ArmShareSays(f: Word)
    requires ArmShared(f).Some?
    ensures var g := ArmShared(f).value;
            ArmMarked(g) && (ArmRuns(g) <==> ArmRuns(f)) && (ArmOpens(g) <==> ArmOpens(f))
  {
    hide ArmShared;
    ArmShareBits(f);
  }

  lemma ArmOwnBits(f: Word)
    ensures var g := ArmOwned(f);
            && g & ARM_WRITABLE == ARM_WRITABLE
            && g & ARM_NO_EXECUTE == f & ARM_NO_EXECUTE && g & ARM_USER == f & ARM_USER
  {
  }

  lemma ArmOwnSays(f: Word)
    ensures var g := ArmOwned(f);
            ArmStores(g) && (ArmRuns(g) <==> ArmRuns(f)) && (ArmOpens(g) <==> ArmOpens(f))
  {
    hide ArmOwned;
    ArmOwnBits(f);
  }

  lemma ArmKeeps()
    ensures Keeps(AArch64, ARM_DIALECT)
  {
    forall p, f
      ensures var read := ArmFlags(ArmLeaf(p, f));
              && (ArmStores(read) <==> ArmStores(f)) && (ArmMarked(read) <==> ArmMarked(f))
              && (ArmRuns(read) <==> ArmRuns(f)) && (ArmOpens(read) <==> ArmOpens(f))
              && (!(ArmStores(f) && ArmMarked(f)) ==> (ArmWrites(ArmLeaf(p, f)) <==> ArmStores(f)))
    {
      ArmLeafSays(p, f);
    }
  }

  lemma ArmCarries()
    ensures Carries(AArch64, ARM_DIALECT)
  {
    forall f | ArmShared(f).Some?
      ensures ArmMarked(ArmShared(f).value) && Alike(ARM_DIALECT, ArmShared(f).value, f)
    {
      ArmShareSays(f);
    }
    forall f ensures ArmStores(ArmOwned(f)) && Alike(ARM_DIALECT, ArmOwned(f), f) {
      ArmOwnSays(f);
    }
  }

  lemma ArmSpells()
    ensures Spells(AArch64, ARM_DIALECT)
  {
  }

  /** Both machines spell permissions as the kernel relies on. */
  lemma BothSpeak()
    ensures Speaks(X86, X86_DIALECT) && Speaks(AArch64, ARM_DIALECT)
  {
    X86Keeps();
    X86Carries();
    X86Spells();
    ArmKeeps();
    ArmCarries();
    ArmSpells();
  }
}
