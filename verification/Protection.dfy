/** A program's own change of protection, over every state of the run machine.
  *
  * `mprotect` stores new flags for the pages that are there, and leaves the mark on a
  * page that carries one. What that keeps of isolation, and what a later break of the
  * share makes of it, is decided by the mark and the count alone.
  */
module Protection {
  import opened Machines
  import opened Tables
  import opened Share
  import opened Spaces
  import opened Regions
  import opened Permissions

  /** Sharing a page takes nothing from what its descriptor grants. */
  lemma SharedGrants(m: Machine, d: Dialect, bits: Word, flags: PageFlags)
    requires LawfulLeaf(m) && LawfulSharing(m) && Speaks(m, d) && WellMade(m, bits) && Grants(m, d, bits, flags)
    ensures Grants(m, d, SharedBits(m, bits), flags)
  {
    hide LawfulLeaf, LawfulSharing, Spells, WellMade;
    SharedIsReadOnly(m, bits);
  }

  /** Breaking a share gives back what the mark stood for and nothing else. */
  lemma BrokenGrants(m: Machine, d: Dialect, bits: Word, c: CowCase, flags: PageFlags)
    requires LawfulLeaf(m) && LawfulOwning(m) && Speaks(m, d) && WellMade(m, bits) && Grants(m, d, bits, flags)
    requires m.marked(m.flags(bits)) && (c.TakeBack? || (c.CopyTo? && m.frame(c.to)))
    ensures Grants(m, d, Broken(m, bits, c), flags)
  {
    hide Spells;
    var f := m.flags(bits);
    MadeNamesFrame(m, bits);
    assert m.asked(f) && m.asked(m.owned(f)) by {
      var p, g :| m.frame(p) && m.asked(g) && bits == m.leaf(p, g);
      assert m.writes(m.leaf(p, m.owned(f)));
    }
  }

  // ---- the call ------------------------------------------------------------

  /** What the call does to one page. */
  function Mprotect(m: Machine, d: Dialect, s: System, slot: Slot, flags: PageFlags): Step {
    Protect(slot, d.retagged(if slot in s.slots then m.flags(s.slots[slot]) else 0, d.wanted(flags)))
  }

  predicate HasMark(m: Machine, s: System, slot: Slot)
    requires slot in s.slots
  {
    m.marked(m.flags(s.slots[slot]))
  }

  /** Nobody can come to see the stores of another: the page is marked, it is not to be
    * written, or no other slot has its frame. */
  ghost predicate Safe(m: Machine, s: System, slot: Slot, flags: PageFlags)
    requires slot in s.slots
  {
    HasMark(m, s, slot) || !flags.write || Namers(m, s.slots, m.addr(s.slots[slot])) == {slot}
  }

  /** The call keeps every writable page alone on its frame exactly when it is safe. */
  lemma MprotectIsolates(m: Machine, d: Dialect, s: System, slot: Slot, flags: PageFlags)
    requires LawfulLeaf(m) && Speaks(m, d) && Inv(m, s) && slot in s.slots
    ensures Isolated(m, Apply(m, s, Mprotect(m, d, s, slot, flags)).slots) <==> Safe(m, s, slot, flags)
    ensures Enabled(m, s, Mprotect(m, d, s, slot, flags)) <==> Safe(m, s, slot, flags)
  {
    hide LawfulLeaf, Carries, WellMade, Isolated, Apply, Namers, Counted, Sole, Spaces.Aligned, Gives;
    MadeNamesFrame(m, s.slots[slot]);
    var existing := m.flags(s.slots[slot]);
    var f := d.retagged(existing, d.wanted(flags));
    assert m.writes(m.leaf(m.addr(s.slots[slot]), f)) <==> !m.marked(existing) && flags.write;
    ProtectIsolates(m, s, slot, f);
  }

  /** After the call the page grants what was asked, unless it is marked and write
    * permission was taken away: then the mark still stands for that permission, and a
    * break of the share gives it. */
  lemma MprotectGrants(m: Machine, d: Dialect, s: System, slot: Slot, flags: PageFlags, spare: Phys)
    requires LawfulLeaf(m) && Speaks(m, d) && Inv(m, s) && slot in s.slots
    ensures var s' := Apply(m, s, Mprotect(m, d, s, slot, flags));
            && slot in s'.slots
            && (Grants(m, d, s'.slots[slot], flags) <==> (HasMark(m, s, slot) ==> flags.write))
            && (MayWrite(CaseOf(m, Lookup(s'.slots, slot), s'.counts, Some(spare))) <==>
                  flags.write || HasMark(m, s, slot))
  {
    hide LawfulLeaf, Carries, WellMade, Isolated, Namers, Counted, Sole, Spaces.Aligned;
    MadeNamesFrame(m, s.slots[slot]);
    var p, f := m.addr(s.slots[slot]), d.retagged(m.flags(s.slots[slot]), d.wanted(flags));
  }

  // ---- runs in which it is not safe ----------------------------------------

  const NOTHING := System(map[], {}, map[], multiset{}, map[])

  /** A page is made and a fork shares it. */
  function Forking(d: Dialect, f: Phys, bytes: Bytes, flags: PageFlags): seq<Step> {
    [Alloc(f, bytes), Publish(Slot(0, 0), f, d.wanted(flags), {}, true), ShareOne(0, 1, 0, {}, true)]
  }

  /** Two spaces with one descriptor at one page. */
  function Both(f: Phys, bytes: Bytes, bits: Word): System {
    System(map[Slot(0, 0) := bits, Slot(1, 0) := bits], {}, map[f := 2], multiset{}, map[f := bytes])
  }

  /** The state with the page published and not shared. */
  function Single(f: Phys, bytes: Bytes, bits: Word): System {
    System(map[Slot(0, 0) := bits], {}, map[f := 1], multiset{}, map[f := bytes])
  }

  lemma PublishedOnce(m: Machine, f: Phys, bytes: Bytes, flags: Word)
    requires m.frame(f) && m.asked(flags) && m.addr(m.leaf(f, flags)) == f
    ensures Enabled(m, NOTHING, Alloc(f, bytes))
    ensures var s, publish := Apply(m, NOTHING, Alloc(f, bytes)), Publish(Slot(0, 0), f, flags, {}, true);
            Enabled(m, s, publish) && Apply(m, s, publish) == Single(f, bytes, m.leaf(f, flags))
  {
  }

  lemma SharedByBoth(m: Machine, f: Phys, bytes: Bytes, bits: Word)
    requires m.addr(SharedBits(m, bits)) == f
    ensures var s, share := Single(f, bytes, bits), ShareOne(0, 1, 0, {}, true);
            Enabled(m, s, share) && Apply(m, s, share) == Both(f, bytes, SharedBits(m, bits))
  {
    hide SharedBits;
  }

  lemma ForkingLeadsThere(m: Machine, d: Dialect, f: Phys, bytes: Bytes, flags: PageFlags)
    requires Lawful(m) && Speaks(m, d) && m.frame(f)
    ensures var s := Both(f, bytes, SharedBits(m, m.leaf(f, d.wanted(flags))));
            Run(m, NOTHING, Forking(d, f, bytes, flags), s) && Inv(m, s) && m.addr(s.slots[Slot(1, 0)]) == f
  {
    hide Inv, LawfulTable, LawfulOwning, LawfulSharing, Keeps, Carries, Gives, SharedBits, Enabled, Apply, Run;
    var leaf := m.leaf(f, d.wanted(flags));
    LeafIsMade(m, f, d.wanted(flags));
    SharedIsReadOnly(m, leaf);
    PublishedOnce(m, f, bytes, d.wanted(flags));
    SharedByBoth(m, f, bytes, leaf);
    var steps, s := Forking(d, f, bytes, flags), Both(f, bytes, SharedBits(m, leaf));
    RunOfThree(m, NOTHING, Apply(m, NOTHING, steps[0]), Single(f, bytes, leaf), s, steps);
    StartKeeps(m, map[]);
    RunKeeps(m, NOTHING, steps, s);
  }

  lemma RunOfThree(m: Machine, s0: System, s1: System, s2: System, s3: System, steps: seq<Step>)
    requires |steps| == 3 && Enabled(m, s0, steps[0]) && Enabled(m, s1, steps[1]) && Enabled(m, s2, steps[2])
    requires Apply(m, s0, steps[0]) == s1 && Apply(m, s1, steps[1]) == s2 && Apply(m, s2, steps[2]) == s3
    ensures Run(m, s0, steps, s3)
  {
    hide Enabled, Apply;
    assert steps[1..][1..] == steps[2..] && steps[2..][1..] == [];
    assert Run(m, s3, [], s3);
    assert Run(m, s2, steps[2..], s3);
    assert Run(m, s1, steps[1..], s3);
  }

  /** A fork marks only pages that may be written. One that may not is shared without a
    * mark, and then a program that asks to write it can store into what the other
    * still reads. */
  lemma MprotectCanUndoSharing(m: Machine, d: Dialect, f: Phys, bytes: Bytes) returns (s: System)
    requires Lawful(m) && Speaks(m, d) && m.frame(f)
    ensures Run(m, NOTHING, Forking(d, f, bytes, PageFlags(false, false)), s)
    ensures !Isolated(m, Apply(m, s, Mprotect(m, d, s, Slot(1, 0), PageFlags(true, false))).slots)
  {
    hide LawfulTable, LawfulOwning, LawfulSharing, LawfulLeaf, Inv, Isolated, Apply, Run, SharedBits, Gives;
    var flags := d.wanted(PageFlags(false, false));
    var leaf := m.leaf(f, flags);
    s := Both(f, bytes, SharedBits(m, leaf));
    ForkingLeadsThere(m, d, f, bytes, PageFlags(false, false));
    UnmarkedStays(m, d, f);
    MprotectIsolates(m, d, s, Slot(1, 0), PageFlags(true, false));
    assert Slot(0, 0) in Namers(m, s.slots, f) && Slot(0, 0) !in {Slot(1, 0)};
  }

  lemma UnmarkedStays(m: Machine, d: Dialect, f: Phys)
    requires Lawful(m) && Speaks(m, d) && m.frame(f)
    ensures var leaf := m.leaf(f, d.wanted(PageFlags(false, false)));
            SharedBits(m, leaf) == leaf && !m.marked(m.flags(leaf)) && m.addr(leaf) == f
  {
    var flags := d.wanted(PageFlags(false, false));
    assert m.asked(flags) && !MayStore(m, d, flags);
  }

  /** A page that was written before the fork, with write permission taken away after
    * it, is written all the same: the store breaks the share. */
  lemma MprotectCanBeForgotten(m: Machine, d: Dialect, f: Phys, bytes: Bytes, spare: Phys) returns (s: System)
    requires Lawful(m) && Speaks(m, d) && m.frame(f)
    ensures Run(m, NOTHING, Forking(d, f, bytes, PageFlags(true, false)), s)
    ensures var s' := Apply(m, s, Mprotect(m, d, s, Slot(1, 0), PageFlags(false, false)));
            && Enabled(m, s, Mprotect(m, d, s, Slot(1, 0), PageFlags(false, false))) && Slot(1, 0) in s'.slots
            && MayWrite(CaseOf(m, Lookup(s'.slots, Slot(1, 0)), s'.counts, Some(spare)))
  {
    hide LawfulTable, LawfulOwning, LawfulSharing, LawfulLeaf, Inv, Isolated, Apply, Run, SharedBits, Gives, Enabled;
    var leaf := m.leaf(f, d.wanted(PageFlags(true, false)));
    s := Both(f, bytes, SharedBits(m, leaf));
    ForkingLeadsThere(m, d, f, bytes, PageFlags(true, false));
    MarkStays(m, d, f);
    MprotectIsolates(m, d, s, Slot(1, 0), PageFlags(false, false));
    MprotectGrants(m, d, s, Slot(1, 0), PageFlags(false, false), spare);
  }

  lemma MarkStays(m: Machine, d: Dialect, f: Phys)
    requires Lawful(m) && Speaks(m, d) && m.frame(f)
    ensures m.marked(m.flags(SharedBits(m, m.leaf(f, d.wanted(PageFlags(true, false))))))
  {
    var flags := d.wanted(PageFlags(true, false));
    var leaf := m.leaf(f, flags);
    assert m.asked(m.flags(leaf)) && m.shared(m.flags(leaf)).Some?;
    var g := m.shared(m.flags(leaf)).value;
    assert m.asked(g) && m.marked(g) && m.addr(leaf) == f && SharedBits(m, leaf) == m.leaf(f, g);
  }
}
