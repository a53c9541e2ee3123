/** The shape of a four-level hierarchy in a flat memory of frames, and what one
  * store into it does.
  *
  * A position in the hierarchy is the path of descriptor indices that leads to
  * it. `TableAt` is the hardware's walk: it reads memory and nothing else. A
  * hierarchy is a `Tree` when no table is reached along two paths, and every
  * lemma here says what a single store leaves of that.
  */
module Walk {
  import opened Machines

  /** Descriptors in a table. */
  const ENTRIES: nat := 512

  /** Physical memory, a frame at a time. */
  type Words = map<Phys, seq<Word>>

  /** The indices from the top table down, last one outermost. */
  datatype Path = Top | Down(up: Path, index: nat)

  /** A hierarchy: its top table, and the top-level indices it owns. The rest of
    * the top table is the kernel half, which it only borrows. */
  datatype Hier = Hier(root: Phys, lo: nat, hi: nat)

  function Depth(p: Path): nat {
    if p.Top? then 0 else Depth(p.up) + 1
  }

  /** `q` is `p` or lies below it. */
  predicate Under(q: Path, p: Path) {
    q == p || (q.Down? && Under(q.up, p))
  }

  predicate Ours(h: Hier, p: Path) {
    match p
    case Top => true
    case Down(up, index) => if up.Top? then h.lo <= index < h.hi else Ours(h, up)
  }

  function Read(words: Words, table: Phys, index: nat): Word {
    if table in words && index < |words[table]| then words[table][index] else 0
  }

  function Put(words: Words, table: Phys, index: nat, bits: Word): Words
    requires table in words && index < |words[table]|
  {
    words[table := words[table][index := bits]]
  }

  /** The table a descriptor at `level` leads to, if it leads to one. */
  function Next(m: Machine, bits: Word, level: nat): Option<Phys> {
    if m.present(bits) && !m.endsWalk(bits, level) then Some(m.addr(bits)) else None
  }

  /** The table at the end of `p`, as the hardware's walk finds it. */
  function TableAt(m: Machine, words: Words, root: Phys, p: Path): Option<Phys> {
    match p
    case Top => Some(root)
    case Down(up, index) =>
      if Depth(up) >= 3 then None else
      match TableAt(m, words, root, up)
      case None => None
      case Some(table) => Next(m, Read(words, table, index), 3 - Depth(up))
  }

  /** The descriptor at position `p`, or zero when there is no table above it. */
  function Desc(m: Machine, words: Words, root: Phys, p: Path): Word {
    match p
    case Top => 0
    case Down(up, index) =>
      match TableAt(m, words, root, up)
      case None => 0
      case Some(table) => Read(words, table, index)
  }

  ghost predicate IsTable(m: Machine, words: Words, h: Hier, p: Path) {
    Ours(h, p) && TableAt(m, words, h.root, p).Some?
  }

  /** Every table reached is a whole frame of descriptors. */
  ghost predicate Sound(m: Machine, words: Words, h: Hier) {
    forall p | IsTable(m, words, h, p) ::
      var table := TableAt(m, words, h.root, p).value;
      table in words && |words[table]| == ENTRIES && m.frame(table)
  }

  /** No table is reached along two paths. */
  ghost predicate Separate(m: Machine, words: Words, h: Hier) {
    forall p, q | IsTable(m, words, h, p) && IsTable(m, words, h, q) ::
      TableAt(m, words, h.root, p) == TableAt(m, words, h.root, q) ==> p == q
  }

  ghost predicate Tree(m: Machine, words: Words, h: Hier) {
    Sound(m, words, h) && Separate(m, words, h)
  }

  ghost predicate IsTableFrame(m: Machine, words: Words, h: Hier, frame: Phys) {
    exists p :: IsTable(m, words, h, p) && TableAt(m, words, h.root, p) == Some(frame)
  }

  /** A frame of absent descriptors. */
  ghost predicate Blank(m: Machine, words: Words, table: Phys) {
    forall i :: !m.present(Read(words, table, i))
  }

  /** The two memories have the same tables, but perhaps for the one at `s`. */
  ghost predicate SameTablesBut(m: Machine, words: Words, words': Words, h: Hier, s: Path) {
    forall q | Ours(h, q) && q != s :: TableAt(m, words', h.root, q) == TableAt(m, words, h.root, q)
  }

  // ---- one store -----------------------------------------------------------

  lemma {:induction false} UnderDepth(q: Path, p: Path)
    requires Under(q, p)
    ensures Depth(p) <= Depth(q) && (Depth(p) == Depth(q) ==> p == q)
  {
    if q != p {
      UnderDepth(q.up, p);
    }
  }

  lemma {:induction false} OursUnder(h: Hier, q: Path, p: Path)
    requires Under(q, p) && Ours(h, q)
    ensures Ours(h, p)
  {
    if q != p && q.up != Top {
      OursUnder(h, q.up, p);
    }
  }

  lemma {:induction false} NoTableBelow(m: Machine, words: Words, root: Phys, q: Path, s: Path)
    requires Under(q, s) && TableAt(m, words, root, s).None?
    ensures TableAt(m, words, root, q).None?
  {
    if q != s {
      NoTableBelow(m, words, root, q.up, s);
    }
  }

  lemma {:induction false} BlankHasNothingBelow(m: Machine, words: Words, root: Phys, q: Path, s: Path)
    requires TableAt(m, words, root, s).Some? && Blank(m, words, TableAt(m, words, root, s).value)
    requires Under(q, s) && q != s && !m.present(0)
    ensures TableAt(m, words, root, q).None? && !m.present(Desc(m, words, root, q))
  {
    if q.up != s {
      BlankHasNothingBelow(m, words, root, q.up, s);
    }
  }

  lemma ReadPut(words: Words, table: Phys, index: nat, bits: Word, t: Phys, k: nat)
    requires table in words && index < |words[table]|
    ensures Read(Put(words, table, index, bits), t, k) == if t == table && k == index then bits else Read(words, t, k)
  {
    var row := words[table][index := bits];
    assert Put(words, table, index, bits)[table] == row;
    if t == table && k < |row| {
      assert row[k] == if k == index then bits else words[table][k];
    }
  }

  /** A store at `s` is seen only along paths through `s`. */
  lemma {:induction false} StoreElsewhere(m: Machine, words: Words, h: Hier, p: Path, i: nat, bits: Word, q: Path)
    requires Tree(m, words, h) && IsTable(m, words, h, p) && i < ENTRIES
    requires Ours(h, q) && !Under(q, Down(p, i))
    ensures var words' := Put(words, TableAt(m, words, h.root, p).value, i, bits);
            && TableAt(m, words', h.root, q) == TableAt(m, words, h.root, q)
            && Desc(m, words', h.root, q) == Desc(m, words, h.root, q)
  {
    if q.Down? {
      assert Ours(h, q.up);
      StoreElsewhere(m, words, h, p, i, bits, q.up);
      var above := TableAt(m, words, h.root, q.up);
      if above.Some? {
        var table := TableAt(m, words, h.root, p).value;
        ReadPut(words, table, i, bits, above.value, q.index);
        assert IsTable(m, words, h, q.up);
        assert above.value != table || q.index != i;
      }
    }
  }

  /** A store that leads where the old descriptor led moves no table. */
  lemma {:induction false} StoreInPlace(m: Machine, words: Words, h: Hier, p: Path, i: nat, bits: Word, q: Path)
    requires Tree(m, words, h) && IsTable(m, words, h, p) && i < ENTRIES && Ours(h, q)
    requires Depth(p) >= 3 || Next(m, bits, 3 - Depth(p)) == Next(m, Desc(m, words, h.root, Down(p, i)), 3 - Depth(p))
    ensures var words' := Put(words, TableAt(m, words, h.root, p).value, i, bits);
            && TableAt(m, words', h.root, q) == TableAt(m, words, h.root, q)
            && Desc(m, words', h.root, q) == if q == Down(p, i) then bits else Desc(m, words, h.root, q)
  {
    if q.Down? {
      assert Ours(h, q.up);
      StoreInPlace(m, words, h, p, i, bits, q.up);
      var above := TableAt(m, words, h.root, q.up);
      if above.Some? {
        var table := TableAt(m, words, h.root, p).value;
        ReadPut(words, table, i, bits, above.value, q.index);
        assert IsTable(m, words, h, q.up);
        assert above.value == table ==> q.up == p;
      }
    }
  }

  /** What linking a blank frame in at an empty position does to any position. */
  lemma LinkSeen(m: Machine, words: Words, h: Hier, p: Path, i: nat, bits: Word, spare: Phys, q: Path)
    requires Linkable(m, words, h, p, i, bits, spare) && Ours(h, q)
    ensures var words' := Put(words, TableAt(m, words, h.root, p).value, i, bits);
            && TableAt(m, words', h.root, q) == (if q == Down(p, i) then Some(spare) else TableAt(m, words, h.root, q))
            && (q != Down(p, i) ==> m.present(Desc(m, words', h.root, q)) == m.present(Desc(m, words, h.root, q)))
            && (q != Down(p, i) && m.present(Desc(m, words, h.root, q))
                ==> Desc(m, words', h.root, q) == Desc(m, words, h.root, q))
  {
    var s := Down(p, i);
    var table := TableAt(m, words, h.root, p).value;
    var words' := Put(words, table, i, bits);
    ReadPut(words, table, i, bits, table, i);
    UnderDepthStrict(p, i);
    StoreElsewhere(m, words, h, p, i, bits, p);
    if !Under(q, s) {
      StoreElsewhere(m, words, h, p, i, bits, q);
    } else if q != s {
      assert Blank(m, words', spare) by {
        forall k ensures !m.present(Read(words', spare, k)) {
          ReadPut(words, table, i, bits, spare, k);
        }
      }
      BlankHasNothingBelow(m, words', h.root, q, s);
      NoTableBelow(m, words, h.root, q.up, s);
    }
  }

  lemma UnderDepthStrict(p: Path, i: nat)
    ensures !Under(p, Down(p, i))
  {
    if Under(p, Down(p, i)) {
      UnderDepth(p, Down(p, i));
    }
  }

  /** `spare` is a blank frame outside the hierarchy, and `bits` at the empty
    * position below `p` would make it a table. */
  ghost predicate Linkable(m: Machine, words: Words, h: Hier, p: Path, i: nat, bits: Word, spare: Phys) {
    && Tree(m, words, h) && !m.present(0)
    && IsTable(m, words, h, p) && i < ENTRIES && Depth(p) < 3 && Ours(h, Down(p, i))
    && TableAt(m, words, h.root, Down(p, i)).None?
    && Next(m, bits, 3 - Depth(p)) == Some(spare)
    && spare in words && |words[spare]| == ENTRIES && m.frame(spare)
    && Blank(m, words, spare)
    && !IsTableFrame(m, words, h, spare)
  }

  /** What unlinking a blank table does to any position. */
  lemma UnlinkSeen(m: Machine, words: Words, h: Hier, p: Path, i: nat, q: Path)
    requires Unlinkable(m, words, h, p, i) && Ours(h, q)
    ensures var words' := Put(words, TableAt(m, words, h.root, p).value, i, 0);
            && TableAt(m, words', h.root, q) == (if q == Down(p, i) then None else TableAt(m, words, h.root, q))
            && (q != Down(p, i) ==> m.present(Desc(m, words', h.root, q)) == m.present(Desc(m, words, h.root, q)))
            && (q != Down(p, i) && m.present(Desc(m, words, h.root, q))
                ==> Desc(m, words', h.root, q) == Desc(m, words, h.root, q))
  {
    var s := Down(p, i);
    var table := TableAt(m, words, h.root, p).value;
    var words' := Put(words, table, i, 0);
    ReadPut(words, table, i, 0, table, i);
    UnderDepthStrict(p, i);
    StoreElsewhere(m, words, h, p, i, 0, p);
    if !Under(q, s) {
      StoreElsewhere(m, words, h, p, i, 0, q);
    } else if q != s {
      BlankHasNothingBelow(m, words, h.root, q, s);
      NoTableBelow(m, words', h.root, q.up, s);
    }
  }

  /** The table below `p` holds nothing. */
  ghost predicate Unlinkable(m: Machine, words: Words, h: Hier, p: Path, i: nat) {
    && Tree(m, words, h) && !m.present(0)
    && IsTable(m, words, h, p) && i < ENTRIES && Depth(p) < 3
    && IsTable(m, words, h, Down(p, i))
    && Blank(m, words, TableAt(m, words, h.root, Down(p, i)).value)
  }
}
