/** Which descriptors the walk of a virtual address reads, and the map from page
  * to last-level descriptor that a hierarchy stands for.
  */
module Pages {
  import opened Machines
  import opened Walk

  /** Pages four levels translate. */
  const PAGES: nat := 0x10_0000_0000

  const PAGE_BYTES: nat := 4096

  /** Pages one descriptor at `level` covers. */
  function Span(level: nat): nat
    requires level < 4
  {
    match level
    case 0 => 1
    case 1 => 512
    case 2 => 0x4_0000
    case _ => 0x800_0000
  }

  /** Bytes one descriptor at `level` covers. */
  function LevelSize(level: nat): nat
    requires level < 4
  {
    Span(level) * PAGE_BYTES
  }

  /** How far `virt` is into what its descriptor at `level` covers. */
  function Within(virt: nat, level: nat): nat
    requires level < 4
  {
    virt % LevelSize(level)
  }

  /** The index the walk of `virt` takes at `level`, by its shift and mask. */
  function IndexOf(virt: nat, level: nat): nat
    requires level < 4
  {
    virt / LevelSize(level) % ENTRIES
  }

  /** The page `virt` is in. Bits the walk does not read are no part of it. */
  function PageOf(virt: nat): nat {
    virt / PAGE_BYTES % PAGES
  }

  function PageIndex(page: nat, level: nat): nat
    requires level < 4
  {
    page / Span(level) % ENTRIES
  }

  /** The position the walk to `page` is at after `depth` descriptors. */
  function PathTo(page: nat, depth: nat): Path
    requires depth <= 4
  {
    if depth == 0 then Top else Down(PathTo(page, depth - 1), PageIndex(page, 4 - depth))
  }

  lemma AddressIndex(virt: nat, level: nat)
    requires level < 4
    ensures virt / LevelSize(level) == virt / PAGE_BYTES / Span(level)
  {
    match level
    case 0 =>
    case 1 => assert LevelSize(1) == 0x20_0000;
    case 2 => assert LevelSize(2) == 0x4000_0000;
    case _ => assert LevelSize(3) == 0x80_0000_0000;
  }

  lemma HighBitsUnread(q: nat, r: nat, level: nat)
    requires level < 4 && r < PAGES
    ensures (q * PAGES + r) / Span(level) % 512 == r / Span(level) % 512
  {
    var k := match level case 0 => 0x800_0000 case 1 => 0x4_0000 case 2 => 512 case _ => 1;
    assert (q * PAGES + r) / Span(level) == 512 * (q * k) + r / Span(level) by {
      HighBitsShifted(q, r, level, k);
    }
  }

  lemma HighBitsShifted(q: nat, r: nat, level: nat, k: nat)
    requires level < 4 && Span(level) * k * 512 == PAGES
    ensures (q * PAGES + r) / Span(level) == 512 * (q * k) + r / Span(level)
  {
    match level
    case 0 =>
    case 1 =>
    case 2 =>
    case _ =>
  }

  lemma IndexOfPage(virt: nat, level: nat)
    requires level < 4
    ensures IndexOf(virt, level) == PageIndex(PageOf(virt), level)
  {
    var all := virt / PAGE_BYTES;
    AddressIndex(virt, level);
    HighBitsUnread(all / PAGES, all % PAGES, level);
    assert all == all / PAGES * PAGES + all % PAGES;
  }

  lemma {:induction false} PathToDepth(page: nat, depth: nat)
    requires depth <= 4
    ensures Depth(PathTo(page, depth)) == depth
  {
    if depth > 0 {
      PathToDepth(page, depth - 1);
    }
  }

  /** Two pages take the same path exactly when one descriptor covers both. */
  lemma {:induction false} PathToSame(a: nat, b: nat, depth: nat)
    requires a < PAGES && b < PAGES && 1 <= depth <= 4
    ensures PathTo(a, depth) == PathTo(b, depth) <==> a / Span(4 - depth) == b / Span(4 - depth)
  {
    if depth > 1 {
      PathToSame(a, b, depth - 1);
      SpanNests(a, 4 - depth);
      SpanNests(b, 4 - depth);
    } else {
      TopIndex(a);
      TopIndex(b);
    }
  }

  lemma TopIndex(a: nat)
    requires a < PAGES
    ensures a / Span(3) < 512
  {
  }

  lemma SpanNests(a: nat, level: nat)
    requires level < 3
    ensures a / Span(level) == (a / Span(level + 1)) * 512 + a / Span(level) % 512
  {
    match level
    case 0 => assert a / 512 == a / 1 / 512;
    case 1 => assert a / 0x4_0000 == a / 512 / 512;
    case 2 => assert a / 0x800_0000 == a / 0x4_0000 / 512;
  }

  lemma PathToInjective(a: nat, b: nat)
    requires a < PAGES && b < PAGES && PathTo(a, 4) == PathTo(b, 4)
    ensures a == b
  {
    PathToSame(a, b, 4);
  }

  /** The page has a last-level descriptor, in the part the hierarchy owns. */
  ghost predicate Mapped(m: Machine, words: Words, h: Hier, page: nat) {
    Ours(h, PathTo(page, 4)) && m.present(Desc(m, words, h.root, PathTo(page, 4)))
  }

  /** What the hierarchy stands for: the descriptor each mapped page has. */
  ghost function PageMap(m: Machine, words: Words, h: Hier): map<nat, Word> {
    map page: nat | page < PAGES && Mapped(m, words, h, page) :: Desc(m, words, h.root, PathTo(page, 4))
  }
}
