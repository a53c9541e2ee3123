/** The kernel heap's free list: address-ordered, coalescing on free, and always
  * the one canonical form of the set of free bytes.
  */
module Heap {

  /** The bytes of a node: a size and a link. */
  const MIN_BLOCK: nat := 16

  datatype Block = Block(addr: nat, size: nat)

  function End(b: Block): nat {
    b.addr + b.size
  }

  predicate Covers(b: Block, a: nat) {
    b.addr <= a < End(b)
  }

  /** Ordered, each big enough for its node, with a gap between it and the next. */
  ghost predicate Canonical(holes: seq<Block>) {
    && (forall i | 0 <= i < |holes| :: holes[i].addr > 0 && holes[i].size >= MIN_BLOCK)
    && (forall i, j | 0 <= i < j < |holes| :: End(holes[i]) < holes[j].addr)
  }

  /** The byte at `a` is free. */
  ghost predicate Free(holes: seq<Block>, a: nat) {
    exists i | 0 <= i < |holes| :: Covers(holes[i], a)
  }

  function Sum(holes: seq<Block>): nat {
    if holes == [] then 0 else Sum(holes[..|holes| - 1]) + holes[|holes| - 1].size
  }

  ghost predicate SameBytes(x: seq<Block>, y: seq<Block>) {
    forall a: nat :: Free(x, a) <==> Free(y, a)
  }

  // ---- the list is determined by its bytes ---------------------------------

  lemma TailFree(x: seq<Block>, a: nat)
    requires Canonical(x) && x != []
    ensures Canonical(x[1..])
    ensures Free(x[1..], a) <==> Free(x, a) && a >= End(x[0])
    ensures Free(x, a) ==> x[0].addr <= a
    ensures !Free(x, End(x[0]))
  {
    if Free(x[1..], a) {
      var i :| 0 <= i < |x[1..]| && Covers(x[1..][i], a);
      assert Covers(x[i + 1], a);
    }
    if Free(x, a) && a >= End(x[0]) {
      var i :| 0 <= i < |x| && Covers(x[i], a);
      assert Covers(x[1..][i - 1], a);
    }
  }

  lemma FirstHole(x: seq<Block>, y: seq<Block>)
    requires Canonical(x) && Canonical(y) && SameBytes(x, y) && x != []
    ensures y != [] && x[0].addr >= y[0].addr && (x[0].addr == y[0].addr ==> End(x[0]) >= End(y[0]))
  {
    assert Covers(x[0], x[0].addr);
    assert Free(x, x[0].addr) && Free(y, x[0].addr);
    TailFree(y, x[0].addr);
    if x[0].addr == y[0].addr && End(x[0]) < End(y[0]) {
      TailFree(x, End(x[0]));
      assert Covers(y[0], End(x[0]));
    }
  }

  /** Two canonical lists of the same bytes are the same list. */
  lemma {:induction false} CanonicalIsUnique(x: seq<Block>, y: seq<Block>)
    requires Canonical(x) && Canonical(y) && SameBytes(x, y)
    ensures x == y
  {
    if x == [] {
      if y != [] {
        FirstHole(y, x);
      }
    } else {
      FirstHole(x, y);
      FirstHole(y, x);
      assert x[0] == y[0];
      forall a: nat ensures Free(x[1..], a) <==> Free(y[1..], a) {
        TailFree(x, a);
        TailFree(y, a);
      }
      TailFree(x, 0);
      TailFree(y, 0);
      CanonicalIsUnique(x[1..], y[1..]);
      assert x == [x[0]] + x[1..] && y == [y[0]] + y[1..];
    }
  }

  // ---- putting a block in --------------------------------------------------

  /** The block shares no byte with a hole. */
  ghost predicate Apart(holes: seq<Block>, b: Block) {
    b.addr > 0 && b.size >= MIN_BLOCK && forall a: nat | Covers(b, a) :: !Free(holes, a)
  }

  /** `at` holes are below the block, and the rest above it. */
  predicate Between(holes: seq<Block>, at: nat, b: Block) {
    && at <= |holes|
    && (forall i | 0 <= i < at :: holes[i].addr < b.addr)
    && (forall i | at <= i < |holes| :: b.addr <= holes[i].addr)
  }

  predicate JoinsNext(holes: seq<Block>, at: nat, b: Block)
    requires at <= |holes|
  {
    at < |holes| && End(b) == holes[at].addr
  }

  predicate JoinsPrev(holes: seq<Block>, at: nat, b: Block)
    requires at <= |holes|
  {
    at > 0 && End(holes[at - 1]) == b.addr
  }

  /** The block, with the neighbours it touches. */
  function Merged(holes: seq<Block>, at: nat, b: Block): Block
    requires at <= |holes|
  {
    var size := b.size + if JoinsNext(holes, at, b) then holes[at].size else 0;
    if JoinsPrev(holes, at, b) then Block(holes[at - 1].addr, holes[at - 1].size + size) else Block(b.addr, size)
  }

  /** The holes below `lo`, then `m`, then those from `hi`. */
  function Spliced(holes: seq<Block>, lo: nat, hi: nat, m: Block): seq<Block>
    requires lo <= hi <= |holes|
  {
    holes[..lo] + [m] + holes[hi..]
  }

  function Lo(holes: seq<Block>, at: nat, b: Block): nat
    requires at <= |holes|
  {
    if JoinsPrev(holes, at, b) then at - 1 else at
  }

  function Hi(holes: seq<Block>, at: nat, b: Block): nat
    requires at <= |holes|
  {
    if JoinsNext(holes, at, b) then at + 1 else at
  }

  function Placed(holes: seq<Block>, at: nat, b: Block): seq<Block>
    requires at <= |holes|
  {
    Spliced(holes, Lo(holes, at, b), Hi(holes, at, b), Merged(holes, at, b))
  }

  lemma SplicedAt(holes: seq<Block>, lo: nat, hi: nat, m: Block, i: nat)
    requires lo <= hi <= |holes| && i < |Spliced(holes, lo, hi, m)|
    ensures Spliced(holes, lo, hi, m)[i] == if i < lo then holes[i] else if i == lo then m else holes[hi + i - lo - 1]
  {
  }

  lemma SplicedIsCanonical(holes: seq<Block>, lo: nat, hi: nat, m: Block)
    requires Canonical(holes) && lo <= hi <= |holes| && m.addr > 0 && m.size >= MIN_BLOCK
    requires forall i | 0 <= i < lo :: End(holes[i]) < m.addr
    requires forall i | hi <= i < |holes| :: End(m) < holes[i].addr
    ensures Canonical(Spliced(holes, lo, hi, m))
  {
    hide Spliced, End;
    var all := Spliced(holes, lo, hi, m);
    SplicedLength(holes, lo, hi, m);
    forall i, j | 0 <= i < j < |all| ensures End(all[i]) < all[j].addr {
      SplicedAt(holes, lo, hi, m, i);
      SplicedAt(holes, lo, hi, m, j);
    }
    forall i | 0 <= i < |all| ensures all[i].addr > 0 && all[i].size >= MIN_BLOCK {
      SplicedAt(holes, lo, hi, m, i);
    }
  }

  lemma SplicedLength(holes: seq<Block>, lo: nat, hi: nat, m: Block)
    requires lo <= hi <= |holes|
    ensures |Spliced(holes, lo, hi, m)| == |holes| - (hi - lo) + 1
  {
  }

  lemma SplicedFree(holes: seq<Block>, lo: nat, hi: nat, m: Block, a: nat)
    requires lo <= hi <= |holes|
    ensures Free(Spliced(holes, lo, hi, m), a) <==> Covers(m, a) || Free(holes[..lo], a) || Free(holes[hi..], a)
  {
    FreeJoin(holes[..lo] + [m], holes[hi..], a);
    FreeJoin(holes[..lo], [m], a);
    FreeOne(m, a);
  }

  lemma FreeJoin(x: seq<Block>, y: seq<Block>, a: nat)
    ensures Free(x + y, a) <==> Free(x, a) || Free(y, a)
  {
    if Free(x, a) {
      var i :| 0 <= i < |x| && Covers(x[i], a);
      assert Covers((x + y)[i], a);
    }
    if Free(y, a) {
      var i :| 0 <= i < |y| && Covers(y[i], a);
      assert Covers((x + y)[|x| + i], a);
    }
  }

  lemma {:induction false} SumJoin(x: seq<Block>, y: seq<Block>)
    ensures Sum(x + y) == Sum(x) + Sum(y)
  {
    if y == [] {
      assert x + y == x;
    } else {
      assert (x + y)[..|x + y| - 1] == x + y[..|y| - 1];
      SumJoin(x, y[..|y| - 1]);
    }
  }

  lemma SplitSum(holes: seq<Block>, at: nat)
    requires at <= |holes|
    ensures Sum(holes) == Sum(holes[..at]) + Sum(holes[at..])
    ensures at < |holes| ==> Sum(holes[at..]) == holes[at].size + Sum(holes[at + 1..])
    ensures at > 0 ==> Sum(holes[..at]) == Sum(holes[..at - 1]) + holes[at - 1].size
  {
    hide Sum;
    assert holes == holes[..at] + holes[at..];
    SumJoin(holes[..at], holes[at..]);
    if at < |holes| {
      assert holes[at..] == [holes[at]] + holes[at + 1..];
      SumJoin([holes[at]], holes[at + 1..]);
      SumOne(holes[at]);
    }
    if at > 0 {
      assert holes[..at] == holes[..at - 1] + [holes[at - 1]];
      SumJoin(holes[..at - 1], [holes[at - 1]]);
      SumOne(holes[at - 1]);
    }
  }

  lemma SumOne(b: Block)
    ensures Sum([b]) == b.size
  {
    assert [b][..0] == [];
  }

  lemma ApartFromEach(holes: seq<Block>, b: Block, at: nat)
    requires Canonical(holes) && Apart(holes, b) && Between(holes, at, b)
    ensures forall i | 0 <= i < at :: End(holes[i]) <= b.addr
    ensures forall i | at <= i < |holes| :: End(b) <= holes[i].addr && b.addr < holes[i].addr
  {
    forall i | 0 <= i < |holes|
      ensures if i < at then End(holes[i]) <= b.addr else End(b) <= holes[i].addr && b.addr < holes[i].addr {
      assert !Covers(holes[i], b.addr) by {
        assert Covers(b, b.addr);
      }
      if i >= at && holes[i].addr < End(b) {
        assert Covers(b, holes[i].addr) && Covers(holes[i], holes[i].addr);
      }
    }
  }

  lemma PlacedIsCanonical(holes: seq<Block>, at: nat, b: Block)
    requires Canonical(holes) && Apart(holes, b) && Between(holes, at, b)
    ensures Canonical(Placed(holes, at, b))
  {
    hide Free, Spliced;
    ApartFromEach(holes, b, at);
    SplicedIsCanonical(holes, Lo(holes, at, b), Hi(holes, at, b), Merged(holes, at, b));
  }

  /** Putting a block in makes exactly its bytes free as well. */
  lemma PlacedFrees(holes: seq<Block>, at: nat, b: Block, a: nat)
    requires Canonical(holes) && Apart(holes, b) && Between(holes, at, b)
    ensures Free(Placed(holes, at, b), a) <==> Free(holes, a) || Covers(b, a)
  {
    hide Free, Spliced;
    var lo, hi := Lo(holes, at, b), Hi(holes, at, b);
    SplicedFree(holes, lo, hi, Merged(holes, at, b), a);
    SplitFree(holes, at, a);
  }

  lemma SplitFree(holes: seq<Block>, at: nat, a: nat)
    requires at <= |holes|
    ensures Free(holes, a) <==> Free(holes[..at], a) || Free(holes[at..], a)
    ensures at < |holes| ==> (Free(holes[at..], a) <==> Covers(holes[at], a) || Free(holes[at + 1..], a))
    ensures at > 0 ==> (Free(holes[..at], a) <==> Covers(holes[at - 1], a) || Free(holes[..at - 1], a))
  {
    assert holes == holes[..at] + holes[at..];
    FreeJoin(holes[..at], holes[at..], a);
    if at < |holes| {
      assert holes[at..] == [holes[at]] + holes[at + 1..];
      FreeJoin([holes[at]], holes[at + 1..], a);
      FreeOne(holes[at], a);
    }
    if at > 0 {
      assert holes[..at] == holes[..at - 1] + [holes[at - 1]];
      FreeJoin(holes[..at - 1], [holes[at - 1]], a);
      FreeOne(holes[at - 1], a);
    }
  }

  lemma FreeOne(b: Block, a: nat)
    ensures Free([b], a) <==> Covers(b, a)
  {
    if Covers(b, a) {
      assert Covers([b][0], a);
    }
  }

  lemma PlacedSum(holes: seq<Block>, at: nat, b: Block)
    requires at <= |holes|
    ensures Sum(Placed(holes, at, b)) == Sum(holes) + b.size
  {
    hide Sum;
    var lo, hi, m := Lo(holes, at, b), Hi(holes, at, b), Merged(holes, at, b);
    SumJoin(holes[..lo] + [m], holes[hi..]);
    SumJoin(holes[..lo], [m]);
    SumOne(m);
    SplitSum(holes, at);
  }

  // ---- the list as it sits in the free memory ------------------------------

  /** A node, in the first bytes of the hole it describes. Address 0 is null. */
  datatype Hole = Hole(size: nat, next: nat)

  function AddrAt(holes: seq<Block>, i: nat): nat {
    if i < |holes| then holes[i].addr else 0
  }

  /** The nodes from `head` on are these holes. */
  ghost predicate Linked(mem: map<nat, Hole>, head: nat, holes: seq<Block>) {
    && head == AddrAt(holes, 0)
    && forall i | 0 <= i < |holes| ::
       holes[i].addr in mem && mem[holes[i].addr] == Hole(holes[i].size, AddrAt(holes, i + 1))
  }

  /** The block is a node between its neighbours, and not yet merged with them. */
  function Strung(holes: seq<Block>, at: nat, b: Block): seq<Block>
    requires at <= |holes|
  {
    holes[..at] + [b] + holes[at..]
  }

  lemma AddrsDiffer(holes: seq<Block>, i: nat, j: nat)
    requires Canonical(holes) && i < |holes| && j < |holes| && i != j
    ensures holes[i].addr != holes[j].addr
  {
  }

  lemma FirstAddr(holes: seq<Block>)
    requires holes != []
    ensures AddrAt(holes, 0) == holes[0].addr
  {
  }

  lemma StrungAt(holes: seq<Block>, at: nat, b: Block, i: nat)
    requires at <= |holes| && i <= |holes|
    ensures |Strung(holes, at, b)| == |holes| + 1
    ensures Strung(holes, at, b)[i] == if i < at then holes[i] else if i == at then b else holes[i - 1]
    ensures AddrAt(Strung(holes, at, b), i + 1)
            == if i + 1 < at then AddrAt(holes, i + 1) else if i + 1 == at then b.addr else AddrAt(holes, i)
  {
  }

  /** The memory once the block is a node between its neighbours. */
  function StrungMem(mem: map<nat, Hole>, holes: seq<Block>, at: nat, b: Block): map<nat, Hole>
    requires at <= |holes|
  {
    var noded := mem[b.addr := Hole(b.size, AddrAt(holes, at))];
    if at == 0 then noded else noded[holes[at - 1].addr := Hole(holes[at - 1].size, b.addr)]
  }

  lemma StrungNode(mem: map<nat, Hole>, head: nat, holes: seq<Block>, at: nat, b: Block, i: nat)
    requires Linked(mem, head, holes) && Canonical(holes) && at <= |holes|
             && forall j | 0 <= j < |holes| :: holes[j].addr != b.addr
    requires i <= |holes|
    ensures |Strung(holes, at, b)| == |holes| + 1
    ensures var all, mem' := Strung(holes, at, b), StrungMem(mem, holes, at, b);
            all[i].addr in mem' && mem'[all[i].addr] == Hole(all[i].size, AddrAt(all, i + 1))
  {
    hide Strung, Linked, AddrAt, Canonical;
    StrungAt(holes, at, b, i);
    NodesAt(mem, head, holes, i);
    if i < at - 1 {
      AddrsDiffer(holes, i, at - 1);
    } else if i > at && at > 0 {
      AddrsDiffer(holes, i - 1, at - 1);
    }
  }

  lemma StrungIsLinked(mem: map<nat, Hole>, head: nat, holes: seq<Block>, at: nat, b: Block)
    requires Linked(mem, head, holes) && Canonical(holes) && at <= |holes|
             && forall i | 0 <= i < |holes| :: holes[i].addr != b.addr
    ensures Linked(StrungMem(mem, holes, at, b), if at == 0 then b.addr else head, Strung(holes, at, b))
  {
    var all, mem' := Strung(holes, at, b), StrungMem(mem, holes, at, b);
    StrungAt(holes, at, b, 0);
    forall i | 0 <= i < |all|
      ensures all[i].addr in mem' && mem'[all[i].addr] == Hole(all[i].size, AddrAt(all, i + 1)) {
      StrungNode(mem, head, holes, at, b, i);
    }
    hide Strung, StrungMem, Canonical;
  }

  predicate Ordered(holes: seq<Block>) {
    forall j, k | 0 <= j < k < |holes| :: 0 < holes[j].addr < holes[k].addr
  }

  /** Node `i` takes in the one after it. */
  function Absorbed(holes: seq<Block>, i: nat): seq<Block>
    requires i + 1 < |holes|
  {
    holes[..i] + [Block(holes[i].addr, holes[i].size + holes[i + 1].size)] + holes[i + 2..]
  }

  lemma AbsorbedAt(holes: seq<Block>, i: nat, j: nat)
    requires i + 1 < |holes| && j + 1 < |holes|
    ensures |Absorbed(holes, i)| == |holes| - 1
    ensures Absorbed(holes, i)[j] == if j < i then holes[j] else if j == i
            then Block(holes[i].addr, holes[i].size + holes[i + 1].size) else holes[j + 1]
    ensures AddrAt(Absorbed(holes, i), j + 1) == if j + 1 <= i then AddrAt(holes, j + 1) else AddrAt(holes, j + 2)
  {
  }

  function AbsorbedMem(mem: map<nat, Hole>, holes: seq<Block>, i: nat): map<nat, Hole>
    requires i + 1 < |holes|
  {
    mem[holes[i].addr := Hole(holes[i].size + holes[i + 1].size, AddrAt(holes, i + 2))]
  }

  lemma AbsorbedIsLinked(mem: map<nat, Hole>, head: nat, holes: seq<Block>, i: nat)
    requires Linked(mem, head, holes) && i + 1 < |holes| && Ordered(holes)
    ensures Linked(AbsorbedMem(mem, holes, i), head, Absorbed(holes, i)) && Ordered(Absorbed(holes, i))
  {
    hide Absorbed, AddrAt;
    var all, mem' := Absorbed(holes, i), AbsorbedMem(mem, holes, i);
    AbsorbedAt(holes, i, 0);
    assert AddrAt(all, 0) == AddrAt(holes, 0) by {
      FirstAddr(holes);
      FirstAddr(all);
    }
    forall j | 0 <= j < |all|
      ensures all[j].addr in mem' && mem'[all[j].addr] == Hole(all[j].size, AddrAt(all, j + 1)) {
      AbsorbedAt(holes, i, j);
      NodesAt(mem, head, holes, j);
      NodesAt(mem, head, holes, j + 1);
    }
    forall j, k | 0 <= j < k < |all| ensures 0 < all[j].addr < all[k].addr {
      AbsorbedAt(holes, i, j);
      AbsorbedAt(holes, i, k);
    }
  }

  /** Stringing the block in and merging forward, then backward, is placing it. */
  lemma AbsorbedIsPlaced(holes: seq<Block>, at: nat, b: Block)
    requires at <= |holes|
    ensures |Strung(holes, at, b)| == |holes| + 1
    ensures JoinsNext(holes, at, b) && !JoinsPrev(holes, at, b)
            ==> Placed(holes, at, b) == Absorbed(Strung(holes, at, b), at)
    ensures !JoinsNext(holes, at, b) && JoinsPrev(holes, at, b)
            ==> Placed(holes, at, b) == Absorbed(Strung(holes, at, b), at - 1)
    ensures !JoinsNext(holes, at, b) && !JoinsPrev(holes, at, b) ==> Placed(holes, at, b) == Strung(holes, at, b)
  {
    var all := Strung(holes, at, b);
    if JoinsNext(holes, at, b) {
      assert all[at + 2..] == holes[at + 1..] && all[..at] == holes[..at];
    }
    if JoinsPrev(holes, at, b) {
      assert all[at + 1..] == holes[at..] && all[..at - 1] == holes[..at - 1];
    }
  }

  lemma BothAbsorbedIsPlaced(holes: seq<Block>, at: nat, b: Block)
    requires at <= |holes| && JoinsNext(holes, at, b) && JoinsPrev(holes, at, b)
    ensures |Strung(holes, at, b)| == |holes| + 1 && |Absorbed(Strung(holes, at, b), at)| == |holes|
    ensures Placed(holes, at, b) == Absorbed(Absorbed(Strung(holes, at, b), at), at - 1)
  {
    var fwd := Absorbed(Strung(holes, at, b), at);
    assert fwd[at + 1..] == holes[at + 1..] && fwd[..at - 1] == holes[..at - 1] && fwd[at - 1] == holes[at - 1];
  }

  lemma StrungIsOrdered(holes: seq<Block>, at: nat, b: Block)
    requires Canonical(holes) && Apart(holes, b) && Between(holes, at, b)
    ensures Ordered(Strung(holes, at, b)) && forall i | 0 <= i < |holes| :: holes[i].addr != b.addr
  {
    hide Strung, Free;
    ApartFromEach(holes, b, at);
    var all := Strung(holes, at, b);
    StrungAt(holes, at, b, 0);
    forall j, k | 0 <= j < k < |all| ensures 0 < all[j].addr < all[k].addr {
      StrungAt(holes, at, b, j);
      StrungAt(holes, at, b, k);
    }
  }

  // ---- taking a block out --------------------------------------------------

  function AlignUp(x: nat, align: nat): nat
    requires align > 0
  {
    (x + align - 1) / align * align
  }

  /** A layout in the terms the free list works in. */
  function Normalize(size: nat, align: nat): (nat, nat) {
    (AlignUp(if size < MIN_BLOCK then MIN_BLOCK else size, MIN_BLOCK), if align < MIN_BLOCK then MIN_BLOCK else align)
  }

  /** The block fits, and any leftover is itself a usable block. */
  predicate Fits(b: Block, size: nat, align: nat)
    requires align > 0
  {
    var front := AlignUp(b.addr, align) - b.addr;
    var back := b.size - front - size;
    back >= 0 && (front == 0 || front >= MIN_BLOCK) && (back == 0 || back >= MIN_BLOCK)
  }

  function Without(holes: seq<Block>, i: nat): seq<Block>
    requires i < |holes|
  {
    holes[..i] + holes[i + 1..]
  }

  lemma WithoutAt(holes: seq<Block>, i: nat, j: nat)
    requires i < |holes| && j < |holes| - 1
    ensures |Without(holes, i)| == |holes| - 1
    ensures Without(holes, i)[j] == if j < i then holes[j] else holes[j + 1]
    ensures AddrAt(Without(holes, i), j + 1) == if j + 1 < i then AddrAt(holes, j + 1) else AddrAt(holes, j + 2)
  {
  }

  function WithoutMem(mem: map<nat, Hole>, holes: seq<Block>, i: nat): map<nat, Hole>
    requires i < |holes|
  {
    if i == 0 then mem else mem[holes[i - 1].addr := Hole(holes[i - 1].size, AddrAt(holes, i + 1))]
  }

  lemma WithoutIsLinked(mem: map<nat, Hole>, head: nat, holes: seq<Block>, i: nat)
    requires Linked(mem, head, holes) && Canonical(holes) && i < |holes|
    ensures Linked(WithoutMem(mem, holes, i), if i == 0 then AddrAt(holes, 1) else head, Without(holes, i))
  {
    hide Linked, Without, AddrAt, Canonical;
    var all, mem' := Without(holes, i), WithoutMem(mem, holes, i);
    WithoutHead(holes, i);
    HeadAt(mem, head, holes);
    forall j | 0 <= j < |all|
      ensures all[j].addr in mem' && mem'[all[j].addr] == Hole(all[j].size, AddrAt(all, j + 1)) {
      WithoutAt(holes, i, j);
      NodesAt(mem, head, holes, j);
      NodesAt(mem, head, holes, j + 1);
      if i > 0 && j >= i {
        AddrsDiffer(holes, j + 1, i - 1);
      } else if j < i - 1 {
        AddrsDiffer(holes, j, i - 1);
      }
    }
    LinkedFrom(mem', if i == 0 then AddrAt(holes, 1) else head, all);
  }

  lemma LinkedFrom(mem: map<nat, Hole>, head: nat, holes: seq<Block>)
    requires head == AddrAt(holes, 0)
    requires forall i | 0 <= i < |holes| ::
             holes[i].addr in mem && mem[holes[i].addr] == Hole(holes[i].size, AddrAt(holes, i + 1))
    ensures Linked(mem, head, holes)
  {
    hide AddrAt;
  }

  lemma WithoutHead(holes: seq<Block>, i: nat)
    requires i < |holes|
    ensures |Without(holes, i)| == |holes| - 1
            && AddrAt(Without(holes, i), 0) == if i == 0 then AddrAt(holes, 1) else AddrAt(holes, 0)
  {
  }

  lemma WithoutIsCanonical(holes: seq<Block>, i: nat)
    requires Canonical(holes) && i < |holes|
    ensures Canonical(Without(holes, i)) && Sum(Without(holes, i)) == Sum(holes) - holes[i].size
  {
    hide Without, AddrAt, Sum, End;
    var all := Without(holes, i);
    WithoutHead(holes, i);
    forall j, k | 0 <= j < k < |all| ensures End(all[j]) < all[k].addr {
      WithoutAt(holes, i, j);
      WithoutAt(holes, i, k);
    }
    forall j | 0 <= j < |all| ensures all[j].addr > 0 && all[j].size >= MIN_BLOCK {
      WithoutAt(holes, i, j);
    }
    WithoutSum(holes, i);
  }

  lemma WithoutSum(holes: seq<Block>, i: nat)
    requires i < |holes|
    ensures Sum(Without(holes, i)) == Sum(holes) - holes[i].size
  {
    SumJoin(holes[..i], holes[i + 1..]);
    SplitSum(holes, i);
  }

  lemma WithoutFree(holes: seq<Block>, i: nat, a: nat)
    requires Canonical(holes) && i < |holes|
    ensures Free(Without(holes, i), a) <==> Free(holes, a) && !Covers(holes[i], a)
  {
    FreeJoin(holes[..i], holes[i + 1..], a);
    SplitFree(holes, i, a);
    if Covers(holes[i], a) {
      assert !Free(holes[..i], a) && !Free(holes[i + 1..], a);
    }
  }

  /** The block's bytes were free, and are all that stopped being. */
  ghost predicate TakenFrom(was: seq<Block>, now: seq<Block>, b: Block) {
    && (forall a: nat | Covers(b, a) :: Free(was, a))
    && forall a: nat :: Free(now, a) <==> Free(was, a) && !Covers(b, a)
  }

  /** The block's bytes became free, and no others. */
  ghost predicate GivenTo(was: seq<Block>, now: seq<Block>, b: Block) {
    forall a: nat :: Free(now, a) <==> Free(was, a) || Covers(b, a)
  }

  /** What putting a block in does to a list. */
  ghost predicate Inserted(was: seq<Block>, now: seq<Block>, b: Block) {
    exists at :: Between(was, at, b) && now == Placed(was, at, b)
  }

  /** Putting a block in frees its bytes and no others, and leaves the list
    * canonical. */
  lemma InsertedGives(was: seq<Block>, now: seq<Block>, b: Block)
    requires Canonical(was) && Apart(was, b) && Inserted(was, now, b)
    ensures Canonical(now) && GivenTo(was, now, b) && Sum(now) == Sum(was) + b.size
  {
    hide Free, Canonical, Placed, Sum;
    var at :| Between(was, at, b) && now == Placed(was, at, b);
    PlacedIsCanonical(was, at, b);
    PlacedSum(was, at, b);
    forall a: nat ensures Free(now, a) <==> Free(was, a) || Covers(b, a) {
      PlacedFrees(was, at, b, a);
    }
  }

  /** Addresses and sizes in whole nodes, as every region and layout gives them. */
  ghost predicate Grained(holes: seq<Block>) {
    forall i | 0 <= i < |holes| :: holes[i].addr % MIN_BLOCK == 0 && holes[i].size % MIN_BLOCK == 0
  }

  /** Whole nodes stay whole nodes. */
  lemma InsertedStaysGrained(was: seq<Block>, now: seq<Block>, b: Block)
    requires Grained(was) && Inserted(was, now, b) && b.addr % MIN_BLOCK == 0 && b.size % MIN_BLOCK == 0
    ensures Grained(now)
  {
    var at :| Between(was, at, b) && now == Placed(was, at, b);
    hide Spliced;
    var lo, hi, m := Lo(was, at, b), Hi(was, at, b), Merged(was, at, b);
    forall i | 0 <= i < |now| ensures now[i].addr % MIN_BLOCK == 0 && now[i].size % MIN_BLOCK == 0 {
      SplicedAt(was, lo, hi, m, i);
      SplicedLength(was, lo, hi, m);
    }
  }

  lemma ModDivides(x: nat, align: nat)
    requires align > 0 && align % MIN_BLOCK == 0 && x % align == 0
    ensures x % MIN_BLOCK == 0
  {
    var k, m := x / align, align / MIN_BLOCK;
    assert x == k * align && align == m * MIN_BLOCK;
    assert x == (k * m) * MIN_BLOCK;
  }

  lemma WithoutStaysGrained(holes: seq<Block>, i: nat)
    requires Grained(holes) && i < |holes|
    ensures Grained(Without(holes, i))
  {
    hide Without;
    WithoutHead(holes, i);
    forall j | 0 <= j < |Without(holes, i)|
      ensures Without(holes, i)[j].addr % MIN_BLOCK == 0 && Without(holes, i)[j].size % MIN_BLOCK == 0 {
      WithoutAt(holes, i, j);
    }
  }

  lemma PiecesAreGrained(holes: seq<Block>, i: nat, start: nat, need: nat, grain: nat)
    requires Grained(holes) && i < |holes| && grain > 0 && grain % MIN_BLOCK == 0 && need % MIN_BLOCK == 0
             && start % grain == 0
    ensures start % MIN_BLOCK == 0 && holes[i].addr % MIN_BLOCK == 0 && holes[i].size % MIN_BLOCK == 0
    ensures (start - holes[i].addr) % MIN_BLOCK == 0 && (start + need) % MIN_BLOCK == 0
    ensures (holes[i].size - (start - holes[i].addr) - need) % MIN_BLOCK == 0
  {
    ModDivides(start, grain);
  }

  class HoleList {
    var head: nat
    var mem: map<nat, Hole>
    var freeBytes: nat
    var totalBytes: nat
    ghost var holes: seq<Block>

    ghost predicate Valid()
      reads this
    {
      Linked(mem, head, holes) && Canonical(holes) && freeBytes == Sum(holes)
    }

    constructor ()
      ensures Valid() && holes == [] && totalBytes == 0
    {
      head, mem, freeBytes, totalBytes, holes := 0, map[], 0, 0, [];
    }

    /** The node the block goes after, or null, and how many are below it. */
    method Seek(block: nat) returns (prev: nat, cur: nat, ghost at: nat)
      requires Linked(mem, head, holes) && Canonical(holes)
      ensures at <= |holes| && (forall i | 0 <= i < at :: holes[i].addr < block)
              && (at < |holes| ==> block <= holes[at].addr)
      ensures prev == (if at == 0 then 0 else holes[at - 1].addr) && cur == AddrAt(holes, at)
    {
      hide Linked, Canonical;
      HeadAt(mem, head, holes);
      prev, cur, at := 0, head, 0;
      while cur != 0 && cur < block
        invariant at <= |holes| && cur == AddrAt(holes, at) && prev == if at == 0 then 0 else holes[at - 1].addr
        invariant forall i | 0 <= i < at :: holes[i].addr < block
        decreases |holes| - at
      {
        NodesAt(mem, head, holes, at);
        prev := cur;
        cur := mem[cur].next;
        at := at + 1;
      }
      NonZero(holes, at);
    }

    /** The holes become `Inserted` of them and the block, which keeps them canonical. */
    method Insert(block: nat, size: nat)
      requires Valid() && Apart(holes, Block(block, size))
      modifies this`head, this`mem, this`freeBytes, this`holes
      ensures Valid() && Inserted(old(holes), holes, Block(block, size))
    {
      hide Sum, Free, Placed, Linked, Canonical, Apart, Strung, Between, Ordered;
      ghost var b, was := Block(block, size), holes;
      freeBytes := freeBytes + size;
      var prev, cur;
      ghost var at;
      prev, cur, at := Seek(block);
      SoughtIsBetween(was, at, b);
      StrungIsOrdered(was, at, b);
      StrungIsLinked(mem, head, was, at, b);
      NodesAt(mem, head, was, at);
      NonZero(was, at);
      mem := mem[block := Hole(size, cur)];
      if prev == 0 {
        head := block;
      } else {
        mem := mem[prev := Hole(mem[prev].size, block)];
      }
      PlacedIsCanonical(was, at, b);
      PlacedSum(was, at, b);
      Merge(prev, cur, block, size, was, at);
      holes := Placed(was, at, b);
    }

    /** The region's bytes become free, unless a node does not fit in them. */
    method AddRegion(start: nat, size: nat)
      requires Valid() && (size >= MIN_BLOCK ==> Apart(holes, Block(start, size)))
      modifies this
      ensures Valid()
      ensures if size < MIN_BLOCK then holes == old(holes) && totalBytes == old(totalBytes)
              else Inserted(old(holes), holes, Block(start, size)) && totalBytes == old(totalBytes) + size
    {
      if size < MIN_BLOCK {
        return;
      }
      totalBytes := totalBytes + size;
      Insert(start, size);
    }

    method Dealloc(ptr: nat, size: nat, align: nat)
      requires Valid() && Apart(holes, Block(ptr, Normalize(size, align).0))
      modifies this`head, this`mem, this`freeBytes, this`holes
      ensures Valid() && Inserted(old(holes), holes, Block(ptr, Normalize(size, align).0))
    {
      Insert(ptr, Normalize(size, align).0);
    }

    /** A block for the layout, or null when no hole fits one. */
    method Alloc(size: nat, align: nat) returns (ptr: nat)
      requires Valid()
      modifies this`head, this`mem, this`freeBytes, this`holes
      ensures Valid()
      ensures ptr == 0 <==> forall i | 0 <= i < |old(holes)| ::
              !Fits(old(holes)[i], Normalize(size, align).0, Normalize(size, align).1)
      ensures ptr == 0 ==> holes == old(holes)
      ensures ptr != 0 ==>
              ptr % Normalize(size, align).1 == 0 && TakenFrom(old(holes), holes, Block(ptr, Normalize(size, align).0))
      ensures Grained(old(holes)) && Normalize(size, align).1 % MIN_BLOCK == 0 ==> Grained(holes)
    {
      hide Linked, Canonical, Sum, Free, TakenFrom, Fits, Grained;
      AlignUpIsClose(if size < MIN_BLOCK then MIN_BLOCK else size, MIN_BLOCK);
      var (need, grain) := Normalize(size, align);
      HeadAt(mem, head, holes);
      var prev, cur := 0, head;
      ghost var i := 0;
      while cur != 0
        invariant Valid() && holes == old(holes) && i <= |holes|
        invariant cur == AddrAt(holes, i) && prev == (if i == 0 then 0 else holes[i - 1].addr)
        invariant forall j | 0 <= j < i :: !Fits(holes[j], need, grain)
        decreases |holes| - i
      {
        NodesAt(mem, head, holes, i);
        if Fits(Block(cur, mem[cur].size), need, grain) {
          ptr := Split(prev, cur, need, grain, i);
          return;
        }
        prev := cur;
        cur := mem[cur].next;
        i := i + 1;
      }
      NonZero(holes, i);
      return 0;
    }

    /** Unlink the hole, then put back whatever survives the split. */
    method Split(prev: nat, cur: nat, need: nat, grain: nat, ghost i: nat) returns (ptr: nat)
      requires Valid() && grain > 0 && need > 0 && i < |holes| && cur == holes[i].addr
               && prev == (if i == 0 then 0 else holes[i - 1].addr)
      requires Fits(holes[i], need, grain)
      modifies this`head, this`mem, this`freeBytes, this`holes
      ensures Valid() && ptr > 0 && ptr % grain == 0 && TakenFrom(old(holes), holes, Block(ptr, need))
      ensures Grained(old(holes)) && need % MIN_BLOCK == 0 && grain % MIN_BLOCK == 0 ==> Grained(holes)
    {
      hide Linked, Canonical, Sum, Free, TakenFrom, Without, Apart, GivenTo, Inserted, Grained;
      ghost var was := holes;
      NodesAt(mem, head, holes, i);
      NonZero(holes, i);
      AlignUpIsClose(cur, grain);
      var holeSize, next := mem[cur].size, mem[cur].next;
      var start := AlignUp(cur, grain);
      var front := start - cur;
      var back := holeSize - front - need;
      WithoutIsLinked(mem, head, holes, i);
      WithoutIsCanonical(holes, i);
      ghost var grained := Grained(was) && need % MIN_BLOCK == 0 && grain % MIN_BLOCK == 0;
      if grained {
        WithoutStaysGrained(was, i);
        PiecesAreGrained(was, i, start, need, grain);
      }
      if prev == 0 {
        head := next;
      } else {
        mem := mem[prev := Hole(mem[prev].size, next)];
      }
      freeBytes := freeBytes - holeSize;
      holes := Without(was, i);
      if front > 0 {
        FrontIsApart(was, i, Block(cur, front));
        Insert(cur, front);
        InsertedGives(Without(was, i), holes, Block(cur, front));
        if grained {
          InsertedStaysGrained(Without(was, i), holes, Block(cur, front));
        }
      }
      ghost var fronted := holes;
      if back > 0 {
        BackIsApart(was, i, Block(start, need), Without(was, i), fronted);
        Insert(start + need, back);
        InsertedGives(fronted, holes, Block(start + need, back));
        if grained {
          InsertedStaysGrained(fronted, holes, Block(start + need, back));
        }
      }
      SplitTakes(was, i, Block(start, need), Without(was, i), fronted, holes);
      return start;
    }

    /** Merge forward, then backward. */
    method Merge(prev: nat, cur: nat, block: nat, size: nat, ghost was: seq<Block>, ghost at: nat)
      requires at <= |was| && Linked(mem, head, Strung(was, at, Block(block, size)))
               && Ordered(Strung(was, at, Block(block, size)))
      requires prev == (if at == 0 then 0 else was[at - 1].addr) && cur == AddrAt(was, at) && (at > 0 ==> prev > 0)
               && (at < |was| ==> cur > 0)
      modifies this`mem
      ensures Linked(mem, head, Placed(was, at, Block(block, size)))
    {
      hide Linked, Placed, Strung, Absorbed, Ordered;
      ghost var b := Block(block, size);
      ghost var all := Strung(was, at, b);
      AbsorbedIsPlaced(was, at, b);
      StrungAt(was, at, b, at);
      NodesAt(mem, head, all, at);
      if cur != 0 && block + size == cur {
        BothIfBoth(was, at, b);
        StrungAt(was, at, b, at + 1);
        NodesAt(mem, head, all, at + 1);
        AbsorbedIsLinked(mem, head, all, at);
        AbsorbedAt(all, at, at);
        mem := mem[block := Hole(mem[block].size + mem[cur].size, mem[cur].next)];
        all := Absorbed(all, at);
      }
      if prev != 0 {
        StrungAt(was, at, b, at - 1);
        if cur != 0 && block + size == cur {
          AbsorbedAt(Strung(was, at, b), at, at - 1);
        }
        NodesAt(mem, head, all, at - 1);
        NodesAt(mem, head, all, at);
        if prev + mem[prev].size == block {
          AbsorbedIsLinked(mem, head, all, at - 1);
          mem := mem[prev := Hole(mem[prev].size + mem[block].size, mem[block].next)];
        }
      }
    }
  }

  lemma FrontIsApart(holes: seq<Block>, i: nat, b: Block)
    requires Canonical(holes) && i < |holes| && holes[i].addr <= b.addr && End(b) <= End(holes[i])
             && b.size >= MIN_BLOCK
    ensures Apart(Without(holes, i), b)
  {
    forall a: nat | Covers(b, a) ensures !Free(Without(holes, i), a) {
      WithoutFree(holes, i, a);
    }
  }

  /** Unlinking a hole and putting back what is left on either side of the block
    * takes exactly the block out. */
  lemma SplitTakes(holes: seq<Block>, i: nat, b: Block, none: seq<Block>, fronted: seq<Block>, now: seq<Block>)
    requires Canonical(holes) && i < |holes| && holes[i].addr <= b.addr && End(b) <= End(holes[i])
    requires none == Without(holes, i)
    requires if b.addr == holes[i].addr then fronted == none
             else GivenTo(none, fronted, Block(holes[i].addr, b.addr - holes[i].addr))
    requires if End(b) == End(holes[i]) then now == fronted
             else GivenTo(fronted, now, Block(End(b), End(holes[i]) - End(b)))
    ensures TakenFrom(holes, now, b)
  {
    hide Free, Canonical;
    forall a: nat | Covers(b, a) ensures Free(holes, a) {
      HoleIsFree(holes, i, a);
    }
    forall a: nat ensures Free(now, a) <==> Free(holes, a) && !Covers(b, a) {
      WithoutFree(holes, i, a);
      if Covers(holes[i], a) {
        HoleIsFree(holes, i, a);
      }
    }
  }

  lemma HoleIsFree(holes: seq<Block>, i: nat, a: nat)
    requires i < |holes| && Covers(holes[i], a)
    ensures Free(holes, a)
  {
  }

  lemma BackIsApart(holes: seq<Block>, i: nat, b: Block, none: seq<Block>, fronted: seq<Block>)
    requires Canonical(holes) && i < |holes| && holes[i].addr <= b.addr && End(b) < End(holes[i])
             && End(holes[i]) - End(b) >= MIN_BLOCK
    requires none == Without(holes, i)
    requires if b.addr == holes[i].addr then fronted == none
             else GivenTo(none, fronted, Block(holes[i].addr, b.addr - holes[i].addr))
    ensures Apart(fronted, Block(End(b), End(holes[i]) - End(b)))
  {
    hide Free, Canonical;
    NonZero(holes, i);
    forall a: nat | Covers(Block(End(b), End(holes[i]) - End(b)), a) ensures !Free(fronted, a) {
      WithoutFree(holes, i, a);
    }
  }

  lemma AlignUpIsClose(x: nat, align: nat)
    requires align > 0
    ensures x <= AlignUp(x, align) < x + align && AlignUp(x, align) % align == 0
    ensures forall y: nat | y % align == 0 && x <= y :: AlignUp(x, align) <= y
  {
    var q := (x + align - 1) / align;
    assert q * align <= x + align - 1 < q * align + align;
    MulMod(q, align);
    forall y: nat | y % align == 0 && x <= y ensures AlignUp(x, align) <= y {
      var k := y / align;
      assert y == k * align;
      if k < q {
        MulLe(k + 1, q, align);
      } else {
        MulLe(q, k, align);
      }
    }
  }

  lemma MulLe(a: nat, b: nat, c: nat)
    requires a <= b
    ensures a * c <= b * c
  {
  }

  lemma MulMod(q: nat, align: nat)
    requires align > 0
    ensures q * align % align == 0
  {
    var k := q * align / align;
    assert q * align == k * align + q * align % align;
    if k < q {
      MulLe(k + 1, q, align);
    } else {
      MulLe(q, k, align);
    }
  }

  lemma BothIfBoth(was: seq<Block>, at: nat, b: Block)
    requires at <= |was| && JoinsNext(was, at, b)
    ensures JoinsPrev(was, at, b) ==>
              && |Strung(was, at, b)| == |was| + 1 && |Absorbed(Strung(was, at, b), at)| == |was|
              && Placed(was, at, b) == Absorbed(Absorbed(Strung(was, at, b), at), at - 1)
  {
    if JoinsPrev(was, at, b) {
      BothAbsorbedIsPlaced(was, at, b);
    }
  }

  lemma HeadAt(mem: map<nat, Hole>, head: nat, holes: seq<Block>)
    requires Linked(mem, head, holes)
    ensures head == AddrAt(holes, 0)
  {
  }

  lemma NonZero(holes: seq<Block>, at: nat)
    requires Canonical(holes)
    ensures at < |holes| ==> holes[at].addr > 0
    ensures 0 < at <= |holes| ==> holes[at - 1].addr > 0
  {
  }

  lemma SoughtIsBetween(holes: seq<Block>, at: nat, b: Block)
    requires Canonical(holes) && at <= |holes| && (forall i | 0 <= i < at :: holes[i].addr < b.addr)
             && (at < |holes| ==> b.addr <= holes[at].addr)
    ensures Between(holes, at, b)
  {
    assert at < |holes| ==> forall i | at < i < |holes| :: End(holes[at]) < holes[i].addr;
  }

  lemma NodesAt(mem: map<nat, Hole>, head: nat, holes: seq<Block>, i: nat)
    requires Linked(mem, head, holes)
    ensures i < |holes| ==> holes[i].addr in mem && mem[holes[i].addr] == Hole(holes[i].size, AddrAt(holes, i + 1))
    ensures 0 < i <= |holes|
            ==> holes[i - 1].addr in mem && mem[holes[i - 1].addr] == Hole(holes[i - 1].size, AddrAt(holes, i))
  {
  }

  // ---- what the list promises ----------------------------------------------

  /** Giving a block back undoes taking it: the list is the very same list. */
  lemma DeallocUndoesAlloc(was: seq<Block>, taken: seq<Block>, b: Block, now: seq<Block>)
    requires Canonical(was) && Canonical(taken) && TakenFrom(was, taken, b)
    requires Apart(taken, b) && Inserted(taken, now, b)
    ensures now == was
  {
    hide Free, Canonical, Inserted;
    InsertedGives(taken, now, b);
    CanonicalIsUnique(now, was);
  }

  /** A run of frees, each of a block that is not free. */
  ghost predicate Frees(was: seq<Block>, blocks: seq<Block>, now: seq<Block>) {
    if blocks == [] then now == was else
    var last := blocks[|blocks| - 1];
    exists mid :: Frees(was, blocks[..|blocks| - 1], mid) && Apart(mid, last) && Inserted(mid, now, last)
  }

  lemma {:induction false} FreesGive(was: seq<Block>, blocks: seq<Block>, now: seq<Block>)
    requires Canonical(was) && Frees(was, blocks, now)
    ensures Canonical(now) && forall a: nat :: Free(now, a) <==> Free(was, a) || exists b | b in blocks :: Covers(b, a)
  {
    hide Free, Canonical, Inserted, Apart, Covers;
    if blocks != [] {
      var last, rest := blocks[|blocks| - 1], blocks[..|blocks| - 1];
      var mid :| Frees(was, rest, mid) && Apart(mid, last) && Inserted(mid, now, last);
      FreesGive(was, rest, mid);
      InsertedGives(mid, now, last);
      assert blocks == rest + [last];
    }
  }

  /** Frees of the same blocks in any order end in the same list. */
  lemma OrderOfFreesIsNothing(was: seq<Block>, xs: seq<Block>, ys: seq<Block>, x: seq<Block>, y: seq<Block>)
    requires Canonical(was) && Frees(was, xs, x) && Frees(was, ys, y) && multiset(xs) == multiset(ys)
    ensures x == y
  {
    hide Free, Canonical, Frees, Covers;
    FreesGive(was, xs, x);
    FreesGive(was, ys, y);
    forall b ensures b in xs <==> b in ys {
      assert b in xs <==> b in multiset(xs);
      assert b in ys <==> b in multiset(ys);
    }
    CanonicalIsUnique(x, y);
  }

  /** Blocks handed out share no byte with each other or with a hole. */
  ghost predicate Disjoint(holes: seq<Block>, live: set<Block>) {
    && (forall b, a: nat | b in live && Covers(b, a) :: !Free(holes, a))
    && (forall b, c, a: nat | b in live && c in live && Covers(b, a) && Covers(c, a) :: b == c)
  }

  lemma AllocStaysDisjoint(was: seq<Block>, now: seq<Block>, live: set<Block>, b: Block)
    requires Disjoint(was, live) && TakenFrom(was, now, b)
    ensures Disjoint(now, live + {b})
  {
    hide Free;
  }

  lemma DeallocStaysDisjoint(was: seq<Block>, now: seq<Block>, live: set<Block>, b: Block)
    requires Disjoint(was, live) && b in live && Canonical(was) && b.addr > 0 && b.size >= MIN_BLOCK
             && Inserted(was, now, b)
    ensures Apart(was, b) && Disjoint(now, live - {b})
  {
    hide Free, Canonical, Inserted;
    InsertedGives(was, now, b);
  }

  // ---- when an allocation fails --------------------------------------------

  /** A run of free bytes lies in one hole. */
  lemma RunInOneHole(holes: seq<Block>, a: nat, size: nat)
    requires Canonical(holes) && size > 0 && forall x: nat | a <= x < a + size :: Free(holes, x)
    ensures exists i | 0 <= i < |holes| :: holes[i].addr <= a && a + size <= End(holes[i])
  {
    assert Free(holes, a);
    var i :| 0 <= i < |holes| && Covers(holes[i], a);
    PastHoleIsTaken(holes, i);
  }

  lemma PastHoleIsTaken(holes: seq<Block>, i: nat)
    requires Canonical(holes) && i < |holes|
    ensures !Free(holes, End(holes[i]))
  {
  }

  lemma FitsWhenRoom(b: Block, size: nat, align: nat, a: nat)
    requires align > 0 && align % MIN_BLOCK == 0 && size % MIN_BLOCK == 0 && b.addr % MIN_BLOCK == 0
             && b.size % MIN_BLOCK == 0
    requires a % align == 0 && b.addr <= a && a + size <= End(b)
    ensures Fits(b, size, align)
  {
    AlignUpIsClose(b.addr, align);
    ModDivides(AlignUp(b.addr, align), align);
    LeftoversUsable(b, size, AlignUp(b.addr, align));
  }

  lemma LeftoversUsable(b: Block, size: nat, start: nat)
    requires size % MIN_BLOCK == 0 && b.addr % MIN_BLOCK == 0 && b.size % MIN_BLOCK == 0 && start % MIN_BLOCK == 0
    requires b.addr <= start && start + size <= End(b)
    ensures var front := start - b.addr; var back := b.size - front - size;
            back >= 0 && (front == 0 || front >= MIN_BLOCK) && (back == 0 || back >= MIN_BLOCK)
  {
  }

  /** A hole fits a block exactly when some aligned run of that many free bytes
    * exists at all. */
  lemma FitsIffRoom(holes: seq<Block>, size: nat, align: nat)
    requires Canonical(holes) && Grained(holes) && size > 0 && align > 0 && align % MIN_BLOCK == 0
             && size % MIN_BLOCK == 0
    ensures (exists i | 0 <= i < |holes| :: Fits(holes[i], size, align))
       <==> (exists a: nat :: a % align == 0 && forall x: nat | a <= x < a + size :: Free(holes, x))
  {
    if i :| 0 <= i < |holes| && Fits(holes[i], size, align) {
      AlignUpIsClose(holes[i].addr, align);
      var a := AlignUp(holes[i].addr, align);
      forall x: nat | a <= x < a + size ensures Free(holes, x) {
        assert Covers(holes[i], x);
      }
      assert a % align == 0;
    }
    if a: nat :| a % align == 0 && forall x: nat | a <= x < a + size :: Free(holes, x) {
      RunInOneHole(holes, a, size);
      var i :| 0 <= i < |holes| && holes[i].addr <= a && a + size <= End(holes[i]);
      FitsWhenRoom(holes[i], size, align, a);
    }
  }
}
