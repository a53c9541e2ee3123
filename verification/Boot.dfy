/** What the boot loader left in memory, and the frame allocator built around it.
  */
module Boot {
  import opened Machines
  import opened Frames

  const MAX_RESERVED: nat := 64

  /** Bytes from `start` up to `end`. */
  datatype Range = Range(start: nat, end: nat)

  datatype Region = Region(addr: nat, len: nat, usable: bool)

  function End(r: Region): nat {
    r.addr + r.len
  }

  predicate Has(r: Range, a: nat) {
    r.start <= a < r.end
  }

  predicate Touching(r: Range, start: nat, end: nat) {
    start <= r.end && end >= r.start
  }

  /** The least range that holds both. */
  function Joined(r: Range, start: nat, end: nat): Range {
    Range(if start < r.start then start else r.start, if end > r.end then end else r.end)
  }

  class BootInfo {
    var regions: seq<Region>
    var modules: seq<Range>
    const reserved: array<Range>
    var reservedCount: nat
    /** Every range that was ever asked for. */
    ghost var asked: seq<Range>

    constructor ()
      ensures Valid() && reservedCount == 0 && asked == [] && fresh(reserved)
    {
      regions, modules := [], [];
      reserved := new Range[MAX_RESERVED](_ => Range(0, 0));
      reservedCount, asked := 0, [];
    }

    ghost predicate Valid()
      reads this, reserved
    {
      && reserved.Length == MAX_RESERVED && reservedCount <= MAX_RESERVED
      && (forall i | 0 <= i < reservedCount :: reserved[i].start < reserved[i].end)
      && AllReserved()
    }

    /** Nothing that was asked for has been given up. */
    ghost predicate AllReserved()
      reads this`reservedCount, this`asked, reserved
      requires reservedCount <= reserved.Length
    {
      forall k, a | 0 <= k < |asked| && Has(asked[k], a) :: Reserved(a)
    }

    /** The table says the byte at `a` is taken. */
    ghost predicate Reserved(a: nat)
      reads this`reservedCount, reserved
      requires reservedCount <= reserved.Length
    {
      exists i | 0 <= i < reservedCount :: Has(reserved[i], a)
    }

    /** The nearest entry, by where they start. */
    method Nearest(start: nat) returns (nearest: nat)
      requires Valid() && reservedCount > 0
      ensures nearest < reservedCount
      ensures forall i | 0 <= i < reservedCount ::
              Apart(start, reserved[nearest].start) <= Apart(start, reserved[i].start)
    {
      nearest := 0;
      for i := 0 to reservedCount
        invariant nearest < reservedCount
        invariant forall j | 0 <= j < i :: Apart(start, reserved[nearest].start) <= Apart(start, reserved[j].start)
      {
        if Apart(start, reserved[i].start) < Apart(start, reserved[nearest].start) {
          nearest := i;
        }
      }
    }

    /** Hold the bytes of `[start, end)` back. Nothing
      * reserved is ever given up, the whole range asked for is reserved, and
      * unless the table is full and nothing touches the range, no more is. */
    method Reserve(start: nat, end: nat)
      requires Valid()
      modifies this`reservedCount, this`asked, reserved
      ensures Valid() && asked == old(asked) + [Range(start, end)]
      ensures forall a: nat | old(Reserved(a)) || start <= a < end :: Reserved(a)
      ensures old(reservedCount) < MAX_RESERVED || end <= start
              || old(exists i | 0 <= i < reservedCount :: Touching(reserved[i], start, end)) ==>
                forall a: nat | Reserved(a) :: old(Reserved(a)) || start <= a < end
    {
      Put(start, end);
      asked := asked + [Range(start, end)];
    }

    /** Join the range to the first entry it touches; with none, add an entry; and
      * with no room for one, fold it into the nearest. */
    method Put(start: nat, end: nat)
      requires Valid()
      modifies this`reservedCount, reserved
      ensures Valid()
      ensures forall a: nat | old(Reserved(a)) || start <= a < end :: Reserved(a)
      ensures old(reservedCount) < MAX_RESERVED || end <= start
              || old(exists i | 0 <= i < reservedCount :: Touching(reserved[i], start, end)) ==>
                forall a: nat | Reserved(a) :: old(Reserved(a)) || start <= a < end
    {
      if end <= start {
        return;
      }
      for i := 0 to reservedCount
        invariant forall j | 0 <= j < i :: !Touching(reserved[j], start, end)
        invariant reserved[..] == old(reserved[..]) && reservedCount == old(reservedCount)
      {
        if Touching(reserved[i], start, end) {
          Widen(i, start, end);
          return;
        }
      }
      if reservedCount < MAX_RESERVED {
        Append(start, end);
        return;
      }
      var nearest := Nearest(start);
      Widen(nearest, start, end);
    }

    method Append(start: nat, end: nat)
      requires Valid() && reservedCount < MAX_RESERVED && start < end
      modifies this`reservedCount, reserved
      ensures Valid() && forall a: nat :: Reserved(a) <==> old(Reserved(a)) || start <= a < end
    {
      ghost var was := reserved[..];
      reserved[reservedCount] := Range(start, end);
      reservedCount := reservedCount + 1;
      assert forall i | 0 <= i < reservedCount - 1 :: reserved[i] == was[i];
      forall a: nat ensures Reserved(a) <==> old(Reserved(a)) || start <= a < end {
        if old(Reserved(a)) {
          var i :| 0 <= i < old(reservedCount) && Has(was[i], a);
          assert Has(reserved[i], a);
        }
        if start <= a < end {
          assert Has(reserved[reservedCount - 1], a);
        }
      }
    }

    method Widen(at: nat, start: nat, end: nat)
      requires Valid() && at < reservedCount && start < end
      modifies reserved
      ensures Valid()
      ensures forall a: nat :: Reserved(a) <==> old(Reserved(a)) || Has(Joined(old(reserved[at]), start, end), a)
    {
      ghost var was := reserved[..];
      reserved[at] := Joined(reserved[at], start, end);
      assert forall i | 0 <= i < reservedCount && i != at :: reserved[i] == was[i];
      forall a: nat ensures Reserved(a) <==> old(Reserved(a)) || Has(Joined(was[at], start, end), a) {
        if old(Reserved(a)) {
          var i :| 0 <= i < reservedCount && Has(was[i], a);
          assert Has(reserved[i], a);
        }
        if Has(Joined(was[at], start, end), a) {
          assert Has(reserved[at], a);
        }
      }
    }
  }

  function Apart(a: nat, b: nat): nat {
    if a < b then b - a else a - b
  }

  // ---- building the allocator ----------------------------------------------

  /** The frame holds a byte of one of the ranges, each rounded out to pages. */
  ghost predicate SomeTouch(ranges: seq<Range>, frames: nat, f: nat) {
    exists i | 0 <= i < |ranges| :: Touched(ranges[i].start, ranges[i].end, frames, f)
  }

  /** The frame is whole inside usable memory below the limit. */
  ghost predicate SomeUsable(regions: seq<Region>, limit: nat, frames: nat, f: nat) {
    exists i | 0 <= i < |regions| :: regions[i].usable
      && Inside(regions[i].addr, Min(End(regions[i]), limit), frames, f)
  }

  /** The regions of the map that are not usable. */
  function Unusable(regions: seq<Region>): seq<Range> {
    if regions == [] then [] else
    var r := regions[|regions| - 1];
    Unusable(regions[..|regions| - 1]) + if r.usable then [] else [Range(r.addr, End(r))]
  }

  lemma TouchNext(ranges: seq<Range>, i: nat, frames: nat, f: nat)
    requires i < |ranges|
    ensures SomeTouch(ranges[..i + 1], frames, f)
            <==> SomeTouch(ranges[..i], frames, f) || Touched(ranges[i].start, ranges[i].end, frames, f)
  {
    hide Touched;
    if SomeTouch(ranges[..i], frames, f) {
      var j :| 0 <= j < i && Touched(ranges[..i][j].start, ranges[..i][j].end, frames, f);
      assert ranges[..i + 1][j] == ranges[..i][j];
    }
    assert ranges[..i + 1][i] == ranges[i];
  }

  lemma TouchJoin(a: seq<Range>, b: seq<Range>, frames: nat, f: nat)
    ensures SomeTouch(a + b, frames, f) <==> SomeTouch(a, frames, f) || SomeTouch(b, frames, f)
  {
    hide Touched;
    if SomeTouch(a, frames, f) {
      var i :| 0 <= i < |a| && Touched(a[i].start, a[i].end, frames, f);
      assert (a + b)[i] == a[i];
    }
    if SomeTouch(b, frames, f) {
      var i :| 0 <= i < |b| && Touched(b[i].start, b[i].end, frames, f);
      assert (a + b)[|a| + i] == b[i];
    }
  }

  /** Take back every one of the ranges. */
  method MarkAll(alloc: BitmapAllocator, ranges: seq<Range>)
    requires alloc.Valid()
    modifies alloc
    ensures alloc.Valid() && |alloc.bitmap| == |old(alloc.bitmap)|
    ensures forall f: nat | f < alloc.frames ::
            Test(alloc.bitmap, f) <==> old(Test(alloc.bitmap, f)) || SomeTouch(ranges, alloc.frames, f)
  {
    hide SomeTouch, Touched, Test, Used;
    NoTouch(ranges, alloc.frames);
    for i := 0 to |ranges|
      invariant alloc.Valid() && |alloc.bitmap| == |old(alloc.bitmap)|
      invariant forall f: nat | f < alloc.frames ::
                Test(alloc.bitmap, f) <==> old(Test(alloc.bitmap, f)) || SomeTouch(ranges[..i], alloc.frames, f)
    {
      alloc.MarkRangeUsed(ranges[i].start, ranges[i].end);
      forall f: nat | f < alloc.frames
        ensures SomeTouch(ranges[..i + 1], alloc.frames, f) <==>
                SomeTouch(ranges[..i], alloc.frames, f) || Touched(ranges[i].start, ranges[i].end, alloc.frames, f)
      {
        TouchNext(ranges, i, alloc.frames, f);
      }
    }
    assert ranges[..|ranges|] == ranges;
  }

  lemma NoTouch(ranges: seq<Range>, frames: nat)
    ensures forall f: nat :: !SomeTouch(ranges[..0], frames, f)
  {
  }

  lemma UsableNext(regions: seq<Region>, i: nat, limit: nat, frames: nat, f: nat)
    requires i < |regions|
    ensures SomeUsable(regions[..i + 1], limit, frames, f) <==>
              SomeUsable(regions[..i], limit, frames, f)
                || (regions[i].usable && Inside(regions[i].addr, Min(End(regions[i]), limit), frames, f))
  {
    hide Inside;
    if SomeUsable(regions[..i], limit, frames, f) {
      var j :| 0 <= j < i && regions[..i][j].usable
        && Inside(regions[..i][j].addr, Min(End(regions[..i][j]), limit), frames, f);
      assert regions[..i + 1][j] == regions[..i][j];
    }
    assert regions[..i + 1][i] == regions[i];
  }

  lemma NoneUsable(regions: seq<Region>, limit: nat, frames: nat)
    ensures forall f: nat :: !SomeUsable(regions[..0], limit, frames, f)
  {
  }

  /** Release the usable memory of the map. */
  method ReleaseUsable(alloc: BitmapAllocator, regions: seq<Region>, limit: nat)
    requires alloc.Valid()
    modifies alloc
    ensures alloc.Valid() && |alloc.bitmap| == |old(alloc.bitmap)|
    ensures forall f: nat | f < alloc.frames ::
            Test(alloc.bitmap, f) <==> old(Test(alloc.bitmap, f)) && !SomeUsable(regions, limit, alloc.frames, f)
  {
    hide SomeUsable, Inside, Test, Used;
    NoneUsable(regions, limit, alloc.frames);
    for i := 0 to |regions|
      invariant alloc.Valid() && |alloc.bitmap| == |old(alloc.bitmap)|
      invariant forall f: nat | f < alloc.frames ::
                Test(alloc.bitmap, f)
                <==> old(Test(alloc.bitmap, f)) && !SomeUsable(regions[..i], limit, alloc.frames, f)
    {
      forall f: nat | f < alloc.frames
        ensures SomeUsable(regions[..i + 1], limit, alloc.frames, f) <==>
                  SomeUsable(regions[..i], limit, alloc.frames, f)
                    || (regions[i].usable && Inside(regions[i].addr, Min(End(regions[i]), limit), alloc.frames, f))
      {
        UsableNext(regions, i, limit, alloc.frames, f);
      }
      if regions[i].usable {
        alloc.MarkRangeFree(regions[i].addr, Min(End(regions[i]), limit));
      }
    }
    assert regions[..|regions|] == regions;
  }

  /** Everything an allocator over this map holds back. */
  function HeldBack(regions: seq<Region>, claimed: seq<Range>, kernel: Range, metadata: Range, reserved: seq<Range>,
                    modules: seq<Range>): seq<Range>
  {
    Unusable(regions) + claimed + [kernel] + [metadata] + reserved + modules
  }

  /** A frame is free exactly when it is whole inside usable memory and no range held
    * back reaches it. */
  ghost predicate FreeExactly(bitmap: seq<BitWord>, frames: nat, regions: seq<Region>, limit: nat, held: seq<Range>) {
    && frames <= |bitmap| * WORD_BITS
    && forall f: nat | f < frames ::
       !Test(bitmap, f) <==> SomeUsable(regions, limit, frames, f) && !SomeTouch(held, frames, f)
  }

  /** Build an allocator over the map: a frame is free exactly when it is whole
    * inside usable memory and no range held back reaches it. */
  method Build(regions: seq<Region>, claimed: seq<Range>, kernel: Range, reserved: seq<Range>, modules: seq<Range>,
               limit: nat, metadata: Range)
    returns (alloc: BitmapAllocator)
    ensures alloc.Valid() && fresh(alloc) && alloc.frames == limit / PAGE
    ensures FreeExactly(alloc.bitmap, alloc.frames, regions, limit,
                        HeldBack(regions, claimed, kernel, metadata, reserved, modules))
  {
    hide SomeTouch, SomeUsable, Used, Test;
    alloc := new BitmapAllocator(limit / PAGE);
    ReleaseUsable(alloc, regions, limit);
    MarkAll(alloc, Unusable(regions));
    UsedAtMost(alloc.bitmap, alloc.frames);
    alloc.managed := alloc.frames - alloc.used;
    MarkAll(alloc, claimed);
    MarkAll(alloc, [kernel]);
    MarkAll(alloc, [metadata]);
    MarkAll(alloc, reserved);
    MarkAll(alloc, modules);
    forall f: nat | f < alloc.frames
      ensures SomeTouch(HeldBack(regions, claimed, kernel, metadata, reserved, modules), alloc.frames, f) <==>
                || SomeTouch(Unusable(regions), alloc.frames, f) || SomeTouch(claimed, alloc.frames, f)
                   || SomeTouch([kernel], alloc.frames, f)
                || SomeTouch([metadata], alloc.frames, f) || SomeTouch(reserved, alloc.frames, f)
                   || SomeTouch(modules, alloc.frames, f)
    {
      TouchJoin(Unusable(regions), claimed, alloc.frames, f);
      TouchJoin(Unusable(regions) + claimed, [kernel], alloc.frames, f);
      TouchJoin(Unusable(regions) + claimed + [kernel], [metadata], alloc.frames, f);
      TouchJoin(Unusable(regions) + claimed + [kernel] + [metadata], reserved, alloc.frames, f);
      TouchJoin(Unusable(regions) + claimed + [kernel] + [metadata] + reserved, modules, alloc.frames, f);
    }
  }

  /** No byte of a page that is free after the build is in a range held back. */
  lemma FreeFrameIsClear(ranges: seq<Range>, frames: nat, f: nat, i: nat, a: nat)
    requires f < frames && !SomeTouch(ranges, frames, f) && i < |ranges| && f * PAGE <= a < (f + 1) * PAGE
    ensures !Has(ranges[i], a)
  {
    hide Touched;
    RoundingIsExact(ranges[i].start, ranges[i].end, frames, f);
  }

  // ---- where the metadata goes ---------------------------------------------

  predicate Overlaps(r: Range, start: nat, end: nat) {
    r.start < end && start < r.end
  }

  /** The end of the first range that `[start, end)` overlaps. */
  function FirstOverlap(ranges: seq<Range>, start: nat, end: nat): (r: Option<nat>)
    ensures r.None? <==> forall i | 0 <= i < |ranges| :: !Overlaps(ranges[i], start, end)
    ensures r.Some? ==> exists i | 0 <= i < |ranges| :: Overlaps(ranges[i], start, end) && ranges[i].end == r.value
  {
    if ranges == [] then None
    else if Overlaps(ranges[0], start, end) then Some(ranges[0].end)
    else
      var rest := FirstOverlap(ranges[1..], start, end);
      assert forall i | 0 < i < |ranges| :: ranges[i] == ranges[1..][i - 1];
      rest
  }

  /** The bytes are whole pages' start, inside the usable region, and clear. */
  ghost predicate Spot(r: Region, limit: nat, held: seq<Range>, bytes: nat, at: nat) {
    && r.usable && at % PAGE == 0 && r.addr <= at && at + bytes <= Min(End(r), limit)
    && FirstOverlap(held, at, at + bytes).None?
  }

  lemma PastOverlap(held: seq<Range>, start: nat, bytes: nat, past: nat, at: nat)
    requires FirstOverlap(held, start, start + bytes) == Some(past) && start <= at < past
    ensures FirstOverlap(held, at, at + bytes).Some?
  {
    var i :| 0 <= i < |held| && Overlaps(held[i], start, start + bytes) && held[i].end == past;
    assert Overlaps(held[i], at, at + bytes);
  }

  lemma UpIsNext(x: nat, at: nat)
    ensures x <= Up(x) * PAGE && Up(x) * PAGE % PAGE == 0
    ensures at % PAGE == 0 && x <= at ==> Up(x) * PAGE <= at
  {
  }

  /** The first clear run of pages long enough in one usable region. */
  method SearchRegion(r: Region, limit: nat, held: seq<Range>, bytes: nat) returns (spot: Option<nat>)
    requires r.usable && bytes > 0
    ensures spot.Some? ==> Spot(r, limit, held, bytes, spot.value)
    ensures spot.None? ==> forall at: nat :: !Spot(r, limit, held, bytes, at)
  {
    hide Up;
    var end := Min(End(r), limit);
    var start := Up(r.addr) * PAGE;
    UpIsNext(r.addr, 0);
    forall at: nat | Spot(r, limit, held, bytes, at) ensures start <= at {
      UpIsNext(r.addr, at);
    }
    while start + bytes <= end
      invariant start % PAGE == 0 && r.addr <= start
      invariant forall at: nat | Spot(r, limit, held, bytes, at) :: start <= at
      decreases end - start
    {
      var overlap := FirstOverlap(held, start, start + bytes);
      if overlap.None? {
        return Some(start);
      }
      var past := overlap.value;
      forall at: nat | Spot(r, limit, held, bytes, at) ensures past <= at {
        if at < past {
          PastOverlap(held, start, bytes, past, at);
        }
      }
      if past >= end {
        NoRoomPast(r, limit, held, bytes, past);
        return None;
      }
      ghost var was := start;
      start := Up(past) * PAGE;
      UpIsNext(past, 0);
      assert was < past;
      forall at: nat | Spot(r, limit, held, bytes, at) ensures start <= at {
        UpIsNext(past, at);
      }
    }
    return None;
  }

  lemma NoRoomPast(r: Region, limit: nat, held: seq<Range>, bytes: nat, past: nat)
    requires bytes > 0 && past >= Min(End(r), limit) && forall at: nat | Spot(r, limit, held, bytes, at) :: past <= at
    ensures forall at: nat :: !Spot(r, limit, held, bytes, at)
  {
  }

  /** Where the bitmap and the counts go: the first clear run of usable pages long
    * enough, or nothing when there is none in any region. */
  method FindMetadata(regions: seq<Region>, limit: nat, held: seq<Range>, bytes: nat) returns (spot: Option<nat>)
    requires bytes > 0
    ensures spot.Some? ==> exists i | 0 <= i < |regions| :: Spot(regions[i], limit, held, bytes, spot.value)
    ensures spot.None? ==> forall i, at: nat | 0 <= i < |regions| :: !Spot(regions[i], limit, held, bytes, at)
  {
    for i := 0 to |regions|
      invariant forall j, at: nat | 0 <= j < i :: !Spot(regions[j], limit, held, bytes, at)
    {
      if regions[i].usable {
        spot := SearchRegion(regions[i], limit, held, bytes);
        if spot.Some? {
          return;
        }
      }
    }
    return None;
  }
}
