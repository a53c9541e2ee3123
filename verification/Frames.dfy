/** The physical frame allocator: one bit per frame, a reference count per frame,
  * and two searches.
  */
module Frames {
  import opened Machines

  const PAGE: nat := 4096
  const WORD_BITS: nat := 64
  const COUNT_MAX: nat := 65535

  /** A word of the bitmap, its lowest bit first. */
  type BitWord = w: seq<bool> | |w| == WORD_BITS witness seq(WORD_BITS, _ => false)

  /** The word is all ones. */
  predicate Full(w: BitWord) {
    forall i | 0 <= i < WORD_BITS :: w[i]
  }

  /** The lowest clear bit: the trailing zeros of the complement. */
  function LowestClear(w: BitWord, from: nat := 0): (i: nat)
    requires from < WORD_BITS && (forall j | 0 <= j < from :: w[j]) && !Full(w)
    ensures i < WORD_BITS && !w[i] && forall j | 0 <= j < i :: w[j]
    decreases WORD_BITS - from
  {
    if !w[from] then from else LowestClear(w, from + 1)
  }

  predicate Test(bitmap: seq<BitWord>, frame: nat)
    requires frame < |bitmap| * WORD_BITS
  {
    bitmap[frame / WORD_BITS][frame % WORD_BITS]
  }

  function Put(bitmap: seq<BitWord>, frame: nat, bit: bool): (r: seq<BitWord>)
    requires frame < |bitmap| * WORD_BITS
    ensures |r| == |bitmap|
    ensures forall f: nat | f < |bitmap| * WORD_BITS :: Test(r, f) == if f == frame then bit else Test(bitmap, f)
  {
    bitmap[frame / WORD_BITS := bitmap[frame / WORD_BITS][frame % WORD_BITS := bit]]
  }

  /** The frames in use. */
  ghost function Used(bitmap: seq<BitWord>, frames: nat): set<nat>
    requires frames <= |bitmap| * WORD_BITS
  {
    set f: nat | f < frames && Test(bitmap, f)
  }

  lemma {:induction false} UsedAtMost(bitmap: seq<BitWord>, frames: nat)
    requires frames <= |bitmap| * WORD_BITS
    ensures |Used(bitmap, frames)| <= frames
    ensures |Used(bitmap, frames)| == frames <==> forall f: nat | f < frames :: Test(bitmap, f)
  {
    if frames > 0 {
      UsedAtMost(bitmap, frames - 1);
      var rest := Used(bitmap, frames - 1);
      if Test(bitmap, frames - 1) {
        assert Used(bitmap, frames) == rest + {frames - 1};
      } else {
        assert Used(bitmap, frames) == rest;
      }
    }
  }

  lemma UsedPut(bitmap: seq<BitWord>, frames: nat, frame: nat, bit: bool)
    requires frame < frames <= |bitmap| * WORD_BITS
    ensures Used(Put(bitmap, frame, bit), frames)
            == if bit then Used(bitmap, frames) + {frame} else Used(bitmap, frames) - {frame}
  {
  }

  /** The bits are as they were but for one. */
  ghost predicate PutOnly(was: seq<BitWord>, now: seq<BitWord>, frames: nat, frame: nat, bit: bool) {
    && frames <= |was| * WORD_BITS && |now| == |was|
    && forall f: nat | f < frames :: Test(now, f) == if f == frame then bit else Test(was, f)
  }

  /** Setting or clearing one bit moves the count by what changed. */
  lemma CountPut(bitmap: seq<BitWord>, frames: nat, frame: nat, bit: bool)
    requires frame < frames <= |bitmap| * WORD_BITS
    ensures PutOnly(bitmap, Put(bitmap, frame, bit), frames, frame, bit)
    ensures |Used(Put(bitmap, frame, bit), frames)|
         == |Used(bitmap, frames)| + (if bit && !Test(bitmap, frame) then 1 else 0)
            - (if !bit && Test(bitmap, frame) then 1 else 0)
  {
    UsedPut(bitmap, frames, frame, bit);
    var used := Used(bitmap, frames);
    assert frame in used <==> Test(bitmap, frame);
    if bit && !Test(bitmap, frame) {
      assert |used + {frame}| == |used| + 1;
    } else if !bit && Test(bitmap, frame) {
      assert |used - {frame}| == |used| - 1;
    } else if bit {
      assert used + {frame} == used;
    } else {
      assert used - {frame} == used;
    }
  }

  /** One frame that was free is taken, with one reference; or none was free. */
  ghost predicate AllocSays(was: seq<BitWord>, counts: seq<nat>, now: seq<BitWord>, counts': seq<nat>, frames: nat,
                            r: Option<nat>)
  {
    && frames <= |was| * WORD_BITS && frames <= |counts|
    && match r
       case None => now == was && counts' == counts && forall f: nat | f < frames :: Test(was, f)
       case Some(phys) =>
         var f := phys / PAGE;
         phys % PAGE == 0 && f < frames && !Test(was, f) && PutOnly(was, now, frames, f, true)
           && counts' == counts[f := 1]
  }

  /** A run of frames that were free is taken; or there is no such run. */
  ghost predicate RunSays(was: seq<BitWord>, counts: seq<nat>, now: seq<BitWord>, counts': seq<nat>, frames: nat,
                          count: nat, r: Option<nat>)
  {
    && frames <= |was| * WORD_BITS
    && match r
       case None => now == was && counts' == counts && (count == 0 || NoRun(was, frames, count))
       case Some(phys) =>
         count > 0 && phys % PAGE == 0 && TookRun(was, counts, now, counts', frames, phys / PAGE, count)
  }

  /** One reference fewer, and free exactly when that was the last. A frame that is
    * free already, or is not one of the allocator's, is left alone. */
  ghost predicate FreeSays(was: seq<BitWord>, counts: seq<nat>, now: seq<BitWord>, counts': seq<nat>, frames: nat,
                           f: nat)
  {
    && frames <= |was| * WORD_BITS && frames <= |counts|
    && if f >= frames || !Test(was, f) then now == was && counts' == counts
       else
         && counts' == counts[f := Less(counts[f])]
         && if counts[f] <= 1 then PutOnly(was, now, frames, f, false) else now == was
  }

  /** One reference more, up to the largest count, for a frame in use. */
  ghost predicate ShareSays(bitmap: seq<BitWord>, counts: seq<nat>, counts': seq<nat>, frames: nat, f: nat) {
    && frames <= |bitmap| * WORD_BITS && frames <= |counts|
    && counts' == if f < frames && Test(bitmap, f) then counts[f := More(counts[f])] else counts
  }

  class BitmapAllocator {
    var bitmap: seq<BitWord>
    var refcounts: seq<nat>
    const frames: nat
    var managed: nat
    var used: nat
    var hint: nat

    ghost predicate Valid()
      reads this
    {
      && frames <= |bitmap| * WORD_BITS && |refcounts| >= frames && hint <= frames
      && used == |Used(bitmap, frames)|
      && forall i | 0 <= i < |refcounts| :: refcounts[i] <= COUNT_MAX
    }

    /** Nothing free: every bit set, as the metadata is before the map is read. */
    constructor (frames: nat)
      ensures Valid() && this.frames == frames && forall f: nat | f < frames :: Test(bitmap, f)
    {
      this.frames := frames;
      bitmap := seq((frames + WORD_BITS - 1) / WORD_BITS, _ => seq(WORD_BITS, _ => true));
      refcounts := seq(frames, _ => 0);
      managed, used, hint := 0, frames, 0;
      new;
      UsedAtMost(bitmap, frames);
    }

    /** Set the bit of a frame and give it its one reference. */
    method Take(frame: nat)
      requires Valid() && frame < frames
      modifies this`bitmap, this`refcounts, this`used
      ensures Valid() && PutOnly(old(bitmap), bitmap, frames, frame, true)
      ensures refcounts == old(refcounts)[frame := 1]
    {
      hide Used, Put, PutOnly;
      CountPut(bitmap, frames, frame, true);
      if !Test(bitmap, frame) {
        used := used + 1;
      }
      bitmap := Put(bitmap, frame, true);
      refcounts := refcounts[frame := 1];
    }

    method Clear(frame: nat)
      requires Valid() && frame < frames
      modifies this`bitmap, this`used
      ensures Valid() && PutOnly(old(bitmap), bitmap, frames, frame, false)
    {
      hide Used, Put, PutOnly;
      CountPut(bitmap, frames, frame, false);
      if Test(bitmap, frame) {
        used := used - 1;
      }
      bitmap := Put(bitmap, frame, false);
    }

    /** Search the words from `w` up to `wend` for a clear bit. */
    method Scan(from: nat, wend: nat) returns (r: Option<nat>)
      requires Valid() && wend <= |bitmap|
      ensures r.Some? ==> r.value < frames && !Test(bitmap, r.value)
      ensures r.None? ==> forall f: nat | from * WORD_BITS <= f < wend * WORD_BITS && f < frames :: Test(bitmap, f)
    {
      var w := from;
      while w < wend
        invariant forall f: nat | from * WORD_BITS <= f < w * WORD_BITS && f < frames && f < |bitmap| * WORD_BITS ::
                  Test(bitmap, f)
        decreases wend - w
      {
        var word := bitmap[w];
        if !Full(word) {
          var bit := LowestClear(word);
          var frame := w * WORD_BITS + bit;
          assert frame / WORD_BITS == w && frame % WORD_BITS == bit;
          if frame < frames && !Test(bitmap, frame) {
            return Some(frame);
          }
        }
        forall f: nat | w * WORD_BITS <= f < (w + 1) * WORD_BITS && f < frames ensures Test(bitmap, f) {
          assert f / WORD_BITS == w;
        }
        w := w + 1;
      }
      return None;
    }

    /** Allocate one frame, wherever the last search left off. */
    method Alloc() returns (r: Option<nat>)
      requires Valid()
      modifies this
      ensures Valid() && AllocSays(old(bitmap), old(refcounts), bitmap, refcounts, frames, r)
    {
      hide PutOnly, Used;
      UsedAtMost(bitmap, frames);
      if used >= frames {
        return None;
      }
      for pass := 0 to 2
        invariant Valid() && bitmap == old(bitmap) && refcounts == old(refcounts) && hint == old(hint)
        invariant pass >= 1 ==> forall f: nat | hint / WORD_BITS * WORD_BITS <= f < frames :: Test(bitmap, f)
        invariant pass >= 2 ==> forall f: nat | f < frames :: Test(bitmap, f)
      {
        var start := if pass == 0 then hint else 0;
        var end := if pass == 0 then frames else hint;
        WordsCover(end, frames, |bitmap|);
        var found := Scan(start / WORD_BITS, (end + WORD_BITS - 1) / WORD_BITS);
        if found.Some? {
          Take(found.value);
          hint := found.value + 1;
          assert found.value * PAGE / PAGE == found.value && found.value * PAGE % PAGE == 0;
          return Some(found.value * PAGE);
        }
      }
      return None;
    }

    /** Allocate `count` contiguous frames. */
    method AllocContiguous(count: nat) returns (r: Option<nat>)
      requires Valid()
      modifies this
      ensures Valid() && RunSays(old(bitmap), old(refcounts), bitmap, refcounts, frames, count, r)
    {
      hide Used, ClearRun, TookRun, NoRun;
      if count == 0 {
        return None;
      }
      if count == 1 {
        r := Alloc();
        OneIsARun(old(bitmap), frames);
        if r.Some? {
          TookOne(old(bitmap), old(refcounts), bitmap, refcounts, frames, r.value / PAGE);
        }
        return;
      }
      var found := FindRun(count);
      if found.None? {
        return None;
      }
      assert found.value * PAGE / PAGE == found.value && found.value * PAGE % PAGE == 0;
      TakeRun(found.value, count);
      return Some(found.value * PAGE);
    }

    /** The first `count` clear frames in a row. */
    method FindRun(count: nat) returns (r: Option<nat>)
      requires Valid() && count >= 1
      ensures r.None? <==> NoRun(bitmap, frames, count)
      ensures r.Some? ==> ClearRun(bitmap, frames, r.value, count)
    {
      hide Used, Test;
      var run := 0;
      for f := 0 to frames
        invariant run <= f && run < count && (forall g: nat | f - run <= g < f :: !Test(bitmap, g))
        invariant run < f ==> Test(bitmap, f - run - 1)
        invariant forall first: nat | first + count <= f :: !ClearRun(bitmap, frames, first, count)
      {
        if Test(bitmap, f) {
          run := 0;
          continue;
        }
        run := run + 1;
        if run == count {
          assert ClearRun(bitmap, frames, f + 1 - count, count);
          return Some(f + 1 - count);
        }
      }
      return None;
    }

    method TakeRun(first: nat, count: nat)
      requires Valid() && ClearRun(bitmap, frames, first, count)
      modifies this`bitmap, this`refcounts, this`used
      ensures Valid() && TookRun(old(bitmap), old(refcounts), bitmap, refcounts, frames, first, count)
    {
      hide Used, ClearRun, TookRun, PutOnly;
      ghost var was, counts := bitmap, refcounts;
      RunStarts(was, counts, frames, first, count);
      for x := first to first + count
        invariant Valid() && TookSome(was, counts, bitmap, refcounts, frames, first, x)
      {
        RunGoesOn(was, counts, bitmap, refcounts, frames, first, count, x);
        Take(x);
        RunStep(was, counts, bitmap, refcounts, frames, first, x);
      }
      RunEnds(was, counts, bitmap, refcounts, frames, first, count);
    }

    /** Give one reference back. */
    method Free(phys: nat)
      requires Valid()
      modifies this
      ensures Valid() && FreeSays(old(bitmap), old(refcounts), bitmap, refcounts, frames, phys / PAGE)
    {
      hide Used, PutOnly;
      var frame := phys / PAGE;
      if frame >= frames || !Test(bitmap, frame) {
        return;
      }
      var remaining := Less(refcounts[frame]);
      refcounts := refcounts[frame := remaining];
      if remaining > 0 {
        return;
      }
      Clear(frame);
      if frame < hint {
        hint := frame;
      }
    }

    /** Take another reference to a frame in use. */
    method Share(phys: nat)
      requires Valid()
      modifies this`refcounts
      ensures Valid() && ShareSays(bitmap, old(refcounts), refcounts, frames, phys / PAGE)
    {
      var frame := phys / PAGE;
      if frame < frames && Test(bitmap, frame) {
        refcounts := refcounts[frame := More(refcounts[frame])];
      }
    }

    // ---- ranges --------------------------------------------------------------

    method MarkRangeUsed(start: nat, end: nat)
      requires Valid()
      modifies this`bitmap, this`refcounts, this`used
      ensures Valid() && |bitmap| == |old(bitmap)|
      ensures forall f: nat | f < frames :: Test(bitmap, f) <==> old(Test(bitmap, f)) || Touched(start, end, frames, f)
    {
      hide Used, Test;
      var first := Min(start, frames * PAGE) / PAGE;
      var last := Min(Up(Min(end, frames * PAGE)), frames);
      var f := first;
      while f < last
        invariant Valid() && |bitmap| == |old(bitmap)| && first <= f
        invariant forall g: nat | g < frames :: Test(bitmap, g) <==> old(Test(bitmap, g)) || first <= g < Min(f, last)
      {
        Take(f);
        f := f + 1;
      }
    }

    method MarkRangeFree(start: nat, end: nat)
      requires Valid()
      modifies this`bitmap, this`used
      ensures Valid() && |bitmap| == |old(bitmap)|
      ensures forall f: nat | f < frames :: Test(bitmap, f) <==> old(Test(bitmap, f)) && !Inside(start, end, frames, f)
    {
      hide Used, Test;
      var first := Up(Min(start, frames * PAGE));
      var last := Min(Min(end, frames * PAGE) / PAGE, frames);
      var f := first;
      while f < last
        invariant Valid() && |bitmap| == |old(bitmap)| && first <= f
        invariant forall g: nat | g < frames ::
                  Test(bitmap, g) <==> old(Test(bitmap, g)) && !(first <= g < Min(f, last))
      {
        Clear(f);
        f := f + 1;
      }
    }
  }

  /** What taking the frames of a run below `x` has done. */
  ghost predicate TookSome(was: seq<BitWord>, counts: seq<nat>, now: seq<BitWord>, counts': seq<nat>, frames: nat,
                           first: nat, x: nat)
  {
    && frames <= |was| * WORD_BITS && |now| == |was| && |counts'| == |counts| && frames <= |counts|
    && (forall f: nat | f < frames :: Test(now, f) <==> Test(was, f) || first <= f < x)
    && (forall f: nat | f < frames :: counts'[f] == if first <= f < x then 1 else counts[f])
  }

  /** A run of clear frames was taken, each with one reference, and nothing else
    * changed. */
  ghost predicate TookRun(was: seq<BitWord>, counts: seq<nat>, now: seq<BitWord>, counts': seq<nat>, frames: nat,
                          first: nat, count: nat)
  {
    && TookSome(was, counts, now, counts', frames, first, first + count)
    && ClearRun(was, frames, first, count)
  }

  lemma RunStarts(bitmap: seq<BitWord>, counts: seq<nat>, frames: nat, first: nat, count: nat)
    requires frames <= |bitmap| * WORD_BITS && frames <= |counts| && ClearRun(bitmap, frames, first, count)
    ensures TookSome(bitmap, counts, bitmap, counts, frames, first, first)
  {
  }

  lemma RunGoesOn(was: seq<BitWord>, counts: seq<nat>, now: seq<BitWord>, counts': seq<nat>, frames: nat, first: nat,
                  count: nat, x: nat)
    requires TookSome(was, counts, now, counts', frames, first, x) && ClearRun(was, frames, first, count)
             && first <= x < first + count
    ensures x < frames && TookSome(was, counts, now, counts', frames, first, x)
  {
  }

  lemma RunStep(was: seq<BitWord>, counts: seq<nat>, now: seq<BitWord>, counts': seq<nat>, frames: nat, first: nat,
                x: nat)
    requires exists mid, counts1 :: TookSome(was, counts, mid, counts1, frames, first, x) && x < frames
                                    && PutOnly(mid, now, frames, x, true) && counts' == counts1[x := 1]
    requires first <= x
    ensures TookSome(was, counts, now, counts', frames, first, x + 1)
  {
  }

  lemma RunEnds(was: seq<BitWord>, counts: seq<nat>, now: seq<BitWord>, counts': seq<nat>, frames: nat, first: nat,
                count: nat)
    requires TookSome(was, counts, now, counts', frames, first, first + count) && ClearRun(was, frames, first, count)
    ensures TookRun(was, counts, now, counts', frames, first, count)
  {
  }

  lemma TookOne(was: seq<BitWord>, counts: seq<nat>, now: seq<BitWord>, counts': seq<nat>, frames: nat, f: nat)
    requires f < frames <= |was| * WORD_BITS && frames <= |counts| && !Test(was, f)
    requires PutOnly(was, now, frames, f, true) && counts' == counts[f := 1]
    ensures TookRun(was, counts, now, counts', frames, f, 1)
  {
  }

  ghost predicate NoRun(bitmap: seq<BitWord>, frames: nat, count: nat)
    requires frames <= |bitmap| * WORD_BITS
  {
    forall first: nat | first + count <= frames :: !ClearRun(bitmap, frames, first, count)
  }

  /** `count` clear frames from `first` on. */
  ghost predicate ClearRun(bitmap: seq<BitWord>, frames: nat, first: nat, count: nat)
    requires frames <= |bitmap| * WORD_BITS
  {
    first + count <= frames && forall f: nat | first <= f < first + count :: !Test(bitmap, f)
  }

  lemma OneIsARun(bitmap: seq<BitWord>, frames: nat)
    requires frames <= |bitmap| * WORD_BITS
    ensures NoRun(bitmap, frames, 1) <==> forall f: nat | f < frames :: Test(bitmap, f)
  {
    forall f: nat | f < frames ensures ClearRun(bitmap, frames, f, 1) <==> !Test(bitmap, f) {
    }
  }

  /** Counts stop at their ends rather than wrapping. */
  function Less(count: nat): nat {
    if count == 0 then 0 else count - 1
  }

  function More(count: nat): nat {
    if count < COUNT_MAX then count + 1 else COUNT_MAX
  }

  function Min(a: nat, b: nat): nat {
    if a < b then a else b
  }

  /** Whole pages to hold `bytes`. */
  function Up(bytes: nat): nat {
    (bytes + PAGE - 1) / PAGE
  }

  /** The frame is one a range rounded out to pages reaches. */
  predicate Touched(start: nat, end: nat, frames: nat, f: nat) {
    Min(start, frames * PAGE) / PAGE <= f < Up(Min(end, frames * PAGE))
  }

  /** The frame is one a range rounded in to pages holds. */
  predicate Inside(start: nat, end: nat, frames: nat, f: nat) {
    Up(Min(start, frames * PAGE)) <= f < Min(end, frames * PAGE) / PAGE
  }

  /** Rounded out means every page that has a byte of the range, and rounded in
    * every page that has nothing else. */
  lemma RoundingIsExact(start: nat, end: nat, frames: nat, f: nat)
    requires f < frames
    ensures start < end ==> (Touched(start, end, frames, f) <==> start < (f + 1) * PAGE && f * PAGE < end)
    ensures Inside(start, end, frames, f) <==> start <= f * PAGE && (f + 1) * PAGE <= end
  {
  }

  lemma WordsCover(end: nat, frames: nat, words: nat)
    requires end <= frames <= words * WORD_BITS
    ensures (end + WORD_BITS - 1) / WORD_BITS <= words && end <= (end + WORD_BITS - 1) / WORD_BITS * WORD_BITS
  {
  }
}
