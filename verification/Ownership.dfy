/** `Prepared`: one frame for a page and a stock of frames for tables. Each frame
  * carries exactly one reference until a publish takes it or the value is dropped.
  */
module Ownership {
  import opened Machines
  import opened Reclaim
  import opened Tables

  /** Every frame of `frames` has `change` references more than it had, and no other
    * frame's count is different. */
  ghost predicate Moved(counts: map<Phys, nat>, counts': map<Phys, nat>, frames: seq<Phys>, change: int) {
    forall f :: References(counts', f) == References(counts, f) + if f in frames then change else 0
  }

  lemma TakenOne(start: map<Phys, nat>, counts: map<Phys, nat>, frames: seq<Phys>, f: Phys)
    requires Moved(start, counts, frames, 1) && References(counts, f) == 0
    ensures Moved(start, Held(counts, f), frames + [f], 1) && f !in frames && References(start, f) == 0
  {
    assert f !in frames;
    forall g ensures References(Held(counts, f), g) == References(start, g) + if g in frames + [f] then 1 else 0 {
    }
  }

  lemma GivenOne(start: map<Phys, nat>, counts: map<Phys, nat>, frames: seq<Phys>, f: Phys)
    requires Moved(start, counts, frames, -1) && f !in frames && References(start, f) >= 1
    ensures Moved(start, Released(counts, f), frames + [f], -1)
  {
    forall g ensures References(Released(counts, f), g) == References(start, g) + if g in frames + [f] then -1 else 0 {
    }
  }

  lemma MovedByNone(counts: map<Phys, nat>, change: int)
    ensures Moved(counts, counts, [], change)
  {
  }

  class Prepared {
    var page: Option<Phys>
    const tables: TableStock
    const mem: Memory

    constructor (mem: Memory, page: Phys, tables: TableStock)
      ensures this.page == Some(page) && this.tables == tables && this.mem == mem
    {
      this.page, this.tables, this.mem := Some(page), tables, mem;
    }

    /** The references this value holds. */
    ghost function Holds(): seq<Phys>
      reads this, tables
    {
      (if page.Some? then [page.value] else []) + tables.frames
    }

    /** Each frame once, and each with the reference this holds. */
    ghost predicate Valid()
      reads this, tables, mem
    {
      && |tables.frames| <= DEPTH && NoRepeats(Holds())
      && forall f | f in Holds() :: References(mem.counts, f) >= 1
    }

    /** One more zeroed frame for a table. */
    method TakeTable() returns (frame: Option<Phys>)
      requires Valid() && |tables.frames| < DEPTH
      modifies mem, tables
      ensures Valid() && page == old(page)
      ensures match frame
              case None => tables.frames == old(tables.frames) && mem.counts == old(mem.counts)
                && Exhausted(mem.words, mem.counts)
              case Some(f) =>
                && tables.frames == old(tables.frames) + [f]
                && References(old(mem.counts), f) == 0 && mem.counts == Held(old(mem.counts), f)
    {
      hide Zeroed, Held, References, NoRepeats, Exhausted;
      ghost var counts, holds := mem.counts, Holds();
      frame := AllocZeroed(mem);
      if frame.Some? {
        OneMore(holds, counts, frame.value);
        tables.Push(frame.value);
        assert Holds() == holds + [frame.value];
      }
    }

    /** The stock grows by frames that were free until it has `want`, or three when
      * that is fewer; it stops short only with no frame free. */
    method TopUp(want: nat) returns (ok: bool)
      requires Valid()
      modifies mem, tables
      ensures Valid() && page == old(page) && old(tables.frames) <= tables.frames
      ensures Moved(old(mem.counts), mem.counts, tables.frames[|old(tables.frames)|..], 1)
      ensures forall f | f in tables.frames[|old(tables.frames)|..] :: References(old(mem.counts), f) == 0
      ensures ok <==> |tables.frames| >= if want < DEPTH then want else DEPTH
      ensures !ok ==> Exhausted(mem.words, mem.counts)
    {
      hide Held, References, NoRepeats, Exhausted, Moved;
      ghost var start, was := mem.counts, tables.frames;
      ghost var more: seq<Phys> := [];
      var enough := if want < DEPTH then want else DEPTH;
      MovedByNone(start, 1);
      while |tables.frames| < enough
        invariant tables.frames == was + more && page == old(page) && Valid()
        invariant Moved(start, mem.counts, more, 1) && forall f | f in more :: References(start, f) == 0
        decreases enough - |tables.frames|
      {
        ghost var counts := mem.counts;
        var frame := TakeTable();
        if frame.None? {
          assert tables.frames[|was|..] == more;
          return false;
        }
        TakenOne(start, counts, more, frame.value);
        assert was + more + [frame.value] == was + (more + [frame.value]);
        more := more + [frame.value];
      }
      assert tables.frames[|was|..] == more;
      return true;
    }

    /** The frame leaves the value with its reference, and nothing else does. */
    method Commit() returns (frame: Phys)
      requires Valid() && page.Some?
      modifies this`page
      ensures Valid() && page == None && old(page) == Some(frame) && old(Holds()) == [frame] + Holds()
    {
      frame := page.value;
      assert Holds() == [frame] + tables.frames;
      NoRepeatsJoin([frame], tables.frames);
      assert forall f | f in tables.frames :: f in Holds();
      page := None;
      assert Holds() == tables.frames;
    }

    /** Undo a `Commit`: the frame is first among what this value holds again. */
    method Uncommit(frame: Phys)
      requires Valid() && page.None? && References(mem.counts, frame) >= 1 && frame !in tables.frames
      modifies this`page
      ensures Valid() && page == Some(frame) && Holds() == [frame] + old(Holds())
    {
      assert Holds() == tables.frames;
      NoRepeatsJoin([frame], tables.frames);
      page := Some(frame);
    }

    /** Dropping it: every reference still held goes back, each once. */
    method GiveBack()
      requires Valid()
      modifies this`page, tables, mem`counts
      ensures Valid() && Holds() == [] && Moved(old(mem.counts), mem.counts, old(Holds()), -1)
    {
      hide References, NoRepeats, Released;
      ghost var start, all := mem.counts, Holds();
      ghost var gone: seq<Phys> := [];
      MovedByNone(start, -1);
      HeldAtStart(all, start, gone);
      if page.Some? {
        Leaves(gone, page.value, tables.frames);
        GivenOne(start, mem.counts, gone, page.value);
        mem.counts := Released(mem.counts, page.value);
        gone := gone + [page.value];
        page := None;
      }
      assert gone + tables.frames == all;
      while true
        invariant page == None && NoRepeats(gone + tables.frames) && |tables.frames| <= DEPTH
        invariant (forall f | f in gone + tables.frames :: References(start, f) >= 1)
        invariant multiset(gone + tables.frames) == multiset(all) && Moved(start, mem.counts, gone, -1)
        decreases |tables.frames|
      {
        ghost var before := tables.frames;
        var unused := tables.Take();
        if unused.None? {
          break;
        }
        LastLeaves(gone, tables.frames, unused.value);
        GivenOne(start, mem.counts, gone, unused.value);
        mem.counts := Released(mem.counts, unused.value);
        gone := gone + [unused.value];
      }
      assert gone + [] == gone;
      SameFrames(start, mem.counts, gone, all);
      NoneRepeats();
      assert Holds() == [];
    }
  }

  lemma NoneRepeats()
    ensures NoRepeats<Phys>([])
  {
  }

  lemma OneMore(holds: seq<Phys>, counts: map<Phys, nat>, f: Phys)
    requires NoRepeats(holds) && (forall g | g in holds :: References(counts, g) >= 1) && References(counts, f) == 0
    ensures NoRepeats(holds + [f]) && forall g | g in holds + [f] :: References(Held(counts, f), g) >= 1
  {
    NoRepeatsJoin(holds, [f]);
  }

  lemma HeldAtStart(all: seq<Phys>, counts: map<Phys, nat>, gone: seq<Phys>)
    requires gone == [] && forall f | f in all :: References(counts, f) >= 1
    ensures gone + all == all
  {
  }

  lemma Leaves(gone: seq<Phys>, f: Phys, rest: seq<Phys>)
    requires gone == [] && NoRepeats([f] + rest)
    ensures f !in gone && gone + [f] + rest == [f] + rest
  {
  }

  /** Giving back the last of the stock is giving back one that is not gone yet. */
  lemma LastLeaves(gone: seq<Phys>, rest: seq<Phys>, f: Phys)
    requires NoRepeats(gone + (rest + [f]))
    ensures f !in gone && f in gone + (rest + [f]) && NoRepeats(gone + [f] + rest)
    ensures multiset(gone + [f] + rest) == multiset(gone + (rest + [f]))
    ensures forall g | g in gone + [f] + rest :: g in gone + (rest + [f])
  {
    NoRepeatsJoin(gone, rest + [f]);
    NoRepeatsJoin(rest, [f]);
    assert f in rest + [f];
    NoRepeatsJoin(gone, [f]);
    NoRepeatsJoin(gone + [f], rest);
  }

  lemma SameFrames(start: map<Phys, nat>, counts: map<Phys, nat>, gone: seq<Phys>, all: seq<Phys>)
    requires Moved(start, counts, gone, -1) && multiset(gone) == multiset(all)
    ensures Moved(start, counts, all, -1)
  {
    forall f ensures f in gone <==> f in all {
      assert f in gone <==> f in multiset(gone);
      assert f in all <==> f in multiset(all);
    }
  }
}
