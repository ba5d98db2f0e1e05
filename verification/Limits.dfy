/** Runs that lead the allocator to the limits of what it keeps. */
module Limits {
  import opened Basics
  import opened Heap
  import opened HeapCalls
  import opened Payload
  import opened Runs
  import M = Malloc

  const ZEROS: Mem := x => 0

  /** The sbrk heap at a moment, with nothing mapped and memory all zero. */
  function At(blocks: seq<Blk>, brk: int, orphans: nat): Moment {
    Moment(State(blocks, brk, orphans), [], ZEROS)
  }

  /** A new block at the break. */
  lemma NewBlock(h: seq<Blk>, brk: int, n: int, limit: int)
    requires 0 < n < MMAP_SIZE && n % 8 == 0 && brk + META + n <= limit && forall i :: 0 <= i < |h| ==> !h[i].free
    ensures Step(At(h, brk, 0), At(h + [Blk(brk, n, false)], brk + META + n, 0), Request(n, brk + META), limit)
  {
    assert NoFit(h, n);
  }

  /** One request with room for its header only, on the empty heap: the block list no longer tiles the area. */
  lemma StrandingRun() returns (t: seq<Moment>, calls: seq<Call>)
    ensures Run(t, calls, 8, 64) && calls == [Request(104, 0)] && StrandsHeader(t[0], calls[0], 64)
    ensures t[1].heap.orphans == 1 && !Tiles(t[1].heap.blocks, 8, t[1].heap.brk)
  {
    t, calls := [At([], 8, 0), At([], 56, 1)], [Request(104, 0)];
    assert NoFit([], 104);
    assert Step(t[0], t[1], calls[0], 64);
  }

  /** Two requests of the same size on the empty heap. */
  lemma TwoRequests(n: int, limit: int) returns (t: seq<Moment>, calls: seq<Call>)
    requires 0 < n < MMAP_SIZE && n % 8 == 0 && 8 + 2 * (META + n) <= limit
    ensures Run(t, calls, 8, limit) && |calls| == 2
    ensures t[2] == At([Blk(8, n, false), Blk(8 + META + n, n, false)], 8 + 2 * (META + n), 0)
  {
    hide Step;
    var a, b := Blk(8, n, false), Blk(8 + META + n, n, false);
    var m1, m2 := At([a], 8 + META + n, 0), At([a, b], 8 + 2 * (META + n), 0);
    NewBlock([], 8, n, limit);
    NewBlock([a], 8 + META + n, n, limit);
    assert [] + [a] == [a] && [a] + [b] == [a, b];
    t, calls := [At([], 8, 0)], [];
    Extended(t, calls, 8, limit, m1, Request(n, 8 + META));
    t, calls := t + [m1], calls + [Request(n, 8 + META)];
    Extended(t, calls, 8, limit, m2, Request(n, 8 + META + n + META));
    t, calls := t + [m2], calls + [Request(n, 8 + META + n + META)];
  }

  /** Two requests and a release: releasing the second block as well, or reallocating it to 110000 bytes, would make a
    * block without a chain. */
  lemma OversizedRun() returns (t: seq<Moment>, calls: seq<Call>)
    ensures Run(t, calls, 8, 1000000) && |calls| == 3
    ensures var h := t[3].heap.blocks;
      && |h| == 2 && InUse(t[3], h[1]) && Bucketed(h) && !Bucketed(Free(h, 1))
      && PathOf(h, 1, 110000) == MergeLeft && !Bucketed(Merged(h, 1, 110000))
  {
    hide Step, Free;
    var a, b := Blk(8, 100000, false), Blk(100056, 100000, false);
    var m := At([a.(free := true), b], 200104, 0);
    t, calls := TwoRequests(100000, 1000000);
    ReleaseFirst(a, b, 200104, 1000000);
    Extended(t, calls, 8, 1000000, m, Release(a));
    t, calls := t + [m], calls + [Release(a)];
    OversizedRelease();
    OversizedMerge();
    assert m.heap.blocks[1] == b && b in m.All();
  }

  lemma ReleaseFirst(a: Blk, b: Blk, brk: int, limit: int)
    requires !a.free && !b.free && a.size < MMAP_SIZE
    ensures Step(At([a, b], brk, 0), At([a.(free := true), b], brk, 0), Release(a), limit)
  {
    var m, m' := At([a, b], brk, 0), At([a.(free := true), b], brk, 0);
    assert Free([a, b], 0) == [a.(free := true), b] && MergedSize([a, b], 0) == a.size;
    assert m.heap.blocks[0] == a && a in m.All();
    assert Freed(m.heap, m'.heap, a);
  }

  lemma ReleaseSecond(a: Blk, b: Blk, brk: int, limit: int)
    requires !a.free && !b.free && b.size < MMAP_SIZE
    ensures Step(At([a, b], brk, 0), At([a, b.(free := true)], brk, 0), Release(b), limit)
  {
    var m, m' := At([a, b], brk, 0), At([a, b.(free := true)], brk, 0);
    assert Free([a, b], 1) == [a, b.(free := true)] && MergedSize([a, b], 1) == b.size;
    assert m.heap.blocks[1] == b && b in m.All();
    assert Freed(m.heap, m'.heap, b);
  }

  /** Two requests, a release and an srealloc: two adjacent free blocks. */
  lemma AdjacentRun() returns (t: seq<Moment>, calls: seq<Call>)
    ensures Run(t, calls, 8, 10000) && |calls| == 4 && LeavesFreePair(t[3], calls[3], 10000)
    ensures NoAdjacentFree(t[3].heap.blocks) && !NoAdjacentFree(t[4].heap.blocks)
  {
    hide Step, LeavesFreePair, NoAdjacentFree, Carve;
    var a, b := Blk(8, 1000, false), Blk(1056, 1000, false);
    var h := [a, b.(free := true)];
    var m3, m4 := At(h, 2104, 0), At(Carve(h, 0, 800), 2104, 0);
    t, calls := TwoRequests(1000, 10000);
    ReleaseSecond(a, b, 2104, 10000);
    Extended(t, calls, 8, 10000, m3, Release(b));
    t, calls := t + [m3], calls + [Release(b)];
    Shrunk();
    Extended(t, calls, 8, 10000, m4, Resize(a, 800, 56));
    t, calls := t + [m4], calls + [Resize(a, 800, 56)];
    ShrunkPair();
  }

  lemma ShrunkPair()
    ensures var a, h := Blk(8, 1000, false), [Blk(8, 1000, false), Blk(1056, 1000, true)];
      && LeavesFreePair(At(h, 2104, 0), Resize(a, 800, 56), 10000)
      && NoAdjacentFree(h) && !NoAdjacentFree(Carve(h, 0, 800))
  {
    var h := [Blk(8, 1000, false), Blk(1056, 1000, true)];
    assert LeavesPair(h, 0, 800) && h[0] == Blk(8, 1000, false);
    assert !Apart(Carve(h, 0, 800), 1);
  }

  lemma Shrunk()
    ensures var a, h := Blk(8, 1000, false), [Blk(8, 1000, false), Blk(1056, 1000, true)];
      Step(At(h, 2104, 0), At(Carve(h, 0, 800), 2104, 0), Resize(a, 800, 56), 10000)
  {
    var a, h := Blk(8, 1000, false), [Blk(8, 1000, false), Blk(1056, 1000, true)];
    var m, m' := At(h, 2104, 0), At(Carve(h, 0, 800), 2104, 0);
    assert h[0] == a && a in m.All();
    assert PathOf(h, 0, 800) == Reuse && Realloc(m.heap, m'.heap, 0, 800, 10000, 56);
    assert HeapResized(m.heap, m'.heap, a, 800, 56, 10000);
  }

  /** mmap never refuses. */
  const GENEROUS: nat -> M.Reply := k => M.Granted(0)

  /** smalloc of 200000 bytes and srealloc to 100000: no lists agree with the fields of the allocator any more. */
  method MappedRun() returns (heap: M.Allocator, r: int, inBounds: bool)
    ensures r != 0 && inBounds && !heap.Consistent()
  {
    heap := new M.Allocator(8, 1000000, ZEROS, GENEROUS);
    r := heap.Smalloc(200000);
    heap.MappedAt(r, 200000);
    r, inBounds := heap.ReallocMapped(r - META, 100000);
  }

  lemma WrapsAround()
    ensures Wrapped(0x2000_0000_0000_0001, 8) == 8 && M.RoundUp(8) == 8
    ensures Product(0x2000_0000_0000_0001, 8) >= WORD
  {
  }

  lemma EightBytes(s: State, maps: seq<Blk>, r: int)
    requires Outcome(State([], 8, 0), [], s, maps, 8, 1000000, r)
    ensures r == 56
  {
    assert NoFit([], 8);
  }

  /** 2^61 + 1 times 8 bytes: scalloc hands out 8. */
  method WrappedRun() returns (heap: M.Allocator, r: int)
    ensures r != 0 && !heap.Cleared(r, Product(0x2000_0000_0000_0001, 8))
  {
    hide Wrapped, Product, M.RoundUp, Outcome, Kept;
    heap := new M.Allocator(8, 1000000, ZEROS, GENEROUS);
    r := heap.Scalloc(0x2000_0000_0000_0001, 8);
    WrapsAround();
    EightBytes(heap.Sys(), heap.MapView(), r);
  }
}
