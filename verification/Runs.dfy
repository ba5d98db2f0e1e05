/** Runs of the allocator: sequences of calls, and of writes by the program that makes them, from the empty heap on. */
module Runs {
  import opened Basics
  import opened Heap
  import opened HeapLaws
  import opened HeapCalls
  import opened Payload
  import opened Promises

  /** What there is between two calls. */
  datatype Moment = Moment(heap: State, maps: seq<Blk>, mem: Mem) {
    function All(): seq<Blk> { heap.blocks + maps }
  }

  /** What happens next: a request for `n` bytes, rounded up, by smalloc or scalloc, sfree of a block, srealloc of
    * a block to `n` bytes, or a write to the payload of a block. `r` is what the call returns. */
  datatype Call = Request(n: int, r: int) | Release(b: Blk) | Resize(b: Blk, n: int, r: int) | Write(b: Blk)

  ghost predicate InUse(m: Moment, b: Blk) {
    b in m.All() && !b.free
  }

  /** The mmapped blocks lie above the limit of the sbrk area, apart from each other. */
  ghost predicate MapsApart(maps: seq<Blk>, limit: int) {
    && PairwiseApart(maps)
    && forall i :: 0 <= i < |maps| ==> limit <= maps[i].addr && MMAP_SIZE <= maps[i].size && !maps[i].free
  }

  ghost predicate Requests(m: Moment, m': Moment, n: int, r: int, limit: int) {
    && 0 <= n && n % 8 == 0 && Outcome(m.heap, m.maps, m'.heap, m'.maps, n, limit, r)
    && Kept(m.mem, m'.mem, m.All(), 0)
  }

  ghost predicate Releases(m: Moment, m': Moment, b: Blk) {
    && InUse(m, b) && Kept(m.mem, m'.mem, m.All(), 0)
    && ((m'.maps == m.maps && Freed(m.heap, m'.heap, b)) || (m'.heap == m.heap && Unmapped(m.maps, m'.maps, b)))
  }

  /** Block `b` of the heap has been released; the merged block has a size class. */
  ghost predicate Freed(s: State, s': State, b: Blk) {
    exists k :: 0 <= k < |s.blocks| && s.blocks[k] == b && MergedSize(s.blocks, k) < MMAP_SIZE
                && s' == s.(blocks := Free(s.blocks, k))
  }

  /** What srealloc of `b` does to the blocks. */
  ghost predicate Resized(m: Moment, m': Moment, b: Blk, n: int, r: int, limit: int) {
    if n == 0 || n > MAX_REQUEST then r == 0 && m'.heap == m.heap && m'.maps == m.maps
    else if n >= MMAP_SIZE then
      && Remapped(m.heap, m.maps, m'.heap, m'.maps, b, n, r)
      && forall i :: 0 <= i < |m.heap.blocks| && m.heap.blocks[i] == b ==> MergedSize(m.heap.blocks, i) < MMAP_SIZE
    else
      && m'.maps == m.maps
      && if b.addr < limit then HeapResized(m.heap, m'.heap, b, n, r, limit)
         else m'.heap == m.heap && r == b.Payload()
  }

  ghost predicate HeapResized(s: State, s': State, b: Blk, n: int, r: int, limit: int) {
    exists i :: 0 <= i < |s.blocks| && s.blocks[i] == b && ReallocFits(s.blocks, i, n) && Realloc(s, s', i, n, limit, r)
  }

  ghost predicate Resizes(m: Moment, m': Moment, b: Blk, n: int, r: int, limit: int) {
    && InUse(m, b) && 0 <= n && n % 8 == 0 && Resized(m, m', b, n, r, limit)
    && Kept(m.mem, m'.mem, m.All(), if r == 0 then 0 else b.addr)
    && (r != 0 ==> Carried(m.mem, m'.mem, r, b.Payload(), Min(b.size, n)))
  }

  ghost predicate Writes(m: Moment, m': Moment, b: Blk) {
    && InUse(m, b) && m'.heap == m.heap && m'.maps == m.maps
    && forall x :: !(b.Payload() <= x < b.End()) ==> m'.mem(x) == m.mem(x)
  }

  /** One step; mmap hands out regions apart from those in use. */
  ghost predicate Step(m: Moment, m': Moment, c: Call, limit: int) {
    && MapsApart(m'.maps, limit)
    && match c
       case Request(n, r) => Requests(m, m', n, r, limit)
       case Release(b) => Releases(m, m', b)
       case Resize(b, n, r) => Resizes(m, m', b, n, r, limit)
       case Write(b) => Writes(m, m', b)
  }

  ghost predicate Init(m: Moment, base: int, limit: int) {
    0 < base <= limit && base % 8 == 0 && m.heap == State([], base, 0) && m.maps == []
  }

  ghost predicate Run(t: seq<Moment>, calls: seq<Call>, base: int, limit: int) {
    && |t| == |calls| + 1 && Init(t[0], base, limit)
    && forall k :: 0 <= k < |calls| ==> Step(t[k], t[k + 1], calls[k], limit)
  }

  /** A step more. */
  lemma Extended(t: seq<Moment>, calls: seq<Call>, base: int, limit: int, m: Moment, c: Call)
    requires Run(t, calls, base, limit) && Step(t[|t| - 1], m, c, limit)
    ensures Run(t + [m], calls + [c], base, limit)
  {
    hide Step, Init;
    var t', calls' := t + [m], calls + [c];
    forall k | 0 <= k < |calls'|
      ensures Step(t'[k], t'[k + 1], calls'[k], limit)
    {
      if k < |calls| {
        assert Step(t[k], t[k + 1], calls[k], limit);
      }
    }
  }

  // ----- every moment of a run is in order

  ghost predicate Sound(m: Moment, base: int, limit: int) {
    Layout(m.heap, base) && m.heap.brk <= limit && MapsApart(m.maps, limit)
  }

  lemma StepSound(m: Moment, m': Moment, c: Call, base: int, limit: int)
    requires Sound(m, base, limit) && Step(m, m', c, limit)
    ensures Sound(m', base, limit)
  {
    hide Layout, MapsApart, Kept, Carried, Malloc, Freed, Vacated, Unmapped, Realloc, ReallocFits, MergedSize, Free;
    match c
    case Request(n, r) =>
      if 0 < n < MMAP_SIZE {
        MallocLayout(m.heap, m'.heap, base, n, limit, r);
      }
    case Release(b) =>
      if Freed(m.heap, m'.heap, b) {
        FreedLayout(m.heap, m'.heap, base, b);
      }
    case Resize(b, n, r) =>
      if MMAP_SIZE <= n <= MAX_REQUEST && r != 0 && Vacated(m.heap, m'.heap, b, r) {
        GoneLayout(m.heap, m'.heap, base, b, r);
      } else if 0 < n < MMAP_SIZE && b.addr < limit {
        var i :| 0 <= i < |m.heap.blocks| && m.heap.blocks[i] == b && ReallocFits(m.heap.blocks, i, n)
                 && Realloc(m.heap, m'.heap, i, n, limit, r);
        ReallocLayout(m.heap, m'.heap, base, i, n, limit, r);
      }
    case Write(b) =>
  }

  lemma FreedLayout(s: State, s': State, base: int, b: Blk)
    requires Layout(s, base) && Freed(s, s', b)
    ensures Layout(s', base) && s'.brk == s.brk
  {
    hide Layout, MergedSize, Free;
    var k :| 0 <= k < |s.blocks| && s.blocks[k] == b && MergedSize(s.blocks, k) < MMAP_SIZE
             && s' == s.(blocks := Free(s.blocks, k));
    FreeLayout(s, base, k);
  }

  lemma GoneLayout(s: State, s': State, base: int, b: Blk, r: int)
    requires Layout(s, base) && Vacated(s, s', b, r) && r != 0
    requires forall i :: 0 <= i < |s.blocks| && s.blocks[i] == b ==> MergedSize(s.blocks, i) < MMAP_SIZE
    ensures Layout(s', base) && s'.brk == s.brk
  {
    hide Layout, MergedSize, Free;
    var k :| 0 <= k < |s.blocks| && s.blocks[k] == b && s' == s.(blocks := Free(s.blocks, k));
    FreeLayout(s, base, k);
  }

  lemma InitSound(m: Moment, base: int, limit: int)
    requires Init(m, base, limit)
    ensures Sound(m, base, limit)
  {
  }

  lemma {:induction false} RunSound(t: seq<Moment>, calls: seq<Call>, base: int, limit: int, k: nat)
    requires Run(t, calls, base, limit) && k < |t|
    ensures Sound(t[k], base, limit)
  {
    hide Sound, Step, Init;
    if k == 0 {
      InitSound(t[0], base, limit);
    } else {
      RunSound(t, calls, base, limit, k - 1);
      assert Step(t[k - 1], t[k - 1 + 1], calls[k - 1], limit);
      StepSound(t[k - 1], t[k], calls[k - 1], base, limit);
    }
  }

  /** All blocks, of either kind, are apart. */
  lemma SoundApart(m: Moment, base: int, limit: int)
    requires Sound(m, base, limit)
    ensures PairwiseApart(m.All()) && forall b :: b in m.All() ==> 0 < b.addr && 0 < b.size
  {
    var h, all := m.heap.blocks, m.All();
    forall i | 0 <= i < |all|
      ensures 0 < all[i].addr && 0 < all[i].size
      ensures if i < |h| then all[i] == h[i] && all[i].End() <= limit
              else all[i] == m.maps[i - |h|] && limit <= all[i].addr
    {
      if i < |h| {
        LayoutBlock(m.heap, base, i);
      } else {
        BrkPositive(m.heap, base);
      }
    }
    forall i, j | 0 <= i < |all| && 0 <= j < |all| && i != j
      ensures all[i].End() <= all[j].addr || all[j].End() <= all[i].addr
    {
      if i < |h| && j < |h| {
        LayoutBlocks(m.heap, base);
      }
    }
  }

  /** Blocks at the same address are the same. */
  lemma SameBlock(m: Moment, base: int, limit: int, b: Blk, c: Blk)
    requires Sound(m, base, limit) && b in m.All() && c in m.All()
    ensures b == c || b.End() <= c.addr || c.End() <= b.addr
    ensures b.addr == c.addr ==> b == c
  {
    hide Sound;
    SoundApart(m, base, limit);
    var i :| 0 <= i < |m.All()| && m.All()[i] == b;
    var j :| 0 <= j < |m.All()| && m.All()[j] == c;
  }

  // ----- coalescing

  /** The call cuts a remainder off a heap block in front of a free one. */
  predicate LeavesFreePair(m: Moment, c: Call, limit: int) {
    && c.Resize? && 0 < c.n < MMAP_SIZE && c.b.addr < limit
    && exists i :: 0 <= i < |m.heap.blocks| && m.heap.blocks[i] == c.b && LeavesPair(m.heap.blocks, i, c.n)
  }

  lemma StepCoalesces(m: Moment, m': Moment, c: Call, base: int, limit: int)
    requires Sound(m, base, limit) && Step(m, m', c, limit) && NoAdjacentFree(m.heap.blocks)
    ensures NoAdjacentFree(m'.heap.blocks) <==> !LeavesFreePair(m, c, limit)
  {
    hide Layout, MapsApart, Kept, Carried, Malloc, Unmapped, Realloc, ReallocFits, MergedSize, Free, NoAdjacentFree,
      LeavesPair, Ordered;
    match c
    case Request(n, r) =>
      if 0 < n < MMAP_SIZE {
        MallocNoAdjacent(m.heap, m'.heap, n, limit, r);
      }
    case Release(b) =>
      if k :| 0 <= k < |m.heap.blocks| && m'.heap == m.heap.(blocks := Free(m.heap.blocks, k)) {
        FreeNoAdjacent(m.heap.blocks, k);
      }
    case Resize(b, n, r) =>
      if MMAP_SIZE <= n <= MAX_REQUEST {
        if k :| 0 <= k < |m.heap.blocks| && m'.heap == m.heap.(blocks := Free(m.heap.blocks, k)) {
          FreeNoAdjacent(m.heap.blocks, k);
        }
      } else if 0 < n < MMAP_SIZE && b.addr < limit {
        var i :| 0 <= i < |m.heap.blocks| && m.heap.blocks[i] == b && Realloc(m.heap, m'.heap, i, n, limit, r);
        ReallocAdjacent(m.heap, m'.heap, i, n, limit, r);
        OnlyAt(m.heap, base, i);
      }
    case Write(b) =>
  }

  lemma OnlyAt(s: State, base: int, i: nat)
    requires Layout(s, base) && i < |s.blocks|
    ensures forall j :: 0 <= j < |s.blocks| && s.blocks[j] == s.blocks[i] ==> j == i
  {
    LayoutBlock(s, base, i);
    forall j | 0 <= j < |s.blocks| && s.blocks[j] == s.blocks[i]
      ensures j == i
    {
      SamePlace(s.blocks, i, j);
    }
  }

  /** Over any run, as long as no srealloc has cut a remainder off in front of a free block, no two
    * adjacent blocks are both free; smalloc, scalloc and sfree never end that. */
  lemma {:induction false} RunsCoalesce(t: seq<Moment>, calls: seq<Call>, base: int, limit: int, k: nat)
    requires Run(t, calls, base, limit) && k < |t|
    requires forall j :: 0 <= j < k ==> !LeavesFreePair(t[j], calls[j], limit)
    ensures NoAdjacentFree(t[k].heap.blocks)
  {
    hide Step, LeavesFreePair, Sound;
    if k > 0 {
      RunsCoalesce(t, calls, base, limit, k - 1);
      RunSound(t, calls, base, limit, k - 1);
      assert Step(t[k - 1], t[k - 1 + 1], calls[k - 1], limit);
      assert !LeavesFreePair(t[k - 1], calls[k - 1], limit);
      StepCoalesces(t[k - 1], t[k], calls[k - 1], base, limit);
    }
  }

  // ----- tiling

  /** The call asks for a new block when there is room for its header but not for its payload. */
  ghost predicate StrandsHeader(m: Moment, c: Call, limit: int) {
    match c
    case Request(n, _) => 0 < n < MMAP_SIZE && Strands(m.heap, n, limit)
    case Resize(b, n, _) =>
      && 0 < n < MMAP_SIZE && b.addr < limit && Strands(m.heap, n, limit)
      && exists i :: 0 <= i < |m.heap.blocks| && m.heap.blocks[i] == b && PathOf(m.heap.blocks, i, n) == Move
    case _ => false
  }

  lemma StepStrands(m: Moment, m': Moment, c: Call, base: int, limit: int)
    requires Sound(m, base, limit) && Step(m, m', c, limit)
    ensures m'.heap.orphans == m.heap.orphans + if StrandsHeader(m, c, limit) then 1 else 0
  {
    hide Layout, MapsApart, Kept, Carried, Malloc, Unmapped, ReallocFits, MergedSize, Free, Strands, PathOf, Carve,
      United, Ordered;
    match c
    case Request(n, r) =>
      if 0 < n < MMAP_SIZE {
        MallocStrands(m.heap, m'.heap, n, limit, r);
      }
    case Release(b) =>
    case Resize(b, n, r) =>
      if 0 < n < MMAP_SIZE && b.addr < limit {
        var i :| 0 <= i < |m.heap.blocks| && m.heap.blocks[i] == b && Realloc(m.heap, m'.heap, i, n, limit, r);
        OnlyAt(m.heap, base, i);
        if PathOf(m.heap.blocks, i, n) == Move {
          var s1 :| Malloc(m.heap, s1, n, limit, r) && Vacated(s1, m'.heap, b, r);
          MallocStrands(m.heap, s1, n, limit, r);
        }
      }
    case Write(b) =>
  }

  lemma {:induction false} RunsStrand(t: seq<Moment>, calls: seq<Call>, base: int, limit: int, k: nat)
    requires Run(t, calls, base, limit) && k < |t|
    ensures t[k].heap.orphans == 0 <==> forall j :: 0 <= j < k ==> !StrandsHeader(t[j], calls[j], limit)
  {
    hide Step, StrandsHeader, Sound;
    if k > 0 {
      RunsStrand(t, calls, base, limit, k - 1);
      RunSound(t, calls, base, limit, k - 1);
      assert Step(t[k - 1], t[k - 1 + 1], calls[k - 1], limit);
      StepStrands(t[k - 1], t[k], calls[k - 1], base, limit);
    }
  }

  /** At every moment of every run the blocks tile the sbrk area exactly when no earlier call has
    * asked for a new block with room left for its header but not for its payload. */
  lemma RunsTile(t: seq<Moment>, calls: seq<Call>, base: int, limit: int, k: nat)
    requires Run(t, calls, base, limit) && k < |t|
    ensures Tiles(t[k].heap.blocks, base, t[k].heap.brk)
       <==> forall j :: 0 <= j < k ==> !StrandsHeader(t[j], calls[j], limit)
  {
    hide Step, StrandsHeader, Tiles;
    RunSound(t, calls, base, limit, k);
    TilesIffNoOrphans(t[k].heap, base);
    RunsStrand(t, calls, base, limit, k);
  }

  // ----- what is released can be had again

  /** The released block of the heap is part of a free block at least as large. */
  lemma FreedFits(s: State, s': State, base: int, b: Blk, n: int)
    requires Layout(s, base) && Freed(s, s', b) && n <= b.size
    ensures SomeFits(s'.blocks, n) && s'.brk == s.brk
  {
    hide Free, MergedSize;
    var k :| 0 <= k < |s.blocks| && s.blocks[k] == b && s' == s.(blocks := Free(s.blocks, k));
    ReleaseCoalesces(s.blocks, k);
    Neighbours(s.blocks, base, s.brk, k);
    var a := if 0 < k && s.blocks[k - 1].free then k - 1 else k;
    assert s'.blocks[a].free && n <= s'.blocks[a].size;
  }

  /** In every run, when a block of the heap is released and the next call asks for no more bytes than it had,
    * that call is served and the break stays where it is. */
  lemma RunsReuse(t: seq<Moment>, calls: seq<Call>, base: int, limit: int, k: nat)
    requires Run(t, calls, base, limit) && k + 1 < |calls| && calls[k].Release? && calls[k + 1].Request?
    requires calls[k].b.addr < limit && 0 < calls[k + 1].n <= calls[k].b.size
    ensures calls[k + 1].r != 0 && t[k + 2].heap.brk == t[k].heap.brk
  {
    hide MapsApart, Layout, Init, Freed, Malloc, SomeFits, Kept, Increment;
    var b, n := calls[k].b, calls[k + 1].n;
    RunSound(t, calls, base, limit, k);
    RunSound(t, calls, base, limit, k + 1);
    assert Step(t[k], t[k + 1], calls[k], limit) && Step(t[k + 1], t[k + 1 + 1], calls[k + 1], limit);
    SmallBelow(t[k], t[k + 1], base, limit, b);
    FreedFits(t[k].heap, t[k + 1].heap, base, b, n);
    RequestSucceeds(t[k + 1].heap, t[k + 2].heap, base, n, limit, calls[k + 1].r);
  }

  /** A block below the limit is of the heap. */
  lemma SmallBelow(m: Moment, m': Moment, base: int, limit: int, b: Blk)
    requires Sound(m, base, limit) && Releases(m, m', b) && b.addr < limit
    ensures Freed(m.heap, m'.heap, b) && 0 < b.size < MMAP_SIZE && Layout(m.heap, base)
  {
    hide Freed;
    assert forall i :: 0 <= i < |m.maps| ==> m.maps[i] != b;
    var i :| 0 <= i < |m.All()| && m.All()[i] == b;
    if i < |m.heap.blocks| {
      LayoutBlock(m.heap, base, i);
    }
  }
}
