/** What single calls of the allocator do to the sbrk heap, and where the limits of the code are. */
module HeapCalls {
  import opened Heap
  import opened HeapLaws
  import opened Histogram

  // ----- allocation and release

  lemma MallocNoAdjacent(s: State, s': State, n: int, limit: int, r: int)
    requires NoAdjacentFree(s.blocks) && Malloc(s, s', n, limit, r)
    ensures NoAdjacentFree(s'.blocks)
  {
    if NoFit(s.blocks, n) {
      GrowNoAdjacent(s, n, limit);
    } else {
      var k :| BestFit(s.blocks, k, n) && s' == s.(blocks := Carve(s.blocks, k, n)) && r == s.blocks[k].Payload();
      assert Apart(s.blocks, k);
      CarveApart(s.blocks, k, n);
    }
  }

  lemma MallocLayout(s: State, s': State, base: int, n: int, limit: int, r: int)
    requires Layout(s, base) && s.brk <= limit && Malloc(s, s', n, limit, r) && 0 < n < MMAP_SIZE && n % 8 == 0
    ensures Layout(s', base) && s.brk <= s'.brk <= limit
  {
    if NoFit(s.blocks, n) {
      GrowLayout(s, base, n, limit);
    } else {
      var k :| BestFit(s.blocks, k, n) && s' == s.(blocks := Carve(s.blocks, k, n)) && r == s.blocks[k].Payload();
      CarveLayout(s, base, k, n);
    }
  }

  lemma FreeLayout(s: State, base: int, i: nat)
    requires Layout(s, base) && i < |s.blocks| && MergedSize(s.blocks, i) < MMAP_SIZE
    ensures Layout(s.(blocks := Free(s.blocks, i)), base)
  {
    var h1 := Release(s.blocks, i);
    var h2 := Unite(h1, i);
    FreeSteps(s.blocks, base, s.brk, i);
    RelabelLayout(s, base, i, true);
    if Mergeable(h1, i) { MergeLayout(s.(blocks := h1), base, i); }
    if Mergeable(h2, i - 1) { MergeLayout(s.(blocks := h2), base, i - 1); }
  }

  /** The allocation leaves a header behind exactly under the guard of its failing branch. */
  lemma MallocStrands(s: State, s': State, n: int, limit: int, r: int)
    requires Malloc(s, s', n, limit, r)
    ensures s'.orphans == s.orphans + if Strands(s, n, limit) then 1 else 0
  {
  }

  // ----- srealloc

  lemma MergeShape(h: seq<Blk>, i: nat)
    requires i + 1 < |h|
    ensures Merge(h, i) == h[..i] + [Merge(h, i)[i]] + h[i + 2..]
  {
  }

  lemma MergeBothShape(h: seq<Blk>, i: nat)
    requires 0 < i && i + 1 < |h|
    ensures var u := Merge(Merge(h, i), i - 1);
      u == h[..i - 1] + [u[i - 1]] + h[i + 2..]
  {
    var m := Merge(h, i);
    MergeShape(h, i);
    MergeShape(m, i - 1);
    assert m[..i - 1] == h[..i - 1] && m[i + 1..] == h[i + 2..];
  }

  /** The two merges of the path that uses both neighbours. */
  lemma UnitedBoth(h: seq<Blk>, i: nat, n: int)
    requires i < |h| && !h[i].free && PathOf(h, i, n) == MergeBoth
    ensures 0 < i && i + 1 < |h|
    ensures var (u, j) := United(h, i, MergeBoth);
      var m := Merge(Merge(Release(h, i), i), i - 1);
      j == i - 1 && i - 1 < |m| && u == m == h[..i - 1] + [m[i - 1]] + h[i + 2..]
  {
    hide Merge;
    var r := Release(h, i);
    MergeBothShape(r, i);
    MergeShape(r, i);
    assert Unite(r, i) == Merge(r, i) && Mergeable(Merge(r, i), i - 1) by {
      MergedFree(r, i);
      assert Merge(r, i)[i - 1] == r[i - 1];
    }
    assert r[..i - 1] == h[..i - 1] && r[i + 2..] == h[i + 2..];
  }

  /** Uniting in place replaces the blocks it uses by one. */
  lemma UnitedShape(h: seq<Blk>, i: nat, n: int)
    requires i < |h| && !h[i].free && PathOf(h, i, n) != Wilderness && PathOf(h, i, n) != Move
    ensures var (u, j) := United(h, i, PathOf(h, i, n));
      var (a, b) := SpanOf(i, PathOf(h, i, n));
      0 <= a == j <= i <= b < |h| && j < |u| && u == h[..a] + [u[a]] + h[b + 1..]
  {
    hide Merge;
    var r := Release(h, i);
    match PathOf(h, i, n)
    case Reuse =>
    case MergeLeft =>
      MergeShape(r, i - 1);
      assert r[..i - 1] == h[..i - 1] && r[i + 1..] == h[i + 1..];
    case MergeRight =>
      MergeShape(r, i);
      assert r[..i] == h[..i] && r[i + 2..] == h[i + 2..];
    case MergeBoth =>
      UnitedBoth(h, i, n);
    case _ =>
  }

  lemma MergedFree(h: seq<Blk>, i: nat)
    requires i + 1 < |h|
    ensures |Merge(h, i)| == |h| - 1 && Merge(h, i)[i].free
  {
  }

  /** Replacing blocks `a` to `b` by one block concerns the pairs with that block only. */
  lemma ReplacedApart(h: seq<Blk>, a: nat, b: nat, c: Blk, k: int)
    requires NoAdjacentFree(h) && a <= b < |h| && k != a && k != a - 1
    ensures Apart(h[..a] + [c] + h[b + 1..], k)
  {
    assert Apart(h, if k < a then k else k + b - a);
  }

  /** Uniting in place leaves no adjacent free pair except with the united block itself. */
  lemma UnitedApart(h: seq<Blk>, i: nat, n: int)
    requires NoAdjacentFree(h) && i < |h| && !h[i].free
    requires PathOf(h, i, n) != Wilderness && PathOf(h, i, n) != Move
    ensures var (u, j) := United(h, i, PathOf(h, i, n));
      && 0 <= j < |u| && (forall k :: k != j && k != j - 1 ==> Apart(u, k))
      && (j + 1 < |u| && u[j + 1].free <==> PathOf(h, i, n) in {Reuse, MergeLeft} && i + 1 < |h| && h[i + 1].free)
  {
    hide United, Apart;
    var (u, j) := United(h, i, PathOf(h, i, n));
    var (a, b) := SpanOf(i, PathOf(h, i, n));
    UnitedShape(h, i, n);
    forall k | k != j && k != j - 1
      ensures Apart(u, k)
    {
      ReplacedApart(h, a, b, u[a], k);
    }
    NextFree(h, i);
    assert j + 1 < |u| <==> b + 1 < |h|;
    assert b + 1 < |h| ==> u[j + 1] == h[b + 1];
  }

  lemma NextFree(h: seq<Blk>, i: nat)
    requires NoAdjacentFree(h) && i < |h|
    ensures i + 2 < |h| && h[i + 1].free ==> !h[i + 2].free
  {
    assert Apart(h, i + 1);
  }

  /** srealloc cuts a remainder off the united block in front of a free block. */
  predicate LeavesPair(h: seq<Blk>, i: nat, n: int)
    requires i < |h|
  {
    && PathOf(h, i, n) in {Reuse, MergeLeft} && i + 1 < |h| && h[i + 1].free
    && (if PathOf(h, i, n) == Reuse then h[i].size else LeftSize(h, i) + h[i].size) - n >= SPLIT
  }

  /** One srealloc from a heap without adjacent free blocks leaves such a pair exactly when it
    * cuts a remainder off in front of a free block, and then only that pair. */
  lemma ReallocAdjacent(s: State, s': State, i: nat, n: int, limit: int, r: int)
    requires NoAdjacentFree(s.blocks) && i < |s.blocks| && !s.blocks[i].free && Realloc(s, s', i, n, limit, r)
    ensures NoAdjacentFree(s'.blocks) <==> !LeavesPair(s.blocks, i, n)
    ensures LeavesPair(s.blocks, i, n) ==> forall k :: k != United(s.blocks, i, PathOf(s.blocks, i, n)).1 + 1 ==>
            Apart(s'.blocks, k)
  {
    var h := s.blocks;
    match PathOf(h, i, n)
    case Wilderness =>
      forall k ensures Apart(s'.blocks, k) { assert Apart(h, k); }
    case Move =>
      var s1 :| Malloc(s, s1, n, limit, r) && Vacated(s1, s', h[i], r);
      MallocNoAdjacent(s, s1, n, limit, r);
      if r != 0 {
        var k :| 0 <= k < |s1.blocks| && s1.blocks[k] == h[i] && s' == s1.(blocks := Free(s1.blocks, k));
        FreeNoAdjacent(s1.blocks, k);
      }
    case path =>
      UnitedApart(h, i, n);
      var (u, j) := United(h, i, path);
      CarveApart(u, j, n);
  }

  // ----- what stays

  lemma PersistSelf(h: seq<Blk>, but: int)
    ensures Persist(h, h, but)
  {
  }

  lemma PersistTrans(h: seq<Blk>, h': seq<Blk>, h'': seq<Blk>, but: int)
    requires Persist(h, h', but) && Persist(h', h'', but)
    ensures Persist(h, h'', but)
  {
  }

  lemma PersistBut(h: seq<Blk>, h': seq<Blk>, but: int)
    requires Persist(h, h', 0) && forall b :: b in h ==> b.addr != 0
    ensures Persist(h, h', but)
  {
  }

  lemma FreePersist(h: seq<Blk>, i: nat)
    requires i < |h|
    ensures Persist(h, Free(h, i), h[i].addr)
  {
    hide Free;
    var a := if 0 < i && h[i - 1].free then i - 1 else i;
    var b := if i + 1 < |h| && h[i + 1].free then i + 1 else i;
    FreeShape(h, i);
    ReplacePersist(h, a, b + 1 - a, [Blk(h[a].addr, MergedSize(h, i), true)], h[i].addr);
  }

  lemma UnmapPersist(maps: seq<Blk>, maps': seq<Blk>, b: Blk)
    requires Unmapped(maps, maps', b)
    ensures Persist(maps, maps', b.addr)
  {
    var k :| 0 <= k < |maps| && maps[k] == b && maps' == maps[..k] + maps[k + 1..];
    assert maps' == maps[..k] + [] + maps[k + 1..];
    ReplacePersist(maps, k, 1, [], b.addr);
  }

  /** srealloc leaves every other block in use where it is. */
  lemma ReallocPersist(s: State, s': State, base: int, i: nat, n: int, limit: int, r: int)
    requires Layout(s, base) && i < |s.blocks| && !s.blocks[i].free && 0 < n && Realloc(s, s', i, n, limit, r)
    ensures Persist(s.blocks, s'.blocks, s.blocks[i].addr)
  {
    hide Carve, United, Layout, Malloc, Persist, PathOf;
    var h, but := s.blocks, s.blocks[i].addr;
    LayoutBlock(s, base, i);
    match PathOf(h, i, n)
    case Wilderness =>
      StretchPersist(s, i, n, limit);
    case Move =>
      var s1 :| Malloc(s, s1, n, limit, r) && Vacated(s1, s', h[i], r);
      MovePersist(s, s1, s', base, i, n, limit, r);
    case path =>
      var (u, j) := United(h, i, path);
      LayoutBlocks(s, base);
      UnitedFacts(h, base, s.brk, i, n);
      UnitedShape(h, i, n);
      var (a, b) := SpanOf(i, path);
      ReplacePersist(h, a, b + 1 - a, [u[a]], but);
      CarvePersist(u, j, n, but);
      PersistTrans(h, u, Carve(u, j, n), but);
  }

  lemma LayoutBlocks(s: State, base: int)
    requires Layout(s, base)
    ensures 0 < base && BlocksOK(s.blocks, base, s.brk) && forall b :: b in s.blocks ==> b.addr != 0
  {
    assert forall i :: 0 <= i < |s.blocks| ==> BlockOK(s.blocks[i], base, s.brk);
  }

  lemma StretchPersist(s: State, i: nat, n: int, limit: int)
    requires i < |s.blocks|
    ensures Persist(s.blocks, Stretch(s, i, n, limit).0.blocks, s.blocks[i].addr)
  {
    var c := s.blocks[i].(size := n);
    assert s.blocks[i := c] == s.blocks[..i] + [c] + s.blocks[i + 1..];
    ReplacePersist(s.blocks, i, 1, [c], s.blocks[i].addr);
    PersistSelf(s.blocks, s.blocks[i].addr);
  }

  lemma MovePersist(s: State, s1: State, s': State, base: int, i: nat, n: int, limit: int, r: int)
    requires Layout(s, base) && i < |s.blocks| && 0 < n && Malloc(s, s1, n, limit, r) && Vacated(s1, s', s.blocks[i], r)
    ensures Persist(s.blocks, s'.blocks, s.blocks[i].addr)
  {
    hide Malloc, Layout, Persist, Free;
    var but := s.blocks[i].addr;
    MallocServes(s, s1, base, n, limit, r);
    LayoutBlocks(s, base);
    PersistBut(s.blocks, s1.blocks, but);
    VacatedPersist(s1, s', s.blocks[i], r);
    PersistTrans(s.blocks, s1.blocks, s'.blocks, but);
  }

  lemma VacatedPersist(s: State, s': State, b: Blk, r: int)
    requires Vacated(s, s', b, r)
    ensures Persist(s.blocks, s'.blocks, b.addr)
  {
    hide Free;
    if r == 0 {
      PersistSelf(s.blocks, b.addr);
    } else {
      var k :| 0 <= k < |s.blocks| && s.blocks[k] == b && s' == s.(blocks := Free(s.blocks, k));
      FreePersist(s.blocks, k);
    }
  }

  /** A failing srealloc leaves every block as it is. */
  lemma FailedStays(s: State, s': State, base: int, i: nat, n: int, limit: int)
    requires Layout(s, base) && i < |s.blocks| && !s.blocks[i].free && Realloc(s, s', i, n, limit, 0)
    ensures s'.blocks == s.blocks
  {
    hide Carve, United, PathOf;
    LayoutBlocks(s, base);
    LayoutBlock(s, base, i);
    match PathOf(s.blocks, i, n)
    case Wilderness =>
    case Move =>
      var s1 :| Malloc(s, s1, n, limit, 0) && Vacated(s1, s', s.blocks[i], 0);
      FailedMalloc(s, s1, base, n, limit);
    case path =>
      UnitedPositive(s, base, i, n);
      assert false;
  }

  lemma UnitedPositive(s: State, base: int, i: nat, n: int)
    requires Layout(s, base) && i < |s.blocks| && !s.blocks[i].free
    requires PathOf(s.blocks, i, n) != Wilderness && PathOf(s.blocks, i, n) != Move
    ensures var (u, j) := United(s.blocks, i, PathOf(s.blocks, i, n));
      0 <= j < |u| && u[j].Payload() != 0
  {
    hide Layout, United, PathOf;
    LayoutBlocks(s, base);
    UnitedFacts(s.blocks, base, s.brk, i, n);
    LayoutBlock(s, base, SpanOf(i, PathOf(s.blocks, i, n)).0);
  }

  lemma FailedMalloc(s: State, s': State, base: int, n: int, limit: int)
    requires Layout(s, base) && Malloc(s, s', n, limit, 0)
    ensures s'.blocks == s.blocks
  {
    LayoutBlocks(s, base);
    BrkPositive(s, base);
    if NoFit(s.blocks, n) {
      assert s.blocks != [] ==> BlockOK(s.blocks[|s.blocks| - 1], base, s.brk);
    } else {
      var k :| BestFit(s.blocks, k, n) && s' == s.(blocks := Carve(s.blocks, k, n)) && 0 == s.blocks[k].Payload();
      LayoutBlock(s, base, k);
      assert false;
    }
  }

  lemma BrkPositive(s: State, base: int)
    requires Layout(s, base)
    ensures 0 < s.brk
  {
    LayoutBlocks(s, base);
    ExtentPositive(s.blocks, base, s.brk);
  }

  // ----- layout and service of srealloc

  /** A block that has to move has little free room beside it. */
  lemma MoveSmall(h: seq<Blk>, i: nat, n: int)
    requires i < |h| && PathOf(h, i, n) == Move && h[i].size >= 0
    ensures MergedSize(h, i) < n
  {
  }

  lemma UnitedLayout(s: State, base: int, i: nat, n: int)
    requires Layout(s, base) && i < |s.blocks| && !s.blocks[i].free && n < MMAP_SIZE && ReallocFits(s.blocks, i, n)
    requires PathOf(s.blocks, i, n) in {MergeLeft, MergeRight, MergeBoth}
    ensures Layout(s.(blocks := United(s.blocks, i, PathOf(s.blocks, i, n)).0), base)
  {
    hide PathOf, ReallocFits, Layout, Merge;
    var h1 := Release(s.blocks, i);
    LayoutBlocks(s, base);
    RelabelLayout(s, base, i, true);
    match PathOf(s.blocks, i, n)
    case MergeLeft =>
      LeftFacts(s.blocks, base, s.brk, i, n);
      MergeLayout(s.(blocks := h1), base, i - 1);
    case MergeRight =>
      RightFacts(s.blocks, base, s.brk, i, n);
      MergeLayout(s.(blocks := h1), base, i);
    case MergeBoth =>
      BothFacts(s.blocks, base, s.brk, i, n);
      MergeLayout(s.(blocks := h1), base, i);
      MergeLayout(s.(blocks := Unite(h1, i)), base, i - 1);
  }

  /** srealloc keeps the layout, on every path. */
  lemma ReallocLayout(s: State, s': State, base: int, i: nat, n: int, limit: int, r: int)
    requires Layout(s, base) && s.brk <= limit && i < |s.blocks| && !s.blocks[i].free && 0 < n < MMAP_SIZE && n % 8 == 0
    requires ReallocFits(s.blocks, i, n) && Realloc(s, s', i, n, limit, r)
    ensures Layout(s', base) && s.brk <= s'.brk <= limit
  {
    hide PathOf, ReallocFits, Layout, Carve, United, Malloc, Vacated, MergedSize;
    LayoutBlocks(s, base);
    LayoutBlock(s, base, i);
    PathFacts(s.blocks, i, n);
    ReallocBreak(s, s', base, i, n, limit, r);
    match PathOf(s.blocks, i, n)
    case Wilderness =>
      ResizeLastLayout(s, base, n);
    case Move =>
      var s1 :| Malloc(s, s1, n, limit, r) && Vacated(s1, s', s.blocks[i], r);
      MallocLayout(s, s1, base, n, limit, r);
      VacatedLayout(s, s1, s', base, i, n, limit, r);
    case path =>
      var (u, j) := United(s.blocks, i, path);
      UnitedFacts(s.blocks, base, s.brk, i, n);
      if path == Reuse {
        ReuseIs(s.blocks, i, n);
      } else {
        UnitedLayout(s, base, i, n);
      }
      CarveLayout(s.(blocks := u), base, j, n);
  }

  lemma PathFacts(h: seq<Blk>, i: nat, n: int)
    requires i < |h|
    ensures PathOf(h, i, n) == Wilderness ==> i + 1 == |h| && h[i].size < n
  {
  }

  lemma ReuseIs(h: seq<Blk>, i: nat, n: int)
    requires i < |h|
    ensures United(h, i, Reuse) == (h, i)
  {
  }

  lemma VacatedLayout(s: State, s1: State, s': State, base: int, i: nat, n: int, limit: int, r: int)
    requires Layout(s, base) && Layout(s1, base) && i < |s.blocks| && !s.blocks[i].free && 0 < n < MMAP_SIZE
    requires PathOf(s.blocks, i, n) == Move && Malloc(s, s1, n, limit, r) && Vacated(s1, s', s.blocks[i], r)
    ensures Layout(s', base)
  {
    hide PathOf, Layout, Malloc, MergedSize, Free;
    if r != 0 {
      var k :| 0 <= k < |s1.blocks| && s1.blocks[k] == s.blocks[i] && s' == s1.(blocks := Free(s1.blocks, k));
      LayoutBlocks(s1, base);
      LayoutBlock(s, base, i);
      MoveFits(s, s1, base, n, limit, r, i, k);
      MoveSmall(s.blocks, i, n);
      FreeLayout(s1, base, k);
    }
  }

  /** A successful srealloc is served by a block in use of at least the requested size. */
  lemma ReallocServes(s: State, s': State, base: int, i: nat, n: int, limit: int, r: int)
    requires Layout(s, base) && i < |s.blocks| && !s.blocks[i].free && 0 < n && Realloc(s, s', i, n, limit, r) && r != 0
    ensures Serves(s'.blocks, r, n)
  {
    hide PathOf, Layout, United, Malloc;
    LayoutBlocks(s, base);
    match PathOf(s.blocks, i, n)
    case Wilderness =>
      assert s'.blocks[i] in s'.blocks;
    case Move =>
      var s1 :| Malloc(s, s1, n, limit, r) && Vacated(s1, s', s.blocks[i], r);
      MallocServes(s, s1, base, n, limit, r);
      VacatedPersist(s1, s', s.blocks[i], r);
      assert s.blocks[i] in s.blocks;
    case path =>
      var (u, j) := United(s.blocks, i, path);
      UnitedFacts(s.blocks, base, s.brk, i, n);
      assert Carve(u, j, n)[j] in Carve(u, j, n);
  }

  /** So is a successful reallocation to the mmapped area. */
  lemma RemappedServes(s: State, maps: seq<Blk>, s': State, maps': seq<Blk>, b: Blk, n: int, r: int)
    requires Remapped(s, maps, s', maps', b, n, r) && r != 0 && b in s.blocks + maps
    ensures Serves(s'.blocks + maps', r, n)
  {
    hide Vacated;
    var c := Blk(r - META, n, false);
    var maps1 := maps + [c];
    assert c in s'.blocks + maps' by {
      if maps' == maps1 {
        assert maps1[|maps|] == c;
      } else {
        var k :| 0 <= k < |maps1| && maps1[k] == b && maps' == maps1[..k] + maps1[k + 1..];
        if k == |maps| {
          assert maps' == maps;
        } else {
          assert maps'[|maps'| - 1] == c;
        }
      }
    }
  }

  // ----- the limits of the code

  /** Every free block has a bucket. */
  ghost predicate Bucketed(h: seq<Blk>) {
    forall i :: 0 <= i < |h| && h[i].free ==> 0 <= h[i].size && Bucket(h[i].size) < BUCKETS
  }

  /** The first of the two merges of a release. */
  lemma UniteShape(h: seq<Blk>, i: nat)
    requires i < |h|
    ensures var b := if i + 1 < |h| && h[i + 1].free then i + 1 else i;
      Unite(Release(h, i), i) == h[..i] + [Blk(h[i].addr, h[i].size + RightSize(h, i), true)] + h[b + 1..]
  {
    hide Merge;
    var r := Release(h, i);
    if i + 1 < |h| && h[i + 1].free {
      MergeShape(r, i);
      MergedAt(r, i);
      assert r[..i] == h[..i] && r[i + 2..] == h[i + 2..];
    } else {
      assert r == h[..i] + [r[i]] + h[i + 1..];
    }
  }

  /** The second one. */
  lemma MergeIntoLeft(h: seq<Blk>, u: seq<Blk>, i: nat, e: nat, n: int)
    requires i < e <= |h| && u == h[..i] + [Blk(h[i].addr, n, true)] + h[e..]
    ensures Unite(u, i - 1) == if 0 < i && h[i - 1].free
                               then h[..i - 1] + [Blk(h[i - 1].addr, h[i - 1].size + META + n, true)] + h[e..]
                               else u
  {
    hide Merge;
    assert u[i].free && (0 < i ==> u[i - 1] == h[i - 1]);
    if 0 < i && h[i - 1].free {
      MergeShape(u, i - 1);
      MergedAt(u, i - 1);
      assert u[..i - 1] == h[..i - 1] && u[i + 1..] == h[e..];
    }
  }

  /** A release replaces the block and its free neighbours by one free block. */
  lemma FreeShape(h: seq<Blk>, i: nat)
    requires i < |h|
    ensures var a := if 0 < i && h[i - 1].free then i - 1 else i;
      var b := if i + 1 < |h| && h[i + 1].free then i + 1 else i;
      Free(h, i) == h[..a] + [Blk(h[a].addr, MergedSize(h, i), true)] + h[b + 1..]
  {
    hide Unite, Release, RightSize;
    var b := if i + 1 < |h| && h[i + 1].free then i + 1 else i;
    var u, n := Unite(Release(h, i), i), h[i].size + RightSize(h, i);
    UniteShape(h, i);
    MergeIntoLeft(h, u, i, b + 1, n);
  }

  /** After a release every free block has a bucket exactly when the merged block is smaller than MMAP_SIZE. */
  lemma FreeBucketed(h: seq<Blk>, base: int, brk: int, i: nat)
    requires BlocksOK(h, base, brk) && i < |h| && !h[i].free
    ensures Bucketed(Free(h, i)) <==> MergedSize(h, i) < MMAP_SIZE
  {
    hide Free, MergedSize, Ordered;
    var a := if 0 < i && h[i - 1].free then i - 1 else i;
    var b := if i + 1 < |h| && h[i + 1].free then i + 1 else i;
    var h' := Free(h, i);
    FreeShape(h, i);
    MergedPositive(h, base, brk, i);
    assert h'[a].free && h'[a].size == MergedSize(h, i);
    forall k | 0 <= k < |h'| && k != a
      ensures 0 < h'[k].size < MMAP_SIZE
    {
      var k0 := if k < a then k else k + b - a;
      assert h'[k] == h[k0] && BlockOK(h[k0], base, brk);
    }
  }

  /** The heap once srealloc has merged: in place, or by releasing the old block when the new one is mmapped. */
  function Merged(h: seq<Blk>, i: nat, n: int): seq<Blk>
    requires i < |h|
  {
    if n >= MMAP_SIZE then Free(h, i) else United(h, i, PathOf(h, i, n)).0
  }

  /** The united block has a bucket exactly when ReallocFits says so. */
  lemma UnitedFits(h: seq<Blk>, base: int, brk: int, i: nat, n: int)
    requires BlocksOK(h, base, brk) && i < |h| && !h[i].free && n < MMAP_SIZE
    requires PathOf(h, i, n) in {MergeLeft, MergeRight, MergeBoth}
    ensures var (u, j) := United(h, i, PathOf(h, i, n));
      0 <= j < |u| && (u[j].size < MMAP_SIZE <==> ReallocFits(h, i, n))
  {
    hide Merge, Ordered;
    Neighbours(h, base, brk, i);
    var r := Release(h, i);
    match PathOf(h, i, n)
    case MergeLeft =>
      MergedAt(r, i - 1);
    case MergeRight =>
      MergedAt(r, i);
    case MergeBoth =>
      MergedAt(r, i);
      assert Unite(r, i) == Merge(r, i);
      MergedAt(Merge(r, i), i - 1);
    case _ =>
  }

  /** Whatever srealloc merges, every free block has a bucket afterwards exactly when ReallocFits held before. */
  lemma ReallocBucketed(h: seq<Blk>, base: int, brk: int, i: nat, n: int)
    requires BlocksOK(h, base, brk) && i < |h| && !h[i].free
    ensures Bucketed(Merged(h, i, n)) <==> ReallocFits(h, i, n)
  {
    hide Free, MergedSize, Ordered, United, PathOf;
    if n >= MMAP_SIZE {
      FreeBucketed(h, base, brk, i);
    } else if PathOf(h, i, n) in {MergeLeft, MergeRight, MergeBoth} {
      var (u, j) := United(h, i, PathOf(h, i, n));
      var (a, b) := SpanOf(i, PathOf(h, i, n));
      UnitedFacts(h, base, brk, i, n);
      UnitedFits(h, base, brk, i, n);
      UnitedShape(h, i, n);
      Neighbours(h, base, brk, i);
      forall k | 0 <= k < |u| && k != j
        ensures 0 < u[k].size < MMAP_SIZE
      {
        var k0 := if k < a then k else k + b - a;
        assert u[k] == h[k0] && BlockOK(h[k0], base, brk);
      }
    } else {
      Untouched(h, i, PathOf(h, i, n));
      forall k | 0 <= k < |h|
        ensures 0 < h[k].size < MMAP_SIZE
      {
        assert BlockOK(h[k], base, brk);
      }
    }
  }

  lemma Untouched(h: seq<Blk>, i: nat, path: Path)
    requires i < |h| && path !in {MergeLeft, MergeRight, MergeBoth}
    ensures United(h, i, path).0 == h
  {
  }

  lemma MergedPositive(h: seq<Blk>, base: int, brk: int, i: nat)
    requires BlocksOK(h, base, brk) && i < |h|
    ensures MergedSize(h, i) > 0
  {
    assert BlockOK(h[i], base, brk);
    assert 0 < i ==> BlockOK(h[i - 1], base, brk);
    assert i + 1 < |h| ==> BlockOK(h[i + 1], base, brk);
  }

  /** Two neighbours of 100000 bytes each: releasing the second one makes a block without a bucket. */
  lemma OversizedRelease()
    ensures var h := [Blk(8, 100000, true), Blk(100056, 100000, false)];
      BlocksOK(h, 8, 200104) && NoAdjacentFree(h) && !Bucketed(Free(h, 1))
  {
    var h := [Blk(8, 100000, true), Blk(100056, 100000, false)];
    assert BlockOK(h[0], 8, 200104) && BlockOK(h[1], 8, 200104);
    FreeBucketed(h, 8, 200104, 1);
  }

  /** So does reallocating it to 110000 bytes, by merging in place. */
  lemma OversizedMerge()
    ensures var h := [Blk(8, 100000, true), Blk(100056, 100000, false)];
      && PathOf(h, 1, 110000) == MergeLeft && !ReallocFits(h, 1, 110000)
      && !Bucketed(United(h, 1, MergeLeft).0)
  {
    hide United, Bucketed;
    var h := [Blk(8, 100000, true), Blk(100056, 100000, false)];
    OversizedRelease();
    ReallocBucketed(h, 8, 200104, 1, 110000);
  }
}
