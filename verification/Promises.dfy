/** What each call of the allocator promises about the sbrk heap, in sizes and addresses of blocks: when it succeeds,
  * which
  * block it returns, and where the break is afterwards. */
module Promises {
  import opened Heap
  import opened HeapLaws
  import opened HeapCalls

  /** `total` bytes at `addr` handed out for a request of `n`: whole, or with a free remainder of 128 bytes or more. */
  function Portion(addr: int, total: int, n: int): seq<Blk> {
    if total - n < 128 + META then [Blk(addr, total, false)]
    else [Blk(addr, n, false), Blk(addr + META + n, total - n - META, true)]
  }

  lemma CarveIs(h: seq<Blk>, i: nat, n: int)
    requires i < |h|
    ensures Carve(h, i, n) == h[..i] + Portion(h[i].addr, h[i].size, n) + h[i + 1..]
  {
  }

  // ----- requests

  ghost predicate SomeFits(h: seq<Blk>, n: int) {
    exists i :: 0 <= i < |h| && h[i].free && n <= h[i].size
  }

  /** How far the break has to go up for a new block of `n` bytes: the last block is enlarged if it is free. */
  function Increment(h: seq<Blk>, n: int): int {
    if h != [] && h[|h| - 1].free then n - h[|h| - 1].size else META + n
  }

  /** A request can be served from a free block, or by raising the break. */
  ghost predicate Servable(s: State, n: int, limit: int) {
    SomeFits(s.blocks, n) || s.brk + Increment(s.blocks, n) <= limit
  }

  lemma FitsIs(h: seq<Blk>, n: int)
    ensures SomeFits(h, n) <==> !NoFit(h, n)
  {
    if i :| 0 <= i < |h| && h[i].free && n <= h[i].size {
      assert Fits(h[i], n);
    }
    if i :| 0 <= i < |h| && Fits(h[i], n) {
      assert h[i].free && n <= h[i].size;
    }
  }

  /** Block `k` is a smallest one that fits, and it has been handed out. */
  ghost predicate HandedOut(h: seq<Blk>, h': seq<Blk>, k: int, n: int, r: int) {
    && 0 <= k < |h| && h[k].free && n <= h[k].size && r == h[k].addr + META
    && (forall i :: 0 <= i < |h| && h[i].free && n <= h[i].size ==> h[k].size <= h[i].size)
    && h' == h[..k] + Portion(h[k].addr, h[k].size, n) + h[k + 1..]
  }

  lemma Found(s: State, s': State, n: int, limit: int, r: int) returns (k: nat)
    requires SomeFits(s.blocks, n) && Malloc(s, s', n, limit, r)
    ensures k < |s.blocks| && HandedOut(s.blocks, s'.blocks, k, n, r) && s'.brk == s.brk && s'.orphans == s.orphans
  {
    hide Carve;
    var h := s.blocks;
    FitsIs(h, n);
    var c: int :| BestFit(h, c, n) && s' == s.(blocks := Carve(h, c, n)) && r == h[c].Payload();
    k := c;
    CarveIs(h, k, n);
    assert forall i :: 0 <= i < |h| && h[i].free && n <= h[i].size ==> Fits(h[i], n);
  }

  lemma NoneFound(s: State, s': State, n: int, limit: int, r: int)
    requires !SomeFits(s.blocks, n) && Malloc(s, s', n, limit, r)
    ensures (s', r) == Grow(s, n, limit)
  {
    FitsIs(s.blocks, n);
  }

  /** A request succeeds exactly when a block fits or there is room; the break goes up only when no block fits. */
  lemma RequestSucceeds(s: State, s': State, base: int, n: int, limit: int, r: int)
    requires Layout(s, base) && 0 < n < MMAP_SIZE && Malloc(s, s', n, limit, r)
    ensures r != 0 <==> Servable(s, n, limit)
    ensures r == 0 ==> s'.blocks == s.blocks
    ensures r != 0 ==> s'.brk == s.brk + if SomeFits(s.blocks, n) then 0 else Increment(s.blocks, n)
  {
    hide Malloc, BlocksOK, Extent, SomeFits;
    if SomeFits(s.blocks, n) {
      var k := Found(s, s', n, limit, r);
      LayoutBlock(s, base, k);
    } else {
      NoneFound(s, s', n, limit, r);
      BrkPositive(s, base);
      if s.blocks != [] {
        LayoutBlock(s, base, |s.blocks| - 1);
      }
    }
  }

  /** A successful request gets a smallest block that fits, else the last block if it is free, else a new one. */
  lemma RequestGets(s: State, s': State, n: int, limit: int, r: int)
    requires 0 < n < MMAP_SIZE && Malloc(s, s', n, limit, r)
    ensures SomeFits(s.blocks, n) ==> exists k :: HandedOut(s.blocks, s'.blocks, k, n, r)
    ensures !SomeFits(s.blocks, n) && r != 0 ==>
              var h := s.blocks;
              if h != [] && h[|h| - 1].free then
                r == h[|h| - 1].addr + META && s'.blocks == h[..|h| - 1] + [Blk(h[|h| - 1].addr, n, false)]
              else r == s.brk + META && s'.blocks == h + [Blk(s.brk, n, false)]
  {
    hide Malloc, HandedOut, SomeFits;
    var h := s.blocks;
    if SomeFits(h, n) {
      var k := Found(s, s', n, limit, r);
    } else {
      NoneFound(s, s', n, limit, r);
      if h != [] {
        assert h[|h| - 1 := Blk(h[|h| - 1].addr, n, false)] == h[..|h| - 1] + [Blk(h[|h| - 1].addr, n, false)];
      }
    }
  }

  // ----- releases

  /** Block `k` and its free neighbours have become one free block of their total size; all others are as before. */
  ghost predicate Coalesced(h: seq<Blk>, h': seq<Blk>, k: nat)
    requires k < |h|
  {
    var a := if 0 < k && h[k - 1].free then k - 1 else k;
    var b := if k + 1 < |h| && h[k + 1].free then k + 1 else k;
    var left := if a < k then h[k - 1].size + META else 0;
    var right := if k < b then META + h[k + 1].size else 0;
    h' == h[..a] + [Blk(h[a].addr, left + h[k].size + right, true)] + h[b + 1..]
  }

  lemma ReleaseCoalesces(h: seq<Blk>, k: nat)
    requires k < |h|
    ensures Coalesced(h, Free(h, k), k)
  {
    hide Free;
    FreeShape(h, k);
  }

  // ----- reallocations

  predicate FitsLeft(h: seq<Blk>, i: nat, n: int)
    requires i < |h|
  {
    0 < i && h[i - 1].free && n <= h[i - 1].size + META + h[i].size
  }

  predicate FitsRight(h: seq<Blk>, i: nat, n: int)
    requires i < |h|
  {
    i + 1 < |h| && h[i + 1].free && n <= h[i].size + META + h[i + 1].size
  }

  predicate FitsBoth(h: seq<Blk>, i: nat, n: int)
    requires i < |h|
  {
    && 0 < i && i + 1 < |h| && h[i - 1].free && h[i + 1].free
    && n <= h[i - 1].size + META + h[i].size + META + h[i + 1].size
  }

  /** The request can be met without another block: with the block itself or with its neighbours. */
  predicate FitsInPlace(h: seq<Blk>, i: nat, n: int)
    requires i < |h|
  {
    n <= h[i].size || FitsLeft(h, i, n) || FitsRight(h, i, n) || FitsBoth(h, i, n)
  }

  /** Blocks `a` to `b`, which have `total` bytes together, have been given to a request of `n` bytes. */
  ghost predicate Given(s: State, s': State, a: nat, b: nat, total: int, n: int, r: int)
    requires a <= b < |s.blocks|
  {
    var h := s.blocks;
    && r == h[a].addr + META && s'.brk == s.brk && s'.orphans == s.orphans
    && s'.blocks == h[..a] + Portion(h[a].addr, total, n) + h[b + 1..]
  }

  lemma PathIs(h: seq<Blk>, i: nat, n: int)
    requires i < |h|
    ensures PathOf(h, i, n) ==
            if n <= h[i].size then Reuse else if FitsLeft(h, i, n) then MergeLeft else if FitsRight(h, i, n)
               then MergeRight
            else if FitsBoth(h, i, n) then MergeBoth else if i + 1 == |h| then Wilderness else Move
  {
  }

  /** srealloc in place: the block itself if it is large enough, else with the left neighbour if that makes room, else
    * with
    * the right one, else with both; never by raising the break. */
  ghost predicate InPlace(s: State, s': State, i: nat, n: int, r: int)
    requires i < |s.blocks| && FitsInPlace(s.blocks, i, n)
  {
    var h := s.blocks;
    if n <= h[i].size then Given(s, s', i, i, h[i].size, n, r)
    else if FitsLeft(h, i, n) then Given(s, s', i - 1, i, h[i - 1].size + META + h[i].size, n, r)
    else if FitsRight(h, i, n) then Given(s, s', i, i + 1, h[i].size + META + h[i + 1].size, n, r)
    else Given(s, s', i - 1, i + 1, h[i - 1].size + META + h[i].size + META + h[i + 1].size, n, r)
  }

  lemma ReallocInPlace(s: State, s': State, i: nat, n: int, limit: int, r: int)
    requires i < |s.blocks| && !s.blocks[i].free && FitsInPlace(s.blocks, i, n) && Realloc(s, s', i, n, limit, r)
    ensures InPlace(s, s', i, n, r)
  {
    hide Carve, United, FitsLeft, FitsRight, FitsBoth, PathOf, Portion;
    var h := s.blocks;
    PathIs(h, i, n);
    var (u, j) := United(h, i, PathOf(h, i, n));
    var (a, b) := SpanOf(i, PathOf(h, i, n));
    UnitedShape(h, i, n);
    UnitedSize(h, i, n);
    CarveIs(u, j, n);
    SpliceOuter(h, u, a, b);
  }

  lemma SpliceOuter(h: seq<Blk>, u: seq<Blk>, a: nat, b: nat)
    requires a <= b < |h| && a < |u| && u == h[..a] + [u[a]] + h[b + 1..]
    ensures u[..a] == h[..a] && u[a + 1..] == h[b + 1..]
  {
  }

  lemma UnitedSize(h: seq<Blk>, i: nat, n: int)
    requires i < |h| && !h[i].free && FitsInPlace(h, i, n)
    ensures var (u, j) := United(h, i, PathOf(h, i, n));
      0 <= j < |u| && u[j].addr == h[j].addr && u[j].size ==
        if n <= h[i].size then h[i].size
        else if FitsLeft(h, i, n) then h[i - 1].size + META + h[i].size
        else if FitsRight(h, i, n) then h[i].size + META + h[i + 1].size
        else h[i - 1].size + META + h[i].size + META + h[i + 1].size
  {
    hide Merge;
    var r := Release(h, i);
    match PathOf(h, i, n)
    case MergeLeft =>
      MergedAt(r, i - 1);
    case MergeRight =>
      MergedAt(r, i);
    case MergeBoth =>
      MergedAt(r, i);
      assert Unite(r, i) == Merge(r, i);
      MergedAt(Merge(r, i), i - 1);
    case _ =>
  }

  /** srealloc out of place: the last block grows if the break can go up that far, any other block moves: a request for
    * another block, and if that succeeds a release. */
  lemma ReallocElsewhere(s: State, s': State, i: nat, n: int, limit: int, r: int)
    requires i < |s.blocks| && !s.blocks[i].free && !FitsInPlace(s.blocks, i, n) && Realloc(s, s', i, n, limit, r)
    ensures var h := s.blocks;
      if i + 1 == |h| then
        if s.brk + n - h[i].size <= limit then
          r == h[i].addr + META && s' == State(h[..i] + [Blk(h[i].addr, n, false)], s.brk + n - h[i].size, s.orphans)
        else r == 0 && s' == s
      else
        exists s1 :: Malloc(s, s1, n, limit, r) && Vacated(s1, s', h[i], r)
  {
    var h := s.blocks;
    PathIs(h, i, n);
    if i + 1 == |h| {
      assert h[i := h[i].(size := n)] == h[..i] + [Blk(h[i].addr, n, false)];
    }
  }

  /** When a block moves, the old one is released with its free neighbours as they are by then. */
  lemma MoveReleases(s1: State, s': State, b: Blk, r: int)
    requires Vacated(s1, s', b, r) && r != 0
    ensures s'.brk == s1.brk && s'.orphans == s1.orphans
    ensures exists k: nat :: k < |s1.blocks| && s1.blocks[k] == b && Coalesced(s1.blocks, s'.blocks, k)
  {
    hide Free;
    var k :| 0 <= k < |s1.blocks| && s1.blocks[k] == b && s' == s1.(blocks := Free(s1.blocks, k));
    ReleaseCoalesces(s1.blocks, k);
    assert Coalesced(s1.blocks, s'.blocks, k);
  }

  /** The request for `n` bytes instead of block `i` can be met: in place, by enlarging the last block, or elsewhere. */
  ghost predicate Reservable(s: State, i: nat, n: int, limit: int)
    requires i < |s.blocks|
  {
    || FitsInPlace(s.blocks, i, n)
    || if i + 1 == |s.blocks| then s.brk + n - s.blocks[i].size <= limit else Servable(s, n, limit)
  }

  lemma Addressed(s: State, base: int, i: nat)
    requires Layout(s, base) && i < |s.blocks|
    ensures 0 < s.blocks[i].addr
  {
    LayoutBlock(s, base, i);
  }

  /** srealloc succeeds exactly then, and whatever fits in place is met in place. */
  lemma ReallocSucceeds(s: State, s': State, base: int, i: nat, n: int, limit: int, r: int)
    requires Layout(s, base) && i < |s.blocks| && !s.blocks[i].free && 0 < n < MMAP_SIZE
             && Realloc(s, s', i, n, limit, r)
    ensures r != 0 <==> Reservable(s, i, n, limit)
    ensures FitsInPlace(s.blocks, i, n) ==> InPlace(s, s', i, n, r)
    ensures r == 0 ==> s'.blocks == s.blocks
  {
    hide Layout, Malloc, Realloc, Servable, Portion;
    Addressed(s, base, i);
    if FitsInPlace(s.blocks, i, n) {
      ReallocInPlace(s, s', i, n, limit, r);
      if 0 < i {
        Addressed(s, base, i - 1);
      }
    } else {
      ReallocElsewhere(s, s', i, n, limit, r);
      if i + 1 < |s.blocks| {
        var s1 :| Malloc(s, s1, n, limit, r) && Vacated(s1, s', s.blocks[i], r);
        RequestSucceeds(s, s1, base, n, limit, r);
      }
    }
  }

  // ----- requests of 131072 bytes or more

  /** srealloc of a block of the heap to that size: the new block is mapped and the old one released. */
  lemma RemapReleases(s: State, maps: seq<Blk>, s': State, maps': seq<Blk>, b: Blk, n: int, r: int)
    requires Remapped(s, maps, s', maps', b, n, r) && r != 0 && b.addr != r - META && b !in maps
    ensures maps' == maps + [Blk(r - META, n, false)] && s'.brk == s.brk && s'.orphans == s.orphans
    ensures exists k: nat :: k < |s.blocks| && s.blocks[k] == b && Coalesced(s.blocks, s'.blocks, k)
  {
    hide Coalesced, Vacated;
    var maps1 := maps + [Blk(r - META, n, false)];
    assert b !in maps1;
    assert !Unmapped(maps1, maps', b);
    MoveReleases(s, s', b, r);
  }

  /** The same for an mmapped block, which is unmapped. */
  lemma RemapUnmaps(s: State, maps: seq<Blk>, s': State, maps': seq<Blk>, b: Blk, n: int, r: int)
    requires Remapped(s, maps, s', maps', b, n, r) && r != 0 && b.addr != r - META && b !in s.blocks
    ensures s' == s
    ensures exists k ::
              0 <= k < |maps| && maps[k] == b && maps' == maps[..k] + maps[k + 1..] + [Blk(r - META, n, false)]
  {
    hide Free;
    var c := Blk(r - META, n, false);
    assert !Vacated(s, s', b, r);
    var k :| 0 <= k < |maps + [c]| && (maps + [c])[k] == b && maps' == (maps + [c])[..k] + (maps + [c])[k + 1..];
    AppendedParts(maps, c, k);
  }

  lemma AppendedParts(maps: seq<Blk>, c: Blk, k: nat)
    requires k < |maps|
    ensures (maps + [c])[..k] == maps[..k] && (maps + [c])[k + 1..] == maps[k + 1..] + [c]
    ensures maps[..k] + (maps[k + 1..] + [c]) == maps[..k] + maps[k + 1..] + [c]
  {
  }
}
