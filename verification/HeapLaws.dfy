/** What the heap operations keep: the layout, the accounting of the break, and the absence of adjacent free blocks. */
module HeapLaws {
  import opened Basics
  import opened Heap

  lemma {:induction false} ExtentConcat(a: seq<Blk>, b: seq<Blk>)
    ensures Extent(a + b) == Extent(a) + Extent(b)
  {
    if a == [] {
      assert a + b == b;
    } else {
      assert (a + b)[1..] == a[1..] + b;
      ExtentConcat(a[1..], b);
    }
  }

  /** Replacing the `w` blocks at `i` by `m` changes the extent by the difference. */
  lemma ExtentReplace(h: seq<Blk>, i: nat, w: nat, m: seq<Blk>)
    requires i + w <= |h|
    ensures Extent(h[..i] + m + h[i + w..]) == Extent(h) - Extent(h[i..i + w]) + Extent(m)
  {
    assert h == h[..i] + h[i..i + w] + h[i + w..];
    ExtentConcat(h[..i] + h[i..i + w], h[i + w..]);
    ExtentConcat(h[..i], h[i..i + w]);
    ExtentConcat(h[..i] + m, h[i + w..]);
    ExtentConcat(h[..i], m);
  }

  lemma ExtentOne(b: Blk)
    ensures Extent([b]) == META + b.size
  {
    assert [b][1..] == [];
  }

  lemma ExtentTwo(a: Blk, b: Blk)
    ensures Extent([a, b]) == META + a.size + META + b.size
  {
    assert [a, b][1..] == [b];
    ExtentOne(b);
  }

  /** Replacing the `w` blocks at `i` by blocks `m` that stay between their neighbours. */
  lemma BlocksReplace(h: seq<Blk>, base: int, brk: int, i: nat, w: nat, m: seq<Blk>, lo: int, hi: int)
    requires BlocksOK(h, base, brk) && BlocksOK(m, base, brk) && i + w <= |h|
    requires forall k :: 0 <= k < |m| ==> lo <= m[k].addr && m[k].End() <= hi
    requires forall k :: 0 <= k < i ==> h[k].End() <= lo
    requires forall k :: i + w <= k < |h| ==> hi <= h[k].addr
    requires |m| > 0
    ensures BlocksOK(h[..i] + m + h[i + w..], base, brk)
  {
    var h' := h[..i] + m + h[i + w..];
    var d := |m| - w;
    forall j | 0 <= j < |h'|
      ensures BlockOK(h'[j], base, brk)
    {
      assert if j < i then h'[j] == h[j] else if j < i + |m| then h'[j] == m[j - i] else h'[j] == h[j - d];
      assert j < i ==> BlockOK(h[j], base, brk);
      assert i <= j < i + |m| ==> BlockOK(m[j - i], base, brk);
      assert i + |m| <= j ==> BlockOK(h[j - d], base, brk);
    }
    forall j, k | 0 <= j < k < |h'|
      ensures h'[j].End() <= h'[k].addr
    {
      assert m[0].addr <= m[0].End() by { assert BlockOK(m[0], base, brk); }
      assert if j < i then h'[j] == h[j] else if j < i + |m| then h'[j] == m[j - i] else h'[j] == h[j - d];
      assert if k < i then h'[k] == h[k] else if k < i + |m| then h'[k] == m[k - i] else h'[k] == h[k - d];
    }
  }

  /** A replacement of the same extent keeps the layout. */
  lemma LayoutReplace(s: State, base: int, i: nat, w: nat, m: seq<Blk>, lo: int, hi: int)
    requires Layout(s, base) && BlocksOK(m, base, s.brk) && i + w <= |s.blocks| && |m| > 0
    requires forall k :: 0 <= k < |m| ==> lo <= m[k].addr && m[k].End() <= hi
    requires forall k :: 0 <= k < i ==> s.blocks[k].End() <= lo
    requires forall k :: i + w <= k < |s.blocks| ==> hi <= s.blocks[k].addr
    requires Extent(m) == Extent(s.blocks[i..i + w])
    ensures Layout(s.(blocks := s.blocks[..i] + m + s.blocks[i + w..]), base)
  {
    BlocksReplace(s.blocks, base, s.brk, i, w, m, lo, hi);
    ExtentReplace(s.blocks, i, w, m);
  }

  /** What surrounds the `w` blocks at `i`. */
  lemma Surroundings(s: State, base: int, i: nat, w: nat)
    requires Layout(s, base) && 0 < w && i + w <= |s.blocks|
    ensures forall k :: 0 <= k < i ==> s.blocks[k].End() <= s.blocks[i].addr
    ensures forall k :: i + w <= k < |s.blocks| ==> s.blocks[i + w - 1].End() <= s.blocks[k].addr
    ensures BlockOK(s.blocks[i], base, s.brk) && BlockOK(s.blocks[i + w - 1], base, s.brk)
    ensures 1 < w ==> s.blocks[i].End() <= s.blocks[i + w - 1].addr
  {
  }

  lemma OneBlock(b: Blk, base: int, brk: int)
    requires BlockOK(b, base, brk)
    ensures BlocksOK([b], base, brk)
  {
  }

  lemma TwoBlocks(c: Blk, d: Blk, base: int, brk: int)
    requires BlockOK(c, base, brk) && BlockOK(d, base, brk) && c.End() <= d.addr
    ensures BlocksOK([c, d], base, brk)
  {
  }

  /** Marking a block free or used moves nothing. */
  lemma RelabelLayout(s: State, base: int, i: nat, free: bool)
    requires Layout(s, base) && i < |s.blocks|
    ensures Layout(s.(blocks := s.blocks[i := s.blocks[i].(free := free)]), base)
  {
    hide Layout, BlocksOK, Extent;
    var h := s.blocks;
    var b := h[i].(free := free);
    Surroundings(s, base, i, 1);
    assert h[i := b] == h[..i] + [b] + h[i + 1..];
    assert h[i..i + 1] == [h[i]];
    ExtentOne(h[i]);
    ExtentOne(b);
    OneBlock(b, base, s.brk);
    LayoutReplace(s, base, i, 1, [b], b.addr, b.End());
  }

  lemma MergeLayout(s: State, base: int, i: nat)
    requires Layout(s, base) && i + 1 < |s.blocks|
    requires s.blocks[i].size + META + s.blocks[i + 1].size < MMAP_SIZE
    ensures Layout(s.(blocks := Merge(s.blocks, i)), base)
  {
    hide Layout, BlocksOK, Extent;
    var h := s.blocks;
    var b := Blk(h[i].addr, h[i].size + META + h[i + 1].size, true);
    Surroundings(s, base, i, 2);
    assert h[i..i + 2] == [h[i], h[i + 1]];
    ExtentTwo(h[i], h[i + 1]);
    ExtentOne(b);
    OneBlock(b, base, s.brk);
    LayoutReplace(s, base, i, 2, [b], b.addr, h[i + 1].End());
  }

  lemma CarveLayout(s: State, base: int, i: nat, n: int)
    requires Layout(s, base) && i < |s.blocks| && 0 < n <= s.blocks[i].size && n % 8 == 0
    ensures Layout(s.(blocks := Carve(s.blocks, i, n)), base)
  {
    if s.blocks[i].size - n < SPLIT {
      RelabelLayout(s, base, i, false);
    } else {
      SplitLayout(s, base, i, n);
    }
  }

  lemma SplitLayout(s: State, base: int, i: nat, n: int)
    requires Layout(s, base) && i < |s.blocks| && 0 < n && n + SPLIT <= s.blocks[i].size && n % 8 == 0
    ensures Layout(s.(blocks := Carve(s.blocks, i, n)), base)
  {
    hide Layout, BlocksOK, Extent;
    var b := s.blocks[i];
    var c, d := Blk(b.addr, n, false), Blk(b.addr + META + n, b.size - n - META, true);
    Surroundings(s, base, i, 1);
    SplitAligned(b.addr, b.size, n);
    assert s.blocks[i..i + 1] == [b];
    ExtentOne(b);
    ExtentTwo(c, d);
    TwoBlocks(c, d, base, s.brk);
    LayoutReplace(s, base, i, 1, [c, d], b.addr, b.End());
  }

  lemma SplitAligned(addr: int, size: int, n: int)
    requires addr % 8 == 0 && size % 8 == 0 && n % 8 == 0
    ensures (addr + META + n) % 8 == 0 && (size - n - META) % 8 == 0
  {
  }

  /** A higher break suits the same blocks. */
  lemma BlocksRaise(h: seq<Blk>, base: int, brk: int, brk': int)
    requires BlocksOK(h, base, brk) && brk <= brk'
    ensures BlocksOK(h, base, brk')
  {
    forall i | 0 <= i < |h|
      ensures BlockOK(h[i], base, brk')
    {
      assert BlockOK(h[i], base, brk);
    }
  }

  lemma GrowLayout(s: State, base: int, n: int, limit: int)
    requires Layout(s, base) && s.brk <= limit && NoFit(s.blocks, n) && 0 < n < MMAP_SIZE && n % 8 == 0
    ensures Layout(Grow(s, n, limit).0, base)
    ensures s.brk <= Grow(s, n, limit).0.brk <= limit
  {
    var h := s.blocks;
    var last := |h| - 1;
    var s' := Grow(s, n, limit).0;
    if s' == s {
    } else if 0 <= last && h[last].free {
      assert BlockOK(h[last], base, s.brk) && !Fits(h[last], n);
      ResizeLastLayout(s, base, n);
    } else if |s'.blocks| > |h| {
      AppendLayout(s, base, n);
    } else {
      BlocksRaise(h, base, s.brk, s'.brk);
    }
  }

  lemma AppendLayout(s: State, base: int, n: int)
    requires Layout(s, base) && 0 < n < MMAP_SIZE && n % 8 == 0
    ensures Layout(State(s.blocks + [Blk(s.brk, n, false)], s.brk + META + n, s.orphans), base)
  {
    hide BlocksOK, Extent;
    var b := Blk(s.brk, n, false);
    BaseBelow(s, base);
    ExtentConcat(s.blocks, [b]);
    ExtentOne(b);
    BlocksAppend(s.blocks, b, base, s.brk);
  }

  lemma BaseBelow(s: State, base: int)
    requires Layout(s, base)
    ensures base <= s.brk
  {
    ExtentPositive(s.blocks, base, s.brk);
  }

  lemma BlocksAppend(h: seq<Blk>, b: Blk, base: int, brk: int)
    requires BlocksOK(h, base, brk) && b.addr == brk && BlockOK(b, base, b.End())
    ensures BlocksOK(h + [b], base, b.End())
  {
    var h' := h + [b];
    forall i | 0 <= i < |h'|
      ensures BlockOK(h'[i], base, b.End())
      ensures i < |h| ==> h'[i].End() <= b.addr
    {
      assert i < |h| ==> BlockOK(h[i], base, brk);
    }
  }

  lemma LastPlace(s: State, base: int)
    requires Layout(s, base) && s.blocks != []
    ensures var last := |s.blocks| - 1;
      BlockOK(s.blocks[last], base, s.brk) && forall i :: 0 <= i < last ==> s.blocks[i].End() <= s.blocks[last].addr
  {
  }

  /** The last block gets `n` bytes and the break moves along. */
  lemma ResizeLastLayout(s: State, base: int, n: int)
    requires Layout(s, base) && s.blocks != [] && s.blocks[|s.blocks| - 1].size <= n < MMAP_SIZE && n % 8 == 0
    ensures var b := s.blocks[|s.blocks| - 1];
      Layout(State(s.blocks[|s.blocks| - 1 := Blk(b.addr, n, false)], s.brk + n - b.size, s.orphans), base)
  {
    hide Ordered, Extent, BlocksOK;
    var h, last := s.blocks, |s.blocks| - 1;
    LastPlace(s, base);
    var b := h[last];
    var c, brk' := Blk(b.addr, n, false), s.brk + n - b.size;
    assert BlockOK(b, base, s.brk);
    BlocksRaise(h, base, s.brk, brk');
    assert h[last := c] == h[..last] + [c] + h[last + 1..];
    OneBlock(c, base, brk');
    BlocksReplace(h, base, brk', last, 1, [c], c.addr, c.End());
    ExtentReplace(h, last, 1, [c]);
    assert h[last..last + 1] == [b];
    ExtentOne(b);
    ExtentOne(c);
  }

  lemma {:induction false} ExtentPositive(h: seq<Blk>, base: int, brk: int)
    requires forall i {:trigger BlockOK(h[i], base, brk)} :: 0 <= i < |h| ==> BlockOK(h[i], base, brk)
    ensures Extent(h) >= 0
  {
    if h != [] {
      assert BlockOK(h[0], base, brk);
      assert forall i :: 0 <= i < |h[1..]| ==> h[1..][i] == h[i + 1];
      forall i | 0 <= i < |h[1..]|
        ensures BlockOK(h[1..][i], base, brk)
      {
        assert BlockOK(h[i + 1], base, brk);
      }
      ExtentPositive(h[1..], base, brk);
    }
  }

  // ----- tiling

  /** The space between the end of the blocks before `k` and the start of
    * block `k` never shrinks below what their extent takes. */
  lemma {:induction false} ExtentBound(h: seq<Blk>, base: int, brk: int, k: nat)
    requires BlocksOK(h, base, brk) && k < |h|
    ensures base + Extent(h[..k]) <= h[k].addr
  {
    assert BlockOK(h[k], base, brk);
    if k == 0 {
      assert h[..0] == [];
    } else {
      ExtentBound(h, base, brk, k - 1);
      assert h[..k] == h[..k - 1] + [h[k - 1]];
      ExtentConcat(h[..k - 1], [h[k - 1]]);
      ExtentOne(h[k - 1]);
    }
  }

  /** With no gap in total there is no gap anywhere. */
  lemma {:induction false} NoGap(h: seq<Blk>, base: int, brk: int, k: nat)
    requires BlocksOK(h, base, brk) && k < |h|
    requires base + Extent(h) == brk
    ensures h[k].addr == base + Extent(h[..k])
    decreases |h| - k
  {
    ExtentBound(h, base, brk, k);
    assert h[..k + 1] == h[..k] + [h[k]];
    ExtentConcat(h[..k], [h[k]]);
    ExtentOne(h[k]);
    if k + 1 < |h| {
      NoGap(h, base, brk, k + 1);
    } else {
      assert h[..k + 1] == h;
      assert BlockOK(h[k], base, brk);
    }
  }

  /** In a tiled heap the blocks before `k` account for everything below block `k`. */
  lemma {:induction false} TiledExtent(h: seq<Blk>, base: int, brk: int, k: nat)
    requires Tiles(h, base, brk) && k < |h|
    ensures h[k].addr == base + Extent(h[..k])
  {
    if k > 0 {
      TiledExtent(h, base, brk, k - 1);
      assert h[..k] == h[..k - 1] + [h[k - 1]];
      ExtentConcat(h[..k - 1], [h[k - 1]]);
      ExtentOne(h[k - 1]);
    }
  }

  /** The blocks tile the sbrk area exactly when no header was ever orphaned by a failing second sbrk. */
  lemma TilesIffNoOrphans(s: State, base: int)
    requires Layout(s, base)
    ensures Tiles(s.blocks, base, s.brk) <==> s.orphans == 0
  {
    var h := s.blocks;
    var last := |h| - 1;
    if h != [] {
      assert h == h[..last] + [h[last]];
      ExtentConcat(h[..last], [h[last]]);
      ExtentOne(h[last]);
    }
    if s.orphans == 0 {
      forall k | 0 <= k < |h|
        ensures h[k].addr == base + Extent(h[..k])
      {
        NoGap(h, base, s.brk, k);
      }
      forall i | 0 <= i < |h| - 1
        ensures h[i + 1].addr == h[i].End()
      {
        assert h[..i + 1] == h[..i] + [h[i]];
        ExtentConcat(h[..i], [h[i]]);
        ExtentOne(h[i]);
      }
    } else if Tiles(h, base, s.brk) && h != [] {
      TiledExtent(h, base, s.brk, last);
      assert false;
    }
  }

  // ----- adjacency of free blocks

  /** Carving block `i` leaves an adjacent free pair exactly when it cuts off a remainder in front of a free block. */
  lemma CarveApart(h: seq<Blk>, i: nat, n: int)
    requires i < |h| && forall k :: k != i && k != i - 1 ==> Apart(h, k)
    ensures NoAdjacentFree(Carve(h, i, n)) <==> !(h[i].size - n >= SPLIT && i + 1 < |h| && h[i + 1].free)
    ensures forall k :: k != i + 1 ==> Apart(Carve(h, i, n), k)
  {
    var h' := Carve(h, i, n);
    forall k
      ensures Apart(h', k) <==> !(k == i + 1 && h[i].size - n >= SPLIT && i + 1 < |h| && h[i + 1].free)
    {
      assert k < i - 1 ==> Apart(h, k);
      assert k > i ==> if h[i].size - n >= SPLIT then k > i + 1 ==> Apart(h, k - 1) else Apart(h, k);
    }
    assert Apart(h', i + 1) <==> !(h[i].size - n >= SPLIT && i + 1 < |h| && h[i + 1].free);
  }

  /** Uniting at `i` settles the pair `i` and creates no new pair. */
  lemma UniteApart(h: seq<Blk>, i: int)
    requires forall k :: k != i && k != i - 1 ==> Apart(h, k)
    ensures forall k :: k != i - 1 ==> Apart(Unite(h, i), k)
    ensures Apart(h, i - 1) ==> Apart(Unite(h, i), i - 1)
  {
    if Mergeable(h, i) {
      var h' := Unite(h, i);
      forall k
        ensures k != i - 1 ==> Apart(h', k)
        ensures k == i - 1 && Apart(h, k) ==> Apart(h', k)
      {
        assert k > i - 1 ==> Apart(h, k + 1);
        assert k < i - 1 ==> Apart(h, k);
      }
      assert Apart(h, i - 1) ==> Apart(h', i - 1);
    }
  }

  lemma FreeNoAdjacent(h: seq<Blk>, i: nat)
    requires NoAdjacentFree(h) && i < |h|
    ensures NoAdjacentFree(Free(h, i))
  {
    forall k
      ensures k != i && k != i - 1 ==> Apart(Release(h, i), k)
    {
      assert Apart(h, k);
    }
    UniteApart(Release(h, i), i);
    UniteApart(Unite(Release(h, i), i), i - 1);
  }

  /** The two merges of a release stay below the size that its neighbours promise. */
  lemma FreeSteps(h: seq<Blk>, base: int, brk: int, k: nat)
    requires BlocksOK(h, base, brk) && k < |h| && MergedSize(h, k) < MMAP_SIZE
    ensures var h1 := Release(h, k);
      var h2 := Unite(h1, k);
      && (Mergeable(h1, k) ==> h1[k].size + META + h1[k + 1].size < MMAP_SIZE)
      && k < |h2| && h2[k].addr == h[k].addr
      && (Mergeable(h2, k - 1) ==> h2[k - 1].size + META + h2[k].size < MMAP_SIZE)
  {
    assert 0 < k ==> BlockOK(h[k - 1], base, brk);
    assert k + 1 < |h| ==> BlockOK(h[k + 1], base, brk);
  }

  lemma GrowNoAdjacent(s: State, n: int, limit: int)
    requires NoAdjacentFree(s.blocks)
    ensures NoAdjacentFree(Grow(s, n, limit).0.blocks)
  {
    forall k
      ensures Apart(Grow(s, n, limit).0.blocks, k)
    {
      assert Apart(s.blocks, k);
    }
  }

  // ----- what stays

  /** Blocks before `i` and from `i + w` on survive a replacement of the `w` blocks at `i`. */
  lemma ReplacePersist(h: seq<Blk>, i: nat, w: nat, m: seq<Blk>, but: int)
    requires i + w <= |h|
    requires forall k :: i <= k < i + w ==> h[k].free || h[k].addr == but
    ensures Persist(h, h[..i] + m + h[i + w..], but)
  {
    var h' := h[..i] + m + h[i + w..];
    forall b | b in h && !b.free && b.addr != but
      ensures b in h'
    {
      var k :| 0 <= k < |h| && h[k] == b;
      if k < i {
        assert h'[k] == b;
      } else {
        assert h'[k - w + |m|] == b;
      }
    }
  }

  lemma CarvePersist(h: seq<Blk>, i: nat, n: int, but: int)
    requires i < |h| && (h[i].free || h[i].addr == but)
    ensures Persist(h, Carve(h, i, n), but)
  {
    if h[i].size - n < SPLIT {
      var c := h[i].(free := false);
      assert Carve(h, i, n) == h[..i] + [c] + h[i + 1..];
      ReplacePersist(h, i, 1, [c], but);
    } else {
      ReplacePersist(h, i, 1, [Blk(h[i].addr, n, false), Blk(h[i].addr + META + n, h[i].size - n - META, true)], but);
    }
  }

  /** Handing out a free block serves the request and disturbs no block in use. */
  lemma CarveServes(h: seq<Blk>, base: int, brk: int, k: nat, n: int)
    requires BlocksOK(h, base, brk) && k < |h| && Fits(h[k], n)
    ensures Persist(h, Carve(h, k, n), 0) && Serves(Carve(h, k, n), h[k].Payload(), n)
    ensures forall b :: b in h && !b.free ==> b.addr != h[k].addr
  {
    CarvePersist(h, k, n, 0);
    assert Carve(h, k, n)[k] in Carve(h, k, n);
    forall b | b in h && !b.free
      ensures b.addr != h[k].addr
    {
      var j :| 0 <= j < |h| && h[j] == b;
      assert BlockOK(h[j], base, brk) && BlockOK(h[k], base, brk);
    }
  }

  /** An allocation from the sbrk heap disturbs no block in use, and
    * serves the request with a block that was not in use. */
  lemma MallocServes(s: State, s': State, base: int, n: int, limit: int, r: int)
    requires Layout(s, base) && Malloc(s, s', n, limit, r) && 0 < n
    ensures Persist(s.blocks, s'.blocks, 0)
    ensures r != 0 ==> Serves(s'.blocks, r, n) && forall b :: b in s.blocks && !b.free ==> b.addr != r - META
  {
    hide Carve, Grow, BlocksOK, Persist, Serves;
    if NoFit(s.blocks, n) {
      GrowServes(s, base, n, limit);
    } else {
      var k :| BestFit(s.blocks, k, n) && s' == s.(blocks := Carve(s.blocks, k, n)) && r == s.blocks[k].Payload();
      CarveServes(s.blocks, base, s.brk, k, n);
    }
  }

  lemma GrowServes(s: State, base: int, n: int, limit: int)
    requires Layout(s, base) && 0 < n
    ensures var (s', r) := Grow(s, n, limit);
      && Persist(s.blocks, s'.blocks, 0)
      && (r != 0 ==> Serves(s'.blocks, r, n) && forall b :: b in s.blocks && !b.free ==> b.addr != r - META)
  {
    hide Layout, Persist, Serves;
    var last := |s.blocks| - 1;
    BaseBelow(s, base);
    if 0 <= last && s.blocks[last].free {
      LastServes(s.blocks, base, s.brk, n) by {
        LayoutBlocksOK(s, base);
      }
    } else {
      NewServes(s.blocks, base, s.brk, n) by {
        LayoutBlocksOK(s, base);
      }
    }
    assert Persist(s.blocks, s.blocks, 0) by {
      NothingLost(s.blocks);
    }
  }

  lemma NothingLost(h: seq<Blk>)
    ensures Persist(h, h, 0)
  {
  }

  lemma LayoutBlocksOK(s: State, base: int)
    requires Layout(s, base)
    ensures BlocksOK(s.blocks, base, s.brk)
  {
  }

  /** Enlarging the last block, which is free. */
  lemma LastServes(h: seq<Blk>, base: int, brk: int, n: int)
    requires BlocksOK(h, base, brk) && h != [] && h[|h| - 1].free
    ensures var b := h[|h| - 1];
      var h' := h[|h| - 1 := Blk(b.addr, n, false)];
      && Persist(h, h', 0) && Serves(h', b.Payload(), n) && forall d :: d in h && !d.free ==> d.addr != b.addr
  {
    var last := |h| - 1;
    var c := Blk(h[last].addr, n, false);
    assert h[last := c] == h[..last] + [c] + h[last + 1..];
    ReplacePersist(h, last, 1, [c], 0);
    assert h[last := c][last] in h[last := c];
    forall d | d in h && !d.free
      ensures d.addr != h[last].addr
    {
      var j :| 0 <= j < |h| && h[j] == d;
      assert BlockOK(h[j], base, brk);
    }
  }

  /** A new block at the break. */
  lemma NewServes(h: seq<Blk>, base: int, brk: int, n: int)
    requires BlocksOK(h, base, brk)
    ensures var h' := h + [Blk(brk, n, false)];
      && Persist(h, h', 0) && Serves(h', brk + META, n) && forall d :: d in h && !d.free ==> d.addr != brk
  {
    var c := Blk(brk, n, false);
    assert h + [c] == h[..|h|] + [c] + h[|h|..];
    ReplacePersist(h, |h|, 0, [c], 0);
    assert (h + [c])[|h|] in h + [c];
    forall d | d in h
      ensures d.addr != brk
    {
      var j :| 0 <= j < |h| && h[j] == d;
      assert BlockOK(h[j], base, brk);
    }
  }

  // ----- reallocation

  /** Along an in-place path the united block has room for the request and
    * lies within the span of the blocks it came from. */
  lemma UnitedFacts(h: seq<Blk>, base: int, brk: int, i: nat, n: int)
    requires BlocksOK(h, base, brk) && i < |h| && !h[i].free
    requires PathOf(h, i, n) != Wilderness && PathOf(h, i, n) != Move
    ensures var (u, j) := United(h, i, PathOf(h, i, n));
      var (a, b) := SpanOf(i, PathOf(h, i, n));
      && 0 <= j < |u| && n <= u[j].size && 0 <= a <= i <= b < |h|
      && u[j].addr == h[a].addr && u[j].End() <= h[b].End() && h[i].size <= u[j].size
      && (PathOf(h, i, n) != Reuse ==> u[j].free)
      && (forall t :: a <= t <= b && t != i ==> h[t].free)
  {
    hide Merge, Ordered;
    Neighbours(h, base, brk, i);
    var r := Release(h, i);
    match PathOf(h, i, n)
    case MergeLeft =>
      MergedAt(r, i - 1);
    case MergeRight =>
      MergedAt(r, i);
    case MergeBoth =>
      MergedAt(r, i);
      assert Unite(r, i) == Merge(r, i);
      MergedAt(Merge(r, i), i - 1);
    case _ =>
  }

  lemma MergedAt(h: seq<Blk>, i: nat)
    requires i + 1 < |h|
    ensures |Merge(h, i)| == |h| - 1 && Merge(h, i)[i] == Blk(h[i].addr, h[i].size + META + h[i + 1].size, true)
    ensures forall k :: 0 <= k < i ==> Merge(h, i)[k] == h[k]
  {
  }

  lemma Neighbours(h: seq<Blk>, base: int, brk: int, i: nat)
    requires BlocksOK(h, base, brk) && i < |h|
    ensures 0 < h[i].size && (0 < i ==> 0 < h[i - 1].size && h[i - 1].End() <= h[i].addr)
    ensures i + 1 < |h| ==> 0 < h[i + 1].size && h[i].End() <= h[i + 1].addr
  {
    assert BlockOK(h[i], base, brk);
    assert 0 < i ==> BlockOK(h[i - 1], base, brk);
    assert i + 1 < |h| ==> BlockOK(h[i + 1], base, brk);
  }

  /** A used block that is large enough but not worth splitting is returned as it is. */
  lemma ReuseStays(s: State, i: nat, n: int, limit: int)
    requires i < |s.blocks| && !s.blocks[i].free && n <= s.blocks[i].size < n + SPLIT
    ensures Realloc(s, s, i, n, limit, s.blocks[i].Payload())
  {
    assert s.blocks[i := s.blocks[i].(free := false)] == s.blocks;
  }

  lemma ReuseSplits(s: State, s': State, i: nat, n: int, limit: int)
    requires i < |s.blocks| && n <= s.blocks[i].size && s' == s.(blocks := Carve(s.blocks, i, n))
    ensures Realloc(s, s', i, n, limit, s.blocks[i].Payload())
  {
  }

  /** The merging ways. */
  lemma MergesAre(s: State, s': State, i: nat, n: int, limit: int, r: int, path: Path)
    requires i < |s.blocks| && path == PathOf(s.blocks, i, n) && path in {MergeLeft, MergeRight, MergeBoth}
    requires var (u, j) := United(s.blocks, i, path);
      0 <= j < |u| && s' == s.(blocks := Carve(u, j, n)) && r == u[j].Payload()
    ensures Realloc(s, s', i, n, limit, r)
  {
  }

  lemma LeftFacts(h: seq<Blk>, base: int, brk: int, i: nat, n: int)
    requires BlocksOK(h, base, brk) && i < |h| && !h[i].free && n < MMAP_SIZE
    requires PathOf(h, i, n) == MergeLeft && ReallocFits(h, i, n)
    ensures var h1 := Release(h, i);
      && 0 < i && h[i].size < n && Mergeable(h1, i - 1) && h1[i - 1].size + META + h1[i].size < MMAP_SIZE
      && United(h, i, MergeLeft) == (Unite(h1, i - 1), i - 1) && SpanOf(i, MergeLeft) == (i - 1, i)
  {
  }

  lemma RightFacts(h: seq<Blk>, base: int, brk: int, i: nat, n: int)
    requires BlocksOK(h, base, brk) && i < |h| && !h[i].free && n < MMAP_SIZE
    requires PathOf(h, i, n) == MergeRight && ReallocFits(h, i, n)
    ensures var h1 := Release(h, i);
      && h[i].size < n && Mergeable(h1, i) && h1[i].size + META + h1[i + 1].size < MMAP_SIZE
      && United(h, i, MergeRight) == (Unite(h1, i), i) && SpanOf(i, MergeRight) == (i, i + 1)
  {
  }

  lemma BothFacts(h: seq<Blk>, base: int, brk: int, i: nat, n: int)
    requires BlocksOK(h, base, brk) && i < |h| && !h[i].free && n < MMAP_SIZE
    requires PathOf(h, i, n) == MergeBoth && ReallocFits(h, i, n)
    ensures var h1 := Release(h, i);
      var h2 := Unite(h1, i);
      && 0 < i && h[i].size < n && Mergeable(h1, i) && h1[i].size + META + h1[i + 1].size < MMAP_SIZE
      && i < |h2| && h2[i].free && h[i].size <= h2[i].size && Release(h2, i) == h2
      && Mergeable(h2, i - 1) && h2[i - 1].size + META + h2[i].size < MMAP_SIZE
      && |Unite(h2, i - 1)| > i - 1 && h2[i].size <= Unite(h2, i - 1)[i - 1].size
      && United(h, i, MergeBoth) == (Unite(h2, i - 1), i - 1) && SpanOf(i, MergeBoth) == (i - 1, i + 1)
  {
    assert BlockOK(h[i - 1], base, brk);
    assert BlockOK(h[i + 1], base, brk);
  }

  /** Carving a block does not depend on whether it has been marked used before. */
  lemma CarveMarked(h: seq<Blk>, j: nat, n: int)
    requires j < |h|
    ensures Carve(h[j := h[j].(free := false)], j, n) == Carve(h, j, n)
  {
  }

  // ----- moving to a new block

  lemma PersistConcat(h: seq<Blk>, h': seq<Blk>, m: seq<Blk>, m': seq<Blk>, but: int)
    requires Persist(h, h', but) && Persist(m, m', but)
    ensures Persist(h + m, h' + m', but)
  {
    forall b | b in h + m && !b.free && b.addr != but
      ensures b in h' + m'
    {
      assert b in h || b in m;
    }
  }

  /** A request, from either source, disturbs no block in use, and is served with a block that was not in use. */
  lemma OutcomeServes(s: State, maps: seq<Blk>, s': State, maps': seq<Blk>, base: int, n: int, limit: int, r: int)
    requires Layout(s, base) && Outcome(s, maps, s', maps', n, limit, r) && n >= 0
    requires PairwiseApart(s'.blocks + maps') && forall b :: b in s'.blocks + maps' ==> b.size >= 0
    ensures Persist(s.blocks + maps, s'.blocks + maps', 0)
    ensures r != 0 ==> Serves(s'.blocks + maps', r, n) && forall b :: b in s.blocks + maps && !b.free ==>
            b.addr != r - META
  {
    if 0 < n < MMAP_SIZE {
      MallocServes(s, s', base, n, limit, r);
    } else {
      assert Persist(s.blocks, s'.blocks, 0);
    }
    assert Persist(maps, maps', 0);
    PersistConcat(s.blocks, s'.blocks, maps, maps', 0);
    if r != 0 {
      if n >= MMAP_SIZE {
        assert maps'[|maps|] in s'.blocks + maps';
        NewAddress(s.blocks, maps, Blk(r - META, n, false));
      } else {
        ServesMore(s'.blocks, maps', r, n);
        NotMapped(s'.blocks, maps, r, n);
      }
    }
  }

  lemma ServesMore(h: seq<Blk>, m: seq<Blk>, r: int, n: int)
    requires Serves(h, r, n)
    ensures Serves(h + m, r, n)
  {
    var b :| b in h && !b.free && b.Payload() == r && n <= b.size;
    assert b in h + m;
  }

  /** Two blocks that do not overlap have different headers. */
  lemma NewAddress(h: seq<Blk>, maps: seq<Blk>, c: Blk)
    requires PairwiseApart(h + (maps + [c])) && forall b :: b in h + (maps + [c]) ==> b.size >= 0
    ensures forall b :: b in h + maps ==> b.addr != c.addr
  {
    var all := h + (maps + [c]);
    forall b | b in h + maps
      ensures b.addr != c.addr
    {
      var i :| 0 <= i < |h + maps| && (h + maps)[i] == b;
      assert all[i] == b && all[|h| + |maps|] == c;
      assert b in all && c in all;
    }
  }

  lemma NotMapped(h: seq<Blk>, maps: seq<Blk>, r: int, n: int)
    requires PairwiseApart(h + maps) && Serves(h, r, n) && forall b :: b in h + maps ==> b.size >= 0
    ensures forall b :: b in maps ==> b.addr != r - META
  {
    var c :| c in h && !c.free && c.Payload() == r && n <= c.size;
    var i :| 0 <= i < |h| && h[i] == c;
    forall b | b in maps
      ensures b.addr != r - META
    {
      var j :| 0 <= j < |maps| && maps[j] == b;
      assert (h + maps)[i] == c && (h + maps)[|h| + j] == b;
      assert b in h + maps && c in h + maps;
    }
  }

  lemma LayoutBlock(s: State, base: int, i: nat)
    requires Layout(s, base) && i < |s.blocks|
    ensures BlockOK(s.blocks[i], base, s.brk)
  {
  }

  /** When srealloc has to move, the allocation changes nothing next to the old block for the worse. */
  lemma MoveFits(s: State, s': State, base: int, n: int, limit: int, r: int, i: nat, i': nat)
    requires Layout(s, base) && Malloc(s, s', n, limit, r) && 0 < n && i < |s.blocks| && i' < |s'.blocks|
    requires PathOf(s.blocks, i, n) == Move && !s.blocks[i].free && s'.blocks[i'] == s.blocks[i] && Ordered(s'.blocks)
    ensures MergedSize(s'.blocks, i') <= MergedSize(s.blocks, i)
  {
    hide Carve, MergedSize, Layout, Ordered, Grow;
    var h, h' := s.blocks, s'.blocks;
    LayoutBlock(s, base, i);
    if NoFit(h, n) {
      GrowAway(s, base, n, limit, i);
      SamePlace(h', i, i');
    } else {
      var k :| BestFit(h, k, n) && s' == s.(blocks := Carve(h, k, n)) && r == h[k].Payload();
      CarveAway(h, k, n, i);
      SamePlace(h', if k < i then i + |h'| - |h| else i, i');
    }
  }

  /** Carving a block that is not a neighbour leaves a block's neighbourhood alone. */
  lemma CarveAway(h: seq<Blk>, k: nat, n: int, i: nat)
    requires k < |h| && i < |h| && k != i && k != i - 1 && k != i + 1
    ensures var h' := Carve(h, k, n);
      var i' := if k < i then i + |h'| - |h| else i;
      && 0 <= i' < |h'| && h'[i'] == h[i] && MergedSize(h', i') == MergedSize(h, i)
  {
    var h' := Carve(h, k, n);
    var i' := if k < i then i + |h'| - |h| else i;
    assert 0 < i ==> h'[i' - 1] == h[i - 1];
    assert i + 1 < |h| ==> h'[i' + 1] == h[i + 1];
  }

  /** Growing the heap frees nothing next to a block. */
  lemma GrowAway(s: State, base: int, n: int, limit: int, i: nat)
    requires Layout(s, base) && i + 1 < |s.blocks| && !s.blocks[i].free
    ensures var h' := Grow(s, n, limit).0.blocks;
      i < |h'| && h'[i] == s.blocks[i] && MergedSize(h', i) <= MergedSize(s.blocks, i)
  {
    assert BlockOK(s.blocks[i + 1], base, s.brk);
  }

  lemma SamePlace(h: seq<Blk>, i: nat, j: nat)
    requires Ordered(h) && i < |h| && j < |h| && h[i] == h[j] && h[i].size >= 0
    ensures i == j
  {
  }

  /** The release that follows the allocation stays within the histogram, whichever source served the request. */
  lemma OutcomeFits(s: State, maps: seq<Blk>, s': State, maps': seq<Blk>, base: int, n: int, limit: int, r: int,
                    i: nat, i': nat)
    requires Layout(s, base) && Layout(s', base) && Outcome(s, maps, s', maps', n, limit, r) && 0 < n <= MAX_REQUEST
    requires i < |s.blocks| && i' < |s'.blocks| && !s.blocks[i].free && s'.blocks[i'] == s.blocks[i]
    requires n < MMAP_SIZE ==> PathOf(s.blocks, i, n) == Move
    ensures MergedSize(s'.blocks, i') <= MergedSize(s.blocks, i)
  {
    if n < MMAP_SIZE {
      MoveFits(s, s', base, n, limit, r, i, i');
    } else {
      assert BlockOK(s.blocks[i], base, s.brk);
      SamePlace(s.blocks, i, i');
    }
  }

  /** The situation of a block `b` that srealloc has to move. */
  ghost predicate MustMove(s: State, maps: seq<Blk>, b: Blk, i: nat, n: int, limit: int) {
    && b in s.blocks + maps && !b.free && 0 < n <= MAX_REQUEST
    && (b.addr < limit ==> i < |s.blocks| && s.blocks[i] == b && MergedSize(s.blocks, i) < MMAP_SIZE)
    && (n < MMAP_SIZE ==> b.addr < limit && PathOf(s.blocks, i, n) == Move)
  }

  lemma MoveSize(s: State, maps: seq<Blk>, b: Blk, i: nat, n: int, limit: int)
    requires MustMove(s, maps, b, i, n, limit)
    ensures 0 < n <= MAX_REQUEST
  {
  }

  /** An allocation followed by the release of the old block is the moving way of srealloc. */
  lemma GoneIsDone(s: State, maps: seq<Blk>, s1: State, maps1: seq<Blk>, s': State, maps': seq<Blk>, b: Blk, i: nat,
                   n: int, limit: int, r: int)
    requires MustMove(s, maps, b, i, n, limit) && Outcome(s, maps, s1, maps1, n, limit, r)
    requires r != 0 && Gone(s1, maps1, s', maps', b, limit, r)
    ensures MoveDone(s, maps, s', maps', b, i, n, limit, r)
  {
    if n < MMAP_SIZE {
      assert Malloc(s, s1, n, limit, r);
    }
  }

  /** So is a failed allocation alone. */
  lemma FailedIsDone(s: State, maps: seq<Blk>, s': State, maps': seq<Blk>, b: Blk, i: nat, n: int, limit: int)
    requires MustMove(s, maps, b, i, n, limit) && Outcome(s, maps, s', maps', n, limit, 0)
    ensures MoveDone(s, maps, s', maps', b, i, n, limit, 0)
  {
    if n < MMAP_SIZE {
      assert Malloc(s, s', n, limit, 0) && Vacated(s', s', b, 0);
    }
  }

  // ----- the break

  /** An allocation never lowers the break: a free wilderness block is extended only by what it lacks. */
  lemma OutcomeBreak(s: State, maps: seq<Blk>, s': State, maps': seq<Blk>, base: int, n: int, limit: int, r: int)
    requires Layout(s, base) && s.brk <= limit && Outcome(s, maps, s', maps', n, limit, r) && n >= 0 && n % 8 == 0
    ensures s.brk <= s'.brk <= limit
  {
    if 0 < n < MMAP_SIZE && NoFit(s.blocks, n) {
      GrowLayout(s, base, n, limit);
    }
  }

  lemma ReallocBreak(s: State, s': State, base: int, i: nat, n: int, limit: int, r: int)
    requires Layout(s, base) && s.brk <= limit && i < |s.blocks| && Realloc(s, s', i, n, limit, r) && 0 < n < MMAP_SIZE
             && n % 8 == 0
    ensures s.brk <= s'.brk <= limit
  {
    match PathOf(s.blocks, i, n)
    case Move =>
      var s1 :| Malloc(s, s1, n, limit, r) && Vacated(s1, s', s.blocks[i], r);
      OutcomeBreak(s, [], s1, [], base, n, limit, r);
    case _ =>
  }

  /** Moving to the mmapped area never lowers the break either. */
  lemma RemappedBreak(s: State, maps: seq<Blk>, s': State, maps': seq<Blk>, b: Blk, n: int, r: int)
    requires Remapped(s, maps, s', maps', b, n, r)
    ensures s'.brk == s.brk
  {
  }
}
