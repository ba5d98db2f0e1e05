/** From pointers to values: the heap that a list of headers denotes, and what each pointer operation does to it. */
module HeapView {
  import opened Basics
  import opened Links
  import opened Histogram
  import opened Heap
  import opened HeapLaws

  function BlkOf(data: map<Ptr, Data>, p: Ptr): Blk {
    if p in data then Blk(p, data[p].size, data[p].isFree) else Blk(p, 0, false)
  }

  /** The blocks with headers at `ps`. */
  function ViewOf(ps: seq<Ptr>, data: map<Ptr, Data>): (h: seq<Blk>)
    ensures |h| == |ps|
  {
    seq(|ps|, i requires 0 <= i < |ps| => BlkOf(data, ps[i]))
  }

  /** `free` is the set of headers on the list that are marked free. */
  ghost predicate FreeIs(free: set<Ptr>, blocks: seq<Ptr>, data: map<Ptr, Data>) {
    && (forall p :: p in blocks ==> p in data)
    && (forall p :: p in free <==> p in blocks && data[p].isFree)
  }

  /** The live mmapped headers, the bounds of the area they lie in, and the byte count kept for them. */
  datatype Maps = Maps(ps: seq<Ptr>, limit: int, top: int, bytes: int)

  ghost function TotalSize(h: seq<Blk>): int {
    if h == [] then 0 else h[0].size + TotalSize(h[1..])
  }

  ghost predicate MapOK(b: Blk, limit: int, top: int) {
    !b.free && b.size >= MMAP_SIZE && limit <= b.addr && b.addr % 8 == 0 && b.End() <= top
  }

  /** Live mmapped regions lie above the sbrk area, apart from each other, and are counted. */
  ghost predicate MapsOK(m: Maps, data: map<Ptr, Data>) {
    && m.limit <= m.top
    && (forall p :: p in m.ps ==> p in data && MapOK(BlkOf(data, p), m.limit, m.top))
    && PairwiseApart(ViewOf(m.ps, data))
    && m.bytes == TotalSize(ViewOf(m.ps, data))
  }

  // ----- views under the pointer operations

  lemma ViewUpdate(ps: seq<Ptr>, data: map<Ptr, Data>, k: nat, d: Data)
    requires Distinct(ps) && k < |ps| && ps[k] in data
    ensures ViewOf(ps, data[ps[k] := d]) == ViewOf(ps, data)[k := Blk(ps[k], d.size, d.isFree)]
  {
  }

  lemma ViewRemove(ps: seq<Ptr>, data: map<Ptr, Data>, k: nat)
    requires k < |ps|
    ensures ViewOf(RemoveAt(ps, k), data) == RemoveAt(ViewOf(ps, data), k)
  {
  }

  /** A header outside the list does not show. */
  lemma ViewFrame(ps: seq<Ptr>, data: map<Ptr, Data>, data': map<Ptr, Data>)
    requires forall p :: p in ps ==> p in data && p in data' && data'[p] == data[p]
    ensures ViewOf(ps, data') == ViewOf(ps, data)
  {
    forall i | 0 <= i < |ps|
      ensures ViewOf(ps, data')[i] == ViewOf(ps, data)[i]
    {
      assert ps[i] in ps;
    }
  }

  /** Dropping the right neighbour and enlarging block `k` is a merge. */
  lemma ViewMerge(ps: seq<Ptr>, data: map<Ptr, Data>, k: nat)
    requires Distinct(ps) && k + 1 < |ps| && ps[k] in data && ps[k + 1] in data
    ensures ViewOf(RemoveAt(ps, k + 1), data[ps[k] := Data(data[ps[k]].size + data[ps[k + 1]].size + META, true)])
         == Merge(ViewOf(ps, data), k)
  {
  }

  /** Mmapped headers are not in the sbrk area. */
  lemma MapsWrite(m: Maps, data: map<Ptr, Data>, p: Ptr, d: Data)
    requires MapsOK(m, data) && p < m.limit
    ensures MapsOK(m, data[p := d]) && ViewOf(m.ps, data[p := d]) == ViewOf(m.ps, data)
  {
    forall q | q in m.ps
      ensures q != p
    {
      assert MapOK(BlkOf(data, q), m.limit, m.top);
    }
    ViewFrame(m.ps, data, data[p := d]);
  }

  /** The value side of a merge: what becomes of the list, the histogram's set, the layout and the mmapped blocks. */
  lemma MergeState(blocks: seq<Ptr>, data: map<Ptr, Data>, free: set<Ptr>, maps: Maps, s: State, base: int, k: nat)
    requires Distinct(blocks) && FreeIs(free, blocks, data) && s.blocks == ViewOf(blocks, data) && Layout(s, base)
    requires MapsOK(maps, data) && s.brk <= maps.limit
    requires Mergeable(s.blocks, k) && s.blocks[k].size + META + s.blocks[k + 1].size < MMAP_SIZE
    ensures var p, node := blocks[k], blocks[k + 1];
      var data' := data[p := Data(data[p].size + data[node].size + META, true)];
      && ViewOf(RemoveAt(blocks, k + 1), data') == Merge(s.blocks, k)
      && Layout(s.(blocks := Merge(s.blocks, k)), base)
      && FreeIs(free - {node} - {p} + {p}, RemoveAt(blocks, k + 1), data')
      && MapsOK(maps, data') && ViewOf(maps.ps, data') == ViewOf(maps.ps, data)
  {
    hide MapsOK, Distinct;
    var p, node := blocks[k], blocks[k + 1];
    assert p in blocks && node in blocks;
    var d := Data(data[p].size + data[node].size + META, true);
    ViewMerge(blocks, data, k);
    MergeLayout(s, base, k);
    MergeFree(blocks, data, free, k, d);
    assert BlockOK(s.blocks[k], base, s.brk);
    MapsWrite(maps, data, p, d);
  }

  lemma MergeFree(blocks: seq<Ptr>, data: map<Ptr, Data>, free: set<Ptr>, k: nat, d: Data)
    requires Distinct(blocks) && FreeIs(free, blocks, data) && k + 1 < |blocks| && d.isFree
    ensures FreeIs(free - {blocks[k + 1]} - {blocks[k]} + {blocks[k]}, RemoveAt(blocks, k + 1), data[blocks[k] := d])
  {
    assert blocks[k] in blocks;
    RemoveElements(blocks, k + 1);
  }

  /** The value side of marking block `k` free or used. */
  lemma MarkState(blocks: seq<Ptr>, data: map<Ptr, Data>, free: set<Ptr>, maps: Maps, s: State, base: int, k: nat,
                  flag: bool)
    requires Distinct(blocks) && FreeIs(free, blocks, data) && s.blocks == ViewOf(blocks, data) && Layout(s, base)
    requires MapsOK(maps, data) && s.brk <= maps.limit && k < |blocks|
    ensures var p := blocks[k];
      var data' := data[p := data[p].(isFree := flag)];
      && ViewOf(blocks, data') == s.blocks[k := s.blocks[k].(free := flag)]
      && Layout(s.(blocks := s.blocks[k := s.blocks[k].(free := flag)]), base)
      && FreeIs(if flag then free + {p} else free - {p}, blocks, data')
      && MapsOK(maps, data') && ViewOf(maps.ps, data') == ViewOf(maps.ps, data)
  {
    hide MapsOK, Distinct;
    var p := blocks[k];
    assert p in blocks;
    ViewUpdate(blocks, data, k, data[p].(isFree := flag));
    RelabelLayout(s, base, k, flag);
    assert BlockOK(s.blocks[k], base, s.brk);
    MapsWrite(maps, data, p, data[p].(isFree := flag));
  }

  /** The value side of a split: block `k` keeps `n` bytes, the rest becomes a free block with its header at `rest`. */
  lemma SplitState(blocks: seq<Ptr>, data: map<Ptr, Data>, free: set<Ptr>, maps: Maps, s: State, base: int, k: nat,
                   n: nat)
    requires Distinct(blocks) && FreeIs(free, blocks, data) && s.blocks == ViewOf(blocks, data) && Layout(s, base)
    requires MapsOK(maps, data) && s.brk <= maps.limit && k < |blocks|
    requires 0 < n && n + SPLIT <= s.blocks[k].size && n % 8 == 0
    ensures var p := blocks[k];
      var rest := p + META + n;
      var data' := data[rest := Data(data[p].size - n - META, true)][p := Data(n, false)];
      && rest !in blocks && 0 < rest
      && ViewOf(InsertAt(blocks, k + 1, rest), data') == Carve(s.blocks, k, n)
      && Layout(s.(blocks := Carve(s.blocks, k, n)), base)
      && FreeIs(free + {rest} - {p}, InsertAt(blocks, k + 1, rest), data')
      && MapsOK(maps, data') && ViewOf(maps.ps, data') == ViewOf(maps.ps, data)
  {
    hide MapsOK, Distinct, Carve;
    var p := blocks[k];
    var rest := p + META + n;
    var data' := data[rest := Data(data[p].size - n - META, true)][p := Data(n, false)];
    assert p in blocks;
    assert BlockOK(s.blocks[k], base, s.brk);
    SplitFresh(blocks, data, s, base, k, n);
    SplitView(blocks, data, k, n);
    SplitLayout(s, base, k, n);
    SplitFree(blocks, data, free, k, n);
    var d := Data(data[p].size - n - META, true);
    MapsWrite(maps, data, rest, d);
    MapsWrite(maps, data[rest := d], p, Data(n, false));
  }

  /** The new header lies strictly inside block `k`, hence is none of the list's headers. */
  lemma SplitFresh(blocks: seq<Ptr>, data: map<Ptr, Data>, s: State, base: int, k: nat, n: nat)
    requires s.blocks == ViewOf(blocks, data) && Layout(s, base) && k < |blocks| && n + SPLIT <= s.blocks[k].size
    ensures blocks[k] + META + n !in blocks
  {
    forall j | 0 <= j < |blocks|
      ensures blocks[j] != blocks[k] + META + n
    {
      assert BlockOK(s.blocks[j], base, s.brk);
      assert s.blocks[j].addr == blocks[j] && s.blocks[k].addr == blocks[k];
    }
  }

  lemma SplitView(blocks: seq<Ptr>, data: map<Ptr, Data>, k: nat, n: nat)
    requires Distinct(blocks) && k < |blocks| && blocks[k] in data && n + SPLIT <= data[blocks[k]].size
    requires blocks[k] + META + n !in blocks
    ensures var p := blocks[k];
      var rest := p + META + n;
      ViewOf(InsertAt(blocks, k + 1, rest), data[rest := Data(data[p].size - n - META, true)][p := Data(n, false)])
      == Carve(ViewOf(blocks, data), k, n)
  {
  }

  lemma SplitFree(blocks: seq<Ptr>, data: map<Ptr, Data>, free: set<Ptr>, k: nat, n: nat)
    requires Distinct(blocks) && FreeIs(free, blocks, data) && k < |blocks| && blocks[k] in data
             && n + SPLIT <= data[blocks[k]].size
    requires blocks[k] + META + n !in blocks
    ensures var p := blocks[k];
      var rest := p + META + n;
      FreeIs(free + {rest} - {p}, InsertAt(blocks, k + 1, rest),
        data[rest := Data(data[p].size - n - META, true)][p := Data(n, false)])
  {
    assert blocks[k] in blocks;
    InsertElements(blocks, k + 1, blocks[k] + META + n);
  }

  /** The value side of growing the free wilderness block to `n` bytes. */
  lemma ExtendState(blocks: seq<Ptr>, data: map<Ptr, Data>, free: set<Ptr>, maps: Maps, s: State, base: int, n: nat)
    requires Distinct(blocks) && FreeIs(free, blocks, data) && s.blocks == ViewOf(blocks, data) && Layout(s, base)
    requires MapsOK(maps, data) && s.brk <= maps.limit && blocks != []
    requires s.blocks[|blocks| - 1].size <= n < MMAP_SIZE && n % 8 == 0
    ensures var last := |blocks| - 1;
      var p := blocks[last];
      var data' := data[p := Data(n, false)];
      var h' := s.blocks[last := Blk(p, n, false)];
      && ViewOf(blocks, data') == h'
      && Layout(State(h', s.brk + n - s.blocks[last].size, s.orphans), base)
      && FreeIs(free - {p}, blocks, data')
      && MapsOK(maps, data') && ViewOf(maps.ps, data') == ViewOf(maps.ps, data)
  {
    hide MapsOK, Distinct;
    var last := |blocks| - 1;
    var p := blocks[last];
    assert p in blocks;
    ViewUpdate(blocks, data, last, Data(n, false));
    assert BlockOK(s.blocks[last], base, s.brk);
    ResizeLastLayout(s, base, n);
    MapsWrite(maps, data, p, Data(n, false));
  }

  lemma GrowExtends(s: State, n: int, limit: int)
    requires s.blocks != [] && s.blocks[|s.blocks| - 1].free
    ensures var last := |s.blocks| - 1;
      var b := s.blocks[last];
      Grow(s, n, limit) == if limit < s.brk + n - b.size then (s, NULL)
                           else (State(s.blocks[last := Blk(b.addr, n, false)], s.brk + n - b.size, s.orphans),
                                b.addr + META)
  {
  }

  lemma GrowAppends(s: State, n: int, limit: int)
    requires s.blocks != [] ==> !s.blocks[|s.blocks| - 1].free
    ensures Grow(s, n, limit) == if limit < s.brk + META then (s, NULL)
                                 else if limit < s.brk + META + n
                                         then (State(s.blocks, s.brk + META, s.orphans + 1), NULL)
                                 else (State(s.blocks + [Blk(s.brk, n, false)], s.brk + META + n, s.orphans),
                                      s.brk + META)
  {
  }

  /** The value side of a new header at the break. */
  lemma BreakState(blocks: seq<Ptr>, data: map<Ptr, Data>, free: set<Ptr>, maps: Maps, s: State, base: int, n: nat)
    requires Distinct(blocks) && FreeIs(free, blocks, data) && s.blocks == ViewOf(blocks, data) && Layout(s, base)
    requires MapsOK(maps, data) && s.brk + META <= maps.limit && 0 < n < MMAP_SIZE && n % 8 == 0
    ensures var data' := data[s.brk := Data(n, false)];
      && 0 < s.brk && s.brk !in blocks
      && MapsOK(maps, data') && ViewOf(maps.ps, data') == ViewOf(maps.ps, data)
      && FreeIs(free, blocks, data') && ViewOf(blocks, data') == s.blocks
      && Layout(State(s.blocks, s.brk + META, s.orphans + 1), base)
      && FreeIs(free, InsertAt(blocks, |blocks|, s.brk), data')
      && ViewOf(InsertAt(blocks, |blocks|, s.brk), data') == s.blocks + [Blk(s.brk, n, false)]
      && Layout(State(s.blocks + [Blk(s.brk, n, false)], s.brk + META + n, s.orphans), base)
  {
    hide MapsOK, Distinct;
    var data' := data[s.brk := Data(n, false)];
    forall i | 0 <= i < |blocks|
      ensures blocks[i] < s.brk
    {
      assert BlockOK(s.blocks[i], base, s.brk);
      assert s.blocks[i].addr == blocks[i];
    }
    ExtentPositive(s.blocks, base, s.brk);
    MapsWrite(maps, data, s.brk, Data(n, false));
    ViewFrame(blocks, data, data');
    AppendLayout(s, base, n);
    BlocksRaise(s.blocks, base, s.brk, s.brk + META);
    assert InsertAt(blocks, |blocks|, s.brk) == blocks + [s.brk];
  }

  lemma FreeSame(free: set<Ptr>, free': set<Ptr>, blocks: seq<Ptr>, data: map<Ptr, Data>)
    requires FreeIs(free, blocks, data) && forall q :: q in free <==> q in free'
    ensures FreeIs(free', blocks, data)
  {
  }

  // ----- mmapped blocks

  lemma {:induction false} ExtentTotal(h: seq<Blk>)
    ensures Extent(h) == TotalSize(h) + META * |h|
  {
    if h != [] {
      ExtentTotal(h[1..]);
    }
  }

  lemma {:induction false} TotalConcat(a: seq<Blk>, b: seq<Blk>)
    ensures TotalSize(a + b) == TotalSize(a) + TotalSize(b)
  {
    if a == [] {
      assert a + b == b;
    } else {
      assert (a + b)[1..] == a[1..] + b;
      TotalConcat(a[1..], b);
    }
  }

  lemma TotalOne(b: Blk)
    ensures TotalSize([b]) == b.size
  {
    assert [b][1..] == [];
  }

  /** A new region beyond the ones in use. */
  lemma MapAdded(m: Maps, data: map<Ptr, Data>, p: Ptr, n: nat)
    requires MapsOK(m, data) && m.top <= p && p % 8 == 0 && n >= MMAP_SIZE
    ensures var data' := data[p := Data(n, false)];
      && MapsOK(Maps(m.ps + [p], m.limit, p + META + n, m.bytes + n), data')
      && ViewOf(m.ps + [p], data') == ViewOf(m.ps, data) + [Blk(p, n, false)]
  {
    hide PairwiseApart, TotalSize;
    var data' := data[p := Data(n, false)];
    forall q | q in m.ps
      ensures q < p && data'[q] == data[q]
    {
      assert MapOK(BlkOf(data, q), m.limit, m.top);
    }
    ViewFrame(m.ps, data, data');
    assert ViewOf(m.ps + [p], data') == ViewOf(m.ps, data) + [Blk(p, n, false)];
    TotalConcat(ViewOf(m.ps, data), [Blk(p, n, false)]);
    TotalOne(Blk(p, n, false));
    ApartAdded(m, data, Blk(p, n, false));
  }

  lemma ApartAdded(m: Maps, data: map<Ptr, Data>, b: Blk)
    requires MapsOK(m, data) && m.top <= b.addr
    ensures PairwiseApart(ViewOf(m.ps, data) + [b])
  {
    forall i | 0 <= i < |m.ps|
      ensures ViewOf(m.ps, data)[i].End() <= b.addr
    {
      assert m.ps[i] in m.ps;
    }
  }

  lemma {:induction false} TotalRemove(h: seq<Blk>, k: nat)
    requires k < |h|
    ensures TotalSize(RemoveAt(h, k)) == TotalSize(h) - h[k].size
  {
    if k == 0 {
      assert RemoveAt(h, 0) == h[1..];
    } else {
      TotalRemove(h[1..], k - 1);
      assert RemoveAt(h, k)[0] == h[0] && RemoveAt(h, k)[1..] == RemoveAt(h[1..], k - 1);
    }
  }

  lemma ApartRemove(h: seq<Blk>, k: nat)
    requires PairwiseApart(h) && k < |h|
    ensures PairwiseApart(RemoveAt(h, k))
  {
    var t := RemoveAt(h, k);
    assert forall i :: 0 <= i < |t| ==> t[i] == h[if i < k then i else i + 1];
  }

  lemma MapRemoved(m: Maps, data: map<Ptr, Data>, k: nat)
    requires MapsOK(m, data) && k < |m.ps|
    ensures m.ps[k] in data
    ensures MapsOK(Maps(RemoveAt(m.ps, k), m.limit, m.top, m.bytes - data[m.ps[k]].size), data)
    ensures ViewOf(RemoveAt(m.ps, k), data) == RemoveAt(ViewOf(m.ps, data), k)
  {
    hide PairwiseApart, TotalSize;
    assert m.ps[k] in m.ps;
    ViewRemove(m.ps, data, k);
    TotalRemove(ViewOf(m.ps, data), k);
    ApartRemove(ViewOf(m.ps, data), k);
  }

  /** Headers above the limit do not show in the heap. */
  lemma AboveHeap(blocks: seq<Ptr>, data: map<Ptr, Data>, free: set<Ptr>, s: State, base: int, limit: int, p: Ptr,
                  d: Data)
    requires FreeIs(free, blocks, data) && s.blocks == ViewOf(blocks, data) && Layout(s, base) && s.brk <= limit <= p
    ensures p !in blocks && p !in free
    ensures FreeIs(free, blocks, data[p := d]) && ViewOf(blocks, data[p := d]) == s.blocks
  {
    forall i | 0 <= i < |blocks|
      ensures blocks[i] < p
    {
      assert BlockOK(s.blocks[i], base, s.brk);
      assert s.blocks[i].addr == blocks[i];
    }
    ViewFrame(blocks, data, data[p := d]);
  }
}
