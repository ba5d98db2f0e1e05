/** The first-fit allocator: blocks are never split or merged, the free ones are on a list sorted by address. */
module FirstFit {
  import opened Basics
  import opened Links

  const META: int := 32            // sizeof(MallocMetadata)

  datatype Header = Header(size: int, isFree: bool)

  // ----- the heap as a value

  datatype Block = Block(addr: int, size: int, free: bool) {
    function Payload(): int { addr + META }
    function End(): int { addr + META + size }
  }

  /** `orphans` headers, for `lost` bytes, whose payload could not be obtained. */
  datatype State = State(blocks: seq<Block>, brk: int, orphans: nat, lost: int)

  predicate Fits(b: Block, n: int) { b.free && n <= b.size }

  /** The first free block of at least `n` bytes, or the number of blocks. */
  function FirstFit(h: seq<Block>, n: int): (k: nat)
    ensures k <= |h|
  {
    if h == [] || Fits(h[0], n) then 0 else 1 + FirstFit(h[1..], n)
  }

  lemma {:induction false} FirstFitIs(h: seq<Block>, n: int, k: nat)
    ensures k == FirstFit(h, n) <==>
              k <= |h| && (forall i :: 0 <= i < k ==> !Fits(h[i], n)) && (k < |h| ==> Fits(h[k], n))
  {
    if h != [] && !Fits(h[0], n) && k > 0 {
      FirstFitIs(h[1..], n, k - 1);
      assert forall i :: 0 <= i < |h| - 1 ==> h[1..][i] == h[i + 1];
      assert k <= |h| ==> forall i :: 0 <= i < k - 1 ==> h[1..][i] == h[i + 1];
      assert forall i :: 0 < i < |h| ==> h[i] == h[1..][i - 1];
    }
  }

  /** The header of a new block can still be obtained, but not its payload. */
  predicate Strands(s: State, n: int, limit: int) {
    0 < n <= MAX_REQUEST && FirstFit(s.blocks, n) == |s.blocks| && s.brk + META <= limit < s.brk + META + n
  }

  function Malloc(s: State, n: int, limit: int): (State, int) {
    var k := FirstFit(s.blocks, n);
    if n == 0 || n > MAX_REQUEST then (s, 0)
    else if k < |s.blocks| then (s.(blocks := s.blocks[k := s.blocks[k].(free := false)]), s.blocks[k].Payload())
    else if limit < s.brk + META then (s, 0)
    else if limit < s.brk + META + n then (State(s.blocks, s.brk + META, s.orphans + 1, s.lost + n), 0)
    else (s.(blocks := s.blocks + [Block(s.brk, n, false)], brk := s.brk + META + n), s.brk + META)
  }

  function Free(s: State, i: nat): State
    requires i < |s.blocks|
  {
    s.(blocks := s.blocks[i := s.blocks[i].(free := true)])
  }

  function Realloc(s: State, i: nat, n: int, limit: int): (State, int)
    requires i < |s.blocks|
  {
    if n == 0 || n > MAX_REQUEST then (s, 0)
    else if n <= s.blocks[i].size then (s, s.blocks[i].Payload())
    else
      var (s', r) := Malloc(s, n, limit);
      if r == 0 || |s'.blocks| <= i then (s', r) else (Free(s', i), r)
  }

  // ----- what the calls promise, in sizes and addresses of blocks

  ghost predicate SomeFits(h: seq<Block>, n: int) {
    exists i :: 0 <= i < |h| && h[i].free && n <= h[i].size
  }

  /** A request can be served by a free block, or by a new one at the break. */
  ghost predicate Servable(s: State, n: int, limit: int) {
    0 < n <= MAX_REQUEST && (SomeFits(s.blocks, n) || s.brk + META + n <= limit)
  }

  lemma SomeFitsIs(h: seq<Block>, n: int)
    ensures SomeFits(h, n) <==> FirstFit(h, n) < |h|
  {
    hide FirstFit;
    var k := FirstFit(h, n);
    FirstFitIs(h, n, k);
    assert k == |h| ==> forall i :: 0 <= i < |h| ==> !Fits(h[i], n);
  }

  /** Block `k` is the lowest one that fits, and it has been handed out. */
  ghost predicate LowestTaken(h: seq<Block>, h': seq<Block>, k: int, n: int, r: int) {
    && 0 <= k < |h| && h[k].free && n <= h[k].size && (forall i :: 0 <= i < k ==> !h[i].free || h[i].size < n)
    && r == h[k].addr + META && h' == h[k := Block(h[k].addr, h[k].size, false)]
  }

  /** A request succeeds exactly when a block fits or there is room. It gets the lowest block that fits, without moving
    * the break, else a new block at the break; a failing one leaves the blocks as they are. */
  lemma MallocPromises(s: State, s': State, n: int, limit: int, r: int)
    requires (s', r) == Malloc(s, n, limit) && Separate(s.blocks, s.brk)
    ensures 0 <= n ==> (r != 0 <==> Servable(s, n, limit))
    ensures 0 < n <= MAX_REQUEST && SomeFits(s.blocks, n) ==>
              s'.brk == s.brk && exists k :: LowestTaken(s.blocks, s'.blocks, k, n, r)
    ensures r != 0 && !SomeFits(s.blocks, n) ==>
              && r == s.brk + META && s'.brk == s.brk + META + n
              && s'.blocks == s.blocks + [Block(s.brk, n, false)]
    ensures r == 0 ==> s'.blocks == s.blocks
  {
    hide FirstFit, SomeFits;
    var k := FirstFit(s.blocks, n);
    SomeFitsIs(s.blocks, n);
    FirstFitIs(s.blocks, n, k);
    if 0 < n <= MAX_REQUEST && k < |s.blocks| {
      assert LowestTaken(s.blocks, s'.blocks, k, n, r);
    }
  }

  /** srealloc of a block that is too small: it succeeds exactly when a request does, and then another block is in use
    * at
    * the new place, the old one is free where it was, and all others are as before. */
  lemma ReallocPromises(s: State, s': State, i: nat, n: int, limit: int, r: int)
    requires i < |s.blocks| && !s.blocks[i].free && (s', r) == Realloc(s, i, n, limit) && Separate(s.blocks, s.brk)
    requires s.blocks[i].size < n
    ensures 0 <= n ==> (r != 0 <==> Servable(s, n, limit))
    ensures r == 0 ==> s'.blocks == s.blocks
    ensures r != 0 ==> Moved(s.blocks, s'.blocks, i, n, r)
    ensures SomeFits(s.blocks, n) && 0 < n <= MAX_REQUEST ==> s'.brk == s.brk
  {
    hide FirstFit, SomeFits;
    if n > MAX_REQUEST || n == 0 {
      return;
    }
    var (s1, r1) := Malloc(s, n, limit);
    MallocPromises(s, s1, n, limit, r1);
    if r != 0 {
      SomeFitsIs(s.blocks, n);
      var k := FirstFit(s.blocks, n);
      FirstFitIs(s.blocks, n, k);
      assert Relocated(s.blocks, s'.blocks, i, k, n, r);
    }
  }

  /** Block `k`, which was free or is new, is in use for `n` bytes at `r`, block `i` is free, and nothing else is
    * different. */
  ghost predicate Relocated(h: seq<Block>, h': seq<Block>, i: nat, k: int, n: int, r: int)
    requires i < |h|
  {
    && 0 <= k < |h'| && k != i && |h| <= |h'| <= |h| + 1 && (if k < |h| then h[k].free else k == |h|)
    && (|h'| == |h| <==> k < |h|)
    && !h'[k].free && h'[k].addr + META == r && n <= h'[k].size
    && h'[i] == Block(h[i].addr, h[i].size, true)
    && forall j :: 0 <= j < |h| && j != i && j != k ==> h'[j] == h[j]
  }

  ghost predicate Moved(h: seq<Block>, h': seq<Block>, i: nat, n: int, r: int)
    requires i < |h|
  {
    exists k :: Relocated(h, h', i, k, n, r)
  }

  /** One that is large enough stays as it is. */
  lemma ReallocStays(s: State, s': State, i: nat, n: int, limit: int, r: int)
    requires i < |s.blocks| && (s', r) == Realloc(s, i, n, limit) && n <= s.blocks[i].size
    ensures s' == s && r == if 0 < n <= MAX_REQUEST || n < 0 then s.blocks[i].addr + META else 0
  {
  }

  // ----- headers in memory

  function EndOf(data: map<Ptr, Header>, p: Ptr): int
    requires p in data
  {
    p + META + data[p].size
  }

  /** The blocks `ps` follow each other between `base` and `brk`. */
  ghost predicate LaidOut(ps: seq<Ptr>, data: map<Ptr, Header>, base: int, brk: int) {
    && 0 < base <= brk
    && (forall i :: 0 <= i < |ps| ==>
          ps[i] in data && base <= ps[i] && 0 < data[ps[i]].size <= MAX_REQUEST && EndOf(data, ps[i]) <= brk)
    && (forall i, j :: 0 <= i < j < |ps| ==> EndOf(data, ps[i]) <= ps[j])
  }

  ghost predicate Ascending(s: seq<Ptr>) {
    forall i, j :: 0 <= i < j < |s| ==> s[i] < s[j]
  }

  /** The list `free` holds exactly the free ones of the blocks `ps`, by address. */
  ghost predicate FreeListed(free: seq<Ptr>, ps: seq<Ptr>, data: map<Ptr, Header>) {
    && Ascending(free)
    && (forall p :: p in free <==> p in ps && p in data && data[p].isFree)
  }

  ghost predicate Within(s: seq<Ptr>, t: seq<Ptr>) {
    forall p :: p in s ==> p in t
  }

  function Total(data: map<Ptr, Header>, ps: seq<Ptr>): int {
    if ps == [] then 0 else (if ps[0] in data then data[ps[0]].size else 0) + Total(data, ps[1..])
  }

  ghost function ViewOf(ps: seq<Ptr>, data: map<Ptr, Header>): (h: seq<Block>)
    ensures |h| == |ps|
  {
    seq(|ps|, i requires 0 <= i < |ps| =>
      if ps[i] in data then Block(ps[i], data[ps[i]].size, data[ps[i]].isFree) else Block(ps[i], 0, false))
  }

  /** Only bytes of headers at `ps` differ. */
  ghost predicate HeadersOnly(m: Mem, m': Mem, ps: seq<Ptr>) {
    forall x :: (forall p :: p in ps ==> !(p <= x < p + META)) ==> m'(x) == m(x)
  }

  /** Address `x` lies in the payload of a block in use other than the one at `but`. */
  ghost predicate Held(h: seq<Block>, x: int, but: Ptr) {
    exists i :: 0 <= i < |h| && h[i].addr != but && !h[i].free && h[i].Payload() <= x < h[i].End()
  }

  ghost predicate Kept(m: Mem, m': Mem, h: seq<Block>, but: Ptr) {
    forall x :: Held(h, x, but) ==> m'(x) == m(x)
  }

  class Allocator {
    const base: int
    const limit: int           // sbrk fails when the break would pass this address

    var mem: Mem
    var data: map<Ptr, Header>
    var link: map<Ptr, Link>
    var brk: int

    var freeList: Ptr
    var freeBlocks: int        // free_blocks_num
    var freeBytes: int         // free_bytes_num
    var numMeta: int           // num_of_metadatas
    var numBlocks: int         // num_allocated_blocks
    var numBytes: int          // num_allocated_bytes

    ghost var blocks: seq<Ptr>
    ghost var free: seq<Ptr>   // the free list
    ghost var orphans: nat
    ghost var lost: int

    ghost predicate ListOK()
      reads this
    {
      Chain(link, free) && freeList == At(free, 0) && FreeListed(free, blocks, data)
    }

    /** The counters equal a recount over all headers. */
    ghost predicate Counts()
      reads this
    {
      && freeBlocks == |free| && freeBytes == Total(data, free)
      && numMeta == numBlocks == |blocks| + orphans && numBytes == Total(data, blocks) + lost
      && orphans <= lost && (orphans == 0 ==> lost == 0)
    }

    ghost predicate Valid()
      reads this
    {
      LaidOut(blocks, data, base, brk) && brk <= limit && ListOK() && Counts()
    }

    ghost function View(): (h: seq<Block>)
      reads this
      ensures |h| == |blocks|
    {
      ViewOf(blocks, data)
    }

    ghost function Sys(): State
      reads this
    {
      State(View(), brk, orphans, lost)
    }

    constructor (start: int, ceiling: int, memory: Mem)
      requires 0 < start <= ceiling
      ensures Valid() && Sys() == State([], start, 0, 0) && base == start && limit == ceiling
    {
      base, limit, brk := start, ceiling, start;
      mem, data, link := memory, map[], map[];
      freeList, freeBlocks, freeBytes, numMeta, numBlocks, numBytes := NULL, 0, 0, 0, 0, 0;
      blocks, free, orphans, lost := [], [], 0, 0;
    }

    /** The free counters equal a recount over the blocks of the heap; the
      * others do exactly while no header has been orphaned. */
    lemma CountersRecount()
      requires Valid()
      ensures freeBlocks == FreeCount(View()) && freeBytes == FreeSize(View())
      ensures numMeta == numBlocks
      ensures orphans == 0 <==> numBlocks == |View()|
      ensures orphans == 0 <==> numBytes == AllSize(View())
    {
      Recount(free, blocks, data, base, brk);
    }

    // ----- header fields: a write may change all bytes of the header

    method SetLink(p: Ptr, l: Link, ghost ps: seq<Ptr>)
      requires p in ps
      modifies `link, `mem
      ensures link == old(link)[p := l] && HeadersOnly(old(mem), mem, ps)
    {
      link := link[p := l];
      Clobber(p, ps);
    }

    method SetData(p: Ptr, d: Header, ghost ps: seq<Ptr>)
      requires p in ps
      modifies `data, `mem
      ensures data == old(data)[p := d] && HeadersOnly(old(mem), mem, ps)
    {
      data := data[p := d];
      Clobber(p, ps);
    }

    method Clobber(p: Ptr, ghost ps: seq<Ptr>)
      requires p in ps
      modifies `mem
      ensures HeadersOnly(old(mem), mem, ps)
    {
      var m := mem;
      mem := x => if p <= x < p + META then 0 else m(x);
    }

    // ----- the free list

    /** remove_node of `p`, at position `j`. */
    method RemoveNode(p: Ptr, ghost j: nat)
      requires Chain(link, free) && freeList == At(free, 0) && j < |free| && free[j] == p
      requires Within(free, blocks)
      modifies `link, `freeList, `free, `mem
      ensures free == RemoveAt(old(free), j) && Chain(link, free) && freeList == At(free, 0)
      ensures HeadersOnly(old(mem), mem, blocks)
    {
      hide HeadersOnly;
      assert LinkedAt(link, free, j);
      var prev := link[p].prev;
      var next := link[p].next;
      ghost var m := mem;
      assert next != NULL ==> next in free;
      assert prev != NULL ==> prev in free;
      OnlyNow(mem, blocks);
      if prev == NULL {
        freeList := next;
        if next != NULL {
          SetLink(next, link[next].(prev := NULL), blocks);
        }
      } else {
        SetLink(prev, link[prev].(next := next), blocks);
        if next != NULL {
          ghost var m' := mem;
          SetLink(next, link[next].(prev := prev), blocks);
          OnlyTrans(m, m', mem, blocks);
        }
      }
      ghost var m'' := mem;
      SetLink(p, Link(NULL, NULL), blocks);
      OnlyTrans(m, m'', mem, blocks);
      ChainRemove(old(link), link, free, j);
      free := RemoveAt(free, j);
    }

    /** add_node of `n` after `prev`, that is before position `j`. */
    method AddNode(n: Ptr, prev: Ptr, ghost j: nat)
      requires Chain(link, free) && freeList == At(free, 0) && j <= |free| && n !in free && n != NULL
               && prev == At(free, j - 1)
      requires n in blocks && Within(free, blocks)
      modifies `link, `freeList, `free, `mem
      ensures free == InsertAt(old(free), j, n) && Chain(link, free) && freeList == At(free, 0)
      ensures HeadersOnly(old(mem), mem, blocks)
    {
      hide HeadersOnly;
      ghost var m := mem;
      assert j > 0 ==> LinkedAt(link, free, j - 1) && free[j - 1] in free;
      assert j < |free| ==> LinkedAt(link, free, j) && free[j] in free;
      if prev == NULL {
        SetLink(n, Link(freeList, NULL), blocks);
        if freeList != NULL {
          ghost var m' := mem;
          SetLink(freeList, link[freeList].(prev := n), blocks);
          OnlyTrans(m, m', mem, blocks);
        }
        freeList := n;
      } else {
        var next := link[prev].next;
        SetLink(prev, link[prev].(next := n), blocks);
        ghost var m' := mem;
        SetLink(n, Link(next, prev), blocks);
        OnlyTrans(m, m', mem, blocks);
        if next != NULL {
          ghost var m'' := mem;
          SetLink(next, link[next].(prev := n), blocks);
          OnlyTrans(m, m'', mem, blocks);
        }
      }
      ChainInsert(old(link), link, free, j, n);
      free := InsertAt(free, j, n);
    }

    // ----- smalloc

    /** The first block on the free list with room for `size` bytes, at
      * position `j`, is the first one that fits in the heap. */
    method FindFirst(size: int) returns (current: Ptr, ghost j: nat)
      requires Valid()
      ensures j <= |free| && current == At(free, j) && (current != NULL ==> freeList != NULL)
      ensures var k := FirstFit(View(), size); if k < |blocks| then j < |free| && current == blocks[k] != NULL
              else current == NULL
    {
      hide Total, LaidOut, Counts;
      current, j := freeList, 0;
      while current != NULL
        invariant j <= |free| && current == At(free, j) && (current != NULL ==> freeList != NULL)
        invariant forall i :: 0 <= i < j ==> data[free[i]].size < size
        decreases |free| - j
      {
        assert current in free;
        if data[current].size >= size {
          break;
        }
        assert LinkedAt(link, free, j);
        current := link[current].next;
        j := j + 1;
      }
      FirstOnList(free, blocks, data, base, brk, size, j);
    }

    method Sbrk(inc: int) returns (r: int)
      modifies `brk
      ensures if limit < old(brk) + inc then r == -1 && brk == old(brk) else r == old(brk) && brk == old(brk) + inc
    {
      if limit < brk + inc {
        return -1;
      }
      r := brk;
      brk := brk + inc;
    }

    /** create_metadata_sbrk: a header at the break, or NULL. */
    method CreateMetadata(size: int) returns (p: Ptr)
      requires 0 < brk
      modifies `brk, `data, `link, `mem, `numMeta, `numBlocks, `numBytes
      ensures if limit < old(brk) + META then
                && p == NULL && brk == old(brk) && data == old(data) && link == old(link) && mem == old(mem)
                && numMeta == old(numMeta) && numBlocks == old(numBlocks) && numBytes == old(numBytes)
              else
                && p == old(brk) && brk == old(brk) + META && data == old(data)[p := Header(size, false)]
                && link == old(link)[p := Link(NULL, NULL)] && HeadersOnly(old(mem), mem, [p])
                && numMeta == old(numMeta) + 1 && numBlocks == old(numBlocks) + 1 && numBytes == old(numBytes) + size
    {
      p := Sbrk(META);
      if p == -1 {
        return NULL;
      }
      SetData(p, Header(size, false), [p]);
      SetLink(p, Link(NULL, NULL), [p]);
      numMeta := numMeta + 1;
      numBlocks := numBlocks + 1;
      numBytes := numBytes + size;
    }

    method Smalloc(size: Size) returns (r: Ptr)
      requires Valid()
      modifies this
      ensures Valid()
      ensures (Sys(), r) == Malloc(old(Sys()), size, limit)
      ensures r != NULL <==> Servable(old(Sys()), size, limit)
      ensures Kept(old(mem), mem, old(View()), NULL)
    {
      hide Total, FirstFit, Kept, ListOK, Counts, LaidOut, ViewOf, Servable;
      KeptNow(mem, View());
      Layout();
      MallocPromises(Sys(), Malloc(Sys(), size, limit).0, size, limit, Malloc(Sys(), size, limit).1);
      if size == 0 || size > MAX_REQUEST {
        return NULL;
      }
      ghost var j;
      var current;
      current, j := FindFirst(size);
      if freeList == NULL || current == NULL {
        r := Append(size);
      } else {
        r := Take(current, FirstFit(View(), size), j);
      }
    }

    /** Take the free block `current`, block `k` of the heap, off position `j` of the list. */
    method Take(current: Ptr, ghost k: nat, ghost j: nat) returns (r: Ptr)
      requires Valid() && k < |blocks| && current == blocks[k] && j < |free| && free[j] == current
      modifies `data, `link, `freeList, `free, `mem, `freeBlocks, `freeBytes
      ensures Valid()
      ensures View() == old(View())[k := old(View())[k].(free := false)] && r == old(View())[k].Payload()
      ensures Kept(old(mem), mem, old(View()), NULL)
    {
      hide HeadersOnly, Total, Kept, Chain, LaidOut, FreeListed, ViewOf, Within;
      BlockAt(k);
      FreeFacts(current);
      ghost var m := mem;
      SetData(current, data[current].(isFree := false), blocks);
      ghost var m' := mem;
      RemoveNode(current, j);
      OnlyTrans(m, m', mem, blocks);
      freeBytes := freeBytes - data[current].size;
      freeBlocks := freeBlocks - 1;
      r := current + META;
      Relabelled(old(data), data, blocks, base, brk, k, false, old(free));
      FreeRemove(old(free), blocks, old(data), data, j);
      TotalRemove(data, old(free), j);
      HeadersKept(m, mem, blocks, old(data), base, brk);
    }

    /** Nothing fits: a new block at the break.  When its payload cannot be obtained, the header is left behind. */
    method Append(size: int) returns (r: Ptr)
      requires Valid() && 0 < size <= MAX_REQUEST
      modifies `data, `link, `mem, `brk, `blocks, `orphans, `lost, `numMeta, `numBlocks, `numBytes
      ensures Valid()
      ensures if limit < old(brk) + META then Sys() == old(Sys()) && r == NULL
              else if limit < old(brk) + META + size then
                Sys() == State(old(View()), old(brk) + META, old(orphans) + 1, old(lost) + size) && r == NULL
              else
                && r == old(brk) + META
                && Sys() == State(old(View()) + [Block(old(brk), size, false)], old(brk) + META + size, old(orphans),
                   old(lost))
      ensures Kept(old(mem), mem, old(View()), NULL)
    {
      hide HeadersOnly, Total, Kept, Chain, LaidOut, FreeListed, ViewOf;
      KeptNow(mem, View());
      BaseBelow();
      var p := CreateMetadata(size);
      if p == NULL {
        return NULL;
      }
      AppendLaidOut(old(data), data, blocks, base, p, size);
      AppendFree(old(data), data, old(link), link, blocks, free, base, p, size);
      AppendView(old(data), data, blocks, base, p, size);
      AppendKept(old(mem), mem, blocks, old(data), base, p);
      r := Sbrk(size);
      if r == -1 {
        orphans, lost := orphans + 1, lost + size;
        return NULL;
      }
      blocks := blocks + [p];
    }

    // ----- sfree

    /** The block at `p`, which must be one of the heap, is free afterwards, whether it was before or not. */
    method Sfree(p: Ptr)
      requires Valid() && (p != NULL ==> p - META in blocks)
      modifies this
      ensures Valid()
      ensures p == NULL ==> View() == old(View())
      ensures p != NULL ==>
                View() == old(View())[Idx(old(blocks), p - META) := Block(p - META, old(data)[p - META].size, true)]
      ensures brk == old(brk) && blocks == old(blocks)
      ensures var released := p != NULL && !old(data)[p - META].isFree;
        && freeBlocks == old(freeBlocks) + (if released then 1 else 0)
        && freeBytes == old(freeBytes) + if released then old(data)[p - META].size else 0
      ensures Sys() == if p == NULL then old(Sys()) else Free(old(Sys()), Idx(old(blocks), p - META))
      ensures Kept(old(mem), mem, old(View()), NULL)
    {
      hide Total, Kept, Chain;
      KeptNow(mem, View());
      if p == NULL {
        return;
      }
      var n := p - META;
      ghost var k := Idx(blocks, n);
      if data[n].isFree {
        assert View()[k := View()[k].(free := true)] == View();
        return;
      }
      Put(n, k);
    }

    method Put(n: Ptr, ghost k: nat)
      requires Valid() && k < |blocks| && blocks[k] == n && !data[n].isFree
      modifies `data, `link, `freeList, `free, `mem, `freeBlocks, `freeBytes
      ensures Valid()
      ensures View() == old(View())[k := old(View())[k].(free := true)]
      ensures freeBlocks == old(freeBlocks) + 1 && freeBytes == old(freeBytes) + old(data)[n].size
      ensures Kept(old(mem), mem, old(View()), NULL)
    {
      hide HeadersOnly, Total, Kept, Chain, LaidOut, FreeListed, ViewOf, Within, InsertAt, At;
      BlockAt(k);
      FreeFacts(n);
      ghost var j;
      var prev;
      prev, j := FindPlace(n);
      freeBlocks := freeBlocks + 1;
      freeBytes := freeBytes + data[n].size;
      ghost var m := mem;
      SetData(n, data[n].(isFree := true), blocks);
      ghost var m' := mem;
      AddNode(n, prev, j);
      OnlyTrans(m, m', mem, blocks);
      Relabelled(old(data), data, blocks, base, brk, k, true, old(free));
      FreeInsert(old(free), blocks, old(data), data, j, n);
      TotalInsert(data, old(free), j, n);
      HeadersKept(m, mem, blocks, old(data), base, brk);
    }

    /** Where the block at `n` belongs on the list. */
    method FindPlace(n: Ptr) returns (prev: Ptr, ghost j: nat)
      requires Valid() && n !in free
      ensures j <= |free| && prev == At(free, j - 1)
      ensures (forall i :: 0 <= i < j ==> free[i] < n) && (j < |free| ==> n < free[j])
    {
      hide Total, LaidOut, Counts;
      var populate := freeList;
      prev, j := NULL, 0;
      while populate != NULL
        invariant j <= |free| && populate == At(free, j) && prev == At(free, j - 1)
        invariant forall i :: 0 <= i < j ==> free[i] < n
        decreases |free| - j
      {
        assert populate in free;
        if populate > n {
          break;
        }
        prev := populate;
        assert LinkedAt(link, free, j);
        populate := link[populate].next;
        j := j + 1;
      }
    }

    lemma FreeFacts(p: Ptr)
      requires Valid() && p in blocks
      ensures Within(free, blocks) && p in data && (p in free <==> data[p].isFree)
    {
    }

    lemma BaseBelow()
      requires Valid()
      ensures 0 < brk
    {
    }

    // ----- scalloc and srealloc

    /** memset to zero; it must not write over the header of a block. */
    method MemZero(dst: int, n: nat)
      requires forall p :: p in blocks ==> p + META <= dst || dst + n <= p
      modifies `mem
      ensures SameBeyond(old(mem), mem, dst, n) && forall x :: dst <= x < dst + n ==> mem(x) == 0
    {
      hide Zeroed;
      ZeroedIs(mem, dst, n);
      mem := Zeroed(mem, dst, n);
    }

    /** memmove; nor must this. */
    method MemMove(dst: int, src: int, n: nat)
      requires forall p :: p in blocks ==> p + META <= dst || dst + n <= p
      modifies `mem
      ensures Carried(old(mem), mem, dst, src, n) && SameBeyond(old(mem), mem, dst, n)
    {
      hide Carried, SameBeyond, Copied;
      CopiedIs(mem, dst, src, n);
      mem := Copied(mem, dst, src, n);
    }

    /** A range inside the payload of a block meets no header. */
    lemma ClearRange(k: nat, lo: int, hi: int)
      requires Valid() && k < |View()| && View()[k].Payload() <= lo <= hi <= View()[k].End()
      ensures forall p :: p in blocks ==> p + META <= lo || hi <= p
    {
      hide Total, Chain, FreeListed;
      forall p | p in blocks
        ensures p + META <= lo || hi <= p
      {
        var i := Idx(blocks, p);
        assert i < k ==> EndOf(data, blocks[i]) <= blocks[k];
      }
    }

    /** The product may wrap around. */
    method Scalloc(num: Size, size: Size) returns (r: Ptr)
      requires Valid()
      modifies this
      ensures Valid()
      ensures (Sys(), r) == Malloc(old(Sys()), Wrapped(num, size), limit)
      ensures r != NULL <==> Servable(old(Sys()), Wrapped(num, size), limit)
      ensures r != NULL ==> forall x :: r <= x < r + Wrapped(num, size) ==> mem(x) == 0
      // There is room for num * size bytes exactly when the product does not wrap around.
      ensures r != NULL ==> (Cleared(r, Product(num, size)) <==> Product(num, size) < WORD)
      ensures Kept(old(mem), mem, old(View()), NULL)
    {
      hide Malloc, LaidOut, Chain, FreeListed, Total, ViewOf, Kept, Product, Wrapped, Serves, Servable;
      WrappedIs(num, size);
      Layout();
      var n: Size := Wrapped(num, size);
      r := Smalloc(n);
      if r == NULL {
        return;
      }
      ghost var m := mem;
      ghost var k := ServedAt(old(Sys()), Sys(), n, limit, r);
      ClearRange(k, r, r + n);
      MemZero(r, n);
      Layout();
      NewApart(old(Sys()), Sys(), n, limit, r);
      KeptTrans(old(mem), m, mem, old(View()), r, n);
      RoomBelow(old(Sys()), Sys(), n, limit, r, Product(num, size));
    }

    /** A block in use at `r` has room for `n` bytes, and they are zero. */
    ghost predicate Cleared(r: Ptr, n: nat)
      reads this
    {
      Serves(View(), r, n) && forall x :: r <= x < r + n ==> mem(x) == 0
    }

    lemma Layout()
      requires Valid()
      ensures Separate(View(), brk)
    {
    }

    /** The block at `oldp`, if not NULL, must be one in use. */
    method Srealloc(oldp: Ptr, size: Size) returns (r: Ptr)
      requires Valid() && (oldp != NULL ==> oldp - META in blocks && !data[oldp - META].isFree)
      modifies this
      ensures Valid()
      ensures (Sys(), r) == if oldp == NULL then Malloc(old(Sys()), size, limit)
                            else Realloc(old(Sys()), Idx(old(blocks), oldp - META), size, limit)
      // A block that is too small is moved exactly when smalloc succeeds, and then it is free where it was.
      ensures oldp != NULL && old(data)[oldp - META].size < size ==>
                && (r != NULL <==> Servable(old(Sys()), size, limit))
                && (r != NULL ==> Moved(old(View()), View(), Idx(old(blocks), oldp - META), size, r))
      // The payload comes along.
      ensures r != NULL && oldp != NULL ==> Carried(old(mem), mem, r, oldp, Min(old(data)[oldp - META].size, size))
      // Every other payload is as it was; on failure this includes the old one.
      ensures Kept(old(mem), mem, old(View()), if r == NULL || oldp == NULL then NULL else oldp - META)
    {
      hide Total, Kept, Carried, Chain, FirstFit, Servable, Moved;
      KeptNow(mem, View());
      Layout();
      if oldp != NULL {
        ghost var i := Idx(blocks, oldp - META);
        BlockAt(i);
        ghost var (s', r') := Realloc(Sys(), i, size, limit);
        if data[oldp - META].size < size {
          ReallocPromises(Sys(), s', i, size, limit, r');
        }
      }
      if size == 0 || size > MAX_REQUEST {
        return NULL;
      }
      if oldp == NULL {
        r := Smalloc(size);
        return;
      }
      var p := oldp - META;
      BlockAt(Idx(blocks, p));
      if data[p].size >= size {
        CarriedNow(mem, oldp, Min(data[p].size, size));
        return oldp;
      }
      r := Move(p, size, Idx(blocks, p));
    }

    /** Allocate, copy and free. */
    method Move(p: Ptr, size: Size, ghost i: nat) returns (r: Ptr)
      requires Valid() && i < |blocks| && blocks[i] == p && !data[p].isFree && data[p].size < size <= MAX_REQUEST
      modifies this
      ensures Valid()
      ensures (Sys(), r) == Realloc(old(Sys()), i, size, limit)
      ensures r != NULL ==> Carried(old(mem), mem, r, p + META, old(data)[p].size)
      ensures Kept(old(mem), mem, old(View()), if r == NULL then NULL else p)
    {
      hide Malloc, Total, Kept, Carried, Chain, FreeListed, LaidOut, Separate, Held, ViewOf, Servable;
      Layout();
      BlockAt(i);
      r := Smalloc(size);
      if r == NULL {
        MallocFails(old(Sys()), Sys(), size, limit, i);
        return;
      }
      ghost var m1, v1 := mem, View();
      MallocServes(old(Sys()), Sys(), size, limit, r);
      Layout();
      BlockAt(i);
      ghost var k := ServedAt(old(Sys()), Sys(), size, limit, r);
      ClearRange(k, r, r + Min(size, data[p].size));
      MemMove(r, p + META, Min(size, data[p].size));
      ghost var m2 := mem;
      Sfree(p + META);
      MoveKept(old(mem), m1, m2, mem, old(Sys()), v1, i, size, limit, r);
    }

    lemma BlockAt(i: nat)
      requires Valid() && i < |blocks|
      ensures blocks[i] in data && View()[i] == Block(blocks[i], data[blocks[i]].size, data[blocks[i]].isFree)
      ensures blocks[i] in blocks && Idx(blocks, blocks[i]) == i && 0 < blocks[i]
    {
    }
  }

  lemma OnlyNow(m: Mem, ps: seq<Ptr>)
    ensures HeadersOnly(m, m, ps)
  {
  }

  lemma OnlyTrans(m: Mem, m': Mem, m'': Mem, ps: seq<Ptr>)
    requires HeadersOnly(m, m', ps) && HeadersOnly(m', m'', ps)
    ensures HeadersOnly(m, m'', ps)
  {
  }

  /** A free block of the size that the search asks for is not on the part of the list already searched. */
  lemma ListedFrom(free: seq<Ptr>, data: map<Ptr, Header>, n: int, j: nat, p: Ptr)
    requires Ascending(free) && p in free && p in data && data[p].size >= n
    requires forall i :: 0 <= i < |free| ==> free[i] in data
    requires j <= |free| && forall i :: 0 <= i < j ==> data[free[i]].size < n
    ensures j < |free| && free[j] <= p
  {
    var m := Idx(free, p);
    assert j <= m;
  }

  /** Searching the free list is searching the heap. */
  lemma FirstOnList(free: seq<Ptr>, ps: seq<Ptr>, data: map<Ptr, Header>, base: int, brk: int, n: int, j: nat)
    requires LaidOut(ps, data, base, brk) && FreeListed(free, ps, data) && j <= |free|
    requires forall i :: 0 <= i < |free| ==> free[i] in data
    requires forall i :: 0 <= i < j ==> data[free[i]].size < n
    requires j < |free| ==> data[free[j]].size >= n
    ensures FirstFit(ViewOf(ps, data), n) == if j < |free| then Idx(ps, free[j]) else |ps|
  {
    var h := ViewOf(ps, data);
    var k := if j < |free| then Idx(ps, free[j]) else |ps|;
    assert j < |free| ==> free[j] in free;
    forall i | 0 <= i < |ps| && Fits(h[i], n)
      ensures j < |free| && free[j] <= ps[i]
    {
      ListedFrom(free, data, n, j, ps[i]);
    }
    assert forall i :: 0 <= i < k && k < |ps| ==> EndOf(data, ps[i]) <= ps[k];
    FirstFitIs(h, n, k);
  }

  // ----- what the steps do to the layout, the lists and the counters

  /** Marking block `k` changes neither places nor sizes. */
  lemma Relabelled(data: map<Ptr, Header>, data': map<Ptr, Header>, ps: seq<Ptr>, base: int, brk: int, k: nat,
                   free: bool, list: seq<Ptr>)
    requires LaidOut(ps, data, base, brk) && k < |ps| && data' == data[ps[k] := Header(data[ps[k]].size, free)]
    ensures LaidOut(ps, data', base, brk)
    ensures ViewOf(ps, data') == ViewOf(ps, data)[k := Block(ps[k], data[ps[k]].size, free)]
    ensures Total(data', ps) == Total(data, ps) && Total(data', list) == Total(data, list)
  {
    hide LaidOut, ViewOf, Total;
    InData(ps, data, base, brk, k);
    RelabelledPlaces(data, data', ps, base, brk, k, free);
    RelabelledView(data, data', ps, base, brk, k, free);
    TotalSame(data, data', ps);
    TotalSame(data, data', list);
  }

  lemma InData(ps: seq<Ptr>, data: map<Ptr, Header>, base: int, brk: int, k: nat)
    requires LaidOut(ps, data, base, brk) && k < |ps|
    ensures ps[k] in data
  {
  }

  lemma RelabelledPlaces(data: map<Ptr, Header>, data': map<Ptr, Header>, ps: seq<Ptr>, base: int, brk: int, k: nat,
                         free: bool)
    requires LaidOut(ps, data, base, brk) && k < |ps| && data' == data[ps[k] := Header(data[ps[k]].size, free)]
    ensures LaidOut(ps, data', base, brk)
  {
    assert forall i :: 0 <= i < |ps| ==> ps[i] in data' && data'[ps[i]].size == data[ps[i]].size;
  }

  lemma RelabelledView(data: map<Ptr, Header>, data': map<Ptr, Header>, ps: seq<Ptr>, base: int, brk: int, k: nat,
                       free: bool)
    requires LaidOut(ps, data, base, brk) && k < |ps| && data' == data[ps[k] := Header(data[ps[k]].size, free)]
    ensures ViewOf(ps, data') == ViewOf(ps, data)[k := Block(ps[k], data[ps[k]].size, free)]
  {
    forall i | 0 <= i < |ps| && i != k
      ensures ps[i] != ps[k]
    {
      assert i < k ==> EndOf(data, ps[i]) <= ps[k];
      assert k < i ==> EndOf(data, ps[k]) <= ps[i];
    }
  }

  lemma {:induction false} TotalSame(data: map<Ptr, Header>, data': map<Ptr, Header>, s: seq<Ptr>)
    requires forall i :: 0 <= i < |s| ==> if s[i] in data then s[i] in data' && data'[s[i]].size == data[s[i]].size
             else s[i] !in data'
    ensures Total(data', s) == Total(data, s)
  {
    if s != [] {
      TotalSame(data, data', s[1..]);
    }
  }

  lemma {:induction false} TotalRemove(data: map<Ptr, Header>, s: seq<Ptr>, j: nat)
    requires j < |s| && s[j] in data
    ensures Total(data, s) == Total(data, RemoveAt(s, j)) + data[s[j]].size
  {
    if j == 0 {
      assert RemoveAt(s, 0) == s[1..];
    } else {
      assert RemoveAt(s, j)[1..] == RemoveAt(s[1..], j - 1);
      TotalRemove(data, s[1..], j - 1);
    }
  }

  lemma TotalInsert(data: map<Ptr, Header>, s: seq<Ptr>, j: nat, n: Ptr)
    requires j <= |s| && n in data
    ensures Total(data, InsertAt(s, j, n)) == Total(data, s) + data[n].size
  {
    TotalRemove(data, InsertAt(s, j, n), j);
    assert RemoveAt(InsertAt(s, j, n), j) == s;
  }

  lemma FreeRemove(free: seq<Ptr>, ps: seq<Ptr>, data: map<Ptr, Header>, data': map<Ptr, Header>, j: nat)
    requires FreeListed(free, ps, data) && j < |free| && free[j] in data
             && data' == data[free[j] := data[free[j]].(isFree := false)]
    ensures FreeListed(RemoveAt(free, j), ps, data')
  {
    RemoveElements(free, j);
  }

  lemma FreeInsert(free: seq<Ptr>, ps: seq<Ptr>, data: map<Ptr, Header>, data': map<Ptr, Header>, j: nat, n: Ptr)
    requires FreeListed(free, ps, data) && j <= |free| && n in ps && n in data
             && data' == data[n := data[n].(isFree := true)]
    requires (forall i :: 0 <= i < j ==> free[i] < n) && (j < |free| ==> n < free[j])
    ensures FreeListed(InsertAt(free, j, n), ps, data')
  {
    InsertElements(free, j, n);
  }

  /** A new header at the break, and perhaps its payload behind it. */
  lemma AppendLaidOut(data: map<Ptr, Header>, data': map<Ptr, Header>, ps: seq<Ptr>, base: int, p: Ptr, size: int)
    requires LaidOut(ps, data, base, p) && 0 < size <= MAX_REQUEST && data' == data[p := Header(size, false)]
    ensures LaidOut(ps, data', base, p + META) && LaidOut(ps + [p], data', base, p + META + size)
  {
  }

  lemma AppendFree(data: map<Ptr, Header>, data': map<Ptr, Header>, link: map<Ptr, Link>, link': map<Ptr, Link>,
                   ps: seq<Ptr>, free: seq<Ptr>, base: int, p: Ptr, size: int)
    requires LaidOut(ps, data, base, p) && FreeListed(free, ps, data) && Chain(link, free)
    requires data' == data[p := Header(size, false)] && link' == link[p := Link(NULL, NULL)]
    ensures FreeListed(free, ps, data') && FreeListed(free, ps + [p], data') && Chain(link', free)
    ensures Total(data', free) == Total(data, free)
  {
    hide Chain;
    assert p !in ps;
    ChainWrite(link, free, p, Link(NULL, NULL));
    TotalSame(data, data', free);
  }

  lemma AppendView(data: map<Ptr, Header>, data': map<Ptr, Header>, ps: seq<Ptr>, base: int, p: Ptr, size: int)
    requires LaidOut(ps, data, base, p) && data' == data[p := Header(size, false)]
    ensures Total(data', ps) == Total(data, ps) && Total(data', ps + [p]) == Total(data, ps) + size
    ensures ViewOf(ps, data') == ViewOf(ps, data) && ViewOf(ps + [p], data')
            == ViewOf(ps, data) + [Block(p, size, false)]
  {
    assert p !in ps;
    TotalSame(data, data', ps);
    TotalInsert(data', ps, |ps|, p);
    assert InsertAt(ps, |ps|, p) == ps + [p];
  }

  // ----- counting

  function FreeCount(h: seq<Block>): int {
    if h == [] then 0 else (if h[0].free then 1 else 0) + FreeCount(h[1..])
  }

  function FreeSize(h: seq<Block>): int {
    if h == [] then 0 else (if h[0].free then h[0].size else 0) + FreeSize(h[1..])
  }

  function AllSize(h: seq<Block>): int {
    if h == [] then 0 else h[0].size + AllSize(h[1..])
  }

  lemma {:induction false} Recount(free: seq<Ptr>, ps: seq<Ptr>, data: map<Ptr, Header>, base: int, brk: int)
    requires LaidOut(ps, data, base, brk) && FreeListed(free, ps, data)
    ensures |free| == FreeCount(ViewOf(ps, data)) && Total(data, free) == FreeSize(ViewOf(ps, data))
    ensures Total(data, ps) == AllSize(ViewOf(ps, data))
    decreases |ps|
  {
    hide LaidOut, FreeListed;
    if ps == [] {
      NoneListed(free, data);
    } else {
      FirstListed(free, ps, data, base, brk);
      RestLaidOut(ps, data, base, brk);
      var rest := if data[ps[0]].isFree then free[1..] else free;
      Recount(rest, ps[1..], data, base, brk);
      assert ViewOf(ps, data)[1..] == ViewOf(ps[1..], data);
    }
  }

  lemma SomeElement(s: seq<Ptr>)
    ensures s == [] || exists p :: p in s
  {
    if s != [] {
      var p := s[0];
      assert p in s;
    }
  }

  lemma NoneListed(free: seq<Ptr>, data: map<Ptr, Header>)
    requires FreeListed(free, [], data)
    ensures free == []
  {
    SomeElement(free);
  }

  lemma RestLaidOut(ps: seq<Ptr>, data: map<Ptr, Header>, base: int, brk: int)
    requires LaidOut(ps, data, base, brk) && ps != []
    ensures LaidOut(ps[1..], data, base, brk)
  {
  }

  /** If the first block is free, it is the first on the list. */
  lemma FirstListed(free: seq<Ptr>, ps: seq<Ptr>, data: map<Ptr, Header>, base: int, brk: int)
    requires LaidOut(ps, data, base, brk) && FreeListed(free, ps, data) && ps != []
    ensures ps[0] in data
    ensures data[ps[0]].isFree ==> free != [] && free[0] == ps[0]
    ensures FreeListed(if data[ps[0]].isFree then free[1..] else free, ps[1..], data)
  {
    hide LaidOut, FreeListed;
    InData(ps, data, base, brk, 0);
    FirstLowest(ps, data, base, brk);
    if data[ps[0]].isFree {
      FirstIsListed(free, ps, data);
    } else {
      FirstNotListed(free, ps, data);
    }
  }

  lemma FirstLowest(ps: seq<Ptr>, data: map<Ptr, Header>, base: int, brk: int)
    requires LaidOut(ps, data, base, brk) && ps != []
    ensures forall p :: p in ps[1..] ==> ps[0] < p
  {
    forall i | 0 < i < |ps|
      ensures ps[0] < ps[i]
    {
      assert EndOf(data, ps[0]) <= ps[i];
    }
  }

  lemma FirstIsListed(free: seq<Ptr>, ps: seq<Ptr>, data: map<Ptr, Header>)
    requires FreeListed(free, ps, data) && ps != [] && ps[0] in data && data[ps[0]].isFree
    requires forall p :: p in ps[1..] ==> ps[0] < p
    ensures free != [] && free[0] == ps[0] && FreeListed(free[1..], ps[1..], data)
  {
    assert ps == [ps[0]] + ps[1..] && ps[0] in ps;
    var k := Idx(free, ps[0]);
    assert free[0] in free && free[0] <= ps[0];
    assert free == [free[0]] + free[1..];
    forall p | p in free[1..]
      ensures free[0] < p
    {
      var i :| 0 <= i < |free[1..]| && free[1..][i] == p;
      assert free[i + 1] == p;
    }
    assert Ascending(free[1..]) by {
      assert forall i :: 0 <= i < |free| - 1 ==> free[1..][i] == free[i + 1];
    }
    forall p
      ensures p in free[1..] <==> p in ps[1..] && p in data && data[p].isFree
    {
      assert p in free <==> p == free[0] || p in free[1..];
      assert p in ps <==> p == ps[0] || p in ps[1..];
    }
  }

  lemma FirstNotListed(free: seq<Ptr>, ps: seq<Ptr>, data: map<Ptr, Header>)
    requires FreeListed(free, ps, data) && ps != [] && ps[0] in data && !data[ps[0]].isFree
    ensures FreeListed(free, ps[1..], data)
  {
    assert ps == [ps[0]] + ps[1..];
  }

  // ----- payloads

  /** The blocks follow each other up to the break. */
  ghost predicate Separate(h: seq<Block>, brk: int) {
    && 0 < brk
    && (forall i :: 0 <= i < |h| ==> 0 < h[i].addr && 0 < h[i].size <= MAX_REQUEST && h[i].End() <= brk)
    && (forall i, j :: 0 <= i < j < |h| ==> h[i].End() <= h[j].addr)
  }

  lemma KeptNow(m: Mem, h: seq<Block>)
    ensures forall but :: Kept(m, m, h, but)
  {
  }

  lemma HeadersKept(m: Mem, m': Mem, ps: seq<Ptr>, data: map<Ptr, Header>, base: int, brk: int)
    requires LaidOut(ps, data, base, brk) && HeadersOnly(m, m', ps)
    ensures Kept(m, m', ViewOf(ps, data), NULL)
  {
  }

  lemma AppendKept(m: Mem, m': Mem, ps: seq<Ptr>, data: map<Ptr, Header>, base: int, p: Ptr)
    requires LaidOut(ps, data, base, p) && HeadersOnly(m, m', [p])
    ensures Kept(m, m', ViewOf(ps, data), NULL)
  {
  }

  /** Writing a range that no held byte lies in, after a step that keeps everything. */
  lemma KeptTrans(m: Mem, m': Mem, m'': Mem, h: seq<Block>, lo: int, n: int)
    requires Kept(m, m', h, NULL) && SameBeyond(m', m'', lo, n)
    requires forall x :: lo <= x < lo + n ==> !Held(h, x, NULL)
    ensures Kept(m, m'', h, NULL)
  {
  }

  /** The bytes handed out were nobody's. */
  lemma NewApart(s: State, s': State, n: int, limit: int, r: int)
    requires (s', r) == Malloc(s, n, limit) && r != 0 && n >= 0
    requires Separate(s.blocks, s.brk)
    ensures forall x :: r <= x < r + n ==> !Held(s.blocks, x, NULL)
  {
    FirstFitIs(s.blocks, n, FirstFit(s.blocks, n));
  }

  /** An allocation serves the request and leaves every block in use where it was. */
  lemma MallocServes(s: State, s': State, n: int, limit: int, r: int)
    requires (s', r) == Malloc(s, n, limit) && r != 0 && Separate(s.blocks, s.brk)
    ensures exists k :: 0 <= k < |s'.blocks| && ServedBy(s, s'.blocks[k], k, n, r)
    ensures |s.blocks| <= |s'.blocks|
    ensures forall i :: 0 <= i < |s.blocks| && !s.blocks[i].free ==> s'.blocks[i] == s.blocks[i]
  {
    var k := FirstFit(s.blocks, n);
    FirstFitIs(s.blocks, n, k);
    assert ServedBy(s, s'.blocks[k], k, n, r);
  }

  /** Block `b` at position `k` has been handed out: its payload is at `r`,
    * with room for `n` bytes, and it was free or is new. */
  ghost predicate ServedBy(s: State, b: Block, k: int, n: int, r: int) {
    0 < b.addr && !b.free && b.Payload() == r && n <= b.size
      && (0 <= k < |s.blocks| ==> s.blocks[k].free && s.blocks[k].addr == b.addr)
  }

  /** The position of the block handed out. */
  lemma ServedAt(s: State, s': State, n: int, limit: int, r: int) returns (k: nat)
    requires (s', r) == Malloc(s, n, limit) && r != 0 && Separate(s.blocks, s.brk)
    ensures k < |s'.blocks| && ServedBy(s, s'.blocks[k], k, n, r)
  {
    hide Malloc;
    MallocServes(s, s', n, limit, r);
    k :| 0 <= k < |s'.blocks| && ServedBy(s, s'.blocks[k], k, n, r);
  }

  /** A block in use has its payload at `r` and room for `n` bytes. */
  ghost predicate Serves(h: seq<Block>, r: int, n: int) {
    exists b :: b in h && !b.free && b.Payload() == r && n <= b.size
  }

  /** After an allocation at `r` there is the room asked for, but never for as much as size_t cannot count. */
  lemma RoomBelow(s: State, s': State, n: int, limit: int, r: int, k: nat)
    requires (s', r) == Malloc(s, n, limit) && r != 0 && Separate(s.blocks, s.brk) && Separate(s'.blocks, s'.brk)
    ensures k <= n ==> Serves(s'.blocks, r, k)
    ensures WORD <= k ==> !Serves(s'.blocks, r, k)
  {
    hide Malloc;
    var i := ServedAt(s, s', n, limit, r);
    assert s'.blocks[i] in s'.blocks;
  }

  lemma MallocFails(s: State, s': State, n: int, limit: int, i: nat)
    requires (s', 0) == Malloc(s, n, limit) && i < |s.blocks| && s.blocks[i].size < n && 0 < n <= MAX_REQUEST
    ensures (s', 0) == Realloc(s, i, n, limit)
  {
  }

  lemma MoveKept(m: Mem, m1: Mem, m2: Mem, m3: Mem, s: State, v1: seq<Block>, i: nat, n: int, limit: int, r: int)
    requires i < |s.blocks| && !s.blocks[i].free && 0 <= s.blocks[i].size < n && Separate(s.blocks, s.brk)
    requires Malloc(s, n, limit).1 == r != 0 && Malloc(s, n, limit).0.blocks == v1
    requires Kept(m, m1, s.blocks, NULL) && Kept(m2, m3, v1, NULL)
    requires Carried(m1, m2, r, s.blocks[i].Payload(), s.blocks[i].size)
    requires SameBeyond(m1, m2, r, s.blocks[i].size)
    ensures Carried(m, m3, r, s.blocks[i].Payload(), s.blocks[i].size)
    ensures Kept(m, m3, s.blocks, s.blocks[i].addr)
  {
    hide Malloc, Kept, Carried, SameBeyond, Held, Separate;
    var s', b := Malloc(s, n, limit).0, s.blocks[i];
    NewApart(s, s', n, limit, r);
    var k := ServedAt(s, s', n, limit, r);
    MallocServes(s, s', n, limit, r);
    Addressed(s, i);
    forall x | r <= x < r + b.size
      ensures m3(x) == m(b.Payload() + (x - r))
    {
      HeldBy(v1, k, x);
      HeldBy(s.blocks, i, b.Payload() + (x - r));
      KeptByte(m2, m3, v1, NULL, x);
      KeptByte(m, m1, s.blocks, NULL, b.Payload() + (x - r));
      CarriedByte(m1, m2, r, b.Payload(), b.size, x);
    }
    assert Carried(m, m3, r, b.Payload(), b.size) by {
      CarriedIs(m, m3, r, b.Payload(), b.size);
    }
    forall x | Held(s.blocks, x, b.addr)
      ensures m3(x) == m(x)
    {
      var j := Holder(s.blocks, x, b.addr);
      Addressed(s, j);
      HeldBy(s.blocks, j, x);
      HeldBy(v1, j, x);
      KeptByte(m, m1, s.blocks, NULL, x);
      KeptByte(m2, m3, v1, NULL, x);
      BeyondByte(m1, m2, r, b.size, x);
    }
    KeptIs(m, m3, s.blocks, b.addr);
  }

  lemma Addressed(s: State, i: nat)
    requires Separate(s.blocks, s.brk) && i < |s.blocks|
    ensures s.blocks[i].addr != NULL
  {
  }

  lemma HeldBy(h: seq<Block>, i: nat, x: int)
    requires i < |h| && h[i].addr != NULL && !h[i].free && h[i].Payload() <= x < h[i].End()
    ensures Held(h, x, NULL)
  {
  }

  lemma Holder(h: seq<Block>, x: int, but: Ptr) returns (j: nat)
    requires Held(h, x, but)
    ensures j < |h| && h[j].addr != but && !h[j].free && h[j].Payload() <= x < h[j].End()
  {
    j :| 0 <= j < |h| && h[j].addr != but && !h[j].free && h[j].Payload() <= x < h[j].End();
  }

  lemma KeptByte(m: Mem, m': Mem, h: seq<Block>, but: Ptr, x: int)
    requires Kept(m, m', h, but) && Held(h, x, but)
    ensures m'(x) == m(x)
  {
  }

  lemma KeptIs(m: Mem, m': Mem, h: seq<Block>, but: Ptr)
    requires forall x :: Held(h, x, but) ==> m'(x) == m(x)
    ensures Kept(m, m', h, but)
  {
  }

  lemma CarriedByte(m: Mem, m': Mem, dst: int, src: int, n: int, x: int)
    requires Carried(m, m', dst, src, n) && dst <= x < dst + n
    ensures m'(x) == m(src + (x - dst))
  {
  }

  lemma CarriedIs(m: Mem, m': Mem, dst: int, src: int, n: int)
    requires forall x :: dst <= x < dst + n ==> m'(x) == m(src + (x - dst))
    ensures Carried(m, m', dst, src, n)
  {
  }

  lemma BeyondByte(m: Mem, m': Mem, p: int, n: int, x: int)
    requires SameBeyond(m, m', p, n) && !(p <= x < p + n)
    ensures m'(x) == m(x)
  {
  }
}
